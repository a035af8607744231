/**
 * Per-exam progress in local storage (services/progressService.ts): a map
 * from exam id to the last result, read leniently and updated one key at a time.
 */
module ProgressService {
  import opened Types
  import opened Storage

  /** The storage key the progress map lives under. */
  const ProgressKey: string := "nec2023_progress"

  /** `getProgress`: the stored map, or an empty one when nothing is stored or it does not parse. */
  function GetProgress(slot: Slot<Progress>): (p: Progress)
    ensures slot.Stored? ==> p == slot.value
    ensures !slot.Stored? ==> p == map[]
  {
    if slot.Stored? then slot.value else map[]
  }

  /**
   * `saveProgress(examId, result)`: the entry for `examId` becomes `result`,
   * replacing any earlier one; every other entry is kept. A failing write
   * (`writeFails`) is swallowed and leaves the stored text as it was.
   */
  function SaveProgress(slot: Slot<Progress>, examId: string, result: ProgressData, writeFails: bool): (r: Slot<Progress>)
    ensures writeFails ==> r == slot
    ensures !writeFails ==> r.Stored? && examId in r.value && r.value[examId] == result
    ensures !writeFails ==> forall id :: id != examId ==>
      (id in r.value <==> id in GetProgress(slot)) && (id in r.value ==> r.value[id] == GetProgress(slot)[id])
  {
    if writeFails then slot else Stored(GetProgress(slot)[examId := result])
  }

  /** Reading back after a successful save yields exactly the saved result. */
  lemma SaveThenGet(slot: Slot<Progress>, examId: string, result: ProgressData)
    ensures examId in GetProgress(SaveProgress(slot, examId, result, false))
    ensures GetProgress(SaveProgress(slot, examId, result, false))[examId] == result
  {
  }

  /** Saving twice under one id keeps only the second result: results overwrite, they never accumulate. */
  lemma SaveOverwrites(slot: Slot<Progress>, examId: string, first: ProgressData, second: ProgressData)
    ensures SaveProgress(SaveProgress(slot, examId, first, false), examId, second, false)
         == SaveProgress(slot, examId, second, false)
  {
    var p := GetProgress(slot);
    assert p[examId := first][examId := second] == p[examId := second];
  }

  /** Saves under different ids commute. */
  lemma SavesCommute(slot: Slot<Progress>, a: string, b: string, ra: ProgressData, rb: ProgressData)
    requires a != b
    ensures SaveProgress(SaveProgress(slot, a, ra, false), b, rb, false)
         == SaveProgress(SaveProgress(slot, b, rb, false), a, ra, false)
  {
    var p := GetProgress(slot);
    assert p[a := ra][b := rb] == p[b := rb][a := ra];
  }
}

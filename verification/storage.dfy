/**
 * Browser local storage, one key at a time. The JSON text under a key is
 * abstracted to what parsing it yields: nothing stored, text that does not
 * parse, or a value.
 */
module Storage {
  datatype Slot<T> = Absent | Corrupt | Stored(value: T)
}

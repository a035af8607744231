/**
 * The glossary screen (components/GlossaryScreen.tsx): a searchable
 * dictionary of the merged glossary, flash cards that wrap around at both
 * ends, and the form that adds a term.
 */
module GlossaryScreen {
  import opened Wrappers
  import opened Types
  import Text
  import Seqs
  import Sheets
  import GlossaryService

  datatype Tab = Dictionary | Flashcards | QuizTab | Media

  datatype Screen = Screen(
    tab: Tab,
    search: string,
    data: seq<GlossaryItem>,
    loading: bool,
    modalOpen: bool,
    newTerm: string,
    newDefEn: string,
    newDefRu: string,
    cardIndex: nat,
    flipped: bool,
    adding: bool,
    language: Language)

  /** The screen as first rendered: dictionary tab, nothing loaded yet. */
  function Initial(language: Language): (sc: Screen)
    ensures sc.loading && sc.data == [] && sc.cardIndex == 0 && !sc.flipped && !sc.modalOpen && !sc.adding
    ensures sc.tab == Dictionary && sc.search == "" && sc.language == language
  {
    Screen(Dictionary, "", [], true, false, "", "", "", 0, false, false, language)
  }

  /** The mount effect: the merged glossary is loaded and the spinner goes away. */
  function Load(sc: Screen, st: GlossaryService.State, resp: Sheets.HttpResponse<seq<GlossaryItem>>): (r: (Screen, GlossaryService.State))
    ensures r.0.data == GlossaryService.GetGlossaryTerms(st, resp).terms && !r.0.loading
    ensures r.1 == GlossaryService.GetGlossaryTerms(st, resp).state
    ensures r.0.cardIndex == sc.cardIndex && r.0.search == sc.search
  {
    var f := GlossaryService.GetGlossaryTerms(st, resp);
    (sc.(data := f.terms, loading := false), f.state)
  }

  /** The definition shown for an item in the current language. */
  function Definition(item: GlossaryItem, language: Language): (d: string)
    ensures language == En ==> d == item.definitionEn
    ensures language == Ru ==> d == item.definitionRu
  {
    if language == En then item.definitionEn else item.definitionRu
  }

  /** An item matches a search when its term or its displayed definition contains it, ignoring case. */
  predicate Matches(item: GlossaryItem, search: string, language: Language) {
    Text.Includes(Text.Lower(item.term), Text.Lower(search))
    || Text.Includes(Text.Lower(Definition(item, language)), Text.Lower(search))
  }

  /** `filteredData`: the items that match the search, in glossary order. */
  function FilteredData(sc: Screen): (r: seq<GlossaryItem>)
    ensures Seqs.SubsequenceOf(r, sc.data)
    ensures forall item :: item in r <==> item in sc.data && Matches(item, sc.search, sc.language)
    ensures forall item :: multiset(r)[item] == if Matches(item, sc.search, sc.language) then multiset(sc.data)[item] else 0
  {
    var r := Seqs.Filter(sc.data, item => Matches(item, sc.search, sc.language));
    forall item ensures item in r <==> item in sc.data && Matches(item, sc.search, sc.language) {
      Seqs.FilterMembership(sc.data, item => Matches(item, sc.search, sc.language), item);
    }
    r
  }

  /** An empty search shows the whole glossary. */
  lemma EmptySearchShowsAll(sc: Screen)
    requires sc.search == ""
    ensures FilteredData(sc) == sc.data
  {
    forall item | item in sc.data
      ensures Matches(item, sc.search, sc.language)
    {
      Text.IncludesEmpty(Text.Lower(item.term));
    }
    Seqs.FilterKeepsAll(sc.data, item => Matches(item, sc.search, sc.language));
  }

  /** Searching for a text and for its lower-case form select the same items. */
  lemma SearchIgnoresCase(item: GlossaryItem, search: string, language: Language)
    ensures Matches(item, search, language) <==> Matches(item, Text.Lower(search), language)
  {
    Text.LowerIdempotent(search);
  }

  /** The card counter is within the glossary (or the glossary is empty). */
  predicate CardInRange(sc: Screen) {
    |sc.data| == 0 || sc.cardIndex < |sc.data|
  }

  /**
   * The card shown on the flash-card tab; nothing is rendered for an empty
   * glossary. An index past the end of a non-empty glossary would make the
   * app read `undefined` and fail while rendering; here it gives `None`. That
   * case is not reachable: the index starts at 0 and `NextCard` and
   * `PrevCard` keep it in range (`CardInRange`).
   */
  function CurrentCard(sc: Screen): (c: Option<GlossaryItem>)
    ensures c.Some? <==> sc.cardIndex < |sc.data|
    ensures c.Some? ==> c.value in sc.data
    ensures |sc.data| == 0 ==> c.None?
  {
    if sc.cardIndex < |sc.data| then Some(sc.data[sc.cardIndex]) else None
  }

  /** Tapping the card turns it over. */
  function Flip(sc: Screen): (r: Screen)
    ensures r.flipped != sc.flipped && r.cardIndex == sc.cardIndex && r.data == sc.data
  {
    sc.(flipped := !sc.flipped)
  }

  /**
   * The "next" button: the card goes face up and the counter moves on,
   * from the last card back to the first. An empty glossary has no button.
   */
  function NextCard(sc: Screen): (r: Screen)
    ensures |sc.data| == 0 ==> r == sc
    ensures |sc.data| > 0 ==> !r.flipped && r.data == sc.data
    ensures |sc.data| > 0 && sc.cardIndex == |sc.data| - 1 ==> r.cardIndex == 0
    ensures |sc.data| > 0 && sc.cardIndex < |sc.data| - 1 ==> r.cardIndex == sc.cardIndex + 1
    ensures CardInRange(sc) ==> CardInRange(r)
  {
    if |sc.data| == 0 then sc
    else sc.(flipped := false, cardIndex := if sc.cardIndex == |sc.data| - 1 then 0 else sc.cardIndex + 1)
  }

  /** The "previous" button: from the first card back to the last. */
  function PrevCard(sc: Screen): (r: Screen)
    ensures |sc.data| == 0 ==> r == sc
    ensures |sc.data| > 0 ==> !r.flipped && r.data == sc.data
    ensures |sc.data| > 0 && sc.cardIndex == 0 ==> r.cardIndex == |sc.data| - 1
    ensures |sc.data| > 0 && sc.cardIndex > 0 ==> r.cardIndex == sc.cardIndex - 1
    ensures CardInRange(sc) ==> CardInRange(r)
  {
    if |sc.data| == 0 then sc
    else sc.(flipped := false, cardIndex := if sc.cardIndex == 0 then |sc.data| - 1 else sc.cardIndex - 1)
  }

  /** "Next" then "previous" comes back to the same card, face up. */
  lemma NextThenPrevCard(sc: Screen)
    requires CardInRange(sc)
    ensures PrevCard(NextCard(sc)).cardIndex == sc.cardIndex
    ensures |sc.data| > 0 ==> !PrevCard(NextCard(sc)).flipped
  {
  }

  /** "Previous" then "next" comes back to the same card, face up. */
  lemma PrevThenNextCard(sc: Screen)
    requires CardInRange(sc)
    ensures NextCard(PrevCard(sc)).cardIndex == sc.cardIndex
    ensures |sc.data| > 0 ==> !NextCard(PrevCard(sc)).flipped
  {
  }

  /** Pressing "next" `k` times. */
  function NextTimes(sc: Screen, k: nat): (r: Screen)
    ensures r.data == sc.data
  {
    if k == 0 then sc else NextCard(NextTimes(sc, k - 1))
  }

  /** After `k` presses of "next" the counter has moved `k` places round the deck. */
  lemma {:induction false} NextTimesIndex(sc: Screen, k: nat)
    requires 0 < |sc.data| && sc.cardIndex < |sc.data|
    ensures NextTimes(sc, k).cardIndex == (sc.cardIndex + k) % |sc.data|
  {
    if k > 0 {
      NextTimesIndex(sc, k - 1);
      ModStep(sc.cardIndex + k - 1, |sc.data|);
    }
  }

  /** Euclidean division is unique: a quotient and remainder in range are the ones `/` and `%` give. */
  lemma ModUnique(x: int, n: int, q: int, r: int)
    requires n > 0 && x == q * n + r && 0 <= r < n
    ensures x % n == r
  {
    var d := q - x / n;
    assert d * n == x % n - r by {
      assert x == (x / n) * n + x % n;
      assert d * n == q * n - (x / n) * n;
    }
  }

  /** Moving a whole turn round a cycle of length `n` returns to the start. */
  lemma ModFullTurn(i: nat, n: nat)
    requires i < n
    ensures (i + n) % n == i
  {
    ModUnique(i + n, n, 1, i);
  }

  /** Adding one to a residue modulo `n`. */
  lemma ModStep(a: nat, n: nat)
    requires n > 0
    ensures (a + 1) % n == if a % n == n - 1 then 0 else a % n + 1
  {
    assert a == (a / n) * n + a % n;
    if a % n == n - 1 {
      ModUnique(a + 1, n, a / n + 1, 0);
    } else {
      ModUnique(a + 1, n, a / n, a % n + 1);
    }
  }

  /** Going "next" as many times as there are cards shows the same card again. */
  lemma {:induction false} FullRoundReturns(sc: Screen)
    requires 0 < |sc.data| && sc.cardIndex < |sc.data|
    ensures NextTimes(sc, |sc.data|).cardIndex == sc.cardIndex
  {
    NextTimesIndex(sc, |sc.data|);
    ModFullTurn(sc.cardIndex, |sc.data|);
  }

  /**
   * The part of `handleAddTerm` after the service call: on success the
   * glossary is re-read and the form closes with its three fields cleared;
   * when the call throws, the form stays as it is. The spinner is off again
   * in both cases.
   */
  function AfterAdd(sc: Screen, a: GlossaryService.Added, apiResp: Sheets.HttpResponse<seq<GlossaryItem>>): (r: (Screen, GlossaryService.State))
    ensures !r.0.adding
    ensures a.result.Ok? ==>
      !r.0.modalOpen && r.0.newTerm == "" && r.0.newDefEn == "" && r.0.newDefRu == ""
      && r.0.search == sc.search && r.0.language == sc.language
      && r.1.user == a.state.user
      && r.0.data == GlossaryService.GetGlossaryTerms(a.state, apiResp).terms
      && r.0.data == GlossaryService.GetGlossaryTerms(r.1, apiResp).terms
    ensures a.result.Err? ==> r.0 == sc.(adding := false) && r.1 == a.state
  {
    if a.result.Err? then (sc.(adding := false), a.state)
    else
      var f := GlossaryService.GetGlossaryTerms(a.state, apiResp);
      (sc.(data := f.terms, modalOpen := false, newTerm := "", newDefEn := "", newDefRu := "", adding := false), f.state)
  }

  /**
   * `handleAddTerm` as written: an empty term does nothing; otherwise the
   * term goes through `addGlossaryTerm` as written and the screen reacts as
   * `AfterAdd` describes. A failed call leaves the user's list as it was.
   */
  function HandleAddTerm(sc: Screen, st: GlossaryService.State, resp: Sheets.HttpResponse<GlossaryService.ApiTerm>,
                         freshId: string, apiResp: Sheets.HttpResponse<seq<GlossaryItem>>): (r: (Screen, GlossaryService.State))
    ensures sc.newTerm == "" ==> r == (sc, st)
    ensures sc.newTerm != "" ==> !r.0.adding
    ensures sc.newTerm != "" && GlossaryService.UserTerms(st.user).Some? ==>
      !r.0.modalOpen && r.0.newTerm == "" && r.0.newDefEn == "" && r.0.newDefRu == ""
      && r.0.data == GlossaryService.GetGlossaryTerms(r.1, apiResp).terms
    ensures sc.newTerm != "" && GlossaryService.UserTerms(st.user).None? ==>
      r.0 == sc.(adding := false) && r.1.user == st.user
  {
    if sc.newTerm == "" then (sc, st)
    else AfterAdd(sc, GlossaryService.AddGlossaryTerm(st, sc.newTerm, resp, freshId), apiResp)
  }

  /**
   * `handleAddTerm` over the corrected service call; it differs from
   * `HandleAddTerm` only in the call, and a failed call changes nothing.
   */
  function HandleAddTermFixed(sc: Screen, st: GlossaryService.State, resp: Sheets.HttpResponse<GlossaryService.ApiTerm>,
                              freshId: string, apiResp: Sheets.HttpResponse<seq<GlossaryItem>>): (r: (Screen, GlossaryService.State))
    ensures sc.newTerm == "" ==> r == (sc, st)
    ensures sc.newTerm != "" ==> !r.0.adding
    ensures sc.newTerm != "" && GlossaryService.UserTerms(st.user).Some? ==>
      !r.0.modalOpen && r.0.newTerm == "" && r.0.newDefEn == "" && r.0.newDefRu == ""
      && r.0.data == GlossaryService.GetGlossaryTerms(r.1, apiResp).terms
    ensures sc.newTerm != "" && GlossaryService.UserTerms(st.user).None? ==> r == (sc.(adding := false), st)
  {
    if sc.newTerm == "" then (sc, st)
    else AfterAdd(sc, GlossaryService.AddGlossaryTermFixed(st, sc.newTerm, resp, freshId), apiResp)
  }

  /**
   * With the API terms loaded and an answer carrying data, the screen as
   * written shows the new term twice: once pushed onto the API terms and
   * once at the end of the user's terms.
   */
  lemma AddTermListedTwice(sc: Screen, st: GlossaryService.State, resp: Sheets.HttpResponse<GlossaryService.ApiTerm>,
                           freshId: string, apiResp: Sheets.HttpResponse<seq<GlossaryItem>>)
    requires sc.newTerm != "" && st.cache.Some? && GlossaryService.UserTerms(st.user).Some?
    requires Sheets.FetchData(resp).Ok? && Sheets.FetchData(resp).value.Some?
    ensures
      var g := GlossaryService.FromApi(Sheets.FetchData(resp).value.value, sc.newTerm, freshId);
      HandleAddTerm(sc, st, resp, freshId, apiResp).0.data
        == st.cache.value + [g] + GlossaryService.UserTerms(st.user).value + [g]
  {
    var a := GlossaryService.AddGlossaryTerm(st, sc.newTerm, resp, freshId);
    var g := a.result.value;
    assert GlossaryService.GetGlossaryTerms(a.state, apiResp).terms
        == (st.cache.value + [g]) + (GlossaryService.UserTerms(st.user).value + [g]);
  }

  /** With the corrected call, adding a term lists it exactly once, after everything already listed. */
  lemma AddTermListsItOnce(sc: Screen, st: GlossaryService.State, resp: Sheets.HttpResponse<GlossaryService.ApiTerm>,
                           freshId: string, apiResp: Sheets.HttpResponse<seq<GlossaryItem>>)
    requires sc.newTerm != "" && st.cache.Some? && GlossaryService.UserTerms(st.user).Some?
    requires sc.data == GlossaryService.GetGlossaryTerms(st, apiResp).terms
    ensures
      var a := GlossaryService.AddGlossaryTermFixed(st, sc.newTerm, resp, freshId);
      a.result.Ok? && HandleAddTermFixed(sc, st, resp, freshId, apiResp).0.data == sc.data + [a.result.value]
  {
    GlossaryService.AddFixedListsOnce(st, sc.newTerm, resp, freshId, apiResp);
  }
}

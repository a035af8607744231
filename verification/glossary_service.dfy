/**
 * The glossary store (services/glossaryService.ts): terms from the API,
 * cached for the session, followed by the user's own terms kept in local
 * storage; adding a term asks the API to define it and falls back to a bare
 * local entry.
 */
module GlossaryService {
  import opened Wrappers
  import opened Types
  import opened Storage
  import Sheets
  import Text

  /** The storage key of the user's own terms. */
  const GlossaryKey: string := "nec2023_user_glossary"

  /** The module-level API cache (`null` until loaded) and the user's stored list. */
  datatype State = State(cache: Option<seq<GlossaryItem>>, user: Slot<seq<GlossaryItem>>)

  /** What the `addGlossaryTerm` endpoint answers with; every field may be missing. */
  datatype ApiTerm = ApiTerm(idGlossary: Option<string>, termEn: Option<string>, definitionEn: Option<string>, definitionRu: Option<string>)

  datatype Fetched = Fetched(terms: seq<GlossaryItem>, state: State, requested: bool)

  datatype Added = Added(result: Result<GlossaryItem, string>, state: State)

  const ParseFailure: string := "stored glossary does not parse"

  /** Reading the user's list: nothing stored is [], text that does not parse throws. */
  function UserTerms(slot: Slot<seq<GlossaryItem>>): (r: Option<seq<GlossaryItem>>)
    ensures r.None? <==> slot.Corrupt?
    ensures slot.Absent? ==> r == Some([])
    ensures slot.Stored? ==> r == Some(slot.value)
  {
    match slot
    case Absent => Some([])
    case Corrupt => None
    case Stored(u) => Some(u)
  }

  /**
   * Step 1 of `getGlossaryTerms`: a loaded cache (even an empty one) is used
   * as is; otherwise the API is asked, a failure caches [] so it is never
   * asked again, and a response without `data` leaves the cache unset.
   */
  function LoadApiTerms(cache: Option<seq<GlossaryItem>>, resp: Sheets.HttpResponse<seq<GlossaryItem>>): (r: (Option<seq<GlossaryItem>>, bool))
    ensures cache.Some? ==> r == (cache, false)
    ensures cache.None? ==> r.1
    ensures cache.None? && Sheets.FetchData(resp).Err? ==> r.0 == Some([])
    ensures cache.None? && Sheets.FetchData(resp).Ok? ==> r.0 == Sheets.FetchData(resp).value
  {
    if cache.Some? then (cache, false)
    else
      match Sheets.FetchData(resp)
      case Ok(data) => (data, true)
      case Err(_) => (Some([]), true)
  }

  /**
   * `getGlossaryTerms`: the API terms followed by the user's terms, each in
   * order. A user list that does not parse makes the whole call return [].
   */
  function GetGlossaryTerms(st: State, resp: Sheets.HttpResponse<seq<GlossaryItem>>): (f: Fetched)
    ensures f.state.user == st.user
    ensures f.state.cache == LoadApiTerms(st.cache, resp).0 && f.requested == st.cache.None?
    ensures UserTerms(st.user).Some? ==> f.terms == f.state.cache.GetOr([]) + UserTerms(st.user).value
    ensures UserTerms(st.user).None? ==> f.terms == []
  {
    var (cache, requested) := LoadApiTerms(st.cache, resp);
    var st' := st.(cache := cache);
    match UserTerms(st.user)
    case None => Fetched([], st', requested)
    case Some(u) => Fetched(cache.GetOr([]) + u, st', requested)
  }

  /** The term built from the API's answer: missing fields default to the fresh id, the input term and ''. */
  function FromApi(api: ApiTerm, term: string, freshId: string): (g: GlossaryItem)
    ensures g.isUserDefined
    ensures g.id == Text.OrElse(api.idGlossary, freshId) && g.term == Text.OrElse(api.termEn, term)
    ensures g.definitionEn == Text.OrElse(api.definitionEn, "") && g.definitionRu == Text.OrElse(api.definitionRu, "")
  {
    GlossaryItem(Text.OrElse(api.idGlossary, freshId), Text.OrElse(api.termEn, term),
                 Text.OrElse(api.definitionEn, ""), Text.OrElse(api.definitionRu, ""), true)
  }

  /** The local entry used when the API cannot define the term. */
  function Fallback(term: string, freshId: string): (g: GlossaryItem)
    ensures g.term == term && g.definitionEn == "" && g.definitionRu == "" && g.isUserDefined && g.id == freshId
  {
    GlossaryItem(freshId, term, "", "", true)
  }

  /**
   * The fallback branch of `addGlossaryTerm`: append the bare entry to the
   * user's list; a list that does not parse makes the call throw.
   */
  function AddFallback(st: State, term: string, freshId: string): (a: Added)
    ensures a.state.cache == st.cache
    ensures a.result.Ok? <==> UserTerms(st.user).Some?
    ensures a.result.Ok? ==> (a.result.value == Fallback(term, freshId)
                              && a.state.user == Stored(UserTerms(st.user).value + [a.result.value]))
    ensures a.result.Err? ==> a.state == st
  {
    match UserTerms(st.user)
    case None => Added(Err(ParseFailure), st)
    case Some(u) =>
      var g := Fallback(term, freshId);
      Added(Ok(g), st.(user := Stored(u + [g])))
  }

  /**
   * `addGlossaryTerm` as written. On an answer with data the new term is
   * pushed onto the loaded API cache and appended to the user's list; a
   * failed request, or an answer without data, takes the fallback branch.
   * `freshId` is the id `uuidv4` would generate.
   */
  function AddGlossaryTerm(st: State, term: string, resp: Sheets.HttpResponse<ApiTerm>, freshId: string): (a: Added)
    ensures a.result.Ok? ==> (a.result.value.isUserDefined
                              && UserTerms(st.user).Some?
                              && a.state.user == Stored(UserTerms(st.user).value + [a.result.value]))
    ensures Sheets.FetchData(resp).Ok? && Sheets.FetchData(resp).value.Some? && UserTerms(st.user).Some? ==>
      a.result == Ok(FromApi(Sheets.FetchData(resp).value.value, term, freshId))
      && a.state.cache == (if st.cache.Some? then Some(st.cache.value + [a.result.value]) else None)
    ensures !(Sheets.FetchData(resp).Ok? && Sheets.FetchData(resp).value.Some?) ==> a == AddFallback(st, term, freshId)
    ensures a.result.Ok? <==> UserTerms(st.user).Some?
    ensures a.result.Err? ==> a.state.user == st.user
  {
    match Sheets.FetchData(resp)
    case Ok(Some(api)) =>
      var g := FromApi(api, term, freshId);
      var cache := if st.cache.Some? then Some(st.cache.value + [g]) else None;
      (match UserTerms(st.user)
       case Some(u) => Added(Ok(g), State(cache, Stored(u + [g])))
       case None => AddFallback(st.(cache := cache), term, freshId))
    case _ => AddFallback(st, term, freshId)
  }

  /**
   * `addGlossaryTerm` corrected: the new term goes to the user's list only,
   * so the merged glossary shows it once.
   */
  function AddGlossaryTermFixed(st: State, term: string, resp: Sheets.HttpResponse<ApiTerm>, freshId: string): (a: Added)
    ensures a.state.cache == st.cache
    ensures a.result.Ok? <==> UserTerms(st.user).Some?
    ensures a.result.Ok? ==> (a.result.value.isUserDefined
                              && a.state.user == Stored(UserTerms(st.user).value + [a.result.value]))
    ensures a.result.Err? ==> a.state == st
    ensures Sheets.FetchData(resp).Ok? && Sheets.FetchData(resp).value.Some? && UserTerms(st.user).Some? ==>
      a.result == Ok(FromApi(Sheets.FetchData(resp).value.value, term, freshId))
    ensures !(Sheets.FetchData(resp).Ok? && Sheets.FetchData(resp).value.Some?) ==> a == AddFallback(st, term, freshId)
  {
    match Sheets.FetchData(resp)
    case Ok(Some(api)) =>
      var g := FromApi(api, term, freshId);
      (match UserTerms(st.user)
       case Some(u) => Added(Ok(g), st.(user := Stored(u + [g])))
       case None => AddFallback(st, term, freshId))
    case _ => AddFallback(st, term, freshId)
  }

  /** `resetGlossary`: the user's terms are removed; the API cache stays. */
  function ResetGlossary(st: State): (r: State)
    ensures UserTerms(r.user) == Some([]) && r.cache == st.cache
  {
    st.(user := Absent)
  }

  /** After a reset the glossary is exactly the API terms. */
  lemma ResetLeavesApiTerms(st: State, resp: Sheets.HttpResponse<seq<GlossaryItem>>)
    ensures GetGlossaryTerms(ResetGlossary(st), resp).terms == LoadApiTerms(st.cache, resp).0.GetOr([])
  {
    var f := GetGlossaryTerms(ResetGlossary(st), resp);
    assert f.terms == f.state.cache.GetOr([]) + [];
  }

  /** A failed API load is cached as [] and never retried: the next load makes no request. */
  lemma ApiFailureNotRetried(st: State, failed: Sheets.HttpResponse<seq<GlossaryItem>>, later: Sheets.HttpResponse<seq<GlossaryItem>>)
    requires st.cache.None? && Sheets.FetchData(failed).Err?
    ensures
      var first := GetGlossaryTerms(st, failed);
      var second := GetGlossaryTerms(first.state, later);
      first.state.cache == Some([]) && !second.requested && second.state.cache == Some([])
  {
  }

  /**
   * The defect in `addGlossaryTerm` as written: once the API cache is loaded,
   * a successfully added term is both pushed onto the cache and appended to
   * the user's list, so the refreshed glossary lists it twice more than before.
   */
  lemma {:induction false} AddedTermListedTwice(st: State, term: string, resp: Sheets.HttpResponse<ApiTerm>,
                                                 freshId: string, apiResp: Sheets.HttpResponse<seq<GlossaryItem>>)
    requires st.cache.Some? && UserTerms(st.user).Some?
    requires Sheets.FetchData(resp).Ok? && Sheets.FetchData(resp).value.Some?
    ensures
      var a := AddGlossaryTerm(st, term, resp, freshId);
      var before := GetGlossaryTerms(st, apiResp).terms;
      var after := GetGlossaryTerms(a.state, apiResp).terms;
      a.result.Ok? && multiset(after)[a.result.value] == multiset(before)[a.result.value] + 2
  {
    var a := AddGlossaryTerm(st, term, resp, freshId);
    var g := a.result.value;
    var c := st.cache.value;
    var u := UserTerms(st.user).value;
    assert GetGlossaryTerms(st, apiResp).terms == c + u;
    assert GetGlossaryTerms(a.state, apiResp).terms == c + [g] + (u + [g]);
  }

  /** A concrete instance: adding one term to an empty, loaded glossary lists it twice. */
  lemma AddedTermListedTwiceExample(apiResp: Sheets.HttpResponse<seq<GlossaryItem>>)
    ensures
      var ok := Sheets.HttpResponse(true, 200, Sheets.Envelope(true, Some(ApiTerm(None, None, None, None)), None));
      var a := AddGlossaryTerm(State(Some([]), Absent), "Ampacity", ok, "id-1");
      var g := GlossaryItem("id-1", "Ampacity", "", "", true);
      a.result == Ok(g) && GetGlossaryTerms(a.state, apiResp).terms == [g, g]
  {
  }

  /** With the correction, a successful add lists the new term exactly once, after everything already listed. */
  lemma AddFixedListsOnce(st: State, term: string, resp: Sheets.HttpResponse<ApiTerm>,
                          freshId: string, apiResp: Sheets.HttpResponse<seq<GlossaryItem>>)
    requires st.cache.Some? && UserTerms(st.user).Some?
    ensures
      var a := AddGlossaryTermFixed(st, term, resp, freshId);
      a.result.Ok?
      && GetGlossaryTerms(a.state, apiResp).terms == GetGlossaryTerms(st, apiResp).terms + [a.result.value]
  {
    var a := AddGlossaryTermFixed(st, term, resp, freshId);
    var c := st.cache.value;
    var u := UserTerms(st.user).value;
    assert GetGlossaryTerms(a.state, apiResp).terms == c + (u + [a.result.value]);
  }
}

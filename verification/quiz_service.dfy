/**
 * Question selection (services/quizService.ts): the Fisher-Yates shuffle,
 * the exam-list cache, the per-topic question cache and the prefix of the
 * shuffled list handed to the runner.
 */
module QuizService {
  import opened Wrappers
  import opened Types
  import Sheets

  /** The module-level caches: the exam list (`null` until loaded) and questions by exam title. */
  datatype Cache = Cache(exams: Option<seq<Exam>>, questions: map<string, seq<Question>>)

  const EmptyCache: Cache := Cache(None, map[])

  /** The outcome of `getExams`: what it returned, the cache after it, and whether it went to the network. */
  datatype ExamsCall = ExamsCall(exams: Option<seq<Exam>>, cache: Cache, requested: bool)

  function Min(a: int, b: int): int {
    if a <= b then a else b
  }

  /**
   * `shuffleArray`: a Fisher-Yates shuffle of a copy of the input. The random
   * index `Math.floor(Math.random() * (i + 1))` is modelled as an arbitrary
   * choice in [0, i], so the result is some permutation of the input.
   */
  method Shuffle<T>(s: seq<T>) returns (r: seq<T>)
    ensures |r| == |s|
    ensures multiset(r) == multiset(s)
  {
    var a := new T[|s|](k requires 0 <= k < |s| => s[k]);
    assert a[..] == s;
    var i := |s| - 1;
    while i > 0
      invariant i < |s|
      invariant a.Length == |s|
      invariant multiset(a[..]) == multiset(s)
    {
      var j :| 0 <= j <= i;
      a[i], a[j] := a[j], a[i];
      i := i - 1;
    }
    r := a[..];
  }

  /** `s.slice(0, end)`: a negative end counts back from the length. */
  function SliceTo<T>(s: seq<T>, end: int): (r: seq<T>)
    ensures end >= 0 ==> |r| == Min(end, |s|)
    ensures end < 0 ==> |r| == if |s| + end > 0 then |s| + end else 0
    ensures r == s[..|r|]
  {
    if end >= 0 then (if end <= |s| then s[..end] else s)
    else if |s| + end > 0 then s[..|s| + end]
    else []
  }

  /** The cached path's `slice(0, limit)` and the fresh path's `slice(0, Math.min(limit, n))` agree for every limit. */
  lemma SlicePathsAgree<T>(s: seq<T>, limit: int)
    ensures SliceTo(s, limit) == SliceTo(s, Min(limit, |s|))
  {
  }

  /**
   * `getExams`: a loaded list (even an empty one) is served from the cache
   * without a request; otherwise the list is fetched and cached; a failed
   * fetch returns [] and leaves the cache unset; a response without `data`
   * returns nothing and leaves the cache unset as well.
   */
  function GetExams(cache: Cache, resp: Sheets.HttpResponse<seq<Exam>>): (c: ExamsCall)
    ensures cache.exams.Some? ==> c == ExamsCall(cache.exams, cache, false)
    ensures cache.exams.None? ==> c.requested && c.cache.questions == cache.questions
    ensures cache.exams.None? && Sheets.FetchData(resp).Ok? ==>
      c.exams == Sheets.FetchData(resp).value && c.cache.exams == c.exams
    ensures cache.exams.None? && Sheets.FetchData(resp).Err? ==> c.exams == Some([]) && c.cache == cache
  {
    if cache.exams.Some? then ExamsCall(cache.exams, cache, false)
    else
      match Sheets.FetchData(resp)
      case Ok(data) => ExamsCall(data, cache.(exams := data), true)
      case Err(_) => ExamsCall(Some([]), cache, true)
  }

  /** `exams.find(e => e.id === id)`; a missing list (the `undefined` case) finds nothing. */
  function FindExam(exams: Option<seq<Exam>>, id: string): (r: Option<Exam>)
    ensures r.Some? ==> exams.Some? && r.value in exams.value && r.value.id == id
    ensures r.Some? ==> exists i :: FirstWithId(exams.value, id, i) && exams.value[i] == r.value
    ensures r.None? ==> exams.None? || forall e :: e in exams.value ==> e.id != id
  {
    if exams.None? then None else FindIn(exams.value, id)
  }

  /** Position `i` holds the first exam with this id. */
  ghost predicate FirstWithId(exams: seq<Exam>, id: string, i: int) {
    0 <= i < |exams| && exams[i].id == id && forall j :: 0 <= j < i ==> exams[j].id != id
  }

  /** `Array.find`: the exam at the first position whose id matches, if any. */
  function FindIn(exams: seq<Exam>, id: string): (r: Option<Exam>)
    ensures r.Some? ==> r.value in exams && r.value.id == id
    ensures r.Some? ==> exists i :: FirstWithId(exams, id, i) && exams[i] == r.value
    ensures r.None? ==> forall e :: e in exams ==> e.id != id
    ensures |exams| > 0 && exams[0].id == id ==> r == Some(exams[0])
  {
    if |exams| == 0 then None
    else if exams[0].id == id then (assert FirstWithId(exams, id, 0); Some(exams[0]))
    else
      var rest := FindIn(exams[1..], id);
      assert rest.Some? ==> exists i :: FirstWithId(exams, id, i) && exams[i] == rest.value by {
        if rest.Some? {
          var i :| FirstWithId(exams[1..], id, i) && exams[1..][i] == rest.value;
          assert FirstWithId(exams, id, i + 1);
        }
      }
      rest
  }

  /**
   * `getQuestions(examId, limit)`. The exam is looked up in the (possibly
   * cached) exam list; an unknown id gives []. Questions cached under the
   * exam's title are shuffled and cut to `limit`; otherwise they are fetched
   * by title, an empty list is returned uncached, and a non-empty one is
   * cached, shuffled and cut to `min(limit, n)`. Any failure gives [].
   * `pool` names the list the questions were drawn from ([] when there is none).
   */
  method GetQuestions(cache: Cache, examsResp: Sheets.HttpResponse<seq<Exam>>,
                      questionsResp: Sheets.HttpResponse<seq<Question>>, examId: string, limit: int)
    returns (r: seq<Question>, cache': Cache, pool: seq<Question>)
    ensures multiset(r) <= multiset(pool)
    ensures limit >= 0 ==> |r| == Min(limit, |pool|)
    ensures
      var ec := GetExams(cache, examsResp);
      var found := FindExam(ec.exams, examId);
      && (found.None? ==> r == [] && cache' == ec.cache)
      && (found.Some? && found.value.title in ec.cache.questions ==>
            pool == ec.cache.questions[found.value.title] && cache' == ec.cache)
      && (found.Some? && found.value.title !in ec.cache.questions ==>
            var call := Sheets.FetchQuestions(Some(found.value.title), None, questionsResp);
            if call.result.Ok? && |call.result.value| > 0 then
              pool == call.result.value
              && cache' == ec.cache.(questions := ec.cache.questions[found.value.title := pool])
            else r == [] && cache' == ec.cache)
  {
    var ec := GetExams(cache, examsResp);
    var found := FindExam(ec.exams, examId);
    if found.None? {
      return [], ec.cache, [];
    }
    var title := found.value.title;
    if title in ec.cache.questions {
      var cached := ec.cache.questions[title];
      pool := cached;
      var shuffled := Shuffle(cached);
      r := SliceTo(shuffled, limit);
      cache' := ec.cache;
      assert multiset(r) <= multiset(shuffled) by {
        assert shuffled == r + shuffled[|r|..];
      }
      return;
    }
    var call := Sheets.FetchQuestions(Some(title), None, questionsResp);
    if call.result.Err? || |call.result.value| == 0 {
      return [], ec.cache, [];
    }
    var questions := call.result.value;
    pool := questions;
    cache' := ec.cache.(questions := ec.cache.questions[title := questions]);
    var shuffled := Shuffle(questions);
    r := SliceTo(shuffled, Min(limit, |questions|));
    assert multiset(r) <= multiset(shuffled) by {
      assert shuffled == r + shuffled[|r|..];
    }
  }

  /** `clearCache`: both caches are emptied. */
  function ClearCache(cache: Cache): (c: Cache)
    ensures c.exams.None? && |c.questions| == 0
  {
    EmptyCache
  }

  /** After clearing, the exam list is fetched again. */
  lemma ClearCacheRefetches(cache: Cache, resp: Sheets.HttpResponse<seq<Exam>>)
    ensures GetExams(ClearCache(cache), resp).requested
  {
  }

  /**
   * The first fetch that returns a list is kept: every later call serves it
   * without a request, whatever the network would say.
   */
  lemma GetExamsServesFirstSuccess(cache: Cache, first: Sheets.HttpResponse<seq<Exam>>, later: Sheets.HttpResponse<seq<Exam>>)
    requires cache.exams.None? && Sheets.FetchData(first).Ok? && Sheets.FetchData(first).value.Some?
    ensures
      var c1 := GetExams(cache, first);
      var c2 := GetExams(c1.cache, later);
      c2.exams == c1.exams && !c2.requested && c2.cache == c1.cache
  {
  }
}

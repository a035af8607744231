/** Order-preserving filtering, the `Array.prototype.filter` every screen uses. */
module Seqs {
  import opened Wrappers

  /** `r` can be obtained from `s` by deleting elements, keeping the order. */
  ghost predicate SubsequenceOf<T>(r: seq<T>, s: seq<T>)
    decreases |s|
  {
    if |r| == 0 then true
    else if |s| == 0 then false
    else (r[0] == s[0] && SubsequenceOf(r[1..], s[1..])) || SubsequenceOf(r, s[1..])
  }

  /**
   * `s.filter(p)`: the elements of `s` that satisfy `p`, in their original
   * order, each kept as often as it occurs in `s`.
   */
  function Filter<T(!new)>(s: seq<T>, p: T -> bool): (r: seq<T>)
    ensures SubsequenceOf(r, s)
    ensures forall x :: x in r ==> p(x)
    ensures forall x :: multiset(r)[x] == if p(x) then multiset(s)[x] else 0
  {
    if |s| == 0 then []
    else
      var rest := Filter(s[1..], p);
      assert s == [s[0]] + s[1..];
      if p(s[0]) then [s[0]] + rest else rest
  }

  /** Membership in a filter result, both directions. */
  lemma FilterMembership<T(!new)>(s: seq<T>, p: T -> bool, x: T)
    ensures x in Filter(s, p) <==> x in s && p(x)
  {
    var r := Filter(s, p);
    assert x in r <==> multiset(r)[x] > 0;
    assert x in s <==> multiset(s)[x] > 0;
  }

  /** A filter whose predicate holds everywhere returns its input unchanged. */
  lemma {:induction false} FilterKeepsAll<T(!new)>(s: seq<T>, p: T -> bool)
    requires forall x :: x in s ==> p(x)
    ensures Filter(s, p) == s
  {
    if |s| > 0 {
      FilterKeepsAll(s[1..], p);
      assert s == [s[0]] + s[1..];
    }
  }

  /** A filter is the same on equal inputs under pointwise-equal predicates. */
  lemma {:induction false} FilterCongruent<T(!new)>(s: seq<T>, p: T -> bool, q: T -> bool)
    requires forall x :: x in s ==> (p(x) <==> q(x))
    ensures Filter(s, p) == Filter(s, q)
  {
    if |s| > 0 {
      FilterCongruent(s[1..], p, q);
    }
  }

  /** Filtering distributes over concatenation. */
  lemma {:induction false} FilterAppend<T(!new)>(a: seq<T>, b: seq<T>, p: T -> bool)
    ensures Filter(a + b, p) == Filter(a, p) + Filter(b, p)
  {
    if |a| == 0 {
      assert a + b == b;
    } else {
      assert (a + b)[1..] == a[1..] + b;
      FilterAppend(a[1..], b, p);
    }
  }

  /** `os.filter(Boolean)` on looked-up values: the present values, in order. */
  function Somes<T>(os: seq<Option<T>>): (r: seq<T>)
    ensures |r| <= |os|
  {
    if |os| == 0 then []
    else if os[0].Some? then [os[0].value] + Somes(os[1..])
    else Somes(os[1..])
  }

  /** Dropping the first look-up drops its value, if it had one. */
  lemma SomesStep<T>(os: seq<Option<T>>)
    requires |os| > 0
    ensures
      var k := if os[0].Some? then 1 else 0;
      k <= |Somes(os)| && Somes(os)[k..] == Somes(os[1..]) && (k == 1 ==> Somes(os)[0] == os[0].value)
  {
  }

  /** Every value kept comes from a present look-up. */
  lemma {:induction false} SomesOrigin<T>(os: seq<Option<T>>, i: nat) returns (p: nat)
    requires i < |Somes(os)|
    ensures p < |os| && os[p] == Some(Somes(os)[i])
  {
    SomesStep(os);
    var k := if os[0].Some? then 1 else 0;
    if k == 1 && i == 0 {
      p := 0;
    } else {
      var p' := SomesOrigin(os[1..], i - k);
      assert Somes(os)[i] == Somes(os)[k..][i - k];
      p := p' + 1;
    }
  }

  /** Values kept in order come from look-ups in the same order. */
  lemma {:induction false} SomesOriginPair<T>(os: seq<Option<T>>, i: nat, j: nat) returns (p: nat, q: nat)
    requires i < j < |Somes(os)|
    ensures p < q < |os| && os[p] == Some(Somes(os)[i]) && os[q] == Some(Somes(os)[j])
  {
    SomesStep(os);
    var k := if os[0].Some? then 1 else 0;
    assert Somes(os)[j] == Somes(os)[k..][j - k];
    if k == 1 && i == 0 {
      var q' := SomesOrigin(os[1..], j - 1);
      p, q := 0, q' + 1;
    } else {
      var p', q' := SomesOriginPair(os[1..], i - k, j - k);
      assert Somes(os)[i] == Somes(os)[k..][i - k];
      p, q := p' + 1, q' + 1;
    }
  }

  /** Every present look-up is kept. */
  lemma {:induction false} SomesComplete<T>(os: seq<Option<T>>, p: nat)
    requires p < |os| && os[p].Some?
    ensures os[p].value in Somes(os)
  {
    if p > 0 {
      assert os[p] == os[1..][p - 1];
      SomesComplete(os[1..], p - 1);
      SomesStep(os);
      var k := if os[0].Some? then 1 else 0;
      assert Somes(os[1..]) == Somes(os)[k..];
    }
  }
}

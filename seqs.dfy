/** `Array.prototype.filter` and the order-preservation fact every use of it relies on. */
module Seqs {

  /** `r` is obtained from `s` by deleting elements, keeping the order of the rest. */
  ghost predicate SubsequenceOf<T(!new)>(r: seq<T>, s: seq<T>)
    decreases |s|
  {
    if r == [] then true
    else if s == [] then false
    else if r[0] == s[0] then SubsequenceOf(r[1..], s[1..])
    else SubsequenceOf(r, s[1..])
  }

  /** `s.filter(keep)`. */
  function Filter<T(!new)>(s: seq<T>, keep: T -> bool): (r: seq<T>)
    ensures |r| <= |s|
    ensures forall i :: 0 <= i < |r| ==> r[i] in s && keep(r[i])
    ensures forall i :: 0 <= i < |s| && keep(s[i]) ==> s[i] in r
    ensures SubsequenceOf(r, s)
    ensures forall x {:trigger multiset(r)[x]} :: multiset(r)[x] == if keep(x) then multiset(s)[x] else 0
  {
    if s == [] then []
    else
      var rest := Filter(s[1..], keep);
      var r := if keep(s[0]) then [s[0]] + rest else rest;
      MembersStep(s, rest, r, keep);
      SubsequenceStep(s, rest, r, keep);
      MultiplicityStep(s, rest, r, keep);
      r
  }

  /** One step of the filter keeps exactly the kept elements as members. */
  lemma MembersStep<T>(s: seq<T>, rest: seq<T>, r: seq<T>, keep: T -> bool)
    requires s != [] && r == if keep(s[0]) then [s[0]] + rest else rest
    requires forall i :: 0 <= i < |rest| ==> rest[i] in s[1..] && keep(rest[i])
    requires forall i :: 0 <= i < |s| - 1 && keep(s[1..][i]) ==> s[1..][i] in rest
    ensures forall i :: 0 <= i < |r| ==> r[i] in s && keep(r[i])
    ensures forall i :: 0 <= i < |s| && keep(s[i]) ==> s[i] in r
  {
    forall i | 0 <= i < |s| && keep(s[i])
      ensures s[i] in r
    {
      if i == 0 {
        assert r[0] == s[0];
      } else {
        assert s[i] == s[1..][i - 1];
        assert s[i] in rest;
        assert forall x :: x in rest ==> x in r;
      }
    }
    forall i | 0 <= i < |r|
      ensures r[i] in s && keep(r[i])
    {
      if keep(s[0]) && i == 0 {
        assert r[i] == s[0];
      } else {
        var j := if keep(s[0]) then i - 1 else i;
        assert r[i] == rest[j];
        assert rest[j] in s[1..];
      }
    }
  }

  /** One step of the filter keeps the order of the elements it keeps. */
  lemma SubsequenceStep<T(!new)>(s: seq<T>, rest: seq<T>, r: seq<T>, keep: T -> bool)
    requires s != [] && r == if keep(s[0]) then [s[0]] + rest else rest
    requires SubsequenceOf(rest, s[1..])
    requires forall i :: 0 <= i < |rest| ==> keep(rest[i])
    ensures SubsequenceOf(r, s)
  {
    if keep(s[0]) {
      assert r[0] == s[0] && r[1..] == rest;
    } else if rest != [] {
      assert keep(rest[0]) && rest[0] != s[0];
    }
  }

  /** One step of the filter keeps every kept element with its multiplicity. */
  lemma MultiplicityStep<T>(s: seq<T>, rest: seq<T>, r: seq<T>, keep: T -> bool)
    requires s != [] && r == if keep(s[0]) then [s[0]] + rest else rest
    requires forall x {:trigger multiset(rest)[x]} :: multiset(rest)[x] == if keep(x) then multiset(s[1..])[x] else 0
    ensures forall x {:trigger multiset(r)[x]} :: multiset(r)[x] == if keep(x) then multiset(s)[x] else 0
  {
    assert s == [s[0]] + s[1..];
    assert multiset(s) == multiset{s[0]} + multiset(s[1..]);
    if keep(s[0]) {
      assert multiset(r) == multiset{s[0]} + multiset(rest);
    }
  }

  lemma {:induction false} FilterAppend<T(!new)>(a: seq<T>, b: seq<T>, keep: T -> bool)
    ensures Filter(a + b, keep) == Filter(a, keep) + Filter(b, keep)
  {
    if a == [] {
      assert a + b == b;
    } else {
      assert (a + b)[1..] == a[1..] + b;
      FilterAppend(a[1..], b, keep);
    }
  }

  /** Filtering a sequence none of whose elements is kept gives the empty sequence. */
  lemma {:induction false} FilterNone<T(!new)>(s: seq<T>, keep: T -> bool)
    requires forall i :: 0 <= i < |s| ==> !keep(s[i])
    ensures Filter(s, keep) == []
  {
    if s != [] {
      FilterNone(s[1..], keep);
    }
  }

  /** Filtering a sequence all of whose elements are kept gives it back. */
  lemma {:induction false} FilterAll<T(!new)>(s: seq<T>, keep: T -> bool)
    requires forall i :: 0 <= i < |s| ==> keep(s[i])
    ensures Filter(s, keep) == s
  {
    if s != [] {
      FilterAll(s[1..], keep);
      assert s == [s[0]] + s[1..];
    }
  }
}

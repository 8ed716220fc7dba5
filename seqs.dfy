/**
 * Sequence facts used by the importer's list handling, chiefly LINQ's `Distinct()`,
 * which keeps the first occurrence of every element in its original order.
 */
module Seqs {

  predicate NoDups<T(==)>(s: seq<T>) {
    forall i, j :: 0 <= i < j < |s| ==> s[i] != s[j]
  }

  /** The position of the first occurrence of `x` in `s`. */
  function FirstIndex<T(==)>(s: seq<T>, x: T): (k: nat)
    requires x in s
    ensures k < |s| && s[k] == x
    ensures forall j :: 0 <= j < k ==> s[j] != x
  {
    if s[0] == x then 0 else 1 + FirstIndex(s[1..], x)
  }

  /** `Distinct()`: scan left to right, keep an element unless it was already kept. */
  function Dedup<T(==)>(s: seq<T>): seq<T>
  {
    if s == [] then []
    else
      var d := Dedup(s[..|s| - 1]);
      if s[|s| - 1] in d then d else d + [s[|s| - 1]]
  }

  /** `Dedup` keeps exactly the elements of its input. */
  lemma {:induction false} DedupMember<T>(s: seq<T>, x: T)
    ensures x in Dedup(s) <==> x in s
  {
    if s != [] {
      var p := s[..|s| - 1];
      DedupMember(p, x);
      assert s == p + [s[|s| - 1]];
    }
  }

  /** `Dedup` never keeps an element twice. */
  lemma {:induction false} DedupNoDups<T>(s: seq<T>)
    ensures NoDups(Dedup(s))
  {
    if s != [] {
      DedupNoDups(s[..|s| - 1]);
    }
  }

  /**
   * `Dedup` lists its elements in the order of their first occurrence in the input:
   * of two kept elements, the earlier one was seen first.
   */
  lemma {:induction false} DedupFirstSeenOrder<T>(s: seq<T>, i: nat, j: nat)
    requires i < j < |Dedup(s)|
    ensures Dedup(s)[i] in s && Dedup(s)[j] in s
    ensures FirstIndex(s, Dedup(s)[i]) < FirstIndex(s, Dedup(s)[j])
  {
    var p := s[..|s| - 1];
    var last := s[|s| - 1];
    var d := Dedup(p);
    var r := Dedup(s);
    assert s == p + [last];
    assert r == if last in d then d else d + [last];
    DedupMember(p, d[i]);
    FirstIndexOfPrefix(p, s, d[i]);
    if j < |d| {
      DedupFirstSeenOrder(p, i, j);
      FirstIndexOfPrefix(p, s, d[j]);
    } else {
      DedupMember(p, last);
      FirstIndexOfLast(p, s, last);
    }
  }

  lemma FirstIndexOfPrefix<T>(p: seq<T>, s: seq<T>, x: T)
    requires p <= s && x in p
    ensures FirstIndex(s, x) == FirstIndex(p, x)
  {
    assert forall j :: 0 <= j < |p| ==> s[j] == p[j];
  }

  lemma FirstIndexOfLast<T>(p: seq<T>, s: seq<T>, x: T)
    requires s == p + [x] && x !in p
    ensures FirstIndex(s, x) == |p|
  {
    assert forall j :: 0 <= j < |p| ==> s[j] == p[j];
  }

  /** `Dedup` leaves a single element exactly when the input is one value repeated. */
  lemma {:induction false} DedupSingleton<T>(s: seq<T>, x: T)
    ensures Dedup(s) == [x] <==> (s != [] && forall k :: 0 <= k < |s| ==> s[k] == x)
  {
    if Dedup(s) == [x] {
      forall k | 0 <= k < |s| ensures s[k] == x {
        DedupMember(s, s[k]);
      }
      DedupMember(s, x);
    }
    if s != [] && forall k :: 0 <= k < |s| ==> s[k] == x {
      var p := s[..|s| - 1];
      if p != [] {
        DedupSingleton(p, x);
      }
    }
  }

  /** Two different elements survive `Dedup`, so it never leaves just one. */
  lemma DedupNotSingle<T>(s: seq<T>, a: nat, b: nat)
    requires a < b < |s| && s[a] != s[b]
    ensures |Dedup(s)| != 1
  {
    DedupMember(s, s[a]);
    DedupMember(s, s[b]);
    var d := Dedup(s);
    var i :| 0 <= i < |d| && d[i] == s[a];
    var j :| 0 <= j < |d| && d[j] == s[b];
    assert i != j;
  }
}

/** Value-level list operations shared by the other modules. */
module Queues {

  datatype Option<+T> = None | Some(value: T)

  ghost predicate NoDup<T>(s: seq<T>) {
    forall i, j :: 0 <= i < j < |s| ==> s[i] != s[j]
  }

  // Neither is less than the other.
  predicate Equiv<T>(x: T, y: T, less: (T, T) -> bool) { !less(x, y) && !less(y, x) }

  function Reversed<T>(s: seq<T>): seq<T> { seq(|s|, i requires 0 <= i < |s| => s[|s| - 1 - i]) }

  lemma Member<T>(a: set<T>) returns (x: T)
    requires |a| > 0
    ensures x in a
  {
    x :| x in a;
  }

  lemma HasMember<T>(s: seq<T>)
    ensures s == [] || exists x :: x in s
  {
    if s != [] { assert s[0] in s; }
  }

  /** The place `list_insert_ordered` stops at: the first element that x is `less` than. */
  function InsertPoint<T>(s: seq<T>, x: T, less: (T, T) -> bool): (k: nat)
    ensures k <= |s|
    ensures forall i :: 0 <= i < k ==> !less(x, s[i])
    ensures k < |s| ==> less(x, s[k])
  {
    if s == [] || less(x, s[0]) then 0 else 1 + InsertPoint(s[1..], x, less)
  }

  lemma InsertPointIs<T>(s: seq<T>, x: T, less: (T, T) -> bool, k: nat)
    requires k <= |s| && (forall i :: 0 <= i < k ==> !less(x, s[i])) && (k < |s| ==> less(x, s[k]))
    ensures InsertPoint(s, x, less) == k
  {
  }

  function InsertOrdered<T>(s: seq<T>, x: T, less: (T, T) -> bool): seq<T> {
    var k := InsertPoint(s, x, less);
    s[..k] + [x] + s[k..]
  }

  /** `list_remove` of an element known to be in the list. */
  function Remove<T(==)>(s: seq<T>, x: T): seq<T> {
    if s == [] then [] else if s[0] == x then s[1..] else [s[0]] + Remove(s[1..], x)
  }

  /** Removing x takes out its first occurrence and keeps everything else in order. */
  lemma {:induction false} RemoveSplits<T>(s: seq<T>, x: T) returns (k: nat)
    requires x in s
    ensures k < |s| && s[k] == x && Remove(s, x) == s[..k] + s[k + 1..]
  {
    if s[0] == x {
      k := 0;
    } else {
      var k' := RemoveSplits(s[1..], x);
      k := k' + 1;
      assert s[..k] == [s[0]] + s[1..][..k'];
      assert s[k + 1..] == s[1..][k' + 1..];
    }
  }

  lemma CutNoDup<T>(s: seq<T>, k: nat)
    requires NoDup(s) && k < |s|
    ensures NoDup(s[..k] + s[k + 1..])
    ensures forall y :: y in s[..k] + s[k + 1..] <==> y in s && y != s[k]
  {
    var r := s[..k] + s[k + 1..];
    assert forall i :: 0 <= i < |r| ==> r[i] == s[if i < k then i else i + 1];
    forall y | y in s && y != s[k] ensures y in r {
      var i :| 0 <= i < |s| && s[i] == y;
      assert r[if i < k then i else i - 1] == y;
    }
  }

  lemma PasteNoDup<T>(s: seq<T>, k: nat, x: T)
    requires NoDup(s) && k <= |s| && x !in s
    ensures NoDup(s[..k] + [x] + s[k..])
  {
    var r := s[..k] + [x] + s[k..];
    assert forall i :: 0 <= i < |r| ==> r[i] == if i < k then s[i] else if i == k then x else s[i - 1];
  }

  lemma PasteIn<T>(s: seq<T>, k: nat, x: T)
    requires k <= |s|
    ensures forall y :: y in s[..k] + [x] + s[k..] <==> y in s || y == x
  {
    assert s == s[..k] + s[k..];
  }

  lemma RemoveOut<T>(s: seq<T>, x: T)
    requires NoDup(s) && x in s
    ensures NoDup(Remove(s, x))
    ensures forall y :: y in Remove(s, x) <==> y in s && y != x
  {
    var k := RemoveSplits(s, x);
    CutNoDup(s, k);
  }

  /** Ordered insertion adds exactly x and introduces no repetition. */
  lemma InsertIn<T>(s: seq<T>, x: T, less: (T, T) -> bool)
    ensures forall y :: y in InsertOrdered(s, x, less) <==> y in s || y == x
    ensures NoDup(s) && x !in s ==> NoDup(InsertOrdered(s, x, less))
  {
    var k := InsertPoint(s, x, less);
    PasteIn(s, k, x);
    if NoDup(s) && x !in s { PasteNoDup(s, k, x); }
  }

  lemma {:induction false} SubsetCount<T>(a: set<T>, b: set<T>)
    requires a <= b
    ensures |a| <= |b| && (|a| == |b| ==> a == b)
  {
    if a != {} {
      var x :| x in a;
      SubsetCount(a - {x}, b - {x});
    }
  }

  function Flat<T>(bs: seq<seq<T>>): seq<T> { if bs == [] then [] else bs[0] + Flat(bs[1..]) }

  lemma {:induction false} FlatSplit<T>(bs: seq<seq<T>>, i: nat)
    requires i < |bs|
    ensures Flat(bs) == Flat(bs[..i]) + bs[i] + Flat(bs[i + 1..])
  {
    if i == 0 {
      assert bs[..0] == [];
    } else {
      FlatSplit(bs[1..], i - 1);
      assert bs[1..][..i - 1] == bs[..i][1..] && bs[1..][i..] == bs[i + 1..];
    }
  }
}

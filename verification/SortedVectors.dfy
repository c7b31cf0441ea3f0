/** Contracts for the sorted containers of libutils, whose code is not part of this model.

    A SortedVector<String8> is a strictly ascending sequence; adding an element it has replaces it.
    A KeyedVector over tags is a map, read out in ascending order of its keys. */
module SortedVectors {

  /** strcmp order. */
  predicate StrLess(a: string, b: string) {
    b != [] && (a == [] || a[0] < b[0] || (a[0] == b[0] && StrLess(a[1..], b[1..])))
  }

  lemma {:induction false} StrLessTransitive(a: string, b: string, c: string)
    requires StrLess(a, b) && StrLess(b, c)
    ensures StrLess(a, c)
  {
    if a != [] && a[0] == b[0] == c[0] {
      StrLessTransitive(a[1..], b[1..], c[1..]);
    }
  }

  lemma {:induction false} StrLessTotal(a: string, b: string)
    ensures a == b <==> !StrLess(a, b) && !StrLess(b, a)
    ensures !(StrLess(a, b) && StrLess(b, a))
  {
    if a != [] && b != [] {
      StrLessTotal(a[1..], b[1..]);
      assert a == [a[0]] + a[1..] && b == [b[0]] + b[1..];
    }
  }

  /** Strictly ascending. */
  ghost predicate Sorted(s: seq<string>) {
    forall i, j :: 0 <= i < j < |s| ==> StrLess(s[i], s[j])
  }

  /** SortedVector::add. */
  function Insert(s: seq<string>, x: string): seq<string> {
    if s == [] then [x]
    else if x == s[|s| - 1] then s
    else if StrLess(s[|s| - 1], x) then s + [x]
    else Insert(s[..|s| - 1], x) + [s[|s| - 1]]
  }

  lemma {:induction false} InsertSorted(s: seq<string>, x: string)
    requires Sorted(s)
    ensures Sorted(Insert(s, x))
    ensures forall y :: y in Insert(s, x) <==> y in s || y == x
    ensures |Insert(s, x)| <= |s| + 1
    decreases |s|
  {
    if s != [] {
      var front, last := s[..|s| - 1], s[|s| - 1];
      assert s == front + [last];
      StrLessTotal(last, x);
      if StrLess(last, x) {
        forall i | 0 <= i < |front|
          ensures StrLess(s[i], x)
        {
          StrLessTransitive(s[i], last, x);
        }
      } else if last != x {
        InsertSorted(front, x);
        var r := Insert(front, x);
        forall i | 0 <= i < |r|
          ensures StrLess(r[i], last)
        {
          assert r[i] in r;
          if r[i] != x {
            var j :| 0 <= j < |front| && front[j] == r[i];
            assert StrLess(s[j], s[|s| - 1]);
          }
        }
      }
    }
  }

  /** Adding the elements of an ascending sequence one after the other gives that sequence. */
  lemma {:induction false} InsertLast(s: seq<string>, x: string)
    requires Sorted(s + [x])
    ensures Insert(s, x) == s + [x]
  {
    if s != [] {
      assert StrLess((s + [x])[|s| - 1], (s + [x])[|s|]);
      StrLessTotal(s[|s| - 1], x);
    }
  }

  /** SortedVector::indexOf of an element that is there. */
  function IndexOf(s: seq<string>, x: string): (i: nat)
    requires x in s
    ensures i < |s| && s[i] == x
  {
    if s[|s| - 1] == x then |s| - 1 else IndexOf(s[..|s| - 1], x)
  }

  // ---------------------------------------------------------------- ascending keys

  lemma {:induction false} MinExists(s: set<nat>, y: nat)
    requires y in s
    ensures exists m :: m in s && forall x :: x in s ==> m <= x
    decreases y
  {
    if z :| z in s && z < y {
      MinExists(s, z);
    }
  }

  function Min(s: set<nat>): (m: nat)
    requires s != {}
    ensures m in s && forall x :: x in s ==> m <= x
  {
    var y :| y in s;
    MinExists(s, y);
    var m :| m in s && forall x :: x in s ==> m <= x;
    m
  }

  /** keyAt(0), keyAt(1), ... of a KeyedVector with these keys. */
  function Ascending(s: set<nat>): (r: seq<nat>)
    ensures |r| == |s|
    ensures forall x :: x in r <==> x in s
    ensures forall i, j :: 0 <= i < j < |r| ==> r[i] < r[j]
    decreases |s|
  {
    if s == {} then []
    else
      var m := Min(s);
      [m] + Ascending(s - {m})
  }
}

/** Sorting by a strict total order. A sorted sequence without repetitions is determined by its set of
    elements: that fact is what makes the fleet's files independent of arrival order. */
module Sorting {
  import opened Text

  ghost predicate StrictTotalOn<T(!new)>(less: (T, T) -> bool, dom: T -> bool) {
    && (forall a :: dom(a) ==> !less(a, a))
    && (forall a, b :: dom(a) && dom(b) ==> a == b || less(a, b) || less(b, a))
    && (forall a, b, c :: dom(a) && dom(b) && dom(c) && less(a, b) && less(b, c) ==> less(a, c))
  }

  ghost predicate AllIn<T(!new)>(dom: T -> bool, s: seq<T>) { forall e :: e in s ==> dom(e) }

  ghost predicate Ascending<T>(less: (T, T) -> bool, s: seq<T>) {
    forall i, j :: 0 <= i < j < |s| ==> less(s[i], s[j])
  }

  ghost predicate SameElements<T(!new)>(a: seq<T>, b: seq<T>) { forall e :: e in a <==> e in b }

  ghost predicate Distinct<T>(s: seq<T>) { forall i, j :: 0 <= i < j < |s| ==> s[i] != s[j] }

  function Insert<T(==)>(less: (T, T) -> bool, e: T, s: seq<T>): seq<T> {
    if s == [] then [e]
    else if e == s[0] then s
    else if less(e, s[0]) then [e] + s
    else [s[0]] + Insert(less, e, s[1..])
  }

  /** The elements of `s`, each once, in ascending order. */
  function SortedSet<T(==)>(less: (T, T) -> bool, s: seq<T>): seq<T> {
    if s == [] then [] else Insert(less, s[0], SortedSet(less, s[1..]))
  }

  lemma {:induction false} InsertElements<T(!new)>(less: (T, T) -> bool, e: T, s: seq<T>)
    ensures forall x :: x in Insert(less, e, s) <==> x == e || x in s
    ensures e !in s ==> |Insert(less, e, s)| == |s| + 1
  {
    if s != [] && e != s[0] && !less(e, s[0]) {
      InsertElements(less, e, s[1..]);
    }
  }

  lemma {:induction false} InsertAscending<T(!new)>(less: (T, T) -> bool, dom: T -> bool, e: T, s: seq<T>)
    requires StrictTotalOn(less, dom) && dom(e) && AllIn(dom, s) && Ascending(less, s)
    ensures Ascending(less, Insert(less, e, s))
  {
    if s != [] && e != s[0] {
      if less(e, s[0]) {
        assert forall j :: 1 <= j < |s| ==> less(s[0], s[j]) && dom(s[j]);
      } else {
        InsertAscending(less, dom, e, s[1..]);
        InsertElements(less, e, s[1..]);
        var r := Insert(less, e, s[1..]);
        forall j | 0 <= j < |r| ensures less(s[0], r[j]) {
          assert r[j] in r;
          if r[j] != e {
            var k :| 0 <= k < |s[1..]| && s[1..][k] == r[j];
          }
        }
      }
    }
  }

  lemma {:induction false} SortedSetCorrect<T(!new)>(less: (T, T) -> bool, dom: T -> bool, s: seq<T>)
    requires StrictTotalOn(less, dom) && AllIn(dom, s)
    ensures Ascending(less, SortedSet(less, s)) && SameElements(SortedSet(less, s), s)
  {
    if s != [] {
      SortedSetCorrect(less, dom, s[1..]);
      assert forall x :: x in s <==> x == s[0] || x in s[1..];
      InsertElements(less, s[0], SortedSet(less, s[1..]));
      InsertAscending(less, dom, s[0], SortedSet(less, s[1..]));
    }
  }

  lemma {:induction false} AscendingUnique<T(!new)>(less: (T, T) -> bool, dom: T -> bool, a: seq<T>, b: seq<T>)
    requires StrictTotalOn(less, dom) && AllIn(dom, a)
    requires Ascending(less, a) && Ascending(less, b) && SameElements(a, b)
    ensures a == b
  {
    if a == [] {
      assert forall k :: 0 <= k < |b| ==> b[k] in b;
    } else {
      assert a[0] in b;
      assert b[0] in a;
      var i :| 0 <= i < |b| && b[i] == a[0];
      var j :| 0 <= j < |a| && a[j] == b[0];
      assert dom(a[0]) && dom(a[j]);
      assert a[0] == b[0];
      forall x ensures x in a[1..] <==> x in b[1..] {
        assert x in a[1..] ==> x in a && x != a[0];
        assert x in b[1..] ==> x in b && x != b[0];
        assert x in a <==> x == a[0] || x in a[1..];
        assert x in b <==> x == b[0] || x in b[1..];
      }
      AscendingUnique(less, dom, a[1..], b[1..]);
      assert a == [a[0]] + a[1..] && b == [b[0]] + b[1..];
    }
  }

  /** Sorting depends on the set of elements only. */
  lemma SortedSetDependsOnSet<T(!new)>(less: (T, T) -> bool, dom: T -> bool, a: seq<T>, b: seq<T>)
    requires StrictTotalOn(less, dom) && AllIn(dom, a) && SameElements(a, b)
    ensures SortedSet(less, a) == SortedSet(less, b)
  {
    SortedSetCorrect(less, dom, a);
    SortedSetCorrect(less, dom, b);
    AscendingUnique(less, dom, SortedSet(less, a), SortedSet(less, b));
  }

  /** Sorting a sequence without repetitions loses nothing. */
  lemma {:induction false} SortedSetLength<T(!new)>(less: (T, T) -> bool, dom: T -> bool, s: seq<T>)
    requires StrictTotalOn(less, dom) && AllIn(dom, s) && Distinct(s)
    ensures |SortedSet(less, s)| == |s|
  {
    if s != [] {
      SortedSetLength(less, dom, s[1..]);
      SortedSetCorrect(less, dom, s[1..]);
      var r := SortedSet(less, s[1..]);
      assert s[0] !in s[1..];
      InsertElements(less, s[0], r);
    }
  }

  function StringOrder(): (string, string) -> bool { (a, b) => Less(a, b) }

  function AnyString(): string -> bool { s => true }

  lemma StringOrderTotal()
    ensures StrictTotalOn(StringOrder(), AnyString())
  {
    var less := StringOrder();
    forall a ensures !less(a, a) { if Less(a, a) { LessAsymmetric(a, a); } }
    forall a, b ensures a == b || less(a, b) || less(b, a) { LessTotal(a, b); }
    forall x, y, z | less(x, y) && less(y, z) ensures less(x, z) { LessTransitive(x, y, z); }
  }
}

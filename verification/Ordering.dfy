/** `sorted` over strings: code-point order, and the canonical list of a set. */
module Ordering {

  /** Python's `a <= b` on strings. */
  predicate Leq(a: string, b: string) {
    a == "" || (b != "" && (a[0] < b[0] || (a[0] == b[0] && Leq(a[1..], b[1..]))))
  }

  lemma {:induction false} LeqTotal(a: string, b: string)
    ensures Leq(a, b) || Leq(b, a)
    ensures Leq(a, b) && Leq(b, a) ==> a == b
  {
    if a != "" && b != "" && a[0] == b[0] {
      LeqTotal(a[1..], b[1..]);
      assert a == [a[0]] + a[1..] && b == [b[0]] + b[1..];
    }
  }

  lemma {:induction false} LeqTransitive(a: string, b: string, c: string)
    requires Leq(a, b) && Leq(b, c)
    ensures Leq(a, c)
  {
    if a != "" && a[0] == b[0] == c[0] {
      LeqTransitive(a[1..], b[1..], c[1..]);
    }
  }

  /** Nothing comes after its own extensions; otherwise the first characters that differ decide. */
  lemma {:induction false} LeqExactly(a: string, b: string)
    ensures Leq(a, b) <==>
            a <= b || exists i :: 0 <= i < |a| && i < |b| && a[..i] == b[..i] && a[i] < b[i]
  {
    if a != "" && b != "" {
      if a[0] == b[0] {
        LeqExactly(a[1..], b[1..]);
        SameFirst(a, b);
      } else {
        assert a[..0] == b[..0];
        assert forall i :: 0 < i < |a| && i < |b| ==> a[..i][0] != b[..i][0];
      }
    }
  }

  lemma SameFirst(a: string, b: string)
    requires a != "" && b != "" && a[0] == b[0]
    ensures a[1..] <= b[1..] <==> a <= b
    ensures (exists i :: 0 <= i < |a[1..]| && i < |b[1..]| && a[1..][..i] == b[1..][..i] && a[1..][i] < b[1..][i])
            <==> exists i :: 0 <= i < |a| && i < |b| && a[..i] == b[..i] && a[i] < b[i]
  {
    assert a == [a[0]] + a[1..] && b == [b[0]] + b[1..];
    forall i | 0 <= i < |a[1..]| && i < |b[1..]|
      ensures a[1..][..i] == b[1..][..i] <==> a[..i + 1] == b[..i + 1]
      ensures a[1..][i] == a[i + 1] && b[1..][i] == b[i + 1]
    {
      assert a[..i + 1] == [a[0]] + a[1..][..i] && b[..i + 1] == [b[0]] + b[1..][..i];
      assert a[..i + 1][1..] == a[1..][..i] && b[..i + 1][1..] == b[1..][..i];
    }
    if i :| 0 <= i < |a| && i < |b| && a[..i] == b[..i] && a[i] < b[i] {
      assert a[1..][..i - 1] == b[1..][..i - 1] && a[1..][i - 1] < b[1..][i - 1];
    }
    if i :| 0 <= i < |a[1..]| && i < |b[1..]| && a[1..][..i] == b[1..][..i] && a[1..][i] < b[1..][i] {
      assert a[..i + 1] == b[..i + 1] && a[i + 1] < b[i + 1];
    }
  }

  predicate Sorted(s: seq<string>) {
    forall i :: 0 <= i < |s| - 1 ==> Leq(s[i], s[i + 1])
  }

  lemma {:induction false} HeadIsLeast(s: seq<string>, y: string)
    requires Sorted(s) && y in s
    ensures Leq(s[0], y)
  {
    if y == s[0] {
      LeqTotal(y, y);
    } else {
      assert y in s[1..];
      HeadIsLeast(s[1..], y);
      assert Leq(s[0], s[1]);
      LeqTransitive(s[0], s[1], y);
    }
  }

  predicate Distinct(s: seq<string>) {
    forall i, j :: 0 <= i < j < |s| ==> s[i] != s[j]
  }

  function Elems(s: seq<string>): set<string> { set x | x in s }

  function Insert(x: string, s: seq<string>): (r: seq<string>)
    requires Sorted(s)
    ensures Sorted(r) && multiset(r) == multiset(s) + multiset{x}
    ensures s == [] || Leq(x, s[0]) ==> r == [x] + s
    ensures r[0] == x || (s != [] && r[0] == s[0])
  {
    if s == [] || Leq(x, s[0]) then [x] + s
    else
      assert s == [s[0]] + s[1..];
      LeqTotal(x, s[0]);
      [s[0]] + Insert(x, s[1..])
  }

  /** `sorted(s)`. */
  function Sort(s: seq<string>): (r: seq<string>)
    ensures Sorted(r) && multiset(r) == multiset(s)
  {
    if s == [] then []
    else
      assert s == [s[0]] + s[1..];
      Insert(s[0], Sort(s[1..]))
  }

  lemma {:induction false} SortOfSorted(s: seq<string>)
    requires Sorted(s)
    ensures Sort(s) == s
  {
    if s != [] {
      SortOfSorted(s[1..]);
    }
  }

  lemma SortElems(s: seq<string>)
    ensures Elems(Sort(s)) == Elems(s)
    ensures |Sort(s)| == |s|
  {
    var r := Sort(s);
    forall x ensures x in r <==> x in s {
      assert x in r <==> x in multiset(r);
      assert x in s <==> x in multiset(s);
    }
    assert |multiset(r)| == |multiset(s)|;
  }

  /** `sorted(set)`: the elements of a set once each, in order. */
  function SortSet(s: set<string>): (r: seq<string>)
    ensures Sorted(r) && Distinct(r) && Elems(r) == s
  {
    if s == {} then []
    else
      LeastExists(s);
      LeastUnique(s);
      assert exists x :: x in s && forall y :: y in s ==> Leq(x, y) by {
        var x :| IsLeast(s, x);
      }
      var x :| x in s && forall y :: y in s ==> Leq(x, y);
      var rest := SortSet(s - {x});
      var r := [x] + rest;
      assert rest != [] ==> rest[0] in Elems(rest);
      assert forall y :: y in rest <==> y in Elems(rest);
      r
  }

  lemma LeastUnique(s: set<string>)
    ensures forall a, b :: a in s && b in s && Leq(a, b) && Leq(b, a) ==> a == b
  {
    forall a, b | a in s && b in s ensures Leq(a, b) && Leq(b, a) ==> a == b { LeqTotal(a, b); }
  }

  ghost predicate IsLeast(s: set<string>, x: string) {
    x in s && forall y :: y in s ==> Leq(x, y)
  }

  lemma {:induction false} LeastExists(s: set<string>)
    requires s != {}
    ensures exists x :: IsLeast(s, x)
  {
    hide Leq;
    var z :| z in s;
    LeqTotal(z, z);
    if s == {z} {
      assert IsLeast(s, z);
    } else {
      LeastExists(s - {z});
      var x :| IsLeast(s - {z}, x);
      LeqTotal(x, z);
      if Leq(x, z) {
        assert IsLeast(s, x);
      } else {
        forall y | y in s ensures Leq(z, y) {
          if y != z { LeqTransitive(z, x, y); }
        }
        assert IsLeast(s, z);
      }
    }
  }

  lemma ElemsEmpty(s: seq<string>)
    ensures Elems(s) == {} <==> s == []
  {
    if s != [] {
      assert s[0] in Elems(s);
    }
  }

  /** Two ordered lists of distinct strings over the same elements are one list. */
  lemma {:induction false} SortedDistinctUnique(a: seq<string>, b: seq<string>)
    requires Sorted(a) && Distinct(a) && Sorted(b) && Distinct(b)
    requires Elems(a) == Elems(b)
    ensures a == b
  {
    ElemsEmpty(a);
    ElemsEmpty(b);
    if a != [] {
      assert a[0] in Elems(b) && b[0] in Elems(a);
      HeadIsLeast(a, b[0]);
      HeadIsLeast(b, a[0]);
      LeqTotal(a[0], b[0]);
      forall x ensures x in a[1..] <==> x in b[1..] {
        assert x in a[1..] <==> x in Elems(a) && x != a[0];
        assert x in b[1..] <==> x in Elems(b) && x != b[0];
      }
      SortedDistinctUnique(a[1..], b[1..]);
      assert a == [a[0]] + a[1..] && b == [b[0]] + b[1..];
    }
  }

  /** Sorting a list gives the canonical list of a set exactly when the list holds
      each element of that set once. */
  lemma SortIsSortSet(s: seq<string>, e: set<string>)
    ensures Sort(s) == SortSet(e) <==> Distinct(s) && Elems(s) == e
  {
    SortElems(s);
    if Sort(s) == SortSet(e) {
      DistinctFromMultiset(s, Sort(s));
    }
    if Distinct(s) && Elems(s) == e {
      DistinctFromMultiset(Sort(s), s);
      SortedDistinctUnique(Sort(s), SortSet(e));
    }
  }

  lemma DistinctFromMultiset(a: seq<string>, b: seq<string>)
    requires multiset(a) == multiset(b) && Distinct(b)
    ensures Distinct(a)
  {
    forall i, j | 0 <= i < j < |a| ensures a[i] != a[j] {
      if a[i] == a[j] {
        var x := a[i];
        assert a == a[..i] + [x] + a[i + 1..j] + [x] + a[j + 1..];
        assert multiset(a)[x] >= 2;
        DistinctCount(b, x);
      }
    }
  }

  lemma {:induction false} DistinctCount(b: seq<string>, x: string)
    requires Distinct(b)
    ensures multiset(b)[x] <= 1
  {
    if b != [] {
      DistinctCount(b[1..], x);
      assert b == [b[0]] + b[1..];
      assert b[0] !in b[1..];
    }
  }
}

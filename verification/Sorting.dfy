/** Sorting a set: what collecting a map's keys and calling sort.Ints or sort.Strings leaves. */
module Sorting {
  import opened Sequences

  ghost predicate TotalOrder<T(!new)>(less: (T, T) -> bool) {
    && (forall a, b :: less(a, b) ==> !less(b, a))
    && (forall a, b :: less(a, b) || less(b, a) || a == b)
    && (forall a, b, c :: less(a, b) && less(b, c) ==> less(a, c))
  }

  ghost predicate Increasing<T(!new)>(s: seq<T>, less: (T, T) -> bool) {
    forall i, j :: 0 <= i < j < |s| ==> less(s[i], s[j])
  }

  ghost predicate IsLargest<T(!new)>(m: T, s: set<T>, less: (T, T) -> bool) {
    m in s && forall x :: x in s && x != m ==> less(x, m)
  }

  lemma Largest<T(!new)>(s: set<T>, less: (T, T) -> bool) returns (m: T)
    requires TotalOrder(less) && s != {}
    ensures IsLargest(m, s, less)
  {
    m :| m in s;
    var rest := s - {m};
    assert forall x :: x in s ==> x == m || x in rest;
    if rest != {} {
      var k := Largest(rest, less);
      if less(m, k) { m := k; }
    }
  }

  /** The elements of `s` in ascending order. */
  ghost function Ascending<T(!new)>(s: set<T>, less: (T, T) -> bool): (r: seq<T>)
    requires TotalOrder(less)
    ensures Increasing(r, less) && Elements(r) == s
  {
    if s == {} then []
    else
      assert exists m :: IsLargest(m, s, less) by { var m := Largest(s, less); }
      var m :| IsLargest(m, s, less);
      var rest := Ascending(s - {m}, less);
      assert forall x :: x in rest ==> x in Elements(rest);
      Snoc(rest, m, s);
      rest + [m]
  }

  lemma Snoc<T(!new)>(rest: seq<T>, m: T, s: set<T>)
    requires m in s && Elements(rest) == s - {m}
    ensures Elements(rest + [m]) == s
  {
    forall x ensures x in Elements(rest + [m]) <==> x in s {
      assert x in rest <==> x in Elements(rest);
    }
  }

  lemma SomeElement<T(!new)>(s: seq<T>)
    ensures s == [] <==> Elements(s) == {}
  {
    if s != [] { assert s[0] in Elements(s); }
  }

  /** A set has only one ascending enumeration. */
  lemma {:induction false} AscendingUnique<T(!new)>(s: seq<T>, t: seq<T>, less: (T, T) -> bool)
    requires TotalOrder(less) && Increasing(s, less) && Increasing(t, less) && Elements(s) == Elements(t)
    ensures s == t
  {
    if s == [] || t == [] {
      SomeElement(s);
      SomeElement(t);
    } else {
      var n, m := |s| - 1, |t| - 1;
      assert s[n] in Elements(t) && t[m] in Elements(s);
      assert s[n] == t[m];
      var s', t' := s[..n], t[..m];
      forall x ensures x in s' <==> x in t' {
        assert x in s' <==> x in Elements(s) && x != s[n];
        assert x in t' <==> x in Elements(t) && x != t[m];
      }
      assert Elements(s') == Elements(t');
      AscendingUnique(s', t', less);
      assert s == s' + [s[n]] && t == t' + [t[m]];
    }
  }

  method Insert<T(==, !new)>(s: seq<T>, x: T, less: (T, T) -> bool) returns (r: seq<T>)
    requires TotalOrder(less) && Increasing(s, less) && x !in s
    ensures Increasing(r, less) && Elements(r) == Elements(s) + {x}
  {
    var i := 0;
    while i < |s| && less(s[i], x)
      invariant i <= |s| && forall j :: 0 <= j < i ==> less(s[j], x)
    {
      i := i + 1;
    }
    assert forall j :: i <= j < |s| ==> less(x, s[j]) by {
      assert i < |s| ==> less(x, s[i]);
    }
    r := s[..i] + [x] + s[i..];
    forall y ensures y in Elements(r) <==> y in Elements(s) + {x} {
      assert y in r <==> y in s[..i] || y == x || y in s[i..];
    }
  }

  /** Ranging over a map's keys in any order and sorting them. */
  method SortedKeys<T(==, !new)>(s: set<T>, less: (T, T) -> bool) returns (r: seq<T>)
    requires TotalOrder(less)
    ensures r == Ascending(s, less)
  {
    r := [];
    var rest := s;
    while rest != {}
      invariant Increasing(r, less) && rest <= s && Elements(r) == s - rest
    {
      var x :| x in rest;
      assert x !in r by { assert x !in Elements(r); }
      r := Insert(r, x, less);
      rest := rest - {x};
    }
    AscendingUnique(r, Ascending(s, less), less);
  }

  predicate NatLess(a: nat, b: nat) {
    a < b
  }

  lemma NatLessTotal()
    ensures TotalOrder(NatLess)
  {
  }
}

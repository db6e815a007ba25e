/** Sequence helpers behind JavaScript's `includes`, `filter(x => x !== id)` and
    duplicate-free lists, shared by the selection, expansion and history models. */
module Seqs {

  /** No value occurs twice. */
  predicate NoDups<T(==)>(s: seq<T>)
  {
    forall i, j :: 0 <= i < j < |s| ==> s[i] != s[j]
  }

  /** `s.filter(y => y !== x)`: every occurrence of `x` dropped, the rest kept in order. */
  function Without<T(==,!new)>(s: seq<T>, x: T): (r: seq<T>)
    ensures forall y :: y in r <==> y in s && y != x
    ensures |r| <= |s|
  {
    if s == [] then [] else (if s[0] == x then [] else [s[0]]) + Without(s[1..], x)
  }

  /** Drops every element that lies in `d`, keeping the others in their order. */
  function FilterOut<T(==,!new)>(s: seq<T>, d: set<T>): (r: seq<T>)
    ensures forall y :: y in r <==> y in s && y !in d
    ensures |r| <= |s|
  {
    if s == [] then [] else (if s[0] in d then [] else [s[0]]) + FilterOut(s[1..], d)
  }

  lemma NoDupsCons<T(!new)>(s: seq<T>)
    requires s != []
    ensures NoDups(s) <==> s[0] !in s[1..] && NoDups(s[1..])
  {
    if s[0] !in s[1..] && NoDups(s[1..]) {
      forall i, j | 0 <= i < j < |s| ensures s[i] != s[j] {
        if i > 0 {
          assert s[i] == s[1..][i - 1] && s[j] == s[1..][j - 1];
        } else {
          assert s[j] == s[1..][j - 1];
        }
      }
    }
    if NoDups(s) {
      forall i, j | 0 <= i < j < |s[1..]| ensures s[1..][i] != s[1..][j] {
        assert s[1..][i] == s[i + 1] && s[1..][j] == s[j + 1];
      }
    }
  }

  lemma NoDupsSnoc<T(!new)>(s: seq<T>, x: T)
    requires NoDups(s) && x !in s
    ensures NoDups(s + [x])
  {
    var t := s + [x];
    forall i, j | 0 <= i < j < |t| ensures t[i] != t[j] {
      if j == |s| {
        assert t[i] == s[i];
      } else {
        assert t[i] == s[i] && t[j] == s[j];
      }
    }
  }

  lemma {:induction false} WithoutAppend<T(!new)>(a: seq<T>, b: seq<T>, x: T)
    ensures Without(a + b, x) == Without(a, x) + Without(b, x)
  {
    if a == [] {
      assert a + b == b;
    } else {
      assert (a + b)[0] == a[0];
      assert (a + b)[1..] == a[1..] + b;
      WithoutAppend(a[1..], b, x);
    }
  }

  lemma {:induction false} WithoutAbsent<T(!new)>(s: seq<T>, x: T)
    requires x !in s
    ensures Without(s, x) == s
  {
    if s != [] {
      assert x !in s[1..];
      WithoutAbsent(s[1..], x);
      assert [s[0]] + s[1..] == s;
    }
  }

  lemma {:induction false} WithoutIsFilterOut<T(!new)>(s: seq<T>, x: T)
    ensures Without(s, x) == FilterOut(s, {x})
  {
    if s != [] {
      WithoutIsFilterOut(s[1..], x);
    }
  }

  lemma {:induction false} FilterOutAppend<T(!new)>(a: seq<T>, b: seq<T>, d: set<T>)
    ensures FilterOut(a + b, d) == FilterOut(a, d) + FilterOut(b, d)
  {
    if a == [] {
      assert a + b == b;
    } else {
      assert (a + b)[0] == a[0];
      assert (a + b)[1..] == a[1..] + b;
      FilterOutAppend(a[1..], b, d);
    }
  }

  lemma {:induction false} FilterOutNothing<T(!new)>(s: seq<T>, d: set<T>)
    requires forall y :: y in s ==> y !in d
    ensures FilterOut(s, d) == s
  {
    if s != [] {
      FilterOutNothing(s[1..], d);
      assert [s[0]] + s[1..] == s;
    }
  }

  lemma {:induction false} FilterOutTwice<T(!new)>(s: seq<T>, a: set<T>, b: set<T>)
    ensures FilterOut(FilterOut(s, a), b) == FilterOut(s, a + b)
  {
    if s != [] {
      var head := if s[0] in a then [] else [s[0]];
      FilterOutAppend(head, FilterOut(s[1..], a), b);
      FilterOutTwice(s[1..], a, b);
      if s[0] !in a {
        assert FilterOut(head, b) == (if s[0] in b then [] else [s[0]]) + FilterOut([], b);
      }
    }
  }

  lemma {:induction false} NoDupsFilterOut<T(!new)>(s: seq<T>, d: set<T>)
    requires NoDups(s)
    ensures NoDups(FilterOut(s, d))
  {
    if s != [] {
      NoDupsCons(s);
      NoDupsFilterOut(s[1..], d);
      var rest := FilterOut(s[1..], d);
      if s[0] !in d {
        assert FilterOut(s, d) == [s[0]] + rest;
        assert ([s[0]] + rest)[1..] == rest;
        NoDupsCons([s[0]] + rest);
      }
    }
  }
}

/** `[...list].sort(compare)` over resources.  The engine's sort algorithm is not
    part of the model: an insertion sort driven by the same comparator stands in
    for it, and what is proved about it holds for any comparator that puts
    directories before files (a permutation, directories first). */
module Sorting {
  import opened Resources

  type Comparator = (Resource, Resource) -> int

  /** `x` goes in front of the first element it does not compare above. */
  function Insert(x: Resource, s: seq<Resource>, cmp: Comparator): (r: seq<Resource>)
    ensures multiset(r) == multiset(s) + multiset{x}
    ensures |r| == |s| + 1
  {
    if s == [] then [x]
    else if cmp(x, s[0]) <= 0 then [x] + s
    else
      assert s == [s[0]] + s[1..];
      [s[0]] + Insert(x, s[1..], cmp)
  }

  function SortBy(s: seq<Resource>, cmp: Comparator): (r: seq<Resource>)
    ensures multiset(r) == multiset(s)
    ensures |r| == |s|
  {
    if s == [] then []
    else
      assert s == [s[0]] + s[1..];
      Insert(s[0], SortBy(s[1..], cmp), cmp)
  }

  /** The comparator ranks every directory before every file. */
  ghost predicate TypeOrdered(cmp: Comparator)
  {
    forall a: Resource, b: Resource :: a.inodeType == Directory && b.inodeType == File ==> cmp(a, b) < 0 && cmp(b, a) > 0
  }

  predicate AllFiles(s: seq<Resource>)
  {
    forall y :: y in s ==> y.inodeType == File
  }

  /** No file comes before a directory. */
  predicate DirsFirst(s: seq<Resource>)
  {
    forall i, j :: 0 <= i < j < |s| ==> !(s[i].inodeType == File && s[j].inodeType == Directory)
  }

  lemma DirsFirstCons(s: seq<Resource>)
    requires s != []
    ensures DirsFirst(s) <==> (s[0].inodeType == File ==> AllFiles(s[1..])) && DirsFirst(s[1..])
  {
    if (s[0].inodeType == File ==> AllFiles(s[1..])) && DirsFirst(s[1..]) {
      forall i, j | 0 <= i < j < |s| ensures !(s[i].inodeType == File && s[j].inodeType == Directory) {
        assert s[j] == s[1..][j - 1];
        if i > 0 {
          assert s[i] == s[1..][i - 1];
        }
      }
    }
    if DirsFirst(s) {
      forall y | y in s[1..] && s[0].inodeType == File ensures y.inodeType == File {
        var j :| 0 <= j < |s[1..]| && s[1..][j] == y;
        assert s[j + 1] == y;
      }
      forall i, j | 0 <= i < j < |s[1..]| ensures !(s[1..][i].inodeType == File && s[1..][j].inodeType == Directory) {
        assert s[1..][i] == s[i + 1] && s[1..][j] == s[j + 1];
      }
    }
  }

  lemma {:induction false} InsertKeepsOrder(x: Resource, s: seq<Resource>, cmp: Comparator)
    requires TypeOrdered(cmp) && DirsFirst(s)
    ensures DirsFirst(Insert(x, s, cmp))
    ensures x.inodeType == File && AllFiles(s) ==> AllFiles(Insert(x, s, cmp))
  {
    var r := Insert(x, s, cmp);
    if s == [] {
    } else if cmp(x, s[0]) <= 0 {
      DirsFirstCons(s);
      if x.inodeType == File {
        assert s[0].inodeType == File;
        assert forall y :: y in s ==> y == s[0] || y in s[1..];
      }
      assert r[1..] == s;
      DirsFirstCons(r);
    } else {
      DirsFirstCons(s);
      InsertKeepsOrder(x, s[1..], cmp);
      var rest := Insert(x, s[1..], cmp);
      assert r[1..] == rest;
      if s[0].inodeType == File {
        assert x.inodeType == File;
        assert forall y :: y in rest ==> y == x || y in s[1..] by {
          assert forall y :: y in rest <==> y in multiset(rest);
        }
      }
      DirsFirstCons(r);
    }
  }

  /** Sorting with a comparator that ranks directories first puts every
      directory before every file. */
  lemma {:induction false} SortDirsFirst(s: seq<Resource>, cmp: Comparator)
    requires TypeOrdered(cmp)
    ensures DirsFirst(SortBy(s, cmp))
  {
    if s != [] {
      SortDirsFirst(s[1..], cmp);
      InsertKeepsOrder(s[0], SortBy(s[1..], cmp), cmp);
    }
  }
}

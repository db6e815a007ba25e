/** The resource table of the refactored picker: the sort header state, the
    search filter and the sort comparator. */
module ResourceTable {
  import opened Wrappers
  import opened Seqs
  import opened Text
  import opened Resources
  import opened Sorting

  /** The sort direction takes only the values "asc" and "desc". */
  datatype Direction = Asc | Desc

  datatype SortState = SortState(field: string, direction: Direction)

  const InitialSort: SortState := SortState("name", Asc)

  /** `handleSort(field)`: the current field flips the direction, a new field is
      taken with the direction reset to ascending. */
  function HandleSort(s: SortState, field: string): (r: SortState)
    ensures r.field == field
    ensures s.field == field ==> r.direction != s.direction
    ensures s.field != field ==> r.direction == Asc
  {
    if s.field == field then SortState(field, if s.direction == Asc then Desc else Asc)
    else SortState(field, Asc)
  }

  /** Clicking the same header twice restores the sort state. */
  lemma HandleSortTwice(s: SortState)
    ensures HandleSort(HandleSort(s, s.field), s.field) == s
  {
  }

  // ---------------------------------------------------------------------------
  // Search filter

  /** The lowercased path contains the lowercased search term. */
  predicate MatchesSearch(r: Resource, term: string)
  {
    Includes(Lower(r.path), Lower(term))
  }

  /** `resources.filter(r => r.inode_path.path.toLowerCase().includes(term.toLowerCase()))`. */
  function FilterBySearch(rs: seq<Resource>, term: string): (out: seq<Resource>)
    ensures forall x :: x in out <==> x in rs && MatchesSearch(x, term)
    ensures |out| <= |rs|
  {
    if rs == [] then []
    else (if MatchesSearch(rs[0], term) then [rs[0]] else []) + FilterBySearch(rs[1..], term)
  }

  /** The filter keeps the resources in their order: it distributes over
      concatenation. */
  lemma {:induction false} FilterBySearchAppend(a: seq<Resource>, b: seq<Resource>, term: string)
    ensures FilterBySearch(a + b, term) == FilterBySearch(a, term) + FilterBySearch(b, term)
  {
    if a == [] {
      assert a + b == b;
    } else {
      assert (a + b)[0] == a[0];
      assert (a + b)[1..] == a[1..] + b;
      FilterBySearchAppend(a[1..], b, term);
    }
  }

  /** An empty search term keeps every resource. */
  lemma {:induction false} FilterEmptyTerm(rs: seq<Resource>)
    ensures FilterBySearch(rs, "") == rs
  {
    if rs != [] {
      IncludesEmpty(Lower(rs[0].path));
      FilterEmptyTerm(rs[1..]);
      assert [rs[0]] + rs[1..] == rs;
    }
  }

  // ---------------------------------------------------------------------------
  // Sort comparator

  /** The sort key: the lowercased display name for "name", the status or `""`
      for "status", the resource id for any other field. */
  function SortKey(field: string, r: Resource): string
  {
    if field == "name" then Lower(FileName(r.path))
    else if field == "status" then (if Truthy(r.status) then r.status.value else "")
    else r.resourceId
  }

  /** `valA > valB ? 1 : -1`: equal keys compare as -1. */
  function Greater(valA: string, valB: string): int
  {
    if LexLess(valB, valA) then 1 else -1
  }

  function Directed(d: Direction, comparison: int): int
  {
    if d == Asc then comparison else -comparison
  }

  /** The comparator: a directory sorts before a file; two resources of the same
      type compare by their keys, in the header's direction. */
  function Compare(sort: SortState, a: Resource, b: Resource): (c: int)
    ensures c == 1 || c == -1
    ensures a.inodeType != b.inodeType ==> (c == -1 <==> a.inodeType == Directory)
  {
    if a.inodeType != b.inodeType then (if a.inodeType == Directory then -1 else 1)
    else Directed(sort.direction, Greater(SortKey(sort.field, a), SortKey(sort.field, b)))
  }

  /** For two resources of the same type, the ascending comparison follows the
      keys, and descending negates it. */
  lemma CompareSameType(sort: SortState, a: Resource, b: Resource)
    requires a.inodeType == b.inodeType
    ensures Compare(SortState(sort.field, Asc), a, b) == 1 <==> LexLess(SortKey(sort.field, b), SortKey(sort.field, a))
    ensures Compare(SortState(sort.field, Desc), a, b) == -Compare(SortState(sort.field, Asc), a, b)
  {
  }

  /** The comparator never answers 0: two resources with equal keys each compare
      below the other, so it is not a consistent order. */
  lemma EqualKeysBothBelow(sort: SortState, a: Resource, b: Resource)
    requires a.inodeType == b.inodeType && SortKey(sort.field, a) == SortKey(sort.field, b)
    ensures Compare(sort, a, b) == Compare(sort, b, a)
    ensures Compare(sort, a, b) == (if sort.direction == Asc then -1 else 1)
  {
    LexLessIrreflexive(SortKey(sort.field, a));
  }

  /** On distinct keys the comparator is antisymmetric. */
  lemma DistinctKeysAntisymmetric(sort: SortState, a: Resource, b: Resource)
    requires SortKey(sort.field, a) != SortKey(sort.field, b)
    ensures Compare(sort, a, b) == -Compare(sort, b, a)
  {
    var ka, kb := SortKey(sort.field, a), SortKey(sort.field, b);
    LexLessTotal(ka, kb);
    if LexLess(ka, kb) {
      LexLessAsymmetric(ka, kb);
    } else {
      LexLessAsymmetric(kb, ka);
    }
  }

  lemma CompareTypeOrdered(sort: SortState)
    ensures TypeOrdered((a, b) => Compare(sort, a, b))
  {
  }

  /** The rows the table shows: the filtered resources, sorted. */
  function TableRows(resources: seq<Resource>, term: string, sort: SortState): seq<Resource>
  {
    SortBy(FilterBySearch(resources, term), (a, b) => Compare(sort, a, b))
  }

  /** The table shows exactly the matching resources, each as often as it
      occurs, with every directory before every file. */
  lemma TableRowsSpec(resources: seq<Resource>, term: string, sort: SortState)
    ensures multiset(TableRows(resources, term, sort)) == multiset(FilterBySearch(resources, term))
    ensures forall x :: x in TableRows(resources, term, sort) <==> x in resources && MatchesSearch(x, term)
    ensures DirsFirst(TableRows(resources, term, sort))
  {
    var rows := TableRows(resources, term, sort);
    CompareTypeOrdered(sort);
    SortDirsFirst(FilterBySearch(resources, term), (a, b) => Compare(sort, a, b));
    assert forall x :: x in rows <==> x in multiset(rows);
  }
}

/** The expansion hook: the expanded folders are a list of ids, changed only by
    state updaters that filter an id out or append it. */
module Expansion {
  import opened Seqs

  /** `toggleExpand(id)`: a present id is filtered out (every occurrence), an
      absent one is appended. */
  function ToggleExpand(prev: seq<string>, id: string): (r: seq<string>)
    ensures id in r <==> id !in prev
    ensures forall x :: x != id ==> (x in r <==> x in prev)
    ensures id !in prev ==> r == prev + [id]
    ensures id in prev ==> r == CollapseFolder(prev, id)
  {
    if id in prev then Without(prev, id) else prev + [id]
  }

  /** `isExpanded(id)`. */
  function IsExpanded(expanded: seq<string>, id: string): bool
  {
    id in expanded
  }

  /** `expandFolder(id)`: appends only when the id is not already expanded.
      The old list is a prefix of the new one, which holds the old ids and the
      id, and grows by one exactly when the id was missing. */
  function ExpandFolder(prev: seq<string>, id: string): (r: seq<string>)
    ensures prev <= r && |r| <= |prev| + 1
    ensures forall x :: x in r <==> x in prev || x == id
    ensures |r| == |prev| <==> id in prev
  {
    if id in prev then prev else prev + [id]
  }

  /** `collapseFolder(id)`: every occurrence is filtered out. */
  function CollapseFolder(prev: seq<string>, id: string): (r: seq<string>)
    ensures forall x :: x in r <==> x in prev && x != id
    ensures |r| <= |prev|
  {
    Without(prev, id)
  }

  /** Collapsing keeps the other ids in their order: it distributes over
      concatenation and leaves a list without the id untouched. */
  lemma CollapsePreservesOrder(a: seq<string>, b: seq<string>, id: string)
    ensures CollapseFolder(a + b, id) == CollapseFolder(a, id) + CollapseFolder(b, id)
    ensures id !in a ==> CollapseFolder(a, id) == a
  {
    WithoutAppend(a, b, id);
    if id !in a {
      WithoutAbsent(a, id);
    }
  }

  /** Toggling an absent id twice restores the list exactly. */
  lemma ToggleTwiceRestores(l: seq<string>, id: string)
    requires id !in l
    ensures ToggleExpand(ToggleExpand(l, id), id) == l
  {
    WithoutAppend(l, [id], id);
    WithoutAbsent(l, id);
    assert Without([id], id) == [];
  }

  lemma ExpandIdempotent(l: seq<string>, id: string)
    ensures ExpandFolder(ExpandFolder(l, id), id) == ExpandFolder(l, id)
  {
  }

  lemma {:induction false} CollapseIdempotent(l: seq<string>, id: string)
    ensures CollapseFolder(CollapseFolder(l, id), id) == CollapseFolder(l, id)
  {
    WithoutAbsent(Without(l, id), id);
  }

  /** `isExpanded` holds after `expandFolder` and fails after `collapseFolder`. */
  lemma ExpandedAfter(l: seq<string>, id: string)
    ensures IsExpanded(ExpandFolder(l, id), id)
    ensures !IsExpanded(CollapseFolder(l, id), id)
    ensures forall x :: x != id ==> (IsExpanded(ExpandFolder(l, id), x) <==> IsExpanded(l, x))
  {
  }

  /** No operation introduces a duplicate into a duplicate-free list. */
  lemma ExpansionKeepsNoDups(l: seq<string>, id: string)
    requires NoDups(l)
    ensures NoDups(ToggleExpand(l, id))
    ensures NoDups(ExpandFolder(l, id))
    ensures NoDups(CollapseFolder(l, id))
  {
    WithoutIsFilterOut(l, id);
    NoDupsFilterOut(l, {id});
    if id !in l {
      NoDupsSnoc(l, id);
    }
  }
}

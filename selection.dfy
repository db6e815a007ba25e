/** The selection hook: a selection is an ordered list of resource ids (order and
    duplicates show in the leaf list), and selecting or deselecting a folder
    cascades through the children already loaded into the child map.

    The cascade recurses into every child whose inode type is a directory and
    keeps no visited set, so it terminates only on an acyclic map.  Acyclicity is
    stated with a ghost `rank`: every directory child ranks below its parent
    (`DirRanked`), or, for the leaf lemma, every child does (`Ranked`). */
module Selection {
  import opened Seqs
  import opened Resources

  function RankOf(rank: map<string, nat>, id: string): nat
  {
    if id in rank then rank[id] else 0
  }

  /** Every directory among `kids` ranks below `bound`. */
  ghost predicate KidsBelow(rank: map<string, nat>, kids: seq<Resource>, bound: nat)
  {
    forall c :: c in kids && c.inodeType == Directory ==> RankOf(rank, c.resourceId) < bound
  }

  /** Following directory children through the map always descends in rank. */
  ghost predicate DirRanked(m: ChildMap, rank: map<string, nat>)
  {
    forall p :: p in m ==> KidsBelow(rank, m[p], RankOf(rank, p))
  }

  /** Following any child through the map always descends in rank. */
  ghost predicate Ranked(m: ChildMap, rank: map<string, nat>)
  {
    forall p, c :: p in m && c in m[p] ==> RankOf(rank, c.resourceId) < RankOf(rank, p)
  }

  lemma RankedIsDirRanked(m: ChildMap, rank: map<string, nat>)
    requires Ranked(m, rank)
    ensures DirRanked(m, rank)
  {
  }

  // ---------------------------------------------------------------------------
  // Reference definition: the ids reachable from a folder

  /** The ids reachable from `p`: its known children, and, below every child that
      is a directory, that child's own descendants. */
  ghost function Descendants(m: ChildMap, rank: map<string, nat>, p: string): set<string>
    requires DirRanked(m, rank)
    decreases RankOf(rank, p), 1, 0
  {
    DescendantsOfList(m, rank, RankOf(rank, p), ChildrenOf(m, p))
  }

  ghost function DescendantsOfList(m: ChildMap, rank: map<string, nat>, bound: nat, kids: seq<Resource>): set<string>
    requires DirRanked(m, rank) && KidsBelow(rank, kids, bound)
    decreases bound, 0, |kids|
  {
    if kids == [] then {}
    else
      var c := kids[0];
      {c.resourceId}
      + (if c.inodeType == Directory then Descendants(m, rank, c.resourceId) else {})
      + DescendantsOfList(m, rank, bound, kids[1..])
  }

  // ---------------------------------------------------------------------------
  // The cascades, as the source's recursive helpers compute them

  /** `addChildren(p)` run on `sel`: each known child is pushed unless present,
      then a directory child's own children are added. */
  function WithChildren(m: ChildMap, ghost rank: map<string, nat>, p: string, sel: seq<string>): seq<string>
    requires DirRanked(m, rank)
    decreases RankOf(rank, p), 1, 0
  {
    WithChildrenList(m, rank, RankOf(rank, p), ChildrenOf(m, p), sel)
  }

  function WithChildrenList(m: ChildMap, ghost rank: map<string, nat>, ghost bound: nat, kids: seq<Resource>, sel: seq<string>): seq<string>
    requires DirRanked(m, rank) && KidsBelow(rank, kids, bound)
    decreases bound, 0, |kids|
  {
    if kids == [] then sel
    else
      var c := kids[0];
      var pushed := if c.resourceId in sel then sel else sel + [c.resourceId];
      var below := if c.inodeType == Directory then WithChildren(m, rank, c.resourceId, pushed) else pushed;
      WithChildrenList(m, rank, bound, kids[1..], below)
  }

  /** `removeChildren(p)` run on `sel`: every occurrence of each known child is
      filtered out, then a directory child's own children are removed. */
  function WithoutChildren(m: ChildMap, ghost rank: map<string, nat>, p: string, sel: seq<string>): seq<string>
    requires DirRanked(m, rank)
    decreases RankOf(rank, p), 1, 0
  {
    WithoutChildrenList(m, rank, RankOf(rank, p), ChildrenOf(m, p), sel)
  }

  function WithoutChildrenList(m: ChildMap, ghost rank: map<string, nat>, ghost bound: nat, kids: seq<Resource>, sel: seq<string>): seq<string>
    requires DirRanked(m, rank) && KidsBelow(rank, kids, bound)
    decreases bound, 0, |kids|
  {
    if kids == [] then sel
    else
      var c := kids[0];
      var filtered := Without(sel, c.resourceId);
      var below := if c.inodeType == Directory then WithoutChildren(m, rank, c.resourceId, filtered) else filtered;
      WithoutChildrenList(m, rank, bound, kids[1..], below)
  }

  // ---------------------------------------------------------------------------
  // "Only appends fresh ids"

  /** `r` is `s` followed by ids that are pairwise distinct and absent from `s`. */
  predicate AppendsFresh(s: seq<string>, r: seq<string>)
  {
    |s| <= |r| && r[..|s|] == s && NoDups(r[|s|..])
    && forall k :: |s| <= k < |r| ==> r[k] !in s
  }

  lemma AppendsFreshRefl(s: seq<string>)
    ensures AppendsFresh(s, s)
  {
  }

  lemma AppendsFreshSnoc(s: seq<string>, x: string)
    requires x !in s
    ensures AppendsFresh(s, s + [x])
  {
    assert (s + [x])[..|s|] == s;
    assert (s + [x])[|s|..] == [x];
  }

  lemma AppendsFreshTrans(a: seq<string>, b: seq<string>, c: seq<string>)
    requires AppendsFresh(a, b) && AppendsFresh(b, c)
    ensures AppendsFresh(a, c)
  {
    assert c[..|a|] == c[..|b|][..|a|];
    var t := c[|a|..];
    assert t == b[|a|..] + c[|b|..];
    forall i, j | 0 <= i < j < |t| ensures t[i] != t[j] {
      var n := |b| - |a|;
      if j < n {
        assert t[i] == b[|a|..][i] && t[j] == b[|a|..][j];
      } else if i < n {
        assert t[i] == b[|a| + i] && b[|a| + i] in b;
        assert t[j] == c[|a| + j] && c[|a| + j] !in b;
      } else {
        assert t[i] == c[|b|..][i - n] && t[j] == c[|b|..][j - n];
      }
    }
    forall k | |a| <= k < |c| ensures c[k] !in a {
      if k < |b| {
        assert c[k] == b[k];
      } else {
        assert c[k] !in b;
        assert forall y :: y in a ==> y in b[..|a|];
      }
    }
  }

  lemma AppendsFreshNoDups(a: seq<string>, b: seq<string>)
    requires NoDups(a) && AppendsFresh(a, b)
    ensures NoDups(b)
  {
    forall i, j | 0 <= i < j < |b| ensures b[i] != b[j] {
      if j < |a| {
        assert b[i] == a[i] && b[j] == a[j];
      } else if i < |a| {
        assert b[i] == a[i];
      } else {
        assert b[i] == b[|a|..][i - |a|] && b[j] == b[|a|..][j - |a|];
      }
    }
  }

  // ---------------------------------------------------------------------------
  // What the cascades compute

  /** `addChildren` only appends fresh ids, and what it adds is exactly the
      reachable ids not already selected. */
  lemma {:induction false} WithChildrenSpec(m: ChildMap, rank: map<string, nat>, p: string, sel: seq<string>)
    requires DirRanked(m, rank)
    ensures AppendsFresh(sel, WithChildren(m, rank, p, sel))
    ensures forall x :: x in WithChildren(m, rank, p, sel) <==> x in sel || x in Descendants(m, rank, p)
    decreases RankOf(rank, p), 1, 0
  {
    WithChildrenListSpec(m, rank, RankOf(rank, p), ChildrenOf(m, p), sel);
  }

  lemma {:induction false} WithChildrenListSpec(m: ChildMap, rank: map<string, nat>, bound: nat, kids: seq<Resource>, sel: seq<string>)
    requires DirRanked(m, rank) && KidsBelow(rank, kids, bound)
    ensures AppendsFresh(sel, WithChildrenList(m, rank, bound, kids, sel))
    ensures forall x :: x in WithChildrenList(m, rank, bound, kids, sel) <==> x in sel || x in DescendantsOfList(m, rank, bound, kids)
    decreases bound, 0, |kids|
  {
    if kids == [] {
      AppendsFreshRefl(sel);
    } else {
      var c := kids[0];
      var pushed := if c.resourceId in sel then sel else sel + [c.resourceId];
      if c.resourceId in sel {
        AppendsFreshRefl(sel);
      } else {
        AppendsFreshSnoc(sel, c.resourceId);
      }
      var below := if c.inodeType == Directory then WithChildren(m, rank, c.resourceId, pushed) else pushed;
      if c.inodeType == Directory {
        WithChildrenSpec(m, rank, c.resourceId, pushed);
        AppendsFreshTrans(sel, pushed, below);
      }
      WithChildrenListSpec(m, rank, bound, kids[1..], below);
      AppendsFreshTrans(sel, below, WithChildrenList(m, rank, bound, kids[1..], below));
    }
  }

  /** `removeChildren` removes exactly the reachable ids and keeps every other
      id, in order. */
  lemma {:induction false} WithoutChildrenSpec(m: ChildMap, rank: map<string, nat>, p: string, sel: seq<string>)
    requires DirRanked(m, rank)
    ensures WithoutChildren(m, rank, p, sel) == FilterOut(sel, Descendants(m, rank, p))
    decreases RankOf(rank, p), 1, 0
  {
    WithoutChildrenListSpec(m, rank, RankOf(rank, p), ChildrenOf(m, p), sel);
  }

  lemma {:induction false} WithoutChildrenListSpec(m: ChildMap, rank: map<string, nat>, bound: nat, kids: seq<Resource>, sel: seq<string>)
    requires DirRanked(m, rank) && KidsBelow(rank, kids, bound)
    ensures WithoutChildrenList(m, rank, bound, kids, sel) == FilterOut(sel, DescendantsOfList(m, rank, bound, kids))
    decreases bound, 0, |kids|
  {
    if kids == [] {
      FilterOutNothing(sel, {});
    } else {
      var c := kids[0];
      var filtered := Without(sel, c.resourceId);
      WithoutIsFilterOut(sel, c.resourceId);
      var below := if c.inodeType == Directory then WithoutChildren(m, rank, c.resourceId, filtered) else filtered;
      var here := {c.resourceId} + (if c.inodeType == Directory then Descendants(m, rank, c.resourceId) else {});
      if c.inodeType == Directory {
        WithoutChildrenSpec(m, rank, c.resourceId, filtered);
        FilterOutTwice(sel, {c.resourceId}, Descendants(m, rank, c.resourceId));
      } else {
        assert here == {c.resourceId};
      }
      assert below == FilterOut(sel, here);
      WithoutChildrenListSpec(m, rank, bound, kids[1..], below);
      FilterOutTwice(sel, here, DescendantsOfList(m, rank, bound, kids[1..]));
    }
  }

  // ---------------------------------------------------------------------------
  // The hook's operations

  /** `toggleSelection(id, isFolder)` as a state updater: a selected id is
      filtered out (with its known descendants, for a folder); an unselected id
      is appended (with its known descendants, for a folder). */
  function ToggleSelection(m: ChildMap, ghost rank: map<string, nat>, prev: seq<string>, id: string, isFolder: bool): (r: seq<string>)
    requires DirRanked(m, rank)
    ensures id in r <==> id !in prev
  {
    if id in prev then
      var s := Without(prev, id);
      if isFolder then WithoutChildrenSpec(m, rank, id, s); WithoutChildren(m, rank, id, s) else s
    else
      var s := prev + [id];
      if isFolder then WithChildrenSpec(m, rank, id, s); WithChildren(m, rank, id, s) else s
  }

  /** Toggling a file flips only its own membership: appended at the end when
      absent, every occurrence removed when present, every other id kept. */
  lemma ToggleFile(m: ChildMap, rank: map<string, nat>, prev: seq<string>, id: string)
    requires DirRanked(m, rank)
    ensures id !in prev ==> ToggleSelection(m, rank, prev, id, false) == prev + [id]
    ensures id in prev ==> ToggleSelection(m, rank, prev, id, false) == FilterOut(prev, {id})
    ensures forall x :: x != id ==> (x in ToggleSelection(m, rank, prev, id, false) <==> x in prev)
  {
    WithoutIsFilterOut(prev, id);
  }

  /** Selecting an unselected folder appends the folder, then every reachable id
      not yet selected; nothing outside the subtree enters, and a duplicate-free
      selection stays duplicate-free. */
  lemma SelectFolder(m: ChildMap, rank: map<string, nat>, prev: seq<string>, id: string)
    requires DirRanked(m, rank) && id !in prev
    ensures AppendsFresh(prev, ToggleSelection(m, rank, prev, id, true))
    ensures ToggleSelection(m, rank, prev, id, true)[|prev|] == id
    ensures forall x :: x in ToggleSelection(m, rank, prev, id, true) <==>
      x in prev || x == id || x in Descendants(m, rank, id)
    ensures NoDups(prev) ==> NoDups(ToggleSelection(m, rank, prev, id, true))
  {
    var s := prev + [id];
    var r := ToggleSelection(m, rank, prev, id, true);
    AppendsFreshSnoc(prev, id);
    WithChildrenSpec(m, rank, id, s);
    AppendsFreshTrans(prev, s, r);
    assert r[|prev|] == r[..|s|][|prev|];
    if NoDups(prev) {
      AppendsFreshNoDups(prev, r);
    }
  }

  /** Deselecting a selected folder removes every occurrence of the folder and of
      each reachable id; all other ids keep their relative order. */
  lemma DeselectFolder(m: ChildMap, rank: map<string, nat>, prev: seq<string>, id: string)
    requires DirRanked(m, rank) && id in prev
    ensures ToggleSelection(m, rank, prev, id, true) == FilterOut(prev, {id} + Descendants(m, rank, id))
  {
    WithoutIsFilterOut(prev, id);
    WithoutChildrenSpec(m, rank, id, Without(prev, id));
    FilterOutTwice(prev, {id}, Descendants(m, rank, id));
  }

  /** Every toggle keeps a duplicate-free selection duplicate-free. */
  lemma ToggleKeepsNoDups(m: ChildMap, rank: map<string, nat>, prev: seq<string>, id: string, isFolder: bool)
    requires DirRanked(m, rank) && NoDups(prev)
    ensures NoDups(ToggleSelection(m, rank, prev, id, isFolder))
  {
    if id in prev {
      if isFolder {
        DeselectFolder(m, rank, prev, id);
        NoDupsFilterOut(prev, {id} + Descendants(m, rank, id));
      } else {
        ToggleFile(m, rank, prev, id);
        NoDupsFilterOut(prev, {id});
      }
    } else if isFolder {
      SelectFolder(m, rank, prev, id);
    } else {
      NoDupsSnoc(prev, id);
    }
  }

  /** `selectAllChildren(folderId, selectedIds)`: a copy of the selection grown by
      the recursive `addChildren`. */
  method SelectAllChildren(m: ChildMap, ghost rank: map<string, nat>, folderId: string, selectedIds: seq<string>)
    returns (newSelection: seq<string>)
    requires DirRanked(m, rank)
    ensures newSelection == WithChildren(m, rank, folderId, selectedIds)
    ensures AppendsFresh(selectedIds, newSelection)
    ensures forall x :: x in newSelection <==> x in selectedIds || x in Descendants(m, rank, folderId)
  {
    newSelection := AddChildren(m, rank, folderId, selectedIds);
    WithChildrenSpec(m, rank, folderId, selectedIds);
  }

  method AddChildren(m: ChildMap, ghost rank: map<string, nat>, parentId: string, sel: seq<string>)
    returns (newSelection: seq<string>)
    requires DirRanked(m, rank)
    ensures newSelection == WithChildren(m, rank, parentId, sel)
    decreases RankOf(rank, parentId)
  {
    var children := if parentId in m then m[parentId] else [];
    newSelection := sel;
    var i := 0;
    while i < |children|
      invariant 0 <= i <= |children|
      invariant WithChildrenList(m, rank, RankOf(rank, parentId), children[i..], newSelection)
        == WithChildren(m, rank, parentId, sel)
    {
      var child := children[i];
      assert children[i..][1..] == children[i + 1..];
      if child.resourceId !in newSelection {
        newSelection := newSelection + [child.resourceId];
      }
      if child.inodeType == Directory {
        newSelection := AddChildren(m, rank, child.resourceId, newSelection);
      }
      i := i + 1;
    }
  }

  /** `deselectAllChildren(folderId, selectedIds)`: a copy of the selection
      shrunk by the recursive `removeChildren`. */
  method DeselectAllChildren(m: ChildMap, ghost rank: map<string, nat>, folderId: string, selectedIds: seq<string>)
    returns (newSelection: seq<string>)
    requires DirRanked(m, rank)
    ensures newSelection == WithoutChildren(m, rank, folderId, selectedIds)
    ensures newSelection == FilterOut(selectedIds, Descendants(m, rank, folderId))
  {
    newSelection := RemoveChildren(m, rank, folderId, selectedIds);
    WithoutChildrenSpec(m, rank, folderId, selectedIds);
  }

  method RemoveChildren(m: ChildMap, ghost rank: map<string, nat>, parentId: string, sel: seq<string>)
    returns (newSelection: seq<string>)
    requires DirRanked(m, rank)
    ensures newSelection == WithoutChildren(m, rank, parentId, sel)
    decreases RankOf(rank, parentId)
  {
    var children := if parentId in m then m[parentId] else [];
    newSelection := sel;
    var i := 0;
    while i < |children|
      invariant 0 <= i <= |children|
      invariant WithoutChildrenList(m, rank, RankOf(rank, parentId), children[i..], newSelection)
        == WithoutChildren(m, rank, parentId, sel)
    {
      var child := children[i];
      assert children[i..][1..] == children[i + 1..];
      newSelection := Without(newSelection, child.resourceId);
      if child.inodeType == Directory {
        newSelection := RemoveChildren(m, rank, child.resourceId, newSelection);
      }
      i := i + 1;
    }
  }

  /** `updateChildResourcesMap(id, children)`: the entry for `id` is set, every
      other key keeps its entry (or its absence). */
  function UpdateChildResourcesMap(m: ChildMap, id: string, children: seq<Resource>): (r: ChildMap)
    ensures id in r && r[id] == children
    ensures forall k :: k != id ==> (k in r <==> k in m)
    ensures forall k :: k != id && k in m ==> r[k] == m[k]
    ensures r.Keys == m.Keys + {id}
  {
    m[id := children]
  }

  /** `childResourcesMap[id] || []` after an update: the folder reads as the
      children written, and every other folder reads as before, including the
      empty list for a folder never loaded. */
  lemma ChildrenOfUpdated(m: ChildMap, id: string, children: seq<Resource>)
    ensures ChildrenOf(UpdateChildResourcesMap(m, id, children), id) == children
    ensures forall k :: k != id ==> ChildrenOf(UpdateChildResourcesMap(m, id, children), k) == ChildrenOf(m, k)
    ensures forall k :: k != id && k !in m ==> ChildrenOf(UpdateChildResourcesMap(m, id, children), k) == []
  {
  }

  // ---------------------------------------------------------------------------
  // Leaf derivation

  /** Some child that the map lists for `id` is selected. */
  predicate HasSelectedChild(m: ChildMap, sel: seq<string>, id: string)
  {
    exists c :: c in ChildrenOf(m, id) && c.resourceId in sel
  }

  /** The selected ids that are parents of another selected id. */
  function ParentIds(m: ChildMap, sel: seq<string>): set<string>
  {
    set id | id in sel && HasSelectedChild(m, sel, id)
  }

  /** The leaf list: the selection, in order and with its repetitions, minus the
      ids that have a selected child.  An id without a map entry is always kept. */
  function Leaves(m: ChildMap, sel: seq<string>): (r: seq<string>)
    ensures forall x :: x in r <==> x in sel && !HasSelectedChild(m, sel, x)
    ensures forall x :: x in sel && x !in m ==> x in r
    ensures |r| <= |sel|
  {
    FilterOut(sel, ParentIds(m, sel))
  }

  /** `getLeafNodeResourceIds`: the first pass collects the parents of selected
      ids into a set, the second keeps the selected ids outside it. */
  method GetLeafNodeResourceIds(m: ChildMap, sel: seq<string>) returns (result: seq<string>)
    ensures result == Leaves(m, sel)
  {
    var parentIds := CollectParents(m, sel);
    result := KeepOutside(sel, parentIds);
  }

  /** The first pass: every selected id one of whose children is selected. */
  method CollectParents(m: ChildMap, sel: seq<string>) returns (parentIds: set<string>)
    ensures parentIds == ParentIds(m, sel)
  {
    parentIds := {};
    var i := 0;
    while i < |sel|
      invariant 0 <= i <= |sel|
      invariant forall x :: x in parentIds <==> x in sel[..i] && HasSelectedChild(m, sel, x)
    {
      parentIds := AddIfParent(m, sel, sel[i], parentIds);
      assert sel[..i + 1] == sel[..i] + [sel[i]];
      i := i + 1;
    }
    assert sel[..i] == sel;
  }

  /** The inner loop over one id's children: the id is added when one of them
      is selected. */
  method AddIfParent(m: ChildMap, sel: seq<string>, id: string, parentIds: set<string>) returns (out: set<string>)
    ensures out == parentIds + (if HasSelectedChild(m, sel, id) then {id} else {})
  {
    out := parentIds;
    var children := if id in m then m[id] else [];
    var found := false;
    var j := 0;
    while j < |children|
      invariant 0 <= j <= |children|
      invariant found <==> exists c :: c in children[..j] && c.resourceId in sel
      invariant out == parentIds + (if found then {id} else {})
    {
      if children[j].resourceId in sel {
        out := out + {id};
        found := true;
      }
      assert forall c :: c in children[..j + 1] <==> c in children[..j] || c == children[j];
      j := j + 1;
    }
    assert children[..j] == children;
  }

  /** The second pass: the selected ids outside the parent set, in order. */
  method KeepOutside(sel: seq<string>, parentIds: set<string>) returns (result: seq<string>)
    ensures result == FilterOut(sel, parentIds)
  {
    result := [];
    var i := 0;
    while i < |sel|
      invariant 0 <= i <= |sel|
      invariant result == FilterOut(sel[..i], parentIds)
    {
      FilterOutAppend(sel[..i], [sel[i]], parentIds);
      assert sel[..i + 1] == sel[..i] + [sel[i]];
      if sel[i] !in parentIds {
        result := result + [sel[i]];
      }
      i := i + 1;
    }
    assert sel[..i] == sel;
  }

  /** When no selected id has a selected child, every selected id is a leaf. */
  lemma LeavesWhenFlat(m: ChildMap, sel: seq<string>)
    requires forall x :: x in sel ==> !HasSelectedChild(m, sel, x)
    ensures Leaves(m, sel) == sel
  {
    FilterOutNothing(sel, ParentIds(m, sel));
  }

  /** Walking down selected children from a selected id ends at a selected id
      with no selected child. */
  lemma {:induction false} LeafBelow(m: ChildMap, rank: map<string, nat>, sel: seq<string>, x: string)
    requires Ranked(m, rank) && x in sel
    ensures exists y :: y in sel && !HasSelectedChild(m, sel, y)
    decreases RankOf(rank, x)
  {
    if HasSelectedChild(m, sel, x) {
      var c :| c in ChildrenOf(m, x) && c.resourceId in sel;
      LeafBelow(m, rank, sel, c.resourceId);
    }
  }

  /** On an acyclic child map a non-empty selection has a non-empty leaf list. */
  lemma LeavesNonEmpty(m: ChildMap, rank: map<string, nat>, sel: seq<string>)
    requires Ranked(m, rank) && sel != []
    ensures Leaves(m, sel) != []
  {
    LeafBelow(m, rank, sel, sel[0]);
  }
}

/** The picker that the page renders: one component holding the expanded
    folders, the selection, the child map and the overlay, with the rows'
    effects and handlers written inline.  Each effect becomes an event method
    that runs the effect's body once its dependencies have changed. */
module MountedPicker {
  import opened Wrappers
  import opened Seqs
  import opened Text
  import opened Resources
  import opened Selection
  import Expansion
  import Overlay
  import opened ResourceRow
  import opened Sorting
  import opened ResourceTable

  /** The child-map effect of this picker: the fetched list, or `[]` when there
      is none, is written only into an absent or empty entry. */
  function MergeChildren(m: ChildMap, id: string, data: Option<seq<Resource>>): (r: ChildMap)
    ensures id in m && m[id] != [] ==> r == m
    ensures id !in m || m[id] == [] ==> id in r && r[id] == data.GetOr([])
    ensures forall k :: k != id ==> (k in r <==> k in m) && (k in m ==> r[k] == m[k])
  {
    if id !in m || m[id] == [] then m[id := data.GetOr([])] else m
  }

  /** A loaded list of children is never replaced by a later load. */
  lemma LoadedChildrenStay(m: ChildMap, id: string, data1: Option<seq<Resource>>, data2: Option<seq<Resource>>)
    requires data1.Some? && data1.value != []
    ensures MergeChildren(MergeChildren(m, id, data1), id, data2) == MergeChildren(m, id, data1)
  {
  }

  // ---------------------------------------------------------------------------
  // Sort comparator of the root listing

  /** `valA === valB ? 0 : valA > valB ? 1 : -1` on integers. */
  function CompareInts(x: int, y: int): (c: int)
    ensures c == 0 <==> x == y
    ensures c == 1 <==> x > y
  {
    if x == y then 0 else if x > y then 1 else -1
  }

  /** The same on strings. */
  function CompareStrings(x: string, y: string): (c: int)
    ensures c == 0 <==> x == y
    ensures c == 1 <==> x != y && LexLess(y, x)
  {
    if x == y then 0 else if LexLess(y, x) then 1 else -1
  }

  /** `created_at ? new Date(created_at).getTime() : 0`, with the date parser a
      parameter. */
  function CreatedTime(r: Resource, timeOf: string -> int): int
  {
    if Truthy(r.createdAt) then timeOf(r.createdAt.value) else 0
  }

  /** The root comparator: directories first; "name" and "created_at" compare
      with 0 on equal keys in the header's direction; any other field answers 1
      before the direction is applied. */
  function MountedCompare(sort: SortState, timeOf: string -> int, a: Resource, b: Resource): (c: int)
    ensures -1 <= c <= 1
    ensures a.inodeType != b.inodeType ==> (c == -1 <==> a.inodeType == Directory) && c != 0
    ensures a.inodeType == b.inodeType && sort.field != "name" && sort.field != "created_at" ==> c == 1
  {
    if a.inodeType != b.inodeType then (if a.inodeType == Directory then -1 else 1)
    else if sort.field == "name" then
      Directed(sort.direction, CompareStrings(Lower(FileName(a.path)), Lower(FileName(b.path))))
    else if sort.field == "created_at" then
      Directed(sort.direction, CompareInts(CreatedTime(a, timeOf), CreatedTime(b, timeOf)))
    else 1
  }

  /** Equal names compare as 0 in both directions, and distinct names in
      opposite orders give opposite answers. */
  lemma MountedCompareByName(sort: SortState, timeOf: string -> int, a: Resource, b: Resource)
    requires sort.field == "name" && a.inodeType == b.inodeType
    ensures Lower(FileName(a.path)) == Lower(FileName(b.path)) ==> MountedCompare(sort, timeOf, a, b) == 0
    ensures MountedCompare(sort, timeOf, a, b) == -MountedCompare(sort, timeOf, b, a)
  {
    var x, y := Lower(FileName(a.path)), Lower(FileName(b.path));
    if x != y {
      LexLessTotal(x, y);
      if LexLess(x, y) {
        LexLessAsymmetric(x, y);
      } else {
        LexLessAsymmetric(y, x);
      }
    }
  }

  /** The root rows: `resources.data || []`, filtered by the search term, sorted. */
  function RootRows(data: Option<seq<Resource>>, term: string, sort: SortState, timeOf: string -> int): seq<Resource>
  {
    SortBy(FilterBySearch(data.GetOr([]), term), (a, b) => MountedCompare(sort, timeOf, a, b))
  }

  lemma RootRowsSpec(data: Option<seq<Resource>>, term: string, sort: SortState, timeOf: string -> int)
    ensures multiset(RootRows(data, term, sort, timeOf)) == multiset(FilterBySearch(data.GetOr([]), term))
    ensures DirsFirst(RootRows(data, term, sort, timeOf))
  {
    assert TypeOrdered((a, b) => MountedCompare(sort, timeOf, a, b));
    SortDirsFirst(FilterBySearch(data.GetOr([]), term), (a, b) => MountedCompare(sort, timeOf, a, b));
  }

  /** On an acyclic child map the "select at least one file" branch of
      `indexSelectedFiles` cannot be taken: a non-empty selection always marks
      every selected id INDEXING. */
  lemma IndexAlwaysStarts(m: ChildMap, rank: map<string, nat>, status: StatusMap, sel: seq<string>)
    requires Ranked(m, rank) && sel != []
    ensures forall id :: id in sel ==>
      id in Overlay.IndexStart(status, sel, Leaves(m, sel)) && Overlay.IndexStart(status, sel, Leaves(m, sel))[id] == Indexing
  {
    LeavesNonEmpty(m, rank, sel);
  }

  class Picker {
    var expandedFolders: seq<string>
    var selectedResources: seq<string>
    var childResourcesMap: ChildMap
    var indexingStatus: StatusMap
    /** The rows whose `getData` flag is set. */
    var fetchRequested: set<string>
    var sort: SortState

    predicate Valid()
      reads this
    {
      NoDups(expandedFolders) && NoDups(selectedResources)
    }

    constructor()
      ensures Valid()
      ensures expandedFolders == [] && selectedResources == [] && childResourcesMap == map[]
      ensures indexingStatus == map[] && fetchRequested == {} && sort == InitialSort
    {
      expandedFolders := [];
      selectedResources := [];
      childResourcesMap := map[];
      indexingStatus := map[];
      fetchRequested := {};
      sort := InitialSort;
    }

    /** The row click: a folder's id is toggled in the expanded list; a file row
        does nothing.  Nothing else changes. */
    method ToggleExpand(r: Resource)
      requires Valid()
      modifies this
      ensures Valid()
      ensures r.inodeType == File ==> expandedFolders == old(expandedFolders)
      ensures r.inodeType == Directory ==> expandedFolders == Expansion.ToggleExpand(old(expandedFolders), r.resourceId)
      ensures selectedResources == old(selectedResources) && childResourcesMap == old(childResourcesMap)
      ensures indexingStatus == old(indexingStatus) && fetchRequested == old(fetchRequested) && sort == old(sort)
    {
      if r.inodeType == File {
        return;
      }
      Expansion.ExpansionKeepsNoDups(expandedFolders, r.resourceId);
      if r.resourceId in expandedFolders {
        expandedFolders := Without(expandedFolders, r.resourceId);
      } else {
        expandedFolders := expandedFolders + [r.resourceId];
      }
    }

    /** The fetch effect: an expanded folder without known children sets its
        row's fetch flag, which nothing resets. */
    method RequestFetchIfNeeded(r: Resource)
      modifies this
      ensures fetchRequested == old(fetchRequested) + (if NeedsChildren(expandedFolders, childResourcesMap, r) then {r.resourceId} else {})
      ensures expandedFolders == old(expandedFolders) && selectedResources == old(selectedResources)
      ensures childResourcesMap == old(childResourcesMap) && indexingStatus == old(indexingStatus) && sort == old(sort)
    {
      var childResources := if r.resourceId in childResourcesMap then childResourcesMap[r.resourceId] else [];
      if r.resourceId in expandedFolders && r.inodeType == Directory && |childResources| == 0 {
        fetchRequested := fetchRequested + {r.resourceId};
      }
    }

    /** The fetch result arrives: the child-map effect writes it into an absent
        or empty entry; if that changes the row's number of known children and
        the row is a selected folder with children, the late-arrival effect
        selects every known descendant. */
    method OnChildrenLoaded(r: Resource, data: Option<seq<Resource>>, ghost rank: map<string, nat>)
      requires Valid()
      requires DirRanked(MergeChildren(childResourcesMap, r.resourceId, data), rank)
      modifies this
      ensures Valid()
      ensures childResourcesMap == MergeChildren(old(childResourcesMap), r.resourceId, data)
      ensures |ChildrenOf(childResourcesMap, r.resourceId)| != |ChildrenOf(old(childResourcesMap), r.resourceId)|
              && r.resourceId in old(selectedResources) && r.inodeType == Directory
              && ChildrenOf(childResourcesMap, r.resourceId) != [] ==>
        selectedResources == WithChildren(childResourcesMap, rank, r.resourceId, old(selectedResources))
        && AppendsFresh(old(selectedResources), selectedResources)
        && forall x :: x in selectedResources <==> x in old(selectedResources) || x in Descendants(childResourcesMap, rank, r.resourceId)
      ensures !(|ChildrenOf(childResourcesMap, r.resourceId)| != |ChildrenOf(old(childResourcesMap), r.resourceId)|
              && r.resourceId in old(selectedResources) && r.inodeType == Directory
              && ChildrenOf(childResourcesMap, r.resourceId) != []) ==>
        selectedResources == old(selectedResources)
      ensures expandedFolders == old(expandedFolders) && indexingStatus == old(indexingStatus)
      ensures fetchRequested == old(fetchRequested) && sort == old(sort)
    {
      var resourceId := r.resourceId;
      var before := |ChildrenOf(childResourcesMap, resourceId)|;
      if !(resourceId in childResourcesMap) || |childResourcesMap[resourceId]| == 0 {
        var children := if data.Some? then data.value else [];
        childResourcesMap := childResourcesMap[resourceId := children];
      }
      var childResources := if resourceId in childResourcesMap then childResourcesMap[resourceId] else [];
      if |childResources| != before {
        if resourceId in selectedResources && r.inodeType == Directory && |childResources| > 0 {
          var prev := selectedResources;
          selectedResources := SelectAllChildren(childResourcesMap, rank, resourceId, prev);
          AppendsFreshNoDups(prev, selectedResources);
        }
      }
    }

    /** The deselect effect, run when the row's selected state changes: an
        unselected folder has every known descendant removed. */
    method OnBecameUnselected(r: Resource, ghost rank: map<string, nat>)
      requires Valid() && DirRanked(childResourcesMap, rank)
      modifies this
      ensures Valid()
      ensures expandedFolders == old(expandedFolders) && childResourcesMap == old(childResourcesMap)
      ensures r.resourceId !in old(selectedResources) && r.inodeType == Directory ==>
        selectedResources == FilterOut(old(selectedResources), Descendants(childResourcesMap, rank, r.resourceId))
      ensures !(r.resourceId !in old(selectedResources) && r.inodeType == Directory) ==>
        selectedResources == old(selectedResources)
      ensures indexingStatus == old(indexingStatus) && fetchRequested == old(fetchRequested) && sort == old(sort)
    {
      if r.resourceId !in selectedResources && r.inodeType == Directory {
        var prev := selectedResources;
        selectedResources := DeselectAllChildren(childResourcesMap, rank, r.resourceId, prev);
        NoDupsFilterOut(prev, Descendants(childResourcesMap, rank, r.resourceId));
      }
    }

    /** The checkbox handler: a selected row is filtered out, with its known
        descendants for a folder; an unselected row is appended, and a folder's
        known descendants are added only when its children are loaded.  The
        result is the selection hook's toggle. */
    method ToggleSelection(r: Resource, ghost rank: map<string, nat>)
      requires Valid() && DirRanked(childResourcesMap, rank)
      modifies this
      ensures Valid()
      ensures expandedFolders == old(expandedFolders) && childResourcesMap == old(childResourcesMap)
      ensures selectedResources ==
        Selection.ToggleSelection(childResourcesMap, rank, old(selectedResources), r.resourceId, r.inodeType == Directory)
      ensures r.inodeType == Directory && r.resourceId !in old(selectedResources) && ChildrenOf(childResourcesMap, r.resourceId) == [] ==>
        selectedResources == old(selectedResources) + [r.resourceId]
      ensures indexingStatus == old(indexingStatus) && fetchRequested == old(fetchRequested) && sort == old(sort)
    {
      var resourceId := r.resourceId;
      var isFolder := r.inodeType == Directory;
      ToggleKeepsNoDups(childResourcesMap, rank, selectedResources, resourceId, isFolder);
      var childResources := if resourceId in childResourcesMap then childResourcesMap[resourceId] else [];
      if resourceId in selectedResources {
        selectedResources := Without(selectedResources, resourceId);
        if isFolder {
          selectedResources := DeselectAllChildren(childResourcesMap, rank, resourceId, selectedResources);
        }
      } else {
        selectedResources := selectedResources + [resourceId];
        if isFolder && |childResources| > 0 {
          selectedResources := SelectAllChildren(childResourcesMap, rank, resourceId, selectedResources);
        } else if isFolder {
          assert WithChildren(childResourcesMap, rank, resourceId, selectedResources) == selectedResources;
        }
      }
    }

    /** `getLeafNodeResourceIds()` on the current selection and child map. */
    method GetLeafNodeResourceIds() returns (leafIds: seq<string>)
      ensures leafIds == Leaves(childResourcesMap, selectedResources)
    {
      leafIds := Selection.GetLeafNodeResourceIds(childResourcesMap, selectedResources);
    }

    /** The knowledge-base listing effect. */
    /** The "Clear selection" button: the selection becomes empty, so a later
        index run does nothing; nothing else changes. */
    method ClearSelection()
      requires Valid()
      modifies this
      ensures Valid()
      ensures selectedResources == []
      ensures expandedFolders == old(expandedFolders) && childResourcesMap == old(childResourcesMap)
      ensures indexingStatus == old(indexingStatus) && fetchRequested == old(fetchRequested) && sort == old(sort)
    {
      selectedResources := [];
    }

    method Reconcile(listing: Option<seq<Resource>>)
      modifies this
      ensures indexingStatus == Overlay.Reconcile(old(indexingStatus), selectedResources, listing)
      ensures expandedFolders == old(expandedFolders) && selectedResources == old(selectedResources)
      ensures childResourcesMap == old(childResourcesMap) && fetchRequested == old(fetchRequested) && sort == old(sort)
    {
      if listing.Some? {
        var indexedStatus := Overlay.SynchronizedRecord(selectedResources, listing.value);
        indexingStatus := Overlay.Merge(indexingStatus, indexedStatus);
      }
    }

    /** `indexSelectedFiles` up to the create call.  It starts only with a
        non-empty selection and a non-empty leaf list, and returns the selection
        it saw (for the step after the call) and the leaf ids it sends. */
    method IndexStart() returns (started: bool, captured: seq<string>, leafIds: seq<string>)
      modifies this
      ensures indexingStatus == Overlay.IndexStart(old(indexingStatus), selectedResources, Leaves(childResourcesMap, selectedResources))
      ensures started <==> selectedResources != [] && Leaves(childResourcesMap, selectedResources) != []
      ensures captured == selectedResources && leafIds == Leaves(childResourcesMap, selectedResources)
      ensures expandedFolders == old(expandedFolders) && selectedResources == old(selectedResources)
      ensures childResourcesMap == old(childResourcesMap) && fetchRequested == old(fetchRequested) && sort == old(sort)
    {
      captured := selectedResources;
      leafIds := Selection.GetLeafNodeResourceIds(childResourcesMap, selectedResources);
      if |selectedResources| == 0 || |leafIds| == 0 {
        started := false;
        return;
      }
      var updatedStatus := Overlay.StateRecord(selectedResources, Indexing);
      indexingStatus := Overlay.Merge(indexingStatus, updatedStatus);
      started := true;
    }

    /** `indexSelectedFiles` after the create call, on the selection it started
        with; the selection itself is left as it is. */
    method IndexFinish(captured: seq<string>, success: bool)
      modifies this
      ensures indexingStatus == Overlay.IndexFinish(old(indexingStatus), captured, success)
      ensures expandedFolders == old(expandedFolders) && selectedResources == old(selectedResources)
      ensures childResourcesMap == old(childResourcesMap) && fetchRequested == old(fetchRequested) && sort == old(sort)
    {
      var rec := Overlay.StateRecord(captured, if success then Indexed else Failed);
      indexingStatus := Overlay.Merge(indexingStatus, rec);
    }

    /** `handleSort(field)`. */
    method HandleSort(field: string)
      modifies this
      ensures sort == ResourceTable.HandleSort(old(sort), field)
      ensures expandedFolders == old(expandedFolders) && selectedResources == old(selectedResources)
      ensures childResourcesMap == old(childResourcesMap) && indexingStatus == old(indexingStatus)
      ensures fetchRequested == old(fetchRequested)
    {
      sort := ResourceTable.HandleSort(sort, field);
    }
  }
}

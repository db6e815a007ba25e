/** The refactored picker: the page component owning the selection hook, the
    expanded folders and the overlay, its rows (`ResourceItem`), and the
    knowledge-base store it writes to.  The rows' selection effects are empty
    in this version, so every selection change goes through the hook's toggle.
    Each asynchronous handler is split at its network call into a start step
    and a finish step; the finish step is given the selection the handler
    captured when it started. */
module RefactoredPicker {
  import opened Wrappers
  import opened Seqs
  import opened Resources
  import opened Selection
  import Expansion
  import Overlay
  import opened ResourceRow
  import opened KnowledgeBaseStore

  class Picker {
    var expandedFolders: seq<string>
    var selectedResources: seq<string>
    var childResourcesMap: ChildMap
    var indexingStatus: StatusMap
    /** The rows whose `getData` flag is set. */
    var fetchRequested: set<string>
    var hasSynced: bool

    predicate Valid()
      reads this
    {
      NoDups(expandedFolders) && NoDups(selectedResources)
    }

    constructor()
      ensures Valid()
      ensures expandedFolders == [] && selectedResources == [] && childResourcesMap == map[]
      ensures indexingStatus == map[] && fetchRequested == {} && !hasSynced
    {
      expandedFolders := [];
      selectedResources := [];
      childResourcesMap := map[];
      indexingStatus := map[];
      fetchRequested := {};
      hasSynced := false;
    }

    /** `handleRowClick`: a folder row is filtered out of the expanded list when
        expanded and appended otherwise; a file row does nothing. */
    method HandleRowClick(r: Resource)
      requires Valid()
      modifies this
      ensures Valid()
      ensures r.inodeType == File ==> expandedFolders == old(expandedFolders)
      ensures r.inodeType == Directory ==> expandedFolders == Expansion.ToggleExpand(old(expandedFolders), r.resourceId)
      ensures selectedResources == old(selectedResources) && childResourcesMap == old(childResourcesMap)
      ensures indexingStatus == old(indexingStatus) && fetchRequested == old(fetchRequested) && hasSynced == old(hasSynced)
    {
      var resourceId := r.resourceId;
      if r.inodeType == Directory {
        Expansion.ExpansionKeepsNoDups(expandedFolders, resourceId);
        if resourceId in expandedFolders {
          expandedFolders := Without(expandedFolders, resourceId);
        } else {
          expandedFolders := expandedFolders + [resourceId];
        }
      }
    }

    /** `handleCheckboxChange`, that is the hook's `toggleSelection(resourceId,
        isFolder)`: a selected id is filtered out and, for a folder, its known
        descendants after it; an unselected id is appended and, for a folder,
        its known descendants after it. */
    method HandleCheckboxChange(r: Resource, ghost rank: map<string, nat>)
      requires Valid() && DirRanked(childResourcesMap, rank)
      modifies this
      ensures Valid()
      ensures expandedFolders == old(expandedFolders) && childResourcesMap == old(childResourcesMap)
      ensures selectedResources ==
        Selection.ToggleSelection(childResourcesMap, rank, old(selectedResources), r.resourceId, r.inodeType == Directory)
      ensures r.resourceId in selectedResources <==> r.resourceId !in old(selectedResources)
      ensures indexingStatus == old(indexingStatus) && fetchRequested == old(fetchRequested) && hasSynced == old(hasSynced)
    {
      var resourceId := r.resourceId;
      var isFolder := r.inodeType == Directory;
      ToggleKeepsNoDups(childResourcesMap, rank, selectedResources, resourceId, isFolder);
      if resourceId in selectedResources {
        var newSelection := Without(selectedResources, resourceId);
        if isFolder {
          newSelection := DeselectAllChildren(childResourcesMap, rank, resourceId, newSelection);
        }
        selectedResources := newSelection;
      } else {
        var newSelection := selectedResources + [resourceId];
        if isFolder {
          newSelection := SelectAllChildren(childResourcesMap, rank, resourceId, newSelection);
        }
        selectedResources := newSelection;
      }
    }

    /** The row's fetch effect: an expanded folder without known children sets
        its fetch flag. */
    method RequestFetchIfNeeded(r: Resource)
      modifies this
      ensures fetchRequested == old(fetchRequested) + (if NeedsChildren(expandedFolders, childResourcesMap, r) then {r.resourceId} else {})
      ensures expandedFolders == old(expandedFolders) && selectedResources == old(selectedResources)
      ensures childResourcesMap == old(childResourcesMap) && indexingStatus == old(indexingStatus) && hasSynced == old(hasSynced)
    {
      var childResources := if r.resourceId in childResourcesMap then childResourcesMap[r.resourceId] else [];
      if r.resourceId in expandedFolders && r.inodeType == Directory && |childResources| == 0 {
        fetchRequested := fetchRequested + {r.resourceId};
      }
    }

    /** The row's child-map effect: fetched data overwrites the row's entry,
        whatever it held; without data nothing changes.  The selection is not
        touched, so children that arrive under a selected folder stay
        unselected. */
    method OnChildrenFetched(r: Resource, data: Option<seq<Resource>>)
      modifies this
      ensures data.Some? ==> childResourcesMap == UpdateChildResourcesMap(old(childResourcesMap), r.resourceId, data.value)
      ensures data.None? ==> childResourcesMap == old(childResourcesMap)
      ensures selectedResources == old(selectedResources) && expandedFolders == old(expandedFolders)
      ensures indexingStatus == old(indexingStatus) && fetchRequested == old(fetchRequested) && hasSynced == old(hasSynced)
    {
      if data.Some? {
        var children := data.value;
        childResourcesMap := childResourcesMap[r.resourceId := children];
      }
    }

    /** The "Clear selection" button: the selection becomes empty, so a later
        index or sync run does nothing; nothing else changes. */
    method ClearSelection()
      requires Valid()
      modifies this
      ensures Valid()
      ensures selectedResources == []
      ensures expandedFolders == old(expandedFolders) && childResourcesMap == old(childResourcesMap)
      ensures indexingStatus == old(indexingStatus) && fetchRequested == old(fetchRequested) && hasSynced == old(hasSynced)
    {
      selectedResources := [];
    }

    /** The knowledge-base listing effect. */
    method Reconcile(listing: Option<seq<Resource>>)
      modifies this
      ensures indexingStatus == Overlay.Reconcile(old(indexingStatus), selectedResources, listing)
      ensures expandedFolders == old(expandedFolders) && selectedResources == old(selectedResources)
      ensures childResourcesMap == old(childResourcesMap) && fetchRequested == old(fetchRequested) && hasSynced == old(hasSynced)
    {
      if listing.Some? {
        var indexedStatus := Overlay.SynchronizedRecord(selectedResources, listing.value);
        indexingStatus := Overlay.Merge(indexingStatus, indexedStatus);
      }
    }

    /** The store effect on the create call's answer: a truthy knowledge-base id
        is passed to `setKnowledgeBase`. */
    method OnKnowledgeBaseCreated(store: Store, kbId: Option<string>)
      requires store.Valid()
      modifies store
      ensures store.Valid()
      ensures Truthy(kbId) ==> store.knowledgeBaseId == kbId && store.kbExists
      ensures !Truthy(kbId) ==>
        store.knowledgeBaseId == old(store.knowledgeBaseId) && store.kbExists == old(store.kbExists)
        && store.knowledgeBaseHistory == old(store.knowledgeBaseHistory)
      ensures store.isSyncing == old(store.isSyncing)
    {
      if Truthy(kbId) {
        store.SetKnowledgeBase(kbId.value);
      }
    }

    /** `indexSelectedFiles` up to the create call, as in the mounted picker. */
    method IndexStart() returns (started: bool, captured: seq<string>, leafIds: seq<string>)
      modifies this
      ensures indexingStatus == Overlay.IndexStart(old(indexingStatus), selectedResources, Leaves(childResourcesMap, selectedResources))
      ensures started <==> selectedResources != [] && Leaves(childResourcesMap, selectedResources) != []
      ensures captured == selectedResources && leafIds == Leaves(childResourcesMap, selectedResources)
      ensures expandedFolders == old(expandedFolders) && selectedResources == old(selectedResources)
      ensures childResourcesMap == old(childResourcesMap) && fetchRequested == old(fetchRequested) && hasSynced == old(hasSynced)
    {
      captured := selectedResources;
      leafIds := Selection.GetLeafNodeResourceIds(childResourcesMap, selectedResources);
      if |selectedResources| == 0 || |leafIds| == 0 {
        started := false;
        return;
      }
      var updatedStatus := Overlay.StateRecord(selectedResources, Indexing);
      indexingStatus := Overlay.Merge(indexingStatus, updatedStatus);
      started := true;
    }

    method IndexFinish(captured: seq<string>, success: bool)
      modifies this
      ensures indexingStatus == Overlay.IndexFinish(old(indexingStatus), captured, success)
      ensures expandedFolders == old(expandedFolders) && selectedResources == old(selectedResources)
      ensures childResourcesMap == old(childResourcesMap) && fetchRequested == old(fetchRequested) && hasSynced == old(hasSynced)
    {
      var rec := Overlay.StateRecord(captured, if success then Indexed else Failed);
      indexingStatus := Overlay.Merge(indexingStatus, rec);
    }

    /** `syncIndexedFiles` up to the sync call: nothing for an empty selection;
        otherwise the selected INDEXED ids become SYNCRONIZING and the store is
        marked syncing. */
    method SyncStart(store: Store) returns (started: bool, captured: seq<string>)
      requires store.Valid()
      modifies this, store
      ensures store.Valid()
      ensures started <==> old(selectedResources) != []
      ensures captured == old(selectedResources)
      ensures indexingStatus == Overlay.SyncStart(old(indexingStatus), old(selectedResources))
      ensures store.isSyncing == (started || old(store.isSyncing))
      ensures store.knowledgeBaseId == old(store.knowledgeBaseId) && store.kbExists == old(store.kbExists)
      ensures store.knowledgeBaseHistory == old(store.knowledgeBaseHistory)
      ensures expandedFolders == old(expandedFolders) && selectedResources == old(selectedResources)
      ensures childResourcesMap == old(childResourcesMap) && fetchRequested == old(fetchRequested) && hasSynced == old(hasSynced)
    {
      captured := selectedResources;
      if |selectedResources| == 0 {
        started := false;
        return;
      }
      var updatedStatus := Overlay.SyncingRecord(selectedResources, indexingStatus);
      indexingStatus := Overlay.Merge(indexingStatus, updatedStatus);
      store.SetSyncing(true);
      started := true;
    }

    /** `syncIndexedFiles` after the sync call: the store stops syncing; a
        success sets `hasSynced`, a failure marks the captured selection
        FAILED. */
    method SyncFinish(store: Store, captured: seq<string>, success: bool)
      requires store.Valid()
      modifies this, store
      ensures store.Valid() && !store.isSyncing
      ensures store.knowledgeBaseId == old(store.knowledgeBaseId) && store.kbExists == old(store.kbExists)
      ensures store.knowledgeBaseHistory == old(store.knowledgeBaseHistory)
      ensures indexingStatus == Overlay.SyncFinish(old(indexingStatus), captured, success)
      ensures hasSynced == (success || old(hasSynced))
      ensures expandedFolders == old(expandedFolders) && selectedResources == old(selectedResources)
      ensures childResourcesMap == old(childResourcesMap) && fetchRequested == old(fetchRequested)
    {
      store.SetSyncing(false);
      if success {
        hasSynced := true;
      } else {
        var failedStatus := Overlay.StateRecord(captured, Failed);
        indexingStatus := Overlay.Merge(indexingStatus, failedStatus);
      }
    }

    /** `handleRemoveResource` up to the delete call: the id becomes REMOVING
        and leaves the selection; nothing else is deselected. */
    method RemoveStart(r: Resource)
      requires Valid()
      modifies this
      ensures Valid()
      ensures indexingStatus == Overlay.RemoveStart(old(indexingStatus), r.resourceId)
      ensures selectedResources == FilterOut(old(selectedResources), {r.resourceId})
      ensures forall x :: x in selectedResources <==> x in old(selectedResources) && x != r.resourceId
      ensures expandedFolders == old(expandedFolders) && childResourcesMap == old(childResourcesMap)
      ensures fetchRequested == old(fetchRequested) && hasSynced == old(hasSynced)
    {
      var resourceId := r.resourceId;
      indexingStatus := indexingStatus[resourceId := Removing];
      WithoutIsFilterOut(selectedResources, resourceId);
      NoDupsFilterOut(selectedResources, {resourceId});
      selectedResources := Without(selectedResources, resourceId);
    }

    method RemoveFinish(resourceId: string, success: bool)
      modifies this
      ensures indexingStatus == Overlay.RemoveFinish(old(indexingStatus), resourceId, success)
      ensures expandedFolders == old(expandedFolders) && selectedResources == old(selectedResources)
      ensures childResourcesMap == old(childResourcesMap) && fetchRequested == old(fetchRequested) && hasSynced == old(hasSynced)
    {
      indexingStatus := indexingStatus[resourceId := if success then Neutral else Failed];
    }
  }
}

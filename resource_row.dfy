/** What a row derives from its resource and the shared state: the indeterminate
    checkbox, whether the checkbox is disabled while a call runs, and whether
    expanding the row asks for its children. */
module ResourceRow {
  import opened Resources

  /** The checkbox is indeterminate: the row has known children, some of them
      selected (`some`) and not all of them (`every`). */
  function IsIndeterminate(m: ChildMap, selected: seq<string>, id: string): (r: bool)
    ensures r <==>
      (exists c :: c in ChildrenOf(m, id) && c.resourceId in selected) &&
      (exists c :: c in ChildrenOf(m, id) && c.resourceId !in selected)
    ensures ChildrenOf(m, id) == [] ==> !r
  {
    var children := ChildrenOf(m, id);
    var hasChildren := |children| > 0;
    var allChildrenSelected := hasChildren && forall c :: c in children ==> c.resourceId in selected;
    var someChildrenSelected := hasChildren && exists c :: c in children && c.resourceId in selected;
    someChildrenSelected && !allChildrenSelected
  }

  /** `isProcessing` as the refactored row computes it, comparing with the enum
      members; the checkbox is disabled exactly then. */
  function IsProcessing(overlay: StatusMap, id: string): bool
  {
    id in overlay && (overlay[id] == Indexing || overlay[id] == Removing)
  }

  /** `isProcessing` as the mounted row computes it, comparing with the strings
      "indexing" and "removing". */
  function IsProcessingByName(overlay: StatusMap, id: string): bool
  {
    id in overlay && (StateName(overlay[id]) == "indexing" || StateName(overlay[id]) == "removing")
  }

  /** Both rows disable the same checkboxes. */
  lemma ProcessingAgrees(overlay: StatusMap, id: string)
    ensures IsProcessingByName(overlay, id) == IsProcessing(overlay, id)
  {
    if id in overlay {
      var s := overlay[id];
      if StateName(s) == "indexing" {
        StateNameInjective(s, Indexing);
      }
      if StateName(s) == "removing" {
        StateNameInjective(s, Removing);
      }
    }
  }

  /** The fetch effect's condition: an expanded folder whose known children are
      missing or empty. */
  function NeedsChildren(expanded: seq<string>, m: ChildMap, r: Resource): (b: bool)
    ensures b <==> r.inodeType == Directory && r.resourceId in expanded && (r.resourceId !in m || m[r.resourceId] == [])
  {
    r.resourceId in expanded && r.inodeType == Directory && ChildrenOf(m, r.resourceId) == []
  }
}

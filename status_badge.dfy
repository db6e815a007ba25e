/** The status badge of a row: the overlay state wins over the server status. */
module StatusBadge {
  import opened Wrappers
  import opened Resources

  /** A rendered badge: its text and its class names. */
  datatype Badge = Badge(caption: string, className: string)

  const ServerClass: string := "bg-gray-500 hover:bg-gray-600 text-white"

  /** The class-name record of the overlay states; every state has an entry. */
  function OverlayClass(s: ResourceState): (r: string)
    ensures r != ServerClass
  {
    match s
    case Indexing => "bg-sky-200 hover:bg-sky-300 text-sky-800"
    case Removing => "bg-rose-200 hover:bg-rose-300 text-rose-800"
    case Indexed => "bg-emerald-200 hover:bg-emerald-300 text-emerald-800"
    case Failed => "bg-rose-300 hover:bg-rose-400 text-rose-900"
    case Synchronized => "bg-lime-200 hover:bg-lime-300 text-lime-800"
    case Synchronizing => "bg-amber-200 hover:bg-amber-300 text-amber-800"
    case Neutral => "bg-zinc-200 hover:bg-zinc-300 text-zinc-800"
  }

  /** The overlay label: an ellipsis form for the two running states, the
      state's own string otherwise.  Every label is the state's string value,
      followed by "..." exactly for the states that are still running. */
  function OverlayLabel(s: ResourceState): (r: string)
    ensures r != ""
    ensures r == StateName(s) || r == StateName(s) + "..."
    ensures r == StateName(s) + "..." <==> s == Indexing || s == Removing
  {
    if s == Indexing then "indexing..." else if s == Removing then "removing..." else StateName(s)
  }

  /** Distinct overlay states get distinct labels. */
  lemma OverlayLabelDistinct(a: ResourceState, b: ResourceState)
    requires a != b
    ensures OverlayLabel(a) != OverlayLabel(b)
  {
    if OverlayLabel(a) == OverlayLabel(b) {
      if a != Indexing && a != Removing && b != Indexing && b != Removing {
        StateNameInjective(a, b);
      }
    }
  }

  /** `indexingStatus[id]` is truthy: present, with a non-empty string value. */
  predicate OverlayShown(overlay: StatusMap, id: string)
  {
    id in overlay && StateName(overlay[id]) != ""
  }

  /** `StatusBadge({status, resourceId, indexingStatus})`. */
  function StatusBadge(status: Option<string>, resourceId: string, overlay: StatusMap): (r: Option<Badge>)
    ensures resourceId in overlay ==>
      r == Some(Badge(OverlayLabel(overlay[resourceId]), OverlayClass(overlay[resourceId])))
    ensures resourceId !in overlay && Truthy(status) ==> r == Some(Badge(status.value, ServerClass))
    ensures resourceId !in overlay && !Truthy(status) ==> r == None
  {
    if OverlayShown(overlay, resourceId) then
      var current := overlay[resourceId];
      Some(Badge(OverlayLabel(current), OverlayClass(current)))
    else if Truthy(status) then
      Some(Badge(status.value, ServerClass))
    else
      None
  }

  /** Whatever the server says, a row with an overlay entry shows the overlay. */
  lemma OverlayWins(status1: Option<string>, status2: Option<string>, resourceId: string, overlay: StatusMap)
    requires resourceId in overlay
    ensures StatusBadge(status1, resourceId, overlay) == StatusBadge(status2, resourceId, overlay)
    ensures StatusBadge(status1, resourceId, overlay).value.className != ServerClass
  {
  }
}

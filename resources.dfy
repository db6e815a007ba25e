/** The entities the picker works on: a Google Drive resource as the connections
    API returns it, the overlay states the picker shows while talking to the
    knowledge-base API, and the two maps the components keep (children already
    loaded per folder, overlay state per resource). */
module Resources {
  import opened Wrappers

  /** `inode_type: "file" | "directory"`. */
  datatype InodeType = File | Directory

  /** A resource row: id, inode type, full path and the optional server fields.
      `lastModified` is not part of the typed record; the untyped legacy picker
      reads it for its date column. */
  datatype Resource = Resource(
    resourceId: string,
    inodeType: InodeType,
    path: string,
    status: Option<string>,
    createdAt: Option<string>,
    updatedAt: Option<string>,
    lastModified: Option<string>)

  /** The overlay states; `Neutral` is the state whose string is "resource". */
  datatype ResourceState = Indexing | Removing | Indexed | Failed | Synchronized | Synchronizing | Neutral

  /** The string value each overlay state carries. */
  function StateName(s: ResourceState): (r: string)
    ensures r != ""
  {
    match s
    case Indexing => "indexing"
    case Removing => "removing"
    case Indexed => "indexed"
    case Failed => "failed"
    case Synchronized => "synchronized"
    case Synchronizing => "synchronizing"
    case Neutral => "resource"
  }

  /** Reads a state back from its string; the inverse of `StateName`. */
  function ParseState(name: string): (r: Option<ResourceState>)
    ensures r.Some? ==> StateName(r.value) == name
  {
    if name == "indexing" then Some(Indexing)
    else if name == "removing" then Some(Removing)
    else if name == "indexed" then Some(Indexed)
    else if name == "failed" then Some(Failed)
    else if name == "synchronized" then Some(Synchronized)
    else if name == "synchronizing" then Some(Synchronizing)
    else if name == "resource" then Some(Neutral)
    else None
  }

  /** Every state's string reads back as that state, so distinct states have
      distinct strings. */
  lemma ParseStateName(s: ResourceState)
    ensures ParseState(StateName(s)) == Some(s)
  {
  }

  lemma StateNameInjective(a: ResourceState, b: ResourceState)
    requires StateName(a) == StateName(b)
    ensures a == b
  {
    ParseStateName(a);
    ParseStateName(b);
  }

  /** `ResourceChildrenMap`: the children already loaded for a folder id. */
  type ChildMap = map<string, seq<Resource>>

  /** `ResourceStatusMap`: the overlay state per resource id. */
  type StatusMap = map<string, ResourceState>

  /** `childResourcesMap[id] || []`: an absent entry reads as no children. */
  function ChildrenOf(m: ChildMap, id: string): seq<Resource>
  {
    if id in m then m[id] else []
  }
}

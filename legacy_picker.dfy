/** The first, single-level file picker: one folder at a time with a breadcrumb
    trail, a flat selection, a type filter and its own sort comparator. */
module LegacyPicker {
  import opened Wrappers
  import opened Seqs
  import opened Text
  import opened Resources
  import opened Sorting
  import opened ResourceTable

  // ---------------------------------------------------------------------------
  // File type of a path

  const DocumentTypes: seq<string> := ["pdf", "doc", "docx", "txt", "rtf", "xls", "xlsx", "ppt", "pptx"]
  const ImageTypes: seq<string> := ["jpg", "jpeg", "png", "gif", "bmp", "svg"]

  /** `path.split('.').pop().toLowerCase()`. */
  function Extension(path: string): string
  {
    var pieces := Split(path, '.');
    Lower(pieces[|pieces| - 1])
  }

  /** `getFileType(path)`: "document" or "image" by the fixed extension lists,
      "other" for anything else. */
  function GetFileType(path: string): (r: string)
    ensures r == "document" <==> Lower(TailRun(path, '.')) in DocumentTypes
    ensures r == "image" <==> Lower(TailRun(path, '.')) in ImageTypes
    ensures r == "other" <==> Lower(TailRun(path, '.')) !in DocumentTypes + ImageTypes
  {
    SplitLast(path, '.');
    var ext := Extension(path);
    if ext in DocumentTypes then "document" else if ext in ImageTypes then "image" else "other"
  }

  /** The extension is read after the last dot only; a name without a dot is
      classified by the whole, lowercased path. */
  lemma ExtensionWithoutDot(path: string)
    requires '.' !in path
    ensures Extension(path) == Lower(path)
  {
    SplitLast(path, '.');
    TailRunWhole(path, '.');
  }

  /** Classifying the lowercased path, as the filter does, gives the same type. */
  lemma FileTypeOfLowered(path: string)
    ensures GetFileType(Lower(path)) == GetFileType(path)
  {
    TailRunLower(path, '.');
    LowerIdempotent(TailRun(path, '.'));
  }

  // ---------------------------------------------------------------------------
  // Filter and sort

  /** The filter predicate: a directory needs only the search match; a file also
      needs the type filter to be "all" or its own type. */
  predicate LegacyMatches(r: Resource, term: string, typeFilter: string)
  {
    var path := Lower(r.path);
    var matchesSearch := Includes(path, Lower(term));
    if r.inodeType == Directory then matchesSearch
    else if typeFilter == "all" then matchesSearch
    else matchesSearch && typeFilter == GetFileType(path)
  }

  function FilterList(rs: seq<Resource>, term: string, typeFilter: string): (out: seq<Resource>)
    ensures forall x :: x in out <==> x in rs && LegacyMatches(x, term, typeFilter)
  {
    if rs == [] then []
    else (if LegacyMatches(rs[0], term, typeFilter) then [rs[0]] else []) + FilterList(rs[1..], term, typeFilter)
  }

  /** `filteredResources`: nothing while the listing is absent, else the kept
      resources in listing order. */
  function LegacyFilter(data: Option<seq<Resource>>, term: string, typeFilter: string): (out: seq<Resource>)
    ensures data.None? ==> out == []
    ensures data.Some? ==> forall x :: x in out <==> x in data.value && LegacyMatches(x, term, typeFilter)
  {
    if data.Some? then FilterList(data.value, term, typeFilter) else []
  }

  /** What the filter keeps, in terms of the resource itself. */
  lemma LegacyMatchesSpec(r: Resource, term: string, typeFilter: string)
    ensures r.inodeType == Directory ==> (LegacyMatches(r, term, typeFilter) <==> MatchesSearch(r, term))
    ensures r.inodeType == File ==> (LegacyMatches(r, term, typeFilter) <==>
      MatchesSearch(r, term) && (typeFilter == "all" || typeFilter == GetFileType(r.path)))
  {
    FileTypeOfLowered(r.path);
  }

  /** The "Documents" and "Images" entries keep exactly the matching files of
      their own type, and no file of another type. */
  lemma DropdownFilters(r: Resource, term: string)
    requires r.inodeType == File
    ensures LegacyMatches(r, term, "document") <==> MatchesSearch(r, term) && GetFileType(r.path) == "document"
    ensures LegacyMatches(r, term, "image") <==> MatchesSearch(r, term) && GetFileType(r.path) == "image"
  {
    LegacyMatchesSpec(r, term, "document");
    LegacyMatchesSpec(r, term, "image");
  }

  /** The legacy sort key; `None` stands for a property the resource lacks. */
  function LegacyKey(field: string, r: Resource): Option<string>
  {
    if field == "name" then Some(Lower(FileName(r.path)))
    else if field == "status" then Some(if Truthy(r.status) then r.status.value else "")
    else if field == "date" then Some(if Truthy(r.lastModified) then r.lastModified.value else "")
    else None
  }

  /** The legacy comparator: directories first, then `valA > valB ? 1 : -1` in
      the header's direction; a missing property never compares greater. */
  function LegacyCompare(sort: SortState, a: Resource, b: Resource): (c: int)
    ensures c == 1 || c == -1
    ensures a.inodeType != b.inodeType ==> (c == -1 <==> a.inodeType == Directory)
    ensures a.inodeType == b.inodeType && LegacyKey(sort.field, a).None? ==> c == (if sort.direction == Asc then -1 else 1)
  {
    if a.inodeType != b.inodeType then (if a.inodeType == Directory then -1 else 1)
    else
      var valA, valB := LegacyKey(sort.field, a), LegacyKey(sort.field, b);
      var comparison := if valA.Some? && valB.Some? then Greater(valA.value, valB.value) else -1;
      Directed(sort.direction, comparison)
  }

  /** The rows shown: the filtered listing, sorted. */
  function LegacyRows(data: Option<seq<Resource>>, term: string, typeFilter: string, sort: SortState): seq<Resource>
  {
    SortBy(LegacyFilter(data, term, typeFilter), (a, b) => LegacyCompare(sort, a, b))
  }

  lemma LegacyRowsSpec(data: Option<seq<Resource>>, term: string, typeFilter: string, sort: SortState)
    ensures multiset(LegacyRows(data, term, typeFilter, sort)) == multiset(LegacyFilter(data, term, typeFilter))
    ensures DirsFirst(LegacyRows(data, term, typeFilter, sort))
  {
    assert TypeOrdered((a, b) => LegacyCompare(sort, a, b));
    SortDirsFirst(LegacyFilter(data, term, typeFilter), (a, b) => LegacyCompare(sort, a, b));
  }

  // ---------------------------------------------------------------------------
  // Selection

  /** The parent folder of the listing is set and selected. */
  predicate ParentSelected(selected: seq<string>, parentId: Option<string>)
  {
    Truthy(parentId) && parentId.value in selected
  }

  /** `toggleFileSelection(resource)`: a selected parent folder is swapped for
      the clicked id; otherwise the clicked id is removed (every occurrence) when
      selected and appended when not. */
  function ToggleFile(selected: seq<string>, id: string, parentId: Option<string>): (r: seq<string>)
    ensures ParentSelected(selected, parentId) ==>
      r != [] && r[|r| - 1] == id && (parentId.value in r <==> parentId.value == id)
    ensures !ParentSelected(selected, parentId) ==> (id in r <==> id !in selected)
    ensures forall x :: x != id && !(ParentSelected(selected, parentId) && x == parentId.value) ==>
      (x in r <==> x in selected)
  {
    if ParentSelected(selected, parentId) then Without(selected, parentId.value) + [id]
    else if id in selected then Without(selected, id)
    else selected + [id]
  }

  /** With the parent selected, the clicked id is appended even when it is
      already selected, so it then occurs twice. */
  lemma ParentSwapRepeats(selected: seq<string>, id: string, parent: string)
    requires parent != "" && parent in selected && id in selected && id != parent
    ensures !NoDups(ToggleFile(selected, id, Some(parent)))
  {
    var r := ToggleFile(selected, id, Some(parent));
    var w := Without(selected, parent);
    assert id in w;
    var k :| 0 <= k < |w| && w[k] == id;
    assert r[k] == id && r[|r| - 1] == id;
  }

  // ---------------------------------------------------------------------------
  // Breadcrumbs

  /** A breadcrumb: the folder id (`null` for the root) and its name, which is
      `undefined` when the path has no segment. */
  datatype Crumb = Crumb(id: Option<string>, name: Option<string>)

  const RootCrumb: Crumb := Crumb(None, Some("Root"))

  function CrumbIds(path: seq<Crumb>): (r: seq<Option<string>>)
    ensures |r| == |path|
    ensures forall k :: 0 <= k < |path| ==> r[k] == path[k].id
  {
    if path == [] then [] else [path[0].id] + CrumbIds(path[1..])
  }

  /** `breadcrumbPath.findIndex(item => item.id === id)`. */
  function FindCrumb(path: seq<Crumb>, id: Option<string>): (k: int)
    ensures -1 <= k < |path|
    ensures k == -1 <==> forall i :: 0 <= i < |path| ==> path[i].id != id
    ensures k >= 0 ==> path[k].id == id && forall i :: 0 <= i < k ==> path[i].id != id
  {
    if path == [] then -1
    else if path[0].id == id then 0
    else
      var k := FindCrumb(path[1..], id);
      if k == -1 then -1 else k + 1
  }

  /** `pathParts[pathParts.length - 1]` over the non-empty segments. */
  function CrumbName(path: string): (r: Option<string>)
    ensures r.Some? <==> FileName(path) != ""
    ensures r.Some? ==> r.value == FileName(path)
  {
    var pathParts := Segments(path);
    if |pathParts| > 0 then
      assert pathParts[|pathParts| - 1] in pathParts;
      Some(pathParts[|pathParts| - 1])
    else None
  }

  function Min(a: int, b: int): int
  {
    if a <= b then a else b
  }

  class Picker {
    var currentFolder: Option<string>
    var breadcrumbPath: seq<Crumb>
    var selectedFiles: seq<string>
    var sort: SortState
    var fileTypeFilter: string

    /** The trail starts at the root and never lists a folder twice. */
    predicate Valid()
      reads this
    {
      |breadcrumbPath| >= 1 && breadcrumbPath[0] == RootCrumb && NoDups(CrumbIds(breadcrumbPath))
    }

    constructor()
      ensures Valid()
      ensures currentFolder == None && breadcrumbPath == [RootCrumb] && selectedFiles == []
      ensures sort == InitialSort && fileTypeFilter == "all"
    {
      currentFolder := None;
      breadcrumbPath := [RootCrumb];
      selectedFiles := [];
      sort := InitialSort;
      fileTypeFilter := "all";
    }

    /** `handleFolderClick(resource)`: the folder becomes current, and a crumb
        with its id and last segment is pushed unless one with its id is on the
        trail already. */
    method HandleFolderClick(r: Resource)
      requires Valid()
      modifies this
      ensures Valid()
      ensures currentFolder == Some(r.resourceId)
      ensures Some(r.resourceId) in CrumbIds(old(breadcrumbPath)) ==> breadcrumbPath == old(breadcrumbPath)
      ensures Some(r.resourceId) !in CrumbIds(old(breadcrumbPath)) ==>
        breadcrumbPath == old(breadcrumbPath) + [Crumb(Some(r.resourceId), CrumbName(r.path))]
      ensures selectedFiles == old(selectedFiles) && sort == old(sort) && fileTypeFilter == old(fileTypeFilter)
    {
      currentFolder := Some(r.resourceId);
      var pathParts := Segments(r.path);
      var newPath := breadcrumbPath;
      if FindCrumb(breadcrumbPath, Some(r.resourceId)) == -1 {
        var name: Option<string> := if |pathParts| > 0 then Some(pathParts[|pathParts| - 1]) else None;
        var crumb := Crumb(Some(r.resourceId), name);
        assert CrumbIds(newPath + [crumb]) == CrumbIds(newPath) + [crumb.id] by {
          assert CrumbIds(newPath + [crumb])[..|newPath|] == CrumbIds(newPath);
        }
        NoDupsSnoc(CrumbIds(newPath), crumb.id);
        assert (newPath + [crumb])[0] == newPath[0];
        newPath := newPath + [crumb];
      }
      breadcrumbPath := newPath;
    }

    /** `handleBreadcrumbClick(item, index)`: the crumb's folder becomes current
        and the trail is cut after position `index`. */
    method HandleBreadcrumbClick(item: Crumb, index: nat)
      requires Valid()
      modifies this
      ensures Valid()
      ensures currentFolder == item.id
      ensures breadcrumbPath == old(breadcrumbPath)[..Min(index + 1, |old(breadcrumbPath)|)]
      ensures index < |old(breadcrumbPath)| ==> |breadcrumbPath| == index + 1
      ensures selectedFiles == old(selectedFiles) && sort == old(sort) && fileTypeFilter == old(fileTypeFilter)
    {
      currentFolder := item.id;
      var cut := breadcrumbPath[..Min(index + 1, |breadcrumbPath|)];
      assert CrumbIds(cut) == CrumbIds(breadcrumbPath)[..|cut|];
      assert forall i, j :: 0 <= i < j < |cut| ==> CrumbIds(cut)[i] == CrumbIds(breadcrumbPath)[i] && CrumbIds(cut)[j] == CrumbIds(breadcrumbPath)[j];
      breadcrumbPath := cut;
    }

    /** The filter dropdown: "All Files", "Documents" and "Images" set the
        filter to "all", "document" and "image", the values `getFileType`
        answers. */
    method SetFileTypeFilter(typeFilter: string)
      modifies this
      ensures fileTypeFilter == typeFilter
      ensures currentFolder == old(currentFolder) && breadcrumbPath == old(breadcrumbPath)
      ensures selectedFiles == old(selectedFiles) && sort == old(sort)
    {
      fileTypeFilter := typeFilter;
    }

    /** The "Clear selection" button: no file stays selected; nothing else
        changes. */
    method ClearSelection()
      requires Valid()
      modifies this
      ensures Valid()
      ensures selectedFiles == []
      ensures currentFolder == old(currentFolder) && breadcrumbPath == old(breadcrumbPath)
      ensures sort == old(sort) && fileTypeFilter == old(fileTypeFilter)
    {
      selectedFiles := [];
    }

    /** `handleSort(field)`. */
    method HandleSort(field: string)
      modifies this
      ensures sort == ResourceTable.HandleSort(old(sort), field)
      ensures currentFolder == old(currentFolder) && breadcrumbPath == old(breadcrumbPath)
      ensures selectedFiles == old(selectedFiles) && fileTypeFilter == old(fileTypeFilter)
    {
      sort := ResourceTable.HandleSort(sort, field);
    }

    /** `toggleFileSelection(resource)`, with the listing's `parentId` as a
        parameter. */
    method ToggleFileSelection(r: Resource, parentId: Option<string>)
      modifies this
      ensures selectedFiles == ToggleFile(old(selectedFiles), r.resourceId, parentId)
      ensures currentFolder == old(currentFolder) && breadcrumbPath == old(breadcrumbPath)
      ensures sort == old(sort) && fileTypeFilter == old(fileTypeFilter)
    {
      var resourceId := r.resourceId;
      if Truthy(parentId) && parentId.value in selectedFiles {
        selectedFiles := Without(selectedFiles, parentId.value) + [resourceId];
      } else if resourceId in selectedFiles {
        selectedFiles := Without(selectedFiles, resourceId);
      } else {
        selectedFiles := selectedFiles + [resourceId];
      }
    }
  }
}

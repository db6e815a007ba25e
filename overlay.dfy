/** The overlay status the picker keeps per resource while it talks to the
    knowledge-base API.  Each handler builds a record with a `forEach` loop and
    merges it into the previous map with `{...prev, ...record}`; an awaited call
    splits a handler into a step before the call and a step after it, with the
    outcome of the call as a parameter.  The step after the call works on the
    selection the handler saw when it started. */
module Overlay {
  import opened Wrappers
  import opened Resources

  /** `{...prev, ...rec}`: the record's entries win, the others stay. */
  function Merge(prev: StatusMap, rec: StatusMap): (r: StatusMap)
    ensures r.Keys == prev.Keys + rec.Keys
    ensures forall k :: k in rec ==> r[k] == rec[k]
    ensures forall k :: k in prev && k !in rec ==> r[k] == prev[k]
  {
    prev + rec
  }

  /** The listing holds a resource with this id (`data.some(r => r.resource_id === id)`). */
  predicate Listed(listing: seq<Resource>, id: string)
  {
    exists res :: res in listing && res.resourceId == id
  }

  // ---------------------------------------------------------------------------
  // The records, as functions of the ids they are built from

  /** Every id of `ids` mapped to `st`. */
  function Marked(ids: seq<string>, st: ResourceState): (r: StatusMap)
    ensures forall k :: k in r <==> k in ids
    ensures forall k :: k in r ==> r[k] == st
  {
    map id | id in ids :: st
  }

  /** The ids of `ids` whose current overlay is INDEXED, mapped to SYNCRONIZING. */
  function SyncCandidates(ids: seq<string>, current: StatusMap): (r: StatusMap)
    ensures forall k :: k in r <==> k in ids && k in current && current[k] == Indexed
    ensures forall k :: k in r ==> r[k] == Synchronizing
  {
    map id | id in ids && id in current && current[id] == Indexed :: Synchronizing
  }

  /** The ids of `ids` found in the knowledge-base listing, mapped to SYNCHRONIZED. */
  function FoundIn(ids: seq<string>, listing: seq<Resource>): (r: StatusMap)
    ensures forall k :: k in r <==> k in ids && Listed(listing, k)
    ensures forall k :: k in r ==> r[k] == Synchronized
  {
    map id | id in ids && Listed(listing, id) :: Synchronized
  }

  // ---------------------------------------------------------------------------
  // The loops that build the records

  /** `ids.forEach(id => { rec[id] = st })`. */
  method StateRecord(ids: seq<string>, st: ResourceState) returns (rec: StatusMap)
    ensures rec == Marked(ids, st)
  {
    rec := map[];
    var i := 0;
    while i < |ids|
      invariant 0 <= i <= |ids|
      invariant rec == Marked(ids[..i], st)
    {
      assert ids[..i + 1] == ids[..i] + [ids[i]];
      rec := rec[ids[i] := st];
      i := i + 1;
    }
    assert ids[..i] == ids;
  }

  /** `ids.forEach(id => { if (current[id] === INDEXED) rec[id] = SYNCRONIZING })`. */
  method SyncingRecord(ids: seq<string>, current: StatusMap) returns (rec: StatusMap)
    ensures rec == SyncCandidates(ids, current)
  {
    rec := map[];
    var i := 0;
    while i < |ids|
      invariant 0 <= i <= |ids|
      invariant rec == SyncCandidates(ids[..i], current)
    {
      assert ids[..i + 1] == ids[..i] + [ids[i]];
      if ids[i] in current && current[ids[i]] == Indexed {
        rec := rec[ids[i] := Synchronizing];
      }
      i := i + 1;
    }
    assert ids[..i] == ids;
  }

  /** `ids.forEach(id => { if (rec[id] !== SYNCHRONIZED && listed(id)) rec[id] = SYNCHRONIZED })`. */
  method SynchronizedRecord(ids: seq<string>, listing: seq<Resource>) returns (rec: StatusMap)
    ensures rec == FoundIn(ids, listing)
  {
    rec := map[];
    var i := 0;
    while i < |ids|
      invariant 0 <= i <= |ids|
      invariant rec == FoundIn(ids[..i], listing)
    {
      var id := ids[i];
      assert ids[..i + 1] == ids[..i] + [id];
      if !(id in rec && rec[id] == Synchronized) && exists res :: res in listing && res.resourceId == id {
        rec := rec[id := Synchronized];
      }
      i := i + 1;
    }
    assert ids[..i] == ids;
  }

  // ---------------------------------------------------------------------------
  // The steps of the handlers

  /** The knowledge-base listing effect: when a listing is present, every
      selected id it holds becomes SYNCHRONIZED and every other entry stays. */
  function Reconcile(status: StatusMap, selected: seq<string>, listing: Option<seq<Resource>>): (r: StatusMap)
    ensures listing.None? ==> r == status
    ensures listing.Some? ==> forall id :: id in selected && Listed(listing.value, id) ==> id in r && r[id] == Synchronized
    ensures forall id :: id in status && !(listing.Some? && id in selected && Listed(listing.value, id)) ==>
      id in r && r[id] == status[id]
    ensures forall id :: id in r ==> id in status || (listing.Some? && id in selected)
  {
    if listing.Some? then Merge(status, FoundIn(selected, listing.value)) else status
  }

  /** `indexSelectedFiles` before the create call: nothing happens for an empty
      selection or an empty leaf list; otherwise every selected id becomes
      INDEXING and every other entry stays. */
  function IndexStart(status: StatusMap, selected: seq<string>, leaves: seq<string>): (r: StatusMap)
    ensures selected == [] || leaves == [] ==> r == status
    ensures selected != [] && leaves != [] ==> forall id :: id in selected ==> id in r && r[id] == Indexing
    ensures forall id :: id in status && id !in selected ==> id in r && r[id] == status[id]
    ensures forall id :: id in r ==> id in status || id in selected
  {
    if selected == [] || leaves == [] then status else Merge(status, Marked(selected, Indexing))
  }

  /** `indexSelectedFiles` after the create call: the selected ids it started
      with become INDEXED on success and FAILED on failure; other entries stay. */
  function IndexFinish(status: StatusMap, started: seq<string>, success: bool): (r: StatusMap)
    ensures forall id :: id in started ==> id in r && r[id] == (if success then Indexed else Failed)
    ensures forall id :: id in status && id !in started ==> id in r && r[id] == status[id]
    ensures forall id :: id in r ==> id in status || id in started
  {
    Merge(status, Marked(started, if success then Indexed else Failed))
  }

  /** `syncIndexedFiles` before the sync call: nothing for an empty selection;
      otherwise exactly the selected ids whose overlay is INDEXED become
      SYNCRONIZING. */
  function SyncStart(status: StatusMap, selected: seq<string>): (r: StatusMap)
    ensures r.Keys == status.Keys
    ensures forall id :: id in status ==>
      r[id] == (if id in selected && status[id] == Indexed then Synchronizing else status[id])
  {
    if selected == [] then status else Merge(status, SyncCandidates(selected, status))
  }

  /** `syncIndexedFiles` after the sync call: nothing changes on success; on
      failure every selected id it started with becomes FAILED. */
  function SyncFinish(status: StatusMap, started: seq<string>, success: bool): (r: StatusMap)
    ensures success ==> r == status
    ensures !success ==> forall id :: id in started ==> id in r && r[id] == Failed
    ensures forall id :: id in status && (success || id !in started) ==> id in r && r[id] == status[id]
  {
    if success then status else Merge(status, Marked(started, Failed))
  }

  /** `handleRemoveResource` before the delete call: the id becomes REMOVING. */
  function RemoveStart(status: StatusMap, id: string): (r: StatusMap)
    ensures id in r && r[id] == Removing
    ensures forall k :: k != id ==> (k in r <==> k in status) && (k in status ==> r[k] == status[k])
  {
    status[id := Removing]
  }

  /** `handleRemoveResource` after the delete call: the id becomes RESOURCE on
      success and FAILED on failure. */
  function RemoveFinish(status: StatusMap, id: string, success: bool): (r: StatusMap)
    ensures id in r && r[id] == (if success then Neutral else Failed)
    ensures forall k :: k != id ==> (k in r <==> k in status) && (k in status ==> r[k] == status[k])
  {
    status[id := if success then Neutral else Failed]
  }

  // ---------------------------------------------------------------------------
  // Whole handlers

  /** A complete index run over a non-empty selection with leaves leaves each
      of its ids INDEXED or FAILED, whatever it showed before, and every other
      entry as it was. */
  lemma IndexRun(status: StatusMap, selected: seq<string>, leaves: seq<string>, success: bool)
    requires selected != [] && leaves != []
    ensures var r := IndexFinish(IndexStart(status, selected, leaves), selected, success);
      (forall id :: id in selected ==> id in r && r[id] == (if success then Indexed else Failed))
      && (forall id :: id !in selected ==> (id in r <==> id in status) && (id in status ==> r[id] == status[id]))
  {
  }

  /** A failed sync overrides the SYNCRONIZING marks it set: every selected id
      ends FAILED, every other entry is as before the run. */
  lemma FailedSyncRun(status: StatusMap, selected: seq<string>)
    ensures var r := SyncFinish(SyncStart(status, selected), selected, false);
      (forall id :: id in selected ==> id in r && r[id] == Failed)
      && (forall id :: id !in selected ==> (id in r <==> id in status) && (id in status ==> r[id] == status[id]))
  {
  }

  /** A remove run touches only the removed id. */
  lemma RemoveRun(status: StatusMap, id: string, success: bool)
    ensures RemoveFinish(RemoveStart(status, id), id, success) == status[id := if success then Neutral else Failed]
  {
  }

  /** Reconciling twice with the same listing changes nothing the second time. */
  lemma ReconcileIdempotent(status: StatusMap, selected: seq<string>, listing: Option<seq<Resource>>)
    ensures Reconcile(Reconcile(status, selected, listing), selected, listing) == Reconcile(status, selected, listing)
  {
  }
}

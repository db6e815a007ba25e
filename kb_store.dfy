/** The knowledge-base store: the active knowledge base, whether one exists,
    whether a sync is running, and the ids of earlier knowledge bases. */
module KnowledgeBaseStore {
  import opened Wrappers
  import opened Seqs

  class Store {
    var knowledgeBaseId: Option<string>
    /** The store's `exists` field. */
    var kbExists: bool
    var isSyncing: bool
    var knowledgeBaseHistory: seq<string>

    /** The history has no repeated id, and a knowledge base exists exactly
        when an id is active. */
    predicate Valid()
      reads this
    {
      NoDups(knowledgeBaseHistory) && (kbExists <==> knowledgeBaseId.Some?)
    }

    /** Whether `setKnowledgeBase` or `clearKnowledgeBase` archives the active
        id: it is set and non-empty, and not in the history yet. */
    predicate Archives()
      reads this
    {
      Truthy(knowledgeBaseId) && knowledgeBaseId.value !in knowledgeBaseHistory
    }

    constructor()
      ensures knowledgeBaseId == None && !kbExists && !isSyncing && knowledgeBaseHistory == []
      ensures Valid()
    {
      knowledgeBaseId := None;
      kbExists := false;
      isSyncing := false;
      knowledgeBaseHistory := [];
    }

    /** `setKnowledgeBase(id)`: a different, non-empty active id that is not in
        the history yet is appended to it; then `id` becomes active. */
    method SetKnowledgeBase(id: string)
      requires Valid()
      modifies this
      ensures Valid()
      ensures knowledgeBaseId == Some(id) && kbExists
      ensures old(Archives()) && old(knowledgeBaseId.value) != id ==>
        knowledgeBaseHistory == old(knowledgeBaseHistory) + [old(knowledgeBaseId.value)]
      ensures !(old(Archives()) && old(knowledgeBaseId.value) != id) ==>
        knowledgeBaseHistory == old(knowledgeBaseHistory)
      ensures isSyncing == old(isSyncing)
    {
      var current := knowledgeBaseId;
      if Truthy(current) && current.value != id {
        var history := knowledgeBaseHistory;
        if current.value !in history {
          NoDupsSnoc(history, current.value);
          knowledgeBaseHistory := history + [current.value];
        }
      }
      knowledgeBaseId := Some(id);
      kbExists := true;
    }

    /** `clearKnowledgeBase()`: a non-empty active id not yet in the history is
        appended to it; then no knowledge base is active. */
    method ClearKnowledgeBase()
      requires Valid()
      modifies this
      ensures Valid()
      ensures knowledgeBaseId == None && !kbExists
      ensures old(Archives()) ==>
        knowledgeBaseHistory == old(knowledgeBaseHistory) + [old(knowledgeBaseId.value)]
      ensures !old(Archives()) ==> knowledgeBaseHistory == old(knowledgeBaseHistory)
      ensures isSyncing == old(isSyncing)
    {
      var current := knowledgeBaseId;
      var history := knowledgeBaseHistory;
      if Truthy(current) && current.value !in history {
        NoDupsSnoc(history, current.value);
        knowledgeBaseHistory := history + [current.value];
      }
      knowledgeBaseId := None;
      kbExists := false;
    }

    /** `switchToKnowledgeBase(id)`: `id` becomes active and the history is left
        alone, so the previous id is not archived. */
    method SwitchToKnowledgeBase(id: string)
      requires Valid()
      modifies this
      ensures Valid()
      ensures knowledgeBaseId == Some(id) && kbExists
      ensures knowledgeBaseHistory == old(knowledgeBaseHistory) && isSyncing == old(isSyncing)
    {
      knowledgeBaseId := Some(id);
      kbExists := true;
    }

    /** `removeFromHistory(id)`: every occurrence of `id` leaves the history, the
        other ids keep their order, and the active id is untouched. */
    method RemoveFromHistory(id: string)
      requires Valid()
      modifies this
      ensures Valid()
      ensures knowledgeBaseHistory == FilterOut(old(knowledgeBaseHistory), {id})
      ensures id !in knowledgeBaseHistory
      ensures knowledgeBaseId == old(knowledgeBaseId) && kbExists == old(kbExists)
      ensures isSyncing == old(isSyncing)
    {
      WithoutIsFilterOut(knowledgeBaseHistory, id);
      NoDupsFilterOut(knowledgeBaseHistory, {id});
      knowledgeBaseHistory := Without(knowledgeBaseHistory, id);
    }

    /** `setSyncing(b)` changes only the syncing flag. */
    method SetSyncing(b: bool)
      requires Valid()
      modifies this
      ensures Valid()
      ensures isSyncing == b
      ensures knowledgeBaseId == old(knowledgeBaseId) && kbExists == old(kbExists)
      ensures knowledgeBaseHistory == old(knowledgeBaseHistory)
    {
      isSyncing := b;
    }
  }
}

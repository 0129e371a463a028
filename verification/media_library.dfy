/**
  The media library dialog (src/components/admin/MediaLibrary.tsx): the
  loaded media list, the search filter over it, the set of items selected
  for bulk deletion, and the ids whose deletion is in flight. A delete
  awaits the server between marking the id as in flight and updating the
  list, so each delete is modelled as a start and a finish; the server's
  outcome is a parameter of the finish.
*/
module MediaLibrary {
  import opened Wrappers
  import opened Js
  import opened Ordering
  import opened Types

  /** The selection after toggling `id`: added when absent, removed when
      present. */
  function Toggled(s: set<int>, id: int): (r: set<int>)
    ensures id in r <==> id !in s
    ensures forall x :: x != id ==> (x in r <==> x in s)
  {
    if id in s then s - {id} else s + {id}
  }

  /** Toggling the same id twice gives back the selection. */
  lemma ToggleTwice(s: set<int>, id: int)
    ensures Toggled(Toggled(s, id), id) == s
  {
    var r := Toggled(Toggled(s, id), id);
    assert forall x :: x in r <==> x in s;
  }

  /** An item matches the search when the lowercased term occurs in its
      lowercased original name or in its lowercased file name. */
  predicate Matches(item: MediaItem, term: string) {
    Includes(ToLower(item.original_name), ToLower(term)) || Includes(ToLower(item.filename), ToLower(term))
  }

  /** The callback of `filteredMedia`. */
  function MatchesTerm(term: string): MediaItem -> bool {
    (item: MediaItem) => Matches(item, term)
  }

  /** `filteredMedia`: the matching items, in list order. */
  function FilteredMedia(media: seq<MediaItem>, term: string): (r: seq<MediaItem>)
    ensures forall item :: item in r <==> item in media && Matches(item, term)
    ensures multiset(r) <= multiset(media)
    ensures Selects(r, media, MatchesTerm(term))
  {
    FilterSelects(media, MatchesTerm(term));
    Filter(media, MatchesTerm(term))
  }

  /** The empty search keeps every item. */
  lemma {:induction false} EmptySearchKeepsAll(media: seq<MediaItem>)
    ensures FilteredMedia(media, "") == media
  {
    if media != [] {
      assert OccursAt(ToLower(media[0].original_name), ToLower(""), 0);
      IncludesIffOccurs(ToLower(media[0].original_name), ToLower(""));
      EmptySearchKeepsAll(media[1..]);
    }
  }

  /** The search ignores the case of ASCII letters in the term. */
  lemma {:induction false} SearchIgnoresCase(media: seq<MediaItem>, term: string)
    ensures FilteredMedia(media, ToLower(term)) == FilteredMedia(media, term)
  {
    if media != [] {
      assert ToLower(ToLower(term)) == ToLower(term);
      assert Matches(media[0], ToLower(term)) == Matches(media[0], term);
      SearchIgnoresCase(media[1..], term);
    }
  }

  /** The callback `item => item.id !== id`. */
  function ItemIdIsNot(id: int): MediaItem -> bool {
    (item: MediaItem) => item.id != id
  }

  /** The list after deleting `id`: exactly the items with that id are
      gone, the others stay in order. */
  function WithoutItem(media: seq<MediaItem>, id: int): (r: seq<MediaItem>)
    ensures forall item :: item in r <==> item in media && item.id != id
    ensures multiset(r) <= multiset(media)
    ensures Selects(r, media, ItemIdIsNot(id))
  {
    FilterSelects(media, ItemIdIsNot(id));
    Filter(media, ItemIdIsNot(id))
  }

  /** The callback `item => !selectedForDeletion.has(item.id)`. */
  function ItemIdNotIn(ids: set<int>): MediaItem -> bool {
    (item: MediaItem) => item.id !in ids
  }

  /** The list after a bulk delete: exactly the items with a selected id
      are gone, the others stay in order. */
  function WithoutItems(media: seq<MediaItem>, ids: set<int>): (r: seq<MediaItem>)
    ensures forall item :: item in r <==> item in media && item.id !in ids
    ensures multiset(r) <= multiset(media)
    ensures Selects(r, media, ItemIdNotIn(ids))
  {
    FilterSelects(media, ItemIdNotIn(ids));
    Filter(media, ItemIdNotIn(ids))
  }

  /** Deleting a one-item selection in bulk is the same as deleting that
      item alone. */
  lemma {:induction false} BulkOfOne(media: seq<MediaItem>, id: int)
    ensures WithoutItems(media, {id}) == WithoutItem(media, id)
  {
    if media != [] {
      BulkOfOne(media[1..], id);
    }
  }

  /** The dialog's state. */
  class Library {
    var media: seq<MediaItem>
    var searchTerm: string
    var selectedForDeletion: set<int>
    var deletingIds: set<int>

    constructor (loaded: seq<MediaItem>)
      ensures media == loaded && searchTerm == "" && selectedForDeletion == {} && deletingIds == {}
    {
      media := loaded;
      searchTerm := "";
      selectedForDeletion := {};
      deletingIds := {};
    }

    /** `toggleSelection`: a copy of the selection is changed and stored. */
    method ToggleSelection(mediaId: int)
      modifies this
      ensures selectedForDeletion == Toggled(old(selectedForDeletion), mediaId)
      ensures media == old(media) && deletingIds == old(deletingIds) && searchTerm == old(searchTerm)
    {
      var newSet := selectedForDeletion;
      if mediaId in newSet {
        newSet := newSet - {mediaId};
      } else {
        newSet := newSet + {mediaId};
      }
      selectedForDeletion := newSet;
    }

    /** The first half of `handleDelete`: after confirmation the id is
        marked as being deleted. Returns whether the server is called. */
    method StartDelete(mediaId: int, confirmed: bool) returns (requested: bool)
      modifies this
      ensures requested == confirmed
      ensures confirmed ==> deletingIds == old(deletingIds) + {mediaId}
      ensures !confirmed ==> deletingIds == old(deletingIds)
      ensures media == old(media) && selectedForDeletion == old(selectedForDeletion)
    {
      if !confirmed {
        return false;
      }
      deletingIds := deletingIds + {mediaId};
      requested := true;
    }

    /** The second half: on success exactly that id leaves the list; either
        way it is no longer being deleted. */
    method FinishDelete(mediaId: int, deleted: bool)
      modifies this
      ensures deleted ==> media == WithoutItem(old(media), mediaId)
      ensures !deleted ==> media == old(media)
      ensures deletingIds == old(deletingIds) - {mediaId}
      ensures selectedForDeletion == old(selectedForDeletion)
    {
      if deleted {
        media := WithoutItem(media, mediaId);
      }
      deletingIds := deletingIds - {mediaId};
    }

    /** The first half of `handleBulkDelete`: nothing happens for an empty
        selection or without confirmation; otherwise the selected ids are
        the ones being deleted, and they are what is sent. */
    method StartBulkDelete(confirmed: bool) returns (idsToDelete: Option<set<int>>)
      modifies this
      ensures old(selectedForDeletion) == {} || !confirmed ==> idsToDelete.None? && deletingIds == old(deletingIds)
      ensures old(selectedForDeletion) != {} && confirmed ==>
        idsToDelete == Some(old(selectedForDeletion)) && deletingIds == old(selectedForDeletion)
      ensures media == old(media) && selectedForDeletion == old(selectedForDeletion)
    {
      if selectedForDeletion == {} || !confirmed {
        return None;
      }
      deletingIds := selectedForDeletion;
      idsToDelete := Some(selectedForDeletion);
    }

    /** The second half: on success every item with one of the sent ids
        leaves the list and the selection is cleared; either way nothing is
        being deleted any more. `ids` is the selection the handler captured
        when it started, which is what `StartBulkDelete` returned. */
    method FinishBulkDelete(ids: set<int>, deleted: bool)
      modifies this
      ensures deleted ==> media == WithoutItems(old(media), ids) && selectedForDeletion == {}
      ensures !deleted ==> media == old(media) && selectedForDeletion == old(selectedForDeletion)
      ensures deletingIds == {}
    {
      if deleted {
        media := WithoutItems(media, ids);
        selectedForDeletion := {};
      }
      deletingIds := {};
    }

    /** `handleDelete` run to completion with no other handler in between:
        on confirmation and success exactly the items with that id leave
        the list; the deleting set ends as it began. */
    method HandleDelete(mediaId: int, confirmed: bool, deleted: bool)
      modifies this
      ensures confirmed && deleted ==> media == WithoutItem(old(media), mediaId)
      ensures !(confirmed && deleted) ==> media == old(media)
      ensures confirmed ==> deletingIds == old(deletingIds) - {mediaId}
      ensures !confirmed ==> deletingIds == old(deletingIds)
      ensures selectedForDeletion == old(selectedForDeletion)
    {
      var requested := StartDelete(mediaId, confirmed);
      if requested {
        FinishDelete(mediaId, deleted);
      }
    }

    /** `handleBulkDelete` run to completion with no other handler in
        between: on confirmation and success the items with a selected id
        leave the list and the selection is cleared; whenever the server is
        called, nothing is being deleted afterwards. */
    method HandleBulkDelete(confirmed: bool, deleted: bool)
      modifies this
      ensures old(selectedForDeletion) == {} || !confirmed ==>
        media == old(media) && selectedForDeletion == old(selectedForDeletion) && deletingIds == old(deletingIds)
      ensures old(selectedForDeletion) != {} && confirmed ==>
        && deletingIds == {}
        && (deleted ==> media == WithoutItems(old(media), old(selectedForDeletion)) && selectedForDeletion == {})
        && (!deleted ==> media == old(media) && selectedForDeletion == old(selectedForDeletion))
    {
      var idsToDelete := StartBulkDelete(confirmed);
      if idsToDelete.Some? {
        FinishBulkDelete(idsToDelete.value, deleted);
      }
    }

    /** `handleUpload`: the uploaded items, in the order the files were
        given, go before the existing ones; `None` when an upload failed. */
    method HandleUpload(uploaded: Option<seq<MediaItem>>)
      modifies this
      ensures uploaded.Some? ==> media == uploaded.value + old(media)
      ensures uploaded.Some? ==> media[..|uploaded.value|] == uploaded.value && media[|uploaded.value|..] == old(media)
      ensures uploaded.None? ==> media == old(media)
      ensures selectedForDeletion == old(selectedForDeletion) && deletingIds == old(deletingIds)
    {
      if uploaded.Some? {
        media := uploaded.value + media;
      }
    }
  }
}

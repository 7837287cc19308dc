/** The admin gallery page: the status filter over the loaded items, which
    items offer the moderation actions, and what the page sends with them. */
module AdminGallery {
  import opened Wrappers
  import opened Text
  import opened GalleryController

  /** `items.filter(item => item.status === status)`. */
  function FilterStatus(items: seq<Row>, status: string): (r: seq<Row>)
    ensures |r| <= |items|
    ensures forall x :: x in r <==> x in items && StatusName(x.item.status) == status
    decreases |items|
  {
    if items == [] then []
    else (if StatusName(items[0].item.status) == status then [items[0]] else []) + FilterStatus(items[1..], status)
  }

  /** `filterItems`: `'all'` keeps the list, any other value keeps the items with that status. */
  function FilterItems(items: seq<Row>, filter: string): (r: seq<Row>)
    ensures |r| <= |items|
    ensures forall x :: x in r <==> x in items && (filter == "all" || StatusName(x.item.status) == filter)
  {
    if filter == "all" then items else FilterStatus(items, filter)
  }

  lemma FilterAllIsIdentity(items: seq<Row>)
    ensures FilterItems(items, "all") == items
  {
  }

  /** Filtering works piece by piece, so the items keep their order. */
  lemma {:induction false} FilterStatusAppend(a: seq<Row>, b: seq<Row>, status: string)
    ensures FilterStatus(a + b, status) == FilterStatus(a, status) + FilterStatus(b, status)
    decreases |a|
  {
    if a == [] {
      assert a + b == b;
    } else {
      assert (a + b)[0] == a[0];
      assert (a + b)[1..] == a[1..] + b;
      FilterStatusAppend(a[1..], b, status);
    }
  }

  /** An item is kept exactly when its status is the one asked for. */
  lemma FilterStatusSingle(x: Row, status: string)
    ensures FilterStatus([x], status) == if StatusName(x.item.status) == status then [x] else []
  {
    assert [x][1..] == [];
  }

  /** Every kept item has the status, so filtering again keeps them all. */
  lemma {:induction false} FilterIdempotent(items: seq<Row>, filter: string)
    ensures FilterItems(FilterItems(items, filter), filter) == FilterItems(items, filter)
  {
    if filter != "all" {
      FilterStatusKeepsMatching(FilterStatus(items, filter), filter);
    }
  }

  /** A list whose items all have the status is kept whole. */
  lemma {:induction false} FilterStatusKeepsMatching(items: seq<Row>, status: string)
    requires forall i :: 0 <= i < |items| ==> StatusName(items[i].item.status) == status
    ensures FilterStatus(items, status) == items
    decreases |items|
  {
    if items != [] {
      FilterStatusKeepsMatching(items[1..], status);
    }
  }

  /** A value that names no status keeps nothing. */
  lemma {:induction false} UnknownStatusKeepsNothing(items: seq<Row>, filter: string)
    requires filter != "all" && filter != "pending" && filter != "approved" && filter != "rejected"
    ensures FilterItems(items, filter) == []
    decreases |items|
  {
    if items != [] {
      UnknownStatusKeepsNothing(items[1..], filter);
    }
  }

  /** The approve and reject buttons appear only for a pending item. */
  predicate ActionsOffered(it: Item) {
    it.status == Pending
  }

  /** Pressing approve on a row that offers the buttons is accepted by the
      server's `approveGalleryItem`, whatever admin data the page has stored:
      the page sends `AdminIdOf` of it. */
  lemma OfferedItemsCanBeApproved(items: map<int, Item>, id: int, storedId: Option<int>)
    requires id in items && ActionsOffered(items[id])
    ensures ApproveAccepted(items, id, Some(AdminIdOf(storedId)))
  {
  }

  /** The page sends `rejectReason || null`, and the server's `admin_note || null`
      stores that note as it is sent: null exactly for an empty reason. */
  lemma RejectNoteStoredAsSent(reason: string)
    ensures OrNull(NullIfEmpty(reason)) == NullIfEmpty(reason)
    ensures OrNull(NullIfEmpty(reason)) == None <==> reason == ""
  {
  }

  /** `JSON.parse(localStorage.getItem('adminUser'))?.id || 1`, given the stored id if any. */
  function AdminIdOf(storedId: Option<int>): (id: int)
    ensures id != 0
    ensures storedId.Some? && storedId.value != 0 ==> id == storedId.value
  {
    if storedId.Some? && storedId.value != 0 then storedId.value else 1
  }

  /** So the page never draws the server's missing-admin refusal. */
  lemma PageAlwaysSendsAdmin(storedId: Option<int>)
    ensures AdminGiven(Some(AdminIdOf(storedId)))
  {
  }

  /** The page's list state: the loaded items, the chosen filter and the
      filtered list the effect keeps in step with them. */
  class AdminGalleryView {
    var galleryItems: seq<Row>
    var filter: string
    var filteredItems: seq<Row>

    ghost predicate Valid()
      reads this
    {
      filteredItems == FilterItems(galleryItems, filter)
    }

    constructor ()
      ensures Valid()
      ensures galleryItems == [] && filter == "all" && filteredItems == []
    {
      galleryItems := [];
      filter := "all";
      filteredItems := [];
    }

    /** `loadGalleryItems` after a successful answer. */
    method Load(data: seq<Row>)
      modifies this`galleryItems, this`filteredItems
      ensures Valid()
      ensures galleryItems == data && filteredItems == FilterItems(data, filter)
    {
      galleryItems := data;
      filteredItems := FilterItems(data, filter);
    }

    /** A click on a filter tab. */
    method SetFilter(f: string)
      modifies this`filter, this`filteredItems
      ensures Valid()
      ensures filter == f && filteredItems == FilterItems(galleryItems, f)
    {
      filter := f;
      filteredItems := FilterItems(galleryItems, f);
    }
  }
}

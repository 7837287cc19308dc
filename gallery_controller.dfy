/** The gallery moderation store behind the `/gallery` routes: visitors submit a
    photo with a message, an administrator approves, rejects or deletes it, and
    the public page lists what was approved. The SQL table is a map from id to
    row; the auto-increment column is a counter and `NOW()` is the `now`
    argument of each operation. */
module GalleryController {
  import opened Wrappers
  import opened Text
  import opened Sorting

  datatype Status = Pending | Approved | Rejected

  /** The value stored in the `status` column. */
  function StatusName(s: Status): string {
    match s
    case Pending => "pending"
    case Approved => "approved"
    case Rejected => "rejected"
  }

  /** One row of the `gallery` table. Timestamps are abstract clock values. */
  datatype Item = Item(
    imageUrl: string,
    message: string,
    visitorName: Option<string>,
    visitorPhone: Option<string>,
    status: Status,
    adminId: Option<int>,
    adminNote: Option<string>,
    createdAt: nat,
    approvedAt: Option<nat>,
    updatedAt: Option<nat>)

  /** A row together with its id, as `SELECT g.*` returns it. */
  datatype Row = Row(id: int, item: Item)

  /** The columns the public listing selects. */
  datatype PublicRow = PublicRow(
    id: int, imageUrl: string, message: string, visitorName: Option<string>,
    createdAt: nat, approvedAt: Option<nat>)

  /** Why a request was answered with 400. */
  datatype Reason = MissingImageOrMessage | InvalidPhone | MissingAdminId | AlreadyApproved

  /** The error responses: 400 with a reason, or 404. */
  datatype Error = BadRequest(reason: Reason) | NotFound

  /** The response of an update handler that returns no data. */
  datatype Outcome = Done | Refused(error: Error)

  /** The counts of `getGalleryStats`. SQL's SUM over no rows is NULL, so the
      three per-status counts are absent when the table is empty. */
  datatype Stats = Stats(total: nat, byStatus: Option<StatusCounts>)

  datatype StatusCounts = StatusCounts(pending: nat, approved: nat, rejected: nat)

  /** A request-body string is truthy: present and not empty. */
  predicate Given(v: Option<string>) {
    v.Some? && v.value != ""
  }

  /** `v || null` for a request-body string. */
  function OrNull(v: Option<string>): (r: Option<string>)
    ensures r.Some? <==> Given(v)
    ensures r.Some? ==> r == v
  {
    if Given(v) then v else None
  }

  /** `admin_id` is truthy: present and not the number 0. */
  predicate AdminGiven(adminId: Option<int>) {
    adminId.Some? && adminId.value != 0
  }

  /** The condition under which `approveGalleryItem` updates the row: a
      truthy admin id, a present id, and a row not already approved. */
  predicate ApproveAccepted(items: map<int, Item>, id: int, adminId: Option<int>) {
    AdminGiven(adminId) && id in items && items[id].status != Approved
  }

  /** `/^[0-9]{10,11}$/` applied to the phone with all whitespace removed. */
  predicate ValidPhone(phone: string) {
    var clean := RemoveWhitespace(phone);
    10 <= |clean| <= 11 && AllDigits(clean)
  }

  /** The checks `createGalleryItem` makes before touching the table; `None`
      when the submission is accepted. */
  function CheckSubmission(imageUrl: Option<string>, message: Option<string>, phone: Option<string>): (r: Option<Reason>)
    ensures r == None <==> Given(imageUrl) && Given(message) && (Given(phone) ==> ValidPhone(phone.value))
    ensures r == Some(MissingImageOrMessage) <==> !Given(imageUrl) || !Given(message)
    ensures r.Some? ==> r.value == MissingImageOrMessage || r.value == InvalidPhone
  {
    if !Given(imageUrl) || !Given(message) then Some(MissingImageOrMessage)
    else if Given(phone) && !ValidPhone(phone.value) then Some(InvalidPhone)
    else None
  }

  /** The row `createGalleryItem` inserts. */
  function NewItem(imageUrl: string, message: string, name: Option<string>, phone: Option<string>, now: nat): Item {
    Item(imageUrl, message, OrNull(name), OrNull(phone), Pending, None, None, now, None, None)
  }

  /** `WHERE g.status = ?` when a truthy `status` query parameter is given, no filter otherwise. */
  predicate Selects(status: Option<string>, it: Item) {
    !Given(status) || StatusName(it.status) == status.value
  }

  function PublicView(id: int, it: Item): PublicRow {
    PublicRow(id, it.imageUrl, it.message, it.visitorName, it.createdAt, it.approvedAt)
  }

  /** The sort key of `ORDER BY approved_at DESC`: NULL sorts after every time. */
  function ApprovedKey(p: PublicRow): int {
    match p.approvedAt
    case Some(t) => t
    case None => -1
  }

  /** The sort key of `ORDER BY g.created_at DESC`. */
  function CreatedKey(r: Row): int {
    r.item.createdAt
  }

  /** The rows the public listing returns, as a set (the order is separate). */
  function ApprovedRows(items: map<int, Item>): set<PublicRow> {
    set id | id in items && items[id].status == Approved :: PublicView(id, items[id])
  }

  /** The rows the admin listing returns for a `status` parameter, as a set. */
  function SelectedRows(items: map<int, Item>, status: Option<string>): set<Row> {
    set id | id in items && Selects(status, items[id]) :: Row(id, items[id])
  }

  /** The same sets, restricted to ids below `bound`: what a scan of the id range has seen. */
  function ApprovedRowsBelow(items: map<int, Item>, bound: int): set<PublicRow> {
    set id | id in items && id < bound && items[id].status == Approved :: PublicView(id, items[id])
  }

  function SelectedRowsBelow(items: map<int, Item>, status: Option<string>, bound: int): set<Row> {
    set id | id in items && id < bound && Selects(status, items[id]) :: Row(id, items[id])
  }

  function IdsWithStatus(items: map<int, Item>, s: Status): set<int> {
    set id | id in items && items[id].status == s
  }

  /** The three status classes partition the table. */
  lemma {:induction false} StatusCountsPartition(items: map<int, Item>)
    ensures |IdsWithStatus(items, Pending)| + |IdsWithStatus(items, Approved)| + |IdsWithStatus(items, Rejected)| == |items|
  {
    var p, a, r := IdsWithStatus(items, Pending), IdsWithStatus(items, Approved), IdsWithStatus(items, Rejected);
    assert p !! a && (p + a) !! r;
    forall id | id in items.Keys
      ensures id in p + a + r
    {
      match items[id].status
      case Pending => assert id in p;
      case Approved => assert id in a;
      case Rejected => assert id in r;
    }
    assert items.Keys == p + a + r;
    assert |p + a| == |p| + |a|;
    assert |p + a + r| == |p + a| + |r|;
  }

  lemma ApprovedRowsStep(items: map<int, Item>, i: int)
    ensures ApprovedRowsBelow(items, i + 1) ==
              if i in items && items[i].status == Approved
              then ApprovedRowsBelow(items, i) + {PublicView(i, items[i])}
              else ApprovedRowsBelow(items, i)
  {
  }

  lemma SelectedRowsStep(items: map<int, Item>, status: Option<string>, i: int)
    ensures SelectedRowsBelow(items, status, i + 1) ==
              if i in items && Selects(status, items[i])
              then SelectedRowsBelow(items, status, i) + {Row(i, items[i])}
              else SelectedRowsBelow(items, status, i)
  {
  }

  lemma RowsBelowBound(items: map<int, Item>, status: Option<string>, bound: int)
    requires forall id :: id in items ==> id < bound
    ensures SelectedRowsBelow(items, status, bound) == SelectedRows(items, status)
    ensures ApprovedRowsBelow(items, bound) == ApprovedRows(items)
  {
  }

  /** Scanning id `i` extends the multiset of rows seen so far by `i`'s row when it is selected. */
  lemma SelectedScanStep(items: map<int, Item>, status: Option<string>, i: int, rows: seq<Row>)
    requires multiset(rows) == multiset(SelectedRowsBelow(items, status, i))
    ensures i in items && Selects(status, items[i]) ==>
              multiset(InsertDesc(rows, Row(i, items[i]), CreatedKey)) == multiset(SelectedRowsBelow(items, status, i + 1))
    ensures !(i in items && Selects(status, items[i])) ==>
              multiset(rows) == multiset(SelectedRowsBelow(items, status, i + 1))
  {
    SelectedRowsStep(items, status, i);
    if i in items && Selects(status, items[i]) {
      MultisetOfAddedElement(SelectedRowsBelow(items, status, i), Row(i, items[i]));
    }
  }

  /** Adding one element that is not yet in a set adds one occurrence to its multiset. */
  lemma MultisetOfAddedElement<T>(s: set<T>, x: T)
    requires x !in s
    ensures multiset(s + {x}) == multiset(s) + multiset{x}
  {
  }

  class Gallery {
    /** The `gallery` table, by id. */
    var items: map<int, Item>
    /** The next value of the auto-increment `id` column. */
    var nextId: int

    ghost predicate Valid()
      reads this
    {
      && 1 <= nextId
      && (forall id :: id in items ==> 1 <= id < nextId)
      && (forall id :: id in items && items[id].status == Approved ==> items[id].approvedAt.Some?)
    }

    constructor ()
      ensures Valid()
      ensures items == map[] && nextId == 1
    {
      items := map[];
      nextId := 1;
    }

    /** `createGalleryItem`: validate, then insert a pending row under a fresh id. */
    method Create(imageUrl: Option<string>, message: Option<string>, visitorName: Option<string>,
                  visitorPhone: Option<string>, now: nat)
      returns (r: Result<int, Error>)
      requires Valid()
      modifies this
      ensures Valid()
      ensures r.Success? <==> CheckSubmission(imageUrl, message, visitorPhone) == None
      ensures r.Failure? ==> r.error == BadRequest(CheckSubmission(imageUrl, message, visitorPhone).value)
      ensures r.Failure? ==> items == old(items) && nextId == old(nextId)
      ensures r.Success? ==>
        && r.value == old(nextId) && r.value !in old(items)
        && items == old(items)[r.value := NewItem(imageUrl.value, message.value, visitorName, visitorPhone, now)]
        && nextId == old(nextId) + 1
    {
      var check := CheckSubmission(imageUrl, message, visitorPhone);
      if check.Some? {
        return Failure(BadRequest(check.value));
      }
      var id := nextId;
      items := items[id := NewItem(imageUrl.value, message.value, visitorName, visitorPhone, now)];
      nextId := nextId + 1;
      r := Success(id);
    }

    /** `approveGalleryItem`: refused without an admin id, for an unknown id, or
        when the row is already approved; a rejected row can be approved. */
    method Approve(id: int, adminId: Option<int>, now: nat) returns (r: Outcome)
      requires Valid()
      modifies this
      ensures Valid() && nextId == old(nextId)
      ensures !AdminGiven(adminId) ==> r == Refused(BadRequest(MissingAdminId))
      ensures AdminGiven(adminId) && id !in old(items) ==> r == Refused(NotFound)
      ensures AdminGiven(adminId) && id in old(items) && old(items)[id].status == Approved ==>
                r == Refused(BadRequest(AlreadyApproved))
      ensures r.Refused? ==> items == old(items)
      ensures r == Done <==> ApproveAccepted(old(items), id, adminId)
      ensures r == Done ==>
        items == old(items)[id := old(items)[id].(status := Approved, adminId := adminId,
                                                 approvedAt := Some(now), updatedAt := Some(now))]
    {
      if !AdminGiven(adminId) {
        return Refused(BadRequest(MissingAdminId));
      }
      if id !in items {
        return Refused(NotFound);
      }
      if items[id].status == Approved {
        return Refused(BadRequest(AlreadyApproved));
      }
      items := items[id := items[id].(status := Approved, adminId := adminId,
                                      approvedAt := Some(now), updatedAt := Some(now))];
      r := Done;
    }

    /** `rejectGalleryItem`: refused without an admin id or for an unknown id;
        any status, `approved` included, becomes `rejected`. */
    method Reject(id: int, adminId: Option<int>, adminNote: Option<string>, now: nat) returns (r: Outcome)
      requires Valid()
      modifies this
      ensures Valid() && nextId == old(nextId)
      ensures !AdminGiven(adminId) ==> r == Refused(BadRequest(MissingAdminId))
      ensures AdminGiven(adminId) && id !in old(items) ==> r == Refused(NotFound)
      ensures r.Refused? ==> items == old(items)
      ensures r == Done <==> AdminGiven(adminId) && id in old(items)
      ensures r == Done ==>
        items == old(items)[id := old(items)[id].(status := Rejected, adminId := adminId,
                                                 adminNote := OrNull(adminNote), updatedAt := Some(now))]
    {
      if !AdminGiven(adminId) {
        return Refused(BadRequest(MissingAdminId));
      }
      if id !in items {
        return Refused(NotFound);
      }
      items := items[id := items[id].(status := Rejected, adminId := adminId,
                                      adminNote := OrNull(adminNote), updatedAt := Some(now))];
      r := Done;
    }

    /** `deleteGalleryItem`: 404 when no row was affected. */
    method Delete(id: int) returns (r: Outcome)
      requires Valid()
      modifies this
      ensures Valid() && nextId == old(nextId)
      ensures r == Done <==> id in old(items)
      ensures r.Refused? ==> r.error == NotFound && items == old(items)
      ensures items == old(items) - {id}
    {
      if id !in items {
        return Refused(NotFound);
      }
      items := items - {id};
      r := Done;
    }

    /** `getGalleryItemDetail`. */
    function Detail(id: int): (r: Result<Row, Error>)
      reads this
      ensures r.Success? <==> id in items
      ensures r.Success? ==> r.value.id == id && r.value.item == items[id]
      ensures r.Failure? ==> r.error == NotFound
    {
      if id in items then Success(Row(id, items[id])) else Failure(NotFound)
    }

    /** `getGalleryStats`. */
    function GetStats(): (s: Stats)
      reads this
      ensures s.total == |items|
      ensures s.byStatus.None? <==> items == map[]
      ensures s.byStatus.Some? ==>
                s.byStatus.value.pending + s.byStatus.value.approved + s.byStatus.value.rejected == s.total
      ensures s.byStatus.Some? ==>
                && s.byStatus.value.pending == |IdsWithStatus(items, Pending)|
                && s.byStatus.value.approved == |IdsWithStatus(items, Approved)|
                && s.byStatus.value.rejected == |IdsWithStatus(items, Rejected)|
    {
      StatusCountsPartition(items);
      if items == map[] then Stats(0, None)
      else
        Stats(|items|, Some(StatusCounts(|IdsWithStatus(items, Pending)|,
                                         |IdsWithStatus(items, Approved)|, |IdsWithStatus(items, Rejected)|)))
    }

    /** `getApprovedGallery`: exactly the approved rows, newest approval first. */
    method GetApprovedGallery() returns (rows: seq<PublicRow>)
      requires Valid()
      ensures SortedDesc(rows, ApprovedKey)
      ensures multiset(rows) == multiset(ApprovedRows(items))
    {
      rows := [];
      var i := 0;
      while i < nextId
        invariant 0 <= i <= nextId
        invariant SortedDesc(rows, ApprovedKey)
        invariant multiset(rows) == multiset(ApprovedRowsBelow(items, i))
      {
        if i in items && items[i].status == Approved {
          var p := PublicView(i, items[i]);
          MultisetOfAddedElement(ApprovedRowsBelow(items, i), p);
          InsertDescSorted(rows, p, ApprovedKey);
          rows := InsertDesc(rows, p, ApprovedKey);
        }
        ApprovedRowsStep(items, i);
        i := i + 1;
      }
      RowsBelowBound(items, None, nextId);
    }

    /** `getAllGalleryItems`: the rows with the given status (all rows when no
        status is given), newest first. */
    method GetAllGalleryItems(status: Option<string>) returns (rows: seq<Row>)
      requires Valid()
      ensures SortedDesc(rows, CreatedKey)
      ensures multiset(rows) == multiset(SelectedRows(items, status))
    {
      rows := [];
      var i := 0;
      while i < nextId
        invariant 0 <= i <= nextId
        invariant SortedDesc(rows, CreatedKey)
        invariant multiset(rows) == multiset(SelectedRowsBelow(items, status, i))
      {
        SelectedScanStep(items, status, i, rows);
        if i in items && Selects(status, items[i]) {
          InsertDescSorted(rows, Row(i, items[i]), CreatedKey);
          rows := InsertDesc(rows, Row(i, items[i]), CreatedKey);
        }
        i := i + 1;
      }
      RowsBelowBound(items, status, nextId);
    }
  }
}

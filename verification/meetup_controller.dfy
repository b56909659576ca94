/** MeetupController: an organizer lists (`index`), creates (`store`),
    edits (`update`) and cancels (`delete`) their meetups. */
module MeetupController {
  import opened Base
  import opened Meetups
  import opened Tables
  import opened Query
  import opened Db

  const SchemaError := "a required field is missing or invalid"
  const PastDate := "Paste date are not permited."
  const EndBeforeStart := "Start time must be greater than end time"
  const NotFound := "Meetup not found."
  const NoUpdatePermission := "You don't have permission to update this meetup."
  const UpdateOccurred := "You cannot edit meetups already occurred."
  const OwnerChange := "You cannot change meetup's owner"
  const NoDeletePermission := "You don't have permission to delete this meetup."
  const DeleteOccurred := "You cannot delete meetups already occurred."
  const DeleteFailed := "Can't possible delete this meetup."

  /** The `order` query parameter: by ascending or descending id. */
  datatype Direction = Asc | Desc

  /** The query string of `index`; absent parameters take their defaults. */
  datatype ListQuery = ListQuery(page: Option<int>, limit: Option<nat>, order: Option<Direction>)

  /** The body of a create or update request. `owner` is a `user_id` key the
      client may have put in it. */
  datatype MeetupBody = MeetupBody(
    title: Option<string>,
    description: Option<string>,
    banner: Option<int>,
    start: Option<Time>,
    end: Option<Time>,
    address: Option<string>,
    complement: Option<string>,
    owner: Option<Id>)

  /** No meetup changes its organizer between two states of the table. */
  predicate OwnersKept(before: seq<Meetup>, after: seq<Meetup>) {
    forall a, b :: a in before && b in after && a.id == b.id ==> a.owner == b.owner
  }

  /** The create schema: every field but the address complement is present
      (and, for text, not empty). */
  function Complete(b: MeetupBody): (r: bool)
    ensures r ==> b.start.Some? && b.end.Some? && b.banner.Some?
    ensures r ==> b.title.Some? && b.title.value != "" && b.description.Some? && b.description.value != ""
    ensures r ==> b.address.Some? && b.address.value != ""
  {
    && Truthy(b.title) && Truthy(b.description) && b.banner.Some?
    && b.start.Some? && b.end.Some? && Truthy(b.address)
  }

  /** The row `Meetup.create` inserts: the body's fields, the next id, and
      the requester as organizer whatever `user_id` the body carried. */
  function Create(b: MeetupBody, id: Id, requester: Id): (m: Meetup)
    requires Complete(b)
    ensures m.id == id && m.owner == requester
    ensures m.start == b.start.value && m.end == b.end.value
  {
    Meetup(id, requester, b.banner.value, b.title.value, b.description.value,
           b.start.value, b.end.value, b.address.value, b.complement)
  }

  /** The row after `meetup.update(body)`: each field the body carries
      replaces the stored one; id and organizer are never touched, and the
      new dates are not checked against each other or the clock. */
  function Patch(m: Meetup, b: MeetupBody): (r: Meetup)
    ensures r.id == m.id && r.owner == m.owner
    ensures r.start == b.start.GetOr(m.start) && r.end == b.end.GetOr(m.end)
    ensures r.title == b.title.GetOr(m.title) && r.description == b.description.GetOr(m.description)
    ensures r.banner == b.banner.GetOr(m.banner) && r.address == b.address.GetOr(m.address)
    ensures r.complement == if b.complement.Some? then b.complement else m.complement
  {
    Meetup(m.id, m.owner, b.banner.GetOr(m.banner), b.title.GetOr(m.title),
           b.description.GetOr(m.description), b.start.GetOr(m.start), b.end.GetOr(m.end),
           b.address.GetOr(m.address), if b.complement.Some? then b.complement else m.complement)
  }

  /** The table after `Meetup.destroy` of row `i`: every other row, in order. */
  function Remove(ms: seq<Meetup>, i: nat): (r: seq<Meetup>)
    requires i < |ms| && MeetupIdsAscending(ms)
    ensures |r| == |ms| - 1
    ensures MeetupIdsAscending(r)
    ensures forall m :: m in r <==> m in ms && m.id != ms[i].id
  {
    assert ms == ms[..i] + [ms[i]] + ms[i + 1..];
    ms[..i] + ms[i + 1..]
  }

  /** Rewriting one row with `Patch` changes no organizer. */
  lemma PatchKeepsOwners(ms: seq<Meetup>, i: nat, b: MeetupBody)
    requires i < |ms| && MeetupIdsAscending(ms)
    ensures OwnersKept(ms, ms[i := Patch(ms[i], b)])
  {
    var after := ms[i := Patch(ms[i], b)];
    forall x, y | x in ms && y in after && x.id == y.id
      ensures x.owner == y.owner
    {
      var k :| 0 <= k < |ms| && ms[k] == x;
      var l :| 0 <= l < |after| && after[l] == y;
      assert ms[l].id == y.id;
    }
  }

  /** `update` can leave a meetup that ends before it starts, or that now
      starts in the past: the owner moves only the start, past the end. */
  lemma UpdateMayInvertDates(m: Meetup, now: Time)
    requires now <= m.start <= m.end
    ensures var b := MeetupBody(None, None, None, Some(m.end + 1), None, None, None, None);
            Patch(m, b).end < Patch(m, b).start
    ensures var b := MeetupBody(None, None, None, Some(now - 1), None, None, None, None);
            Past(Patch(m, b), now)
  {
  }

  /** Filtering keeps the ascending id order of the table. */
  lemma {:induction false} FilterKeepsIdsAscending(ms: seq<Meetup>, p: Meetup -> bool)
    ensures MeetupIdsAscending(ms) ==> MeetupIdsAscending(Filter(ms, p))
  {
    if ms != [] && MeetupIdsAscending(ms) {
      FilterKeepsIdsAscending(ms[1..], p);
      var rest := Filter(ms[1..], p);
      forall j | 0 <= j < |rest|
        ensures ms[0].id < rest[j].id
      {
        assert rest[j] in ms[1..];
      }
    }
  }

  /** The requester's meetups in the requested id order, before paging. */
  function Listing(ms: seq<Meetup>, requester: Id, order: Direction): (r: seq<Meetup>)
    ensures forall m :: m in r <==> m in ms && m.owner == requester
    ensures MeetupIdsAscending(ms) && order == Asc ==> MeetupIdsAscending(r)
    ensures MeetupIdsAscending(ms) && order == Desc ==> MeetupIdsDescending(r)
  {
    var owned := Filter(ms, (m: Meetup) => m.owner == requester);
    FilterKeepsIdsAscending(ms, (m: Meetup) => m.owner == requester);
    if order == Asc then owned
    else
      var r := Reverse(owned);
      assert forall m :: m in r <==> m in owned by {
        forall m | m in owned ensures m in r {
          var k :| 0 <= k < |owned| && owned[k] == m;
          assert r[|owned| - 1 - k] == m;
        }
      }
      r
  }

  /** `index`: page `page` (default 1) of the requester's meetups, `limit`
      (default 20) per page, ordered by id (descending by default). */
  function Index(ms: seq<Meetup>, requester: Id, q: ListQuery): (r: seq<Meetup>)
    requires q.page.GetOr(1) >= 1
    ensures |r| <= q.limit.GetOr(20)
    ensures forall m :: m in r ==> m in ms && m.owner == requester
    ensures var listing := Listing(ms, requester, q.order.GetOr(Desc));
            var offset := Offset(q.limit.GetOr(20), q.page.GetOr(1));
            && |r| == (if offset >= |listing| then 0 else Min(q.limit.GetOr(20), |listing| - offset))
            && forall i :: 0 <= i < |r| ==> offset + i < |listing| && r[i] == listing[offset + i]
    ensures MeetupIdsAscending(ms) && q.order.GetOr(Desc) == Asc ==> MeetupIdsAscending(r)
    ensures MeetupIdsAscending(ms) && q.order.GetOr(Desc) == Desc ==> MeetupIdsDescending(r)
  {
    var limit, page := q.limit.GetOr(20), q.page.GetOr(1);
    var listing := Listing(ms, requester, q.order.GetOr(Desc));
    PageKeepsOrder(listing, limit, page);
    PageWithin(listing, limit, page);
    Paginate(listing, limit, page)
  }

  /** A page of an id-ordered listing is ordered the same way. */
  lemma PageKeepsOrder(listing: seq<Meetup>, limit: nat, page: int)
    requires page >= 1
    ensures MeetupIdsAscending(listing) ==> MeetupIdsAscending(Paginate(listing, limit, page))
    ensures MeetupIdsDescending(listing) ==> MeetupIdsDescending(Paginate(listing, limit, page))
  {
    var r, offset := Paginate(listing, limit, page), Offset(limit, page);
    forall i, j | 0 <= i < j < |r|
      ensures r[i] == listing[offset + i] && r[j] == listing[offset + j] && offset + j < |listing|
    {
    }
  }

  /** `store`: schema, then no start in the past, then no end before the
      start; the new row belongs to the requester. */
  method Store(db: Database, requester: Id, body: MeetupBody, now: Time) returns (r: Response<Meetup>)
    requires db.Valid()
    modifies db
    ensures db.Valid()
    ensures r.Err? ==> unchanged(db)
    ensures !Complete(body) ==> r.Err? && r.status == BadRequest
    ensures Complete(body) && body.start.value < now ==> r == Err(BadRequest, PastDate)
    ensures Complete(body) && now <= body.start.value && body.end.value < body.start.value
            ==> r == Err(BadRequest, EndBeforeStart)
    ensures r.Ok? <==> Complete(body) && now <= body.start.value <= body.end.value
    ensures r.Ok? ==>
              && r.status == Success
              && r.body.owner == requester
              && r.body == Create(body, old(db.nextMeetupId), requester)
              && db.meetups == old(db.meetups) + [r.body]
              && db.users == old(db.users) && db.subscriptions == old(db.subscriptions)
              && db.queue == old(db.queue) && db.nextMeetupId == old(db.nextMeetupId) + 1
              && db.nextUserId == old(db.nextUserId) && db.nextSubscriptionId == old(db.nextSubscriptionId)
    ensures OwnersKept(old(db.meetups), db.meetups)
  {
    if !Complete(body) {
      return Err(BadRequest, SchemaError);
    }
    if body.start.value < now {
      return Err(BadRequest, PastDate);
    }
    if body.end.value < body.start.value {
      return Err(BadRequest, EndBeforeStart);
    }
    var meetup := Create(body, db.nextMeetupId, requester);
    db.meetups := db.meetups + [meetup];
    db.nextMeetupId := db.nextMeetupId + 1;
    return Ok(Success, meetup);
  }

  /** `update`: the schema (every field optional, each of its own type),
      which a typed body always passes, so it is no guard here; then found,
      the requester's own, not past, and no `user_id` in the body; the row
      takes the body's fields. */
  method Update(db: Database, requester: Id, id: Id, body: MeetupBody, now: Time) returns (r: Response<Meetup>)
    requires db.Valid()
    modifies db
    ensures db.Valid()
    ensures r.Err? ==> unchanged(db)
    ensures MeetupIndex(old(db.meetups), id) < 0 ==> r == Err(BadRequest, NotFound)
    ensures var i := MeetupIndex(old(db.meetups), id);
            0 <= i ==>
              var m := old(db.meetups)[i];
              && (requester != m.owner ==> r == Err(Unauthorized, NoUpdatePermission))
              && (requester == m.owner && Past(m, now) ==> r == Err(Unauthorized, UpdateOccurred))
              && (requester == m.owner && !Past(m, now) && body.owner.Some?
                  ==> r == Err(Unauthorized, OwnerChange))
              && (requester == m.owner && !Past(m, now) && body.owner.None?
                  ==> r == Ok(Success, Patch(m, body)) && db.meetups == old(db.meetups)[i := Patch(m, body)])
    ensures r.Ok? ==>
              && db.users == old(db.users) && db.subscriptions == old(db.subscriptions)
              && db.queue == old(db.queue) && db.nextMeetupId == old(db.nextMeetupId)
              && db.nextUserId == old(db.nextUserId) && db.nextSubscriptionId == old(db.nextSubscriptionId)
    ensures OwnersKept(old(db.meetups), db.meetups)
  {
    var i := MeetupIndex(db.meetups, id);
    if i < 0 {
      return Err(BadRequest, NotFound);
    }
    var meetup := db.meetups[i];
    if requester != meetup.owner {
      return Err(Unauthorized, NoUpdatePermission);
    }
    if Past(meetup, now) {
      return Err(Unauthorized, UpdateOccurred);
    }
    if body.owner.Some? {
      return Err(Unauthorized, OwnerChange);
    }
    var updated := Patch(meetup, body);
    PatchKeepsOwners(db.meetups, i, body);
    db.meetups := db.meetups[i := updated];
    return Ok(Success, updated);
  }

  /** `delete`: found, then the requester's own, then not past; then the
      row goes, unless the database refuses (`destroyFails`). */
  method Delete(db: Database, requester: Id, id: Id, now: Time, destroyFails: bool) returns (r: Response<()>)
    requires db.Valid()
    modifies db
    ensures db.Valid()
    ensures r.Err? ==> unchanged(db)
    ensures MeetupIndex(old(db.meetups), id) < 0 ==> r == Err(BadRequest, NotFound)
    ensures var i := MeetupIndex(old(db.meetups), id);
            0 <= i ==>
              var m := old(db.meetups)[i];
              && (requester != m.owner ==> r == Err(Unauthorized, NoDeletePermission))
              && (requester == m.owner && Past(m, now) ==> r == Err(Unauthorized, DeleteOccurred))
              && (requester == m.owner && !Past(m, now) && destroyFails ==> r == Err(BadRequest, DeleteFailed))
              && (requester == m.owner && !Past(m, now) && !destroyFails ==> r == Ok(Success, ()))
    ensures r.Ok? ==>
              && |db.meetups| == |old(db.meetups)| - 1
              && (forall m :: m in db.meetups <==> m in old(db.meetups) && m.id != id)
              && db.users == old(db.users) && db.subscriptions == old(db.subscriptions)
              && db.queue == old(db.queue) && db.nextMeetupId == old(db.nextMeetupId)
              && db.nextUserId == old(db.nextUserId) && db.nextSubscriptionId == old(db.nextSubscriptionId)
    ensures OwnersKept(old(db.meetups), db.meetups)
  {
    var i := MeetupIndex(db.meetups, id);
    if i < 0 {
      return Err(BadRequest, NotFound);
    }
    var meetup := db.meetups[i];
    if requester != meetup.owner {
      return Err(Unauthorized, NoDeletePermission);
    }
    if Past(meetup, now) {
      return Err(Unauthorized, DeleteOccurred);
    }
    if destroyFails {
      return Err(BadRequest, DeleteFailed);
    }
    db.meetups := Remove(db.meetups, i);
    return Ok(Success, ());
  }
}

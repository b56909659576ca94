/** SubscriptionController: a user signs up for someone else's upcoming
    meetup (`store`) and lists the upcoming meetups they signed up for
    (`index`). */
module SubscriptionController {
  import opened Base
  import opened Meetups
  import opened Tables
  import opened Query
  import opened Db

  const MeetupNotFound := "Meetup not found."
  const MeetupOccurred := "You can only sign up for meetups that hasn't occurred."
  const OwnMeetup := "You are owner of this meetup"
  const SubscribedTwice := "You cannot sign up for the same meetup twice"
  const SameTime := "You are subscribed to a meetup that will take place at the same time."

  // The overlap query of `store`, for the candidate meetup `c` and a meetup
  // `e` the user already attends. Its three clauses are kept apart, exactly
  // as the query states them; `between`, `gte` and `lte` are inclusive.

  /** First clause: `e` starts between the candidate's start and end. */
  predicate StartsWithin(c: Meetup, e: Meetup) {
    c.start <= e.start <= c.end
  }

  /** Second clause: `e` ends between the candidate's start and end. */
  predicate EndsWithin(c: Meetup, e: Meetup) {
    c.start <= e.end <= c.end
  }

  /** Third clause: `e` starts no earlier and ends no later than the candidate. */
  predicate LiesWithin(c: Meetup, e: Meetup) {
    e.start >= c.start && e.end <= c.end
  }

  /** `e` is caught by the overlap query for candidate `c`. */
  function Clashes(c: Meetup, e: Meetup): (r: bool)
    ensures r ==> Overlap(c, e) || e.end < e.start
  {
    StartsWithin(c, e) || EndsWithin(c, e) || LiesWithin(c, e)
  }

  /** The two time ranges share an instant (both ends inclusive). */
  predicate Overlap(c: Meetup, e: Meetup) {
    c.start <= e.end && e.start <= c.end
  }

  /** For a meetup that does not end before it starts, the third clause adds
      nothing to the first two. */
  lemma ThirdClauseRedundant(c: Meetup, e: Meetup)
    requires e.start <= e.end
    ensures Clashes(c, e) <==> StartsWithin(c, e) || EndsWithin(c, e)
  {
  }

  /** A meetup that ends before it starts (which `update` can produce) is
      caught by the third clause alone: there the third clause is not
      redundant. */
  lemma ThirdClauseCatchesInvertedMeetup(c: Meetup, e: Meetup)
    requires c.start <= c.end
    requires c.end < e.start && e.end < c.start
    ensures Clashes(c, e) && !StartsWithin(c, e) && !EndsWithin(c, e)
  {
  }

  /** Ranges that only touch at an endpoint clash. */
  lemma TouchingEndpointsClash(c: Meetup, e: Meetup)
    requires c.start <= c.end
    requires e.end == c.start || e.start == c.end
    ensures Clashes(c, e)
  {
  }

  /** A meetup that strictly encloses the candidate is not caught, although
      the two overlap. */
  lemma EnclosingMeetupMissed(c: Meetup, e: Meetup)
    requires c.start <= c.end
    requires e.start < c.start && c.end < e.end
    ensures !Clashes(c, e) && Overlap(c, e)
  {
  }

  /** For well-ordered ranges, the query catches exactly the overlaps that are
      not strict enclosures of the candidate. */
  lemma ClashesAreOverlapsButEnclosures(c: Meetup, e: Meetup)
    requires c.start <= c.end && e.start <= e.end
    ensures Clashes(c, e) <==> Overlap(c, e) && !(e.start < c.start && c.end < e.end)
  {
  }

  /** A subscription row whose meetup exists and clashes with `c` (the inner
      join of the query with the meetups table). */
  predicate AttendsClash(ms: seq<Meetup>, s: Subscription, c: Meetup) {
    exists e :: e in ms && e.id == s.meetup && Clashes(c, e)
  }

  /** The rows the overlap query returns: the user's subscriptions whose
      meetup clashes with `c`. */
  function ClashingSubscriptions(ms: seq<Meetup>, ss: seq<Subscription>, user: Id, c: Meetup): (r: seq<Subscription>)
    ensures forall s :: s in r <==> s in ss && s.user == user && AttendsClash(ms, s, c)
  {
    Filter(ss, (s: Subscription) => s.user == user && AttendsClash(ms, s, c))
  }

  /** Every guard of `store` passes: the meetup exists, is not past, is not
      the requester's own, is not yet subscribed and clashes with nothing the
      requester attends. */
  function Admits(ms: seq<Meetup>, ss: seq<Subscription>, requester: Id, meetupId: Id, now: Time): (r: bool)
    ensures r ==> exists m :: m in ms && m.id == meetupId && !Past(m, now) && m.owner != requester
                    && forall s :: s in ss && s.user == requester ==> !AttendsClash(ms, s, m)
    ensures r ==> !Subscribed(ss, requester, meetupId)
  {
    var i := MeetupIndex(ms, meetupId);
    && 0 <= i
    && !Past(ms[i], now)
    && requester != ms[i].owner
    && !Subscribed(ss, requester, meetupId)
    && |ClashingSubscriptions(ms, ss, requester, ms[i])| == 0
  }

  /** Attending a meetup that clashes with the candidate blocks the request. */
  lemma ClashBlocks(ms: seq<Meetup>, ss: seq<Subscription>, user: Id, c: Meetup, e: Meetup, s: Subscription, now: Time)
    requires c in ms && MeetupIdsAscending(ms)
    requires s in ss && s.user == user && e in ms && e.id == s.meetup
    requires StartsWithin(c, e) || EndsWithin(c, e)
    ensures s in ClashingSubscriptions(ms, ss, user, c)
    ensures !Admits(ms, ss, user, c.id, now)
  {
    var i := MeetupIndex(ms, c.id);
    var k :| 0 <= k < |ms| && ms[k] == c;
    assert ms[i] == c;
  }

  /** Two meetups that overlap in time can both be attended: with only `e`
      subscribed, a request for a candidate `c` that `e` strictly encloses
      passes every guard. */
  lemma EnclosedMeetupAdmitted(e: Meetup, c: Meetup, user: Id, sid: Id, now: Time)
    requires e.id < c.id && c.start <= c.end && e.start < c.start && c.end < e.end
    requires now <= c.start && c.owner != user
    ensures Overlap(c, e)
    ensures Admits([e, c], [Subscription(sid, user, e.id)], user, c.id, now)
  {
    var ms, ss := [e, c], [Subscription(sid, user, e.id)];
    assert ms[0] == e && ms[1] == c;
    assert MeetupIndex(ms, c.id) == 1;
    assert !Subscribed(ss, user, c.id);
    EnclosingMeetupMissed(c, e);
    forall x | x in ms && x.id == e.id
      ensures !Clashes(c, x)
    {
      assert x == e;
    }
    assert !AttendsClash(ms, ss[0], c);
    assert ClashingSubscriptions(ms, ss, user, c) == [];
  }

  /** `store`: the guards in the source's order, then one new subscription
      row and one SubscriptionMail job. */
  method Store(db: Database, requester: Id, meetupId: Id, now: Time) returns (r: Response<Subscription>)
    requires db.Valid()
    modifies db
    ensures db.Valid()
    ensures r.Err? ==> unchanged(db)
    ensures MeetupIndex(old(db.meetups), meetupId) < 0 ==> r == Err(BadRequest, MeetupNotFound)
    ensures var i := MeetupIndex(old(db.meetups), meetupId);
            0 <= i ==>
              var m := old(db.meetups)[i];
              && (Past(m, now) ==> r == Err(BadRequest, MeetupOccurred))
              && (!Past(m, now) && requester == m.owner ==> r == Err(Unauthorized, OwnMeetup))
              && (!Past(m, now) && requester != m.owner && Subscribed(old(db.subscriptions), requester, meetupId)
                  ==> r == Err(Unauthorized, SubscribedTwice))
              && (!Past(m, now) && requester != m.owner && !Subscribed(old(db.subscriptions), requester, meetupId)
                  && |ClashingSubscriptions(old(db.meetups), old(db.subscriptions), requester, m)| > 0
                  ==> r == Err(Unauthorized, SameTime))
    ensures r.Ok? <==> Admits(old(db.meetups), old(db.subscriptions), requester, meetupId, now)
    ensures r.Ok? ==>
              && r.status == Success
              && r.body == Subscription(old(db.nextSubscriptionId), requester, meetupId)
              && db.subscriptions == old(db.subscriptions) + [r.body]
              && db.queue == old(db.queue) + [SubscriptionMail(meetupId, requester)]
              && db.users == old(db.users) && db.meetups == old(db.meetups)
              && db.nextUserId == old(db.nextUserId) && db.nextMeetupId == old(db.nextMeetupId)
              && db.nextSubscriptionId == old(db.nextSubscriptionId) + 1
  {
    var i := MeetupIndex(db.meetups, meetupId);
    if i < 0 {
      return Err(BadRequest, MeetupNotFound);
    }
    var meetup := db.meetups[i];
    if Past(meetup, now) {
      return Err(BadRequest, MeetupOccurred);
    }
    if requester == meetup.owner {
      return Err(Unauthorized, OwnMeetup);
    }
    if Subscribed(db.subscriptions, requester, meetupId) {
      return Err(Unauthorized, SubscribedTwice);
    }
    var clashing := ClashingSubscriptions(db.meetups, db.subscriptions, requester, meetup);
    if |clashing| > 0 {
      return Err(Unauthorized, SameTime);
    }
    var subscription := Subscription(db.nextSubscriptionId, requester, meetupId);
    AddSubscriptionKeepsPairsUnique(db.subscriptions, subscription);
    db.subscriptions := db.subscriptions + [subscription];
    db.nextSubscriptionId := db.nextSubscriptionId + 1;
    db.queue := db.queue + [SubscriptionMail(meetupId, requester)];
    return Ok(Success, subscription);
  }

  /** The order of `index`: ascending start. */
  predicate SortedByStart(ms: seq<Meetup>) {
    forall i, j :: 0 <= i < j < |ms| ==> ms[i].start <= ms[j].start
  }

  /** `m` placed into an already sorted list. */
  function InsertByStart(m: Meetup, sorted: seq<Meetup>): (r: seq<Meetup>)
    requires SortedByStart(sorted)
    ensures SortedByStart(r)
    ensures multiset(r) == multiset(sorted) + multiset{m}
  {
    if sorted == [] then [m]
    else if m.start <= sorted[0].start then
      assert forall j :: 0 <= j < |sorted| ==> sorted[0].start <= sorted[j].start;
      [m] + sorted
    else
      var rest := InsertByStart(m, sorted[1..]);
      assert sorted == [sorted[0]] + sorted[1..];
      SortedHead(sorted, m, rest);
      [sorted[0]] + rest
  }

  /** Whatever `rest` holds (the tail of `sorted` and `m`) starts no earlier
      than the head of `sorted`. */
  lemma SortedHead(sorted: seq<Meetup>, m: Meetup, rest: seq<Meetup>)
    requires SortedByStart(sorted) && sorted != [] && sorted[0].start < m.start
    requires multiset(rest) == multiset(sorted[1..]) + multiset{m}
    ensures forall j :: 0 <= j < |rest| ==> sorted[0].start <= rest[j].start
  {
    forall j | 0 <= j < |rest|
      ensures sorted[0].start <= rest[j].start
    {
      assert rest[j] in multiset(rest);
      if rest[j] != m {
        assert rest[j] in multiset(sorted[1..]);
        var k :| 0 <= k < |sorted[1..]| && sorted[1..][k] == rest[j];
        assert sorted[k + 1] == rest[j];
      }
    }
  }

  /** The rows ordered by ascending start (rows that start together in any order). */
  function SortByStart(ms: seq<Meetup>): (r: seq<Meetup>)
    ensures SortedByStart(r)
    ensures multiset(r) == multiset(ms)
  {
    if ms == [] then []
    else
      assert ms == [ms[0]] + ms[1..];
      InsertByStart(ms[0], SortByStart(ms[1..]))
  }

  /** `index`: the meetups still to start that the requester subscribed to,
      ascending by start. */
  function Index(ms: seq<Meetup>, ss: seq<Subscription>, requester: Id, now: Time): (r: seq<Meetup>)
    ensures SortedByStart(r)
    ensures forall m :: m in r <==> m in ms && now < m.start && Subscribed(ss, requester, m.id)
    ensures multiset(r) <= multiset(ms)
  {
    var upcoming := Filter(ms, (m: Meetup) => now < m.start && Subscribed(ss, requester, m.id));
    var r := SortByStart(upcoming);
    assert forall m :: m in r <==> m in multiset(r);
    assert forall m :: m in upcoming <==> m in multiset(upcoming);
    r
  }
}

/** AvailableController: the meetups of every organizer that start on a
    given calendar day, a page at a time. */
module AvailableController {
  import opened Base
  import opened Meetups
  import opened Tables
  import opened Query

  const DateInvalid := "Date invalid."

  /** A day, in milliseconds; days are counted in UTC. */
  const DayLength := 86_400_000

  /** The first instant of the day holding `t`. */
  function StartOfDay(t: Time): (s: Time)
    ensures s <= t < s + DayLength && s % DayLength == 0
  {
    t - t % DayLength
  }

  /** The last instant (millisecond) of the day holding `t`. */
  function EndOfDay(t: Time): (e: Time)
    ensures t <= e < t + DayLength && (e + 1) % DayLength == 0
  {
    StartOfDay(t) + DayLength - 1
  }

  /** Every instant lies in its own day, which is `DayLength` instants long. */
  lemma DayHoldsItsInstant(t: Time)
    ensures StartOfDay(t) <= t <= EndOfDay(t)
    ensures EndOfDay(t) - StartOfDay(t) + 1 == DayLength
  {
  }

  /** Days do not overlap: every instant between the bounds of `t`'s day has
      the same day as `t`. */
  lemma SameDay(t: Time, u: Time)
    ensures StartOfDay(t) <= u <= EndOfDay(t) ==> StartOfDay(u) == StartOfDay(t) && EndOfDay(u) == EndOfDay(t)
  {
    if StartOfDay(t) <= u <= EndOfDay(t) {
      var q, k := t / DayLength, u - StartOfDay(t);
      assert StartOfDay(t) == DayLength * q;
      assert u == DayLength * q + k && 0 <= k < DayLength;
      assert u / DayLength == q && u % DayLength == k by {
        DivModUnique(u, q, k);
      }
    }
  }

  /** Euclidean division has one quotient and one remainder. */
  lemma DivModUnique(u: int, q: int, k: int)
    requires u == DayLength * q + k && 0 <= k < DayLength
    ensures u / DayLength == q && u % DayLength == k
  {
    var q', k' := u / DayLength, u % DayLength;
    assert u == DayLength * q' + k' && 0 <= k' < DayLength;
    assert DayLength * (q - q') == k' - k;
  }

  /** The meetup starts between the first and the last instant of `day`'s
      day, both included. */
  function OnDay(m: Meetup, day: Time): (r: bool)
    ensures r <==> StartOfDay(m.start) == StartOfDay(day)
  {
    SameDay(day, m.start);
    StartOfDay(day) <= m.start <= EndOfDay(day)
  }

  /** The rows of the query's `where`: meetups of any organizer that start on
      `day`, in table order. */
  function DayMeetups(ms: seq<Meetup>, day: Time): (r: seq<Meetup>)
    ensures forall m :: m in r <==> m in ms && OnDay(m, day)
  {
    Filter(ms, (m: Meetup) => OnDay(m, day))
  }

  /** A listed meetup with its `organizer` include. */
  datatype AvailableRow = AvailableRow(meetup: Meetup, organizer: Option<UserView>)

  /** The `organizer` include attached to every row. */
  function WithOrganizers(ms: seq<Meetup>, us: seq<User>): (r: seq<AvailableRow>)
    ensures |r| == |ms|
    ensures forall i :: 0 <= i < |ms| ==> r[i].meetup == ms[i] && r[i].organizer == Organizer(ms[i], us)
  {
    if ms == [] then [] else [AvailableRow(ms[0], Organizer(ms[0], us))] + WithOrganizers(ms[1..], us)
  }

  /** `index`: 400 without a date; otherwise page `page` (default 1) of the
      day's meetups, `limit` (default 10) per page, with their organizers. */
  function Index(ms: seq<Meetup>, us: seq<User>, date: Option<Time>, limit: Option<nat>, page: Option<int>)
    : (r: Response<seq<AvailableRow>>)
    requires page.GetOr(1) >= 1
    ensures r.Err? <==> date.None?
    ensures r.Err? ==> r == Err(BadRequest, DateInvalid)
    ensures r.Ok? ==>
              && r.status == Success
              && |r.body| <= limit.GetOr(10)
              && forall l :: l in r.body ==>
                   l.meetup in ms && OnDay(l.meetup, date.value) && l.organizer == Organizer(l.meetup, us)
    ensures r.Ok? ==>
              var day := DayMeetups(ms, date.value);
              var offset := Offset(limit.GetOr(10), page.GetOr(1));
              && |r.body| == (if offset >= |day| then 0 else Min(limit.GetOr(10), |day| - offset))
              && forall i :: 0 <= i < |r.body| ==> offset + i < |day| && r.body[i].meetup == day[offset + i]
  {
    if date.None? then Err(BadRequest, DateInvalid)
    else
      var day := DayMeetups(ms, date.value);
      var rows := Paginate(day, limit.GetOr(10), page.GetOr(1));
      var r := WithOrganizers(rows, us);
      assert forall l :: l in r ==> exists i :: 0 <= i < |rows| && l == r[i];
      assert forall m :: m in rows ==> m in day;
      Ok(Success, r)
  }
}

/** The Meetup model: one row of the meetups table, its two foreign keys and
    its virtual `past` attribute. */
module Meetups {
  import opened Base

  /** A meetup row. `owner` is the `user_id` foreign key (the organizer,
      association `organizer`) and `banner` the `banner_id` foreign key
      (association `banner`); every row carries exactly one of each. */
  datatype Meetup = Meetup(
    id: Id,
    owner: Id,
    banner: int,
    title: string,
    description: string,
    start: Time,
    end: Time,
    address: string,
    complement: Option<string>)

  /** The virtual `past` attribute: the meetup starts strictly before `now`.
      It is computed on every read and never stored. */
  function Past(m: Meetup, now: Time): (r: bool)
    ensures r <==> now > m.start
  {
    m.start < now
  }

  /** A meetup that starts exactly now is not past yet. */
  lemma StartingNowIsNotPast(m: Meetup, now: Time)
    requires m.start == now
    ensures !Past(m, now)
  {
  }

  /** `past` depends on nothing but the start and the clock: two rows that
      agree on `start` agree on `past`, whatever else differs. */
  lemma PastIsDerived(a: Meetup, b: Meetup, now: Time)
    requires a.start == b.start
    ensures Past(a, now) == Past(b, now)
  {
  }

  /** Once past, a meetup stays past as the clock moves forward. */
  lemma PastIsPermanent(m: Meetup, now: Time, later: Time)
    requires now <= later && Past(m, now)
    ensures Past(m, later)
  {
  }
}

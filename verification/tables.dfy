/** The rows of the users and meetup_subscriptions tables, the mail jobs the
    queue holds, lookups by key and the invariants every table keeps. */
module Tables {
  import opened Base
  import opened Meetups
  import opened Query

  /** A user row. `password` stands for the stored credential (hashing
      happens in a model hook that is not part of this model). */
  datatype User = User(id: Id, name: string, email: string, password: string)

  /** What the API shows of a user: never a password field. */
  datatype UserView = UserView(id: Id, name: string, email: string)

  /** A meetup_subscriptions row: `user` attends meetup `meetup`. */
  datatype Subscription = Subscription(id: Id, user: Id, meetup: Id)

  /** A SubscriptionMail job on the queue, naming the meetup and the
      subscriber whose data the mail is written from. */
  datatype MailJob = SubscriptionMail(meetup: Id, subscriber: Id)

  /** The public fields of a user row. */
  function View(u: User): UserView {
    UserView(u.id, u.name, u.email)
  }

  /** findByPk on the meetups table: the row index of meetup `id`, or -1. */
  function MeetupIndex(ms: seq<Meetup>, id: Id): (i: int)
    ensures -1 <= i < |ms|
    ensures 0 <= i ==> ms[i].id == id
    ensures i < 0 <==> forall k :: 0 <= k < |ms| ==> ms[k].id != id
  {
    FirstIndex(ms, (m: Meetup) => m.id == id)
  }

  /** findByPk on the users table: the row index of user `id`, or -1. */
  function UserIndex(us: seq<User>, id: Id): (i: int)
    ensures -1 <= i < |us|
    ensures 0 <= i ==> us[i].id == id
    ensures i < 0 <==> forall k :: 0 <= k < |us| ==> us[k].id != id
  {
    FirstIndex(us, (u: User) => u.id == id)
  }

  /** findOne on the users table by email finds a row. */
  function EmailTaken(us: seq<User>, email: string): (r: bool)
    ensures r <==> exists k :: 0 <= k < |us| && us[k].email == email
  {
    exists u :: u in us && u.email == email
  }

  /** findOne on meetup_subscriptions by (meetup, user) finds a row. */
  function Subscribed(ss: seq<Subscription>, user: Id, meetup: Id): (r: bool)
    ensures r <==> exists k :: 0 <= k < |ss| && ss[k].user == user && ss[k].meetup == meetup
  {
    exists s :: s in ss && s.user == user && s.meetup == meetup
  }

  /** The `organizer` association of a meetup, as an include shows it: the
      owner's public fields, or nothing when no user row has that id. */
  function Organizer(m: Meetup, us: seq<User>): (o: Option<UserView>)
    ensures o.None? <==> forall u :: u in us ==> u.id != m.owner
    ensures o.Some? ==> o.value.id == m.owner && exists u :: u in us && View(u) == o.value
  {
    var i := UserIndex(us, m.owner);
    if i < 0 then None else Some(View(us[i]))
  }

  predicate MeetupIdsAscending(ms: seq<Meetup>) {
    forall i, j :: 0 <= i < j < |ms| ==> ms[i].id < ms[j].id
  }

  predicate MeetupIdsDescending(ms: seq<Meetup>) {
    forall i, j :: 0 <= i < j < |ms| ==> ms[i].id > ms[j].id
  }

  predicate UserIdsAscending(us: seq<User>) {
    forall i, j :: 0 <= i < j < |us| ==> us[i].id < us[j].id
  }

  predicate SubscriptionIdsAscending(ss: seq<Subscription>) {
    forall i, j :: 0 <= i < j < |ss| ==> ss[i].id < ss[j].id
  }

  /** No two users share an email. */
  predicate EmailsUnique(us: seq<User>) {
    forall i, j :: 0 <= i < j < |us| ==> us[i].email != us[j].email
  }

  /** No two users share a non-empty email: what the email guards of sign-up
      and profile edits keep, since an edit may write the empty email. */
  predicate FilledEmailsUnique(us: seq<User>) {
    forall i, j :: 0 <= i < j < |us| && us[i].email != "" ==> us[i].email != us[j].email
  }

  /** No (user, meetup) pair is subscribed twice. */
  predicate PairsUnique(ss: seq<Subscription>) {
    forall i, j :: 0 <= i < j < |ss| ==> ss[i].user != ss[j].user || ss[i].meetup != ss[j].meetup
  }

  /** Every invariant of the three tables; `next…` is the id the next insert
      into that table receives. */
  predicate WellFormed(us: seq<User>, ms: seq<Meetup>, ss: seq<Subscription>,
                       nextUser: Id, nextMeetup: Id, nextSubscription: Id)
  {
    && UserIdsAscending(us) && (forall u :: u in us ==> u.id < nextUser)
    && FilledEmailsUnique(us)
    && MeetupIdsAscending(ms) && (forall m :: m in ms ==> m.id < nextMeetup)
    && SubscriptionIdsAscending(ss) && (forall s :: s in ss ==> s.id < nextSubscription)
    && PairsUnique(ss)
  }

  /** Adding a user whose email nobody holds keeps emails unique, filled
      ones or all. */
  lemma AddUserKeepsEmailsUnique(us: seq<User>, u: User)
    requires FilledEmailsUnique(us) && !EmailTaken(us, u.email)
    ensures FilledEmailsUnique(us + [u])
    ensures EmailsUnique(us) ==> EmailsUnique(us + [u])
  {
    var vs := us + [u];
    forall i | 0 <= i < |us|
      ensures vs[i].email != vs[|us|].email
    {
      assert us[i] in us;
    }
  }

  /** Rewriting row `i` keeps emails unique when the new email is the row's
      own or one nobody holds. */
  lemma ReplaceUserKeepsEmailsUnique(us: seq<User>, i: nat, u: User)
    requires i < |us| && EmailsUnique(us)
    requires u.email == us[i].email || !EmailTaken(us, u.email)
    ensures EmailsUnique(us[i := u])
  {
    var vs := us[i := u];
    forall a, b | 0 <= a < b < |vs|
      ensures vs[a].email != vs[b].email
    {
      if a == i {
        assert us[b] in us;
      } else if b == i {
        assert us[a] in us;
      }
    }
  }

  /** Rewriting row `i` keeps non-empty emails unique when the new email is
      the row's own, empty, or one nobody holds. */
  lemma ReplaceUserKeepsFilledEmailsUnique(us: seq<User>, i: nat, u: User)
    requires i < |us| && FilledEmailsUnique(us)
    requires u.email == us[i].email || u.email == "" || !EmailTaken(us, u.email)
    ensures FilledEmailsUnique(us[i := u])
  {
    var vs := us[i := u];
    forall a, b | 0 <= a < b < |vs| && vs[a].email != ""
      ensures vs[a].email != vs[b].email
    {
      if a == i {
        assert us[b] in us;
      } else if b == i {
        assert us[a] in us;
      }
    }
  }

  /** Adding a pair that is not yet subscribed keeps pairs unique. */
  lemma AddSubscriptionKeepsPairsUnique(ss: seq<Subscription>, s: Subscription)
    requires PairsUnique(ss) && !Subscribed(ss, s.user, s.meetup)
    ensures PairsUnique(ss + [s])
  {
    forall i, j | 0 <= i < j < |ss| + 1
      ensures (ss + [s])[i].user != (ss + [s])[j].user || (ss + [s])[i].meetup != (ss + [s])[j].meetup
    {
      if j == |ss| {
        assert ss[i] in ss;
      }
    }
  }
}

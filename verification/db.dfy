/** The application's database as the controllers see it: three tables that
    actions change in place, the mail job queue, and the id each table hands
    to its next insert. */
module Db {
  import opened Base
  import opened Meetups
  import opened Tables

  class Database {
    var users: seq<User>
    var meetups: seq<Meetup>
    var subscriptions: seq<Subscription>
    var queue: seq<MailJob>
    var nextUserId: Id
    var nextMeetupId: Id
    var nextSubscriptionId: Id

    ghost predicate Valid()
      reads this
    {
      WellFormed(users, meetups, subscriptions, nextUserId, nextMeetupId, nextSubscriptionId)
    }

    constructor ()
      ensures Valid()
      ensures users == [] && meetups == [] && subscriptions == [] && queue == []
    {
      users, meetups, subscriptions, queue := [], [], [], [];
      nextUserId, nextMeetupId, nextSubscriptionId := 1, 1, 1;
    }
  }
}

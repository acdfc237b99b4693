/** The `useUnreadMessages` hook: the number of messages the signed-in
    seller has not read, fetched once and then kept current from realtime
    insert and update events. The backend query and the realtime transport
    are not modelled; their outcomes arrive as method arguments. */
module UnreadMessages {
  import opened Common

  /** What can happen to the counter. */
  datatype Event =
    | SignedOut                            // the effect runs with no user
    | Fetched(outcome: Fetch<seq<int>>)    // the count query finished (ids of unread rows)
    | Inserted                             // a message row was inserted
    | Updated(oldRead: bool, newRead: bool) // a message row's read flag changed

  /** The count the query result stands for: the number of rows, 0 when the
      rows are missing or the query failed. */
  function FetchedCount(outcome: Fetch<seq<int>>): (n: nat)
    ensures outcome.Returned? && outcome.data.Some? ==> n == |outcome.data.value|
    ensures outcome.Failed? || outcome.data.None? ==> n == 0
  {
    match outcome
    case Returned(Some(rows)) => |rows|
    case Returned(None) => 0
    case Failed => 0
  }

  /** The count after one event. */
  function Step(count: int, e: Event): int {
    match e
    case SignedOut => 0
    case Fetched(outcome) => FetchedCount(outcome)
    case Inserted => count + 1
    case Updated(oldRead, newRead) =>
      if newRead && !oldRead then (if count - 1 > 0 then count - 1 else 0) else count
  }

  function Replay(count: int, events: seq<Event>): int
    decreases |events|
  {
    if events == [] then count else Replay(Step(count, events[0]), events[1..])
  }

  /** Starting from a count that is not negative, no sequence of events
      makes it negative. */
  lemma {:induction false} ReplayNonNegative(count: int, events: seq<Event>)
    requires count >= 0
    ensures Replay(count, events) >= 0
    decreases |events|
  {
    if events != [] {
      ReplayNonNegative(Step(count, events[0]), events[1..]);
    }
  }

  /** A new message that is then read leaves the count where it was. */
  lemma InsertThenRead(count: int)
    requires count >= 0
    ensures Replay(count, [Inserted, Updated(false, true)]) == count
  {
    assert [Inserted, Updated(false, true)][1..] == [Updated(false, true)];
  }

  /** Only a change from unread to read lowers the count, by one and never
      below zero; every other update leaves it alone. */
  lemma UpdateEffect(count: int, oldRead: bool, newRead: bool)
    requires count >= 0
    ensures Step(count, Updated(oldRead, newRead)) ==
      if newRead && !oldRead then (if count > 0 then count - 1 else 0) else count
  {
  }

  /** The hook's state. `channel` is the seller id the open `messages`
      channel filters its insert and update events on, if a channel is
      open. */
  class UnreadTracker {
    var unreadCount: int
    var loading: bool
    var channel: Option<int>

    ghost predicate Valid()
      reads this
    {
      unreadCount >= 0
    }

    constructor()
      ensures Valid()
      ensures unreadCount == 0 && loading && channel.None?
    {
      unreadCount := 0;
      loading := true;
      channel := None;
    }

    /** The effect for the current user: with no user the count is reset
        and loading ends without a subscription; with a user the count
        query starts (its result comes through `FetchCompleted`) and the
        `messages` channel is opened, filtered to that user's messages. */
    method RunEffect(user: Option<int>)
      requires Valid() && channel.None?
      modifies this
      ensures Valid()
      ensures user.None? ==> unreadCount == Step(old(unreadCount), SignedOut) && !loading && channel.None?
      ensures user.Some? ==> unreadCount == old(unreadCount) && loading == old(loading) && channel == user
    {
      if user.None? {
        unreadCount := 0;
        loading := false;
        return;
      }
      channel := user;
    }

    /** The end of `fetchUnreadCount`, on every path. */
    method FetchCompleted(outcome: Fetch<seq<int>>)
      requires Valid()
      modifies this
      ensures Valid()
      ensures unreadCount == Step(old(unreadCount), Fetched(outcome)) && !loading
      ensures channel == old(channel)
    {
      match outcome {
        case Returned(Some(rows)) => unreadCount := |rows|;
        case Returned(None) => unreadCount := 0;
        case Failed => unreadCount := 0;
      }
      loading := false;
    }

    /** The INSERT callback: one more unread message, whatever the row says. */
    method OnInsert()
      requires Valid() && channel.Some?
      modifies this
      ensures Valid()
      ensures unreadCount == Step(old(unreadCount), Inserted)
      ensures loading == old(loading) && channel == old(channel)
    {
      unreadCount := unreadCount + 1;
    }

    /** The UPDATE callback, given the row's read flag before and after. */
    method OnUpdate(oldRead: bool, newRead: bool)
      requires Valid() && channel.Some?
      modifies this
      ensures Valid()
      ensures unreadCount == Step(old(unreadCount), Updated(oldRead, newRead))
      ensures loading == old(loading) && channel == old(channel)
    {
      if newRead && !oldRead {
        unreadCount := if unreadCount - 1 > 0 then unreadCount - 1 else 0;
      }
    }

    /** The effect's cleanup: the channel is removed. */
    method Teardown()
      requires channel.Some?
      modifies this
      ensures channel.None?
      ensures unreadCount == old(unreadCount) && loading == old(loading)
    {
      channel := None;
    }
  }
}

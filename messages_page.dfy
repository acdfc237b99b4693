/** The seller's messages page: the fetched inbox, marking a message as read
    after the backend accepted the update, and the unread count it shows. */
module MessagesPage {
  import opened Common
  import opened Seqs
  import opened Records

  /** The inbox after `markAsRead(id)` succeeded: every message with that id
      marked read, every other message as it was. */
  function MarkRead(messages: seq<Message>, id: int): (r: seq<Message>)
    ensures |r| == |messages|
    ensures forall i :: 0 <= i < |r| ==>
      r[i] == if messages[i].id == id then messages[i].(readBySeller := true) else messages[i]
  {
    seq(|messages|, i requires 0 <= i < |messages| =>
      if messages[i].id == id then messages[i].(readBySeller := true) else messages[i])
  }

  predicate IsUnread(m: Message) {
    !m.readBySeller
  }

  predicate IsUnreadWithId(m: Message, id: int) {
    !m.readBySeller && m.id == id
  }

  /** `messages.filter(msg => !msg.read_by_seller).length`. */
  function UnreadCount(messages: seq<Message>): nat {
    |Keep(messages, IsUnread)|
  }

  /** Marking a message read lowers the unread count by the number of
      unread messages with that id, and so never raises it. */
  lemma {:induction false} MarkReadUnreadCount(messages: seq<Message>, id: int)
    ensures UnreadCount(MarkRead(messages, id)) + |Keep(messages, m => IsUnreadWithId(m, id))| == UnreadCount(messages)
    ensures UnreadCount(MarkRead(messages, id)) <= UnreadCount(messages)
    decreases |messages|
  {
    if messages != [] {
      MarkReadUnreadCount(messages[1..], id);
      assert MarkRead(messages, id)[1..] == MarkRead(messages[1..], id);
    }
  }

  /** After marking, no message with that id is unread, and marking again
      changes nothing. */
  lemma MarkReadIdempotent(messages: seq<Message>, id: int)
    ensures forall m :: m in MarkRead(messages, id) && m.id == id ==> m.readBySeller
    ensures MarkRead(MarkRead(messages, id), id) == MarkRead(messages, id)
  {
  }

  /** The page state this model follows. */
  class Inbox {
    var messages: seq<Message>
    var markingAsRead: set<int>
    var selectedMessage: Option<Message>
    var showMessageModal: bool

    constructor()
      ensures messages == [] && markingAsRead == {} && selectedMessage.None? && !showMessageModal
    {
      messages := [];
      markingAsRead := {};
      selectedMessage := None;
      showMessageModal := false;
    }

    /** `fetchMessages`: the returned rows, or nothing when the rows are
        missing or the query failed. */
    method FetchMessages(outcome: Fetch<seq<Message>>)
      modifies this
      ensures messages == if outcome.Returned? && outcome.data.Some? then outcome.data.value else []
      ensures markingAsRead == old(markingAsRead)
      ensures selectedMessage == old(selectedMessage) && showMessageModal == old(showMessageModal)
    {
      match outcome {
        case Returned(Some(rows)) => messages := rows;
        case Returned(None) => messages := [];
        case Failed => messages := [];
      }
    }

    /** The start of `markAsRead(id)`: the id is pending. */
    method BeginMarkAsRead(id: int)
      modifies this
      ensures markingAsRead == old(markingAsRead) + {id}
      ensures messages == old(messages)
      ensures selectedMessage == old(selectedMessage) && showMessageModal == old(showMessageModal)
    {
      markingAsRead := markingAsRead + {id};
    }

    /** The end of `markAsRead(id)`: on success the local copy is marked
        read, on failure it is left alone; either way the id is no longer
        pending. */
    method FinishMarkAsRead(id: int, succeeded: bool)
      modifies this
      ensures messages == if succeeded then MarkRead(old(messages), id) else old(messages)
      ensures markingAsRead == old(markingAsRead) - {id}
      ensures UnreadCount(messages) <= UnreadCount(old(messages))
      ensures selectedMessage == old(selectedMessage) && showMessageModal == old(showMessageModal)
    {
      if succeeded {
        MarkReadUnreadCount(messages, id);
        messages := MarkRead(messages, id);
      }
      markingAsRead := markingAsRead - {id};
    }

    /** `handleMessageClick`: the message is selected and shown, and a read
        update is requested only for an unread message. */
    method HandleMessageClick(message: Message) returns (requested: bool)
      modifies this
      ensures selectedMessage == Some(message) && showMessageModal
      ensures requested <==> !message.readBySeller
      ensures markingAsRead == if requested then old(markingAsRead) + {message.id} else old(markingAsRead)
      ensures messages == old(messages)
    {
      selectedMessage := Some(message);
      showMessageModal := true;
      requested := !message.readBySeller;
      if requested {
        BeginMarkAsRead(message.id);
      }
    }
  }

  /** The header badge shows only while some message is unread. */
  function ShowBadge(messages: seq<Message>): (show: bool)
    ensures show <==> exists m :: m in messages && !m.readBySeller
  {
    KeepMembers(messages, IsUnread);
    if UnreadCount(messages) > 0 then
      assert Keep(messages, IsUnread)[0] in Keep(messages, IsUnread);
      true
    else false
  }
}

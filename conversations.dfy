/**
 * The grouping loop of `GET /api/messages/conversations` (route.ts): the current
 * user's direct messages, newest first, become one conversation per other user.
 * The database query is left out; its result is the input, and the unread count
 * of each user is a parameter.
 */
module Conversations {
  import opened Wrappers

  /** The `id` and `username` the query selects for a sender or a receiver. */
  datatype DmUser = DmUser(id: string, username: string)

  /** A direct message with its sender and receiver, as the query returns it. */
  datatype DirectMessage = DirectMessage(id: string, content: string, senderId: string,
                                         sender: Option<DmUser>, receiver: Option<DmUser>)

  datatype Conversation = Conversation(user: DmUser, lastMessage: DirectMessage, unreadCount: nat)

  /** The other party: the receiver of a message the current user sent, else its sender. */
  function OtherUser(msg: DirectMessage, userId: string): Option<DmUser> {
    if msg.senderId == userId then msg.receiver else msg.sender
  }

  /** The message has `id` as its other party. */
  predicate Involves(msg: DirectMessage, userId: string, id: string) {
    OtherUser(msg, userId).Some? && OtherUser(msg, userId).value.id == id
  }

  /** The index of the first message whose other party is `id`. */
  function FirstInvolving(ms: seq<DirectMessage>, userId: string, id: string): (r: Option<nat>)
    ensures r.Some? ==> r.value < |ms| && Involves(ms[r.value], userId, id)
    ensures r.Some? ==> forall k :: 0 <= k < r.value ==> !Involves(ms[k], userId, id)
    ensures r.None? ==> forall k :: 0 <= k < |ms| ==> !Involves(ms[k], userId, id)
  {
    if ms == [] then None
    else match FirstInvolving(ms[..|ms| - 1], userId, id)
      case Some(j) => Some(j)
      case None => if Involves(ms[|ms| - 1], userId, id) then Some(|ms| - 1) else None
  }

  /** The user ids of a list of conversations, in order. */
  function UserIds(cs: seq<Conversation>): (ids: seq<string>)
    ensures |ids| == |cs| && forall k :: 0 <= k < |cs| ==> ids[k] == cs[k].user.id
  {
    if cs == [] then [] else UserIds(cs[..|cs| - 1]) + [cs[|cs| - 1].user.id]
  }

  /** The conversations of the messages `ms`, built message by message as the loop does. */
  function Grouped(ms: seq<DirectMessage>, userId: string, unread: string -> nat): seq<Conversation> {
    if ms == [] then []
    else
      var prev := Grouped(ms[..|ms| - 1], userId, unread);
      var msg := ms[|ms| - 1];
      match OtherUser(msg, userId)
      case None => prev
      case Some(other) =>
        if other.id in UserIds(prev) then prev
        else prev + [Conversation(other, msg, unread(other.id))]
  }

  /** `FirstInvolving` on one more message. */
  lemma FirstInvolvingStep(ms: seq<DirectMessage>, userId: string, id: string)
    requires ms != []
    ensures FirstInvolving(ms, userId, id) ==
              match FirstInvolving(ms[..|ms| - 1], userId, id)
              case Some(j) => Some(j)
              case None => if Involves(ms[|ms| - 1], userId, id) then Some(|ms| - 1) else None
  {
  }

  /** `Grouped` on one more message: that message opens a conversation exactly when its other user is new. */
  lemma GroupedStep(ms: seq<DirectMessage>, userId: string, unread: string -> nat)
    requires ms != []
    ensures var prev := Grouped(ms[..|ms| - 1], userId, unread);
            var msg := ms[|ms| - 1];
            var other := OtherUser(msg, userId);
            Grouped(ms, userId, unread) ==
              if other.Some? && other.value.id !in UserIds(prev)
              then prev + [Conversation(other.value, msg, unread(other.value.id))]
              else prev
  {
  }

  /** Nobody is left out: the other user of every message has a conversation. */
  lemma {:induction false} GroupedComplete(ms: seq<DirectMessage>, userId: string, unread: string -> nat)
    ensures forall j :: 0 <= j < |ms| && OtherUser(ms[j], userId).Some? ==>
              OtherUser(ms[j], userId).value.id in UserIds(Grouped(ms, userId, unread))
  {
    if ms != [] {
      var init := ms[..|ms| - 1];
      GroupedComplete(init, userId, unread);
      GroupedStep(ms, userId, unread);
      var prev := Grouped(init, userId, unread);
      var cs := Grouped(ms, userId, unread);
      assert UserIds(cs)[..|prev|] == UserIds(prev);
      forall j | 0 <= j < |ms| && OtherUser(ms[j], userId).Some?
        ensures OtherUser(ms[j], userId).value.id in UserIds(cs)
      {
        var id := OtherUser(ms[j], userId).value.id;
        if j < |init| {
          assert init[j] == ms[j];
          assert id in UserIds(prev);
          var k :| 0 <= k < |prev| && UserIds(prev)[k] == id;
          assert UserIds(cs)[k] == id;
        } else if id !in UserIds(prev) {
          assert UserIds(cs)[|prev|] == id;
        } else {
          var k :| 0 <= k < |prev| && UserIds(prev)[k] == id;
          assert UserIds(cs)[k] == id;
        }
      }
    }
  }

  /** Each other user has at most one conversation. */
  lemma {:induction false} GroupedDistinct(ms: seq<DirectMessage>, userId: string, unread: string -> nat)
    ensures var cs := Grouped(ms, userId, unread);
            forall a, b :: 0 <= a < b < |cs| ==> cs[a].user.id != cs[b].user.id
  {
    if ms != [] {
      GroupedDistinct(ms[..|ms| - 1], userId, unread);
      GroupedStep(ms, userId, unread);
    }
  }

  /**
   * Each conversation is that of the first message involving its user (the most
   * recent one, the query being newest first), with that user and their unread count.
   */
  lemma {:induction false} GroupedFromFirst(ms: seq<DirectMessage>, userId: string, unread: string -> nat)
    ensures var cs := Grouped(ms, userId, unread);
            forall k :: 0 <= k < |cs| ==>
              var j := FirstInvolving(ms, userId, cs[k].user.id);
              j.Some? && cs[k].lastMessage == ms[j.value] &&
              cs[k].user == OtherUser(ms[j.value], userId).value &&
              cs[k].unreadCount == unread(cs[k].user.id)
  {
    if ms != [] {
      var init := ms[..|ms| - 1];
      GroupedFromFirst(init, userId, unread);
      GroupedComplete(init, userId, unread);
      GroupedStep(ms, userId, unread);
      var prev := Grouped(init, userId, unread);
      var cs := Grouped(ms, userId, unread);
      forall k | 0 <= k < |cs|
        ensures var j := FirstInvolving(ms, userId, cs[k].user.id);
                j.Some? && cs[k].lastMessage == ms[j.value] &&
                cs[k].user == OtherUser(ms[j.value], userId).value &&
                cs[k].unreadCount == unread(cs[k].user.id)
      {
        var id := cs[k].user.id;
        FirstInvolvingStep(ms, userId, id);
        if k < |prev| {
          assert cs[k] == prev[k];
          var j := FirstInvolving(init, userId, id).value;
          assert init[j] == ms[j];
        } else {
          var j := FirstInvolving(init, userId, id);
          if j.Some? {
            assert false;
          }
        }
      }
    }
  }

  /** A user with a conversation is involved in some message. */
  lemma ConversationUserAppears(ms: seq<DirectMessage>, userId: string, unread: string -> nat, k: nat)
    requires k < |Grouped(ms, userId, unread)|
    ensures FirstInvolving(ms, userId, Grouped(ms, userId, unread)[k].user.id).Some?
  {
    GroupedFromFirst(ms, userId, unread);
  }

  /** A user without a conversation is involved in no message. */
  lemma AbsentUserUninvolved(ms: seq<DirectMessage>, userId: string, unread: string -> nat, id: string)
    requires id !in UserIds(Grouped(ms, userId, unread))
    ensures FirstInvolving(ms, userId, id).None?
  {
    GroupedComplete(ms, userId, unread);
    if FirstInvolving(ms, userId, id).Some? {
      assert false;
    }
  }

  /** User `x` first appears in `ms` before user `y` does. */
  predicate AppearsBefore(ms: seq<DirectMessage>, userId: string, x: string, y: string) {
    FirstInvolving(ms, userId, x).Some? && FirstInvolving(ms, userId, y).Some? &&
    FirstInvolving(ms, userId, x).value < FirstInvolving(ms, userId, y).value
  }

  /** The conversations come in the order in which their users first appear. */
  lemma {:induction false} GroupedInOrder(ms: seq<DirectMessage>, userId: string, unread: string -> nat)
    ensures var cs := Grouped(ms, userId, unread);
            forall a, b :: 0 <= a < b < |cs| ==> AppearsBefore(ms, userId, cs[a].user.id, cs[b].user.id)
  {
    if ms != [] {
      var init := ms[..|ms| - 1];
      GroupedInOrder(init, userId, unread);
      GroupedStep(ms, userId, unread);
      var prev := Grouped(init, userId, unread);
      var cs := Grouped(ms, userId, unread);
      forall a, b | 0 <= a < b < |cs|
        ensures AppearsBefore(ms, userId, cs[a].user.id, cs[b].user.id)
      {
        assert cs[a] == prev[a];
        ConversationUserAppears(init, userId, unread, a);
        FirstInvolvingStep(ms, userId, prev[a].user.id);
        if b < |prev| {
          assert cs[b] == prev[b];
          assert AppearsBefore(init, userId, prev[a].user.id, prev[b].user.id);
          FirstInvolvingStep(ms, userId, prev[b].user.id);
        } else {
          var id := cs[b].user.id;
          AbsentUserUninvolved(init, userId, unread, id);
          FirstInvolvingStep(ms, userId, id);
        }
      }
    }
  }

  /** The loop's `Map` holds `cs`: its keys, in insertion order, and the entry under each. */
  ghost predicate Tracks(keys: seq<string>, table: map<string, Conversation>, cs: seq<Conversation>) {
    keys == UserIds(cs) &&
    (forall id :: id in table <==> id in keys) &&
    (forall k :: 0 <= k < |keys| ==> keys[k] in table && table[keys[k]] == cs[k])
  }

  /** Setting a new key appends its entry. */
  lemma TracksSet(keys: seq<string>, table: map<string, Conversation>, cs: seq<Conversation>, c: Conversation)
    requires Tracks(keys, table, cs) && c.user.id !in table
    ensures Tracks(keys + [c.user.id], table[c.user.id := c], cs + [c])
  {
    assert UserIds(cs + [c]) == UserIds(cs) + [c.user.id];
  }

  /** `Array.from(map.values())` gives the tracked entries back in order. */
  lemma TracksValues(keys: seq<string>, table: map<string, Conversation>, cs: seq<Conversation>)
    requires Tracks(keys, table, cs)
    ensures seq(|keys|, k requires 0 <= k < |keys| => table[keys[k]]) == cs
  {
  }

  /**
   * The loop of route.ts: a `Map` from user id to conversation, filled only when
   * the id is new, whose values are returned in insertion order.
   */
  method GroupConversations(userId: string, messages: seq<DirectMessage>, unread: string -> nat)
    returns (conversations: seq<Conversation>)
    ensures conversations == Grouped(messages, userId, unread)
  {
    var keys: seq<string> := [];
    var conversationsMap: map<string, Conversation> := map[];
    for i := 0 to |messages|
      invariant Tracks(keys, conversationsMap, Grouped(messages[..i], userId, unread))
    {
      ghost var prev := Grouped(messages[..i], userId, unread);
      GroupedStep(messages[..i + 1], userId, unread);
      assert messages[..i + 1][..i] == messages[..i];
      var msg := messages[i];
      var otherUser := OtherUser(msg, userId);
      if otherUser.Some? && otherUser.value.id !in conversationsMap {
        var unreadCount := unread(otherUser.value.id);
        var entry := Conversation(otherUser.value, msg, unreadCount);
        TracksSet(keys, conversationsMap, prev, entry);
        conversationsMap := conversationsMap[otherUser.value.id := entry];
        keys := keys + [otherUser.value.id];
      }
    }
    assert messages[..|messages|] == messages;
    TracksValues(keys, conversationsMap, Grouped(messages, userId, unread));
    conversations := seq(|keys|, k requires 0 <= k < |keys| => conversationsMap[keys[k]]);
  }
}

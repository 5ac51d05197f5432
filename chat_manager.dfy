/**
 * The bookkeeping of the extension's `ChatManager` (ChatManager.ts): the chat
 * that is open, the ids of the messages already shown, and the poll timer.
 * Every request goes through an API client that is not part of this model: a
 * method returns the request it would make, and the server's reply is a
 * parameter.
 */
module ChatManager {
  import opened Wrappers
  import opened Seqs

  datatype ChatKind = Dm | Group

  /** `ChatTarget`: a direct conversation with a user, or a group. */
  datatype ChatTarget = ChatTarget(kind: ChatKind, id: string, name: string)

  /** The fields of a `Message` the bookkeeping reads. */
  datatype ChatMessage = ChatMessage(id: string, content: string, senderId: string)

  /** A `POST` with its path and the `content` of its body (whose `type` is always `'text'`). */
  datatype PostRequest = PostRequest(path: string, content: string)

  function DmPath(userId: string): string {
    "/api/messages/dm/" + userId
  }

  function GroupMessagesPath(groupId: string): string {
    "/api/groups/" + groupId + "/messages"
  }

  /** Where the messages of a chat are fetched from and posted to. */
  function ChatPath(chat: ChatTarget): (path: string)
    ensures chat.kind == Dm ==> path == DmPath(chat.id)
    ensures chat.kind == Group ==> path == GroupMessagesPath(chat.id)
  {
    match chat.kind
    case Dm => DmPath(chat.id)
    case Group => GroupMessagesPath(chat.id)
  }

  function DeletePath(userId: string): string {
    "/api/messages/conversations?targetUserId=" + userId
  }

  /** The ids of a list of messages. */
  function IdSet(ms: seq<ChatMessage>): set<string> {
    set i | 0 <= i < |ms| :: ms[i].id
  }

  lemma IdSetSnoc(ms: seq<ChatMessage>, m: ChatMessage)
    ensures IdSet(ms + [m]) == IdSet(ms) + {m.id}
  {
    var r := ms + [m];
    forall id | id in IdSet(r) ensures id in IdSet(ms) + {m.id} {
      var i :| 0 <= i < |r| && r[i].id == id;
      if i < |ms| {
        assert ms[i].id == id;
      }
    }
    forall id | id in IdSet(ms) + {m.id} ensures id in IdSet(r) {
      if id == m.id {
        assert r[|ms|].id == id;
      } else {
        var i :| 0 <= i < |ms| && ms[i].id == id;
        assert r[i].id == id;
      }
    }
  }

  /** The poll's `messages.filter(m => !knownMessageIds.has(m.id))`. */
  function Unknown(polled: seq<ChatMessage>, known: set<string>): seq<ChatMessage> {
    Filter(polled, (m: ChatMessage) => m.id !in known)
  }

  /** A polled message is new exactly when its id is not known; the order of polling is kept. */
  lemma UnknownMessages(polled: seq<ChatMessage>, known: set<string>, m: ChatMessage)
    ensures m in Unknown(polled, known) <==> m in polled && m.id !in known
    ensures forall a, b :: polled == a + b ==> Unknown(polled, known) == Unknown(a, known) + Unknown(b, known)
  {
    var keep := (m: ChatMessage) => m.id !in known;
    FilterMembers(polled, keep, m);
    forall a, b | polled == a + b ensures Unknown(polled, known) == Unknown(a, known) + Unknown(b, known) {
      FilterAppend(a, b, keep);
    }
  }

  /** Marking the new messages known makes every polled id known. */
  lemma PollCoversPolled(polled: seq<ChatMessage>, known: set<string>)
    ensures known + IdSet(Unknown(polled, known)) == known + IdSet(polled)
  {
    var added := Unknown(polled, known);
    forall id | id in IdSet(added) ensures id in IdSet(polled) {
      var i :| 0 <= i < |added| && added[i].id == id;
      UnknownMessages(polled, known, added[i]);
      var j :| 0 <= j < |polled| && polled[j] == added[i];
    }
    forall id | id in IdSet(polled) && id !in known ensures id in IdSet(added) {
      var j :| 0 <= j < |polled| && polled[j].id == id;
      UnknownMessages(polled, known, polled[j]);
      var i :| 0 <= i < |added| && added[i] == polled[j];
    }
  }

  /** Polling the same list again finds nothing new. */
  lemma {:induction false} SecondPollFindsNothing(polled: seq<ChatMessage>, known: set<string>)
    ensures Unknown(polled, known + IdSet(polled)) == []
  {
    var all := known + IdSet(polled);
    if Unknown(polled, all) != [] {
      var m := Unknown(polled, all)[0];
      UnknownMessages(polled, all, m);
      assert false;
    }
  }

  /** The new messages that raise a notification: those another user sent. */
  function ToNotify(newMessages: seq<ChatMessage>, currentUserId: Option<string>): (r: seq<ChatMessage>)
    ensures currentUserId.None? ==> r == []
    ensures forall i :: 0 <= i < |r| ==> r[i] in newMessages && Some(r[i].senderId) != currentUserId
  {
    if currentUserId.None? then []
    else Filter(newMessages, (m: ChatMessage) => m.senderId != currentUserId.value)
  }

  /** A new message from somebody else is always notified. */
  lemma OthersAreNotified(newMessages: seq<ChatMessage>, userId: string, m: ChatMessage)
    requires m in newMessages && m.senderId != userId
    ensures m in ToNotify(newMessages, Some(userId))
  {
    FilterMembers(newMessages, (m: ChatMessage) => m.senderId != userId, m);
  }

  class ChatManager {
    var currentChat: Option<ChatTarget>
    var knownMessageIds: set<string>
    /** The handle of the running `setInterval`, if any. */
    var pollTimer: Option<nat>

    constructor()
      ensures currentChat == None && knownMessageIds == {} && pollTimer == None
    {
      currentChat := None;
      knownMessageIds := {};
      pollTimer := None;
    }

    /** Opening a chat forgets the known ids; leaving one (`None`) keeps them. */
    method SetCurrentChat(chat: Option<ChatTarget>)
      modifies this
      ensures currentChat == chat
      ensures knownMessageIds == if chat.Some? then {} else old(knownMessageIds)
      ensures pollTimer == old(pollTimer)
    {
      currentChat := chat;
      if chat.Some? {
        knownMessageIds := {};
      }
    }

    /** After the first load, exactly the loaded ids are known. */
    method InitializeKnownMessages(messages: seq<ChatMessage>)
      modifies this
      ensures knownMessageIds == IdSet(messages)
      ensures currentChat == old(currentChat) && pollTimer == old(pollTimer)
    {
      knownMessageIds := {};
      AddAll(messages);
    }

    /** The `for (const msg of …) knownMessageIds.add(msg.id)` loop. */
    method AddAll(messages: seq<ChatMessage>)
      modifies this
      ensures knownMessageIds == old(knownMessageIds) + IdSet(messages)
      ensures currentChat == old(currentChat) && pollTimer == old(pollTimer)
    {
      for i := 0 to |messages|
        invariant knownMessageIds == old(knownMessageIds) + IdSet(messages[..i])
        invariant currentChat == old(currentChat) && pollTimer == old(pollTimer)
      {
        IdSetSnoc(messages[..i], messages[i]);
        assert messages[..i + 1] == messages[..i] + [messages[i]];
        knownMessageIds := knownMessageIds + {messages[i].id};
      }
      assert messages[..|messages|] == messages;
    }

    method AddKnownMessage(messageId: string)
      modifies this
      ensures knownMessageIds == old(knownMessageIds) + {messageId}
      ensures currentChat == old(currentChat) && pollTimer == old(pollTimer)
    {
      knownMessageIds := knownMessageIds + {messageId};
    }

    /** Sends a direct message; the id of the stored message becomes known at once. */
    method SendDM(userId: string, content: string, response: ChatMessage)
      returns (request: PostRequest, message: ChatMessage)
      modifies this
      ensures request == PostRequest(DmPath(userId), content) && message == response
      ensures knownMessageIds == old(knownMessageIds) + {response.id}
      ensures currentChat == old(currentChat) && pollTimer == old(pollTimer)
    {
      request := PostRequest(DmPath(userId), content);
      knownMessageIds := knownMessageIds + {response.id};
      message := response;
    }

    /** Sends a group message; the id of the stored message becomes known at once. */
    method SendGroupMessage(groupId: string, content: string, response: ChatMessage)
      returns (request: PostRequest, message: ChatMessage)
      modifies this
      ensures request == PostRequest(GroupMessagesPath(groupId), content) && message == response
      ensures knownMessageIds == old(knownMessageIds) + {response.id}
      ensures currentChat == old(currentChat) && pollTimer == old(pollTimer)
    {
      request := PostRequest(GroupMessagesPath(groupId), content);
      knownMessageIds := knownMessageIds + {response.id};
      message := response;
    }

    /** Sends to the open chat; with no chat open nothing is sent and `None` is returned. */
    method SendMessage(content: string, response: ChatMessage)
      returns (request: Option<PostRequest>, message: Option<ChatMessage>)
      modifies this
      ensures old(currentChat).None? ==>
                request == None && message == None && knownMessageIds == old(knownMessageIds)
      ensures old(currentChat).Some? ==>
                request == Some(PostRequest(ChatPath(old(currentChat).value), content)) &&
                message == Some(response) && knownMessageIds == old(knownMessageIds) + {response.id}
      ensures currentChat == old(currentChat) && pollTimer == old(pollTimer)
    {
      if currentChat.None? {
        return None, None;
      }
      var sent: PostRequest, m: ChatMessage;
      if currentChat.value.kind == Dm {
        sent, m := SendDM(currentChat.value.id, content, response);
      } else {
        sent, m := SendGroupMessage(currentChat.value.id, content, response);
      }
      request, message := Some(sent), Some(m);
    }

    /** Deletes a conversation, closing it when it is the open direct chat with that user. */
    method DeleteConversation(userId: string) returns (request: string)
      modifies this
      ensures request == DeletePath(userId)
      ensures currentChat ==
                if old(currentChat).Some? && old(currentChat).value.kind == Dm && old(currentChat).value.id == userId
                then None else old(currentChat)
      ensures knownMessageIds == old(knownMessageIds) && pollTimer == old(pollTimer)
    {
      request := DeletePath(userId);
      if currentChat.Some? && currentChat.value.kind == Dm && currentChat.value.id == userId {
        SetCurrentChat(None);
      }
    }

    /**
     * One poll of the open chat: `polled` is what the server returned from
     * `fetchPath`. The unknown messages, in order, are reported and become known,
     * and those another user sent are notified. With no chat open nothing happens.
     */
    method PollNewMessages(polled: seq<ChatMessage>, currentUserId: Option<string>)
      returns (fetchPath: Option<string>, newMessages: seq<ChatMessage>, notify: seq<ChatMessage>)
      modifies this
      ensures currentChat == old(currentChat) && pollTimer == old(pollTimer)
      ensures old(currentChat).None? ==>
                fetchPath == None && newMessages == [] && notify == [] && knownMessageIds == old(knownMessageIds)
      ensures old(currentChat).Some? ==>
                fetchPath == Some(ChatPath(old(currentChat).value)) &&
                newMessages == Unknown(polled, old(knownMessageIds)) &&
                knownMessageIds == old(knownMessageIds) + IdSet(polled) &&
                notify == ToNotify(newMessages, currentUserId)
    {
      if currentChat.None? {
        return None, [], [];
      }
      fetchPath := Some(ChatPath(currentChat.value));
      newMessages := Unknown(polled, knownMessageIds);
      PollCoversPolled(polled, knownMessageIds);
      notify := [];
      if |newMessages| > 0 {
        AddAll(newMessages);
        notify := ToNotify(newMessages, currentUserId);
      }
    }

    /** Starts the poll timer unless one is running; `handle` is the new interval's id. */
    method StartPolling(handle: nat) returns (started: bool)
      modifies this
      ensures started <==> old(pollTimer).None?
      ensures pollTimer == if started then Some(handle) else old(pollTimer)
      ensures currentChat == old(currentChat) && knownMessageIds == old(knownMessageIds)
    {
      if pollTimer.Some? {
        return false;
      }
      pollTimer := Some(handle);
      started := true;
    }

    /** Stops the poll timer; a second call changes nothing. */
    method StopPolling()
      modifies this
      ensures pollTimer == None
      ensures currentChat == old(currentChat) && knownMessageIds == old(knownMessageIds)
    {
      if pollTimer.Some? {
        pollTimer := None;
      }
    }
  }
}

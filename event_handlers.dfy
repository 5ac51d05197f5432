/**
 * The webview's handlers for what the extension sends it and for the user's own
 * actions (event-handlers.js), as updates of the shared `state` object. Rendering,
 * scrolling and `postMessage` are left out; a request the webview posts is
 * returned instead.
 */
module EventHandlers {
  import opened Wrappers
  import opened Strings
  import opened Seqs
  import opened WebviewState

  /** A message still waiting for the server or one that failed to send. */
  predicate IsUnsettled(m: Message) {
    m.status == Pending || m.status == Failed
  }

  /** `state.messages.filter(m => m.status === 'pending' || m.status === 'error')`. */
  function Unsettled(ms: seq<Message>): seq<Message> {
    Filter(ms, IsUnsettled)
  }

  /** The ids of a list of messages (`new Set(ms.map(m => m.id))`). */
  function IdsOf(ms: seq<Message>): set<string> {
    set i | 0 <= i < |ms| :: ms[i].id
  }

  /** `incoming.filter(m => !ids.has(m.id))`. */
  function Fresh(incoming: seq<Message>, ids: set<string>): seq<Message> {
    Filter(incoming, (m: Message) => m.id !in ids)
  }

  /** The local messages kept across a refresh are exactly the unsettled ones, in their order. */
  lemma UnsettledKept(ms: seq<Message>, m: Message)
    ensures m in Unsettled(ms) <==> m in ms && IsUnsettled(m)
    ensures forall a, b :: ms == a + b ==> Unsettled(ms) == Unsettled(a) + Unsettled(b)
  {
    FilterMembers(ms, IsUnsettled, m);
    forall a, b | ms == a + b ensures Unsettled(ms) == Unsettled(a) + Unsettled(b) {
      FilterAppend(a, b, IsUnsettled);
    }
  }

  /**
   * A message is fresh exactly when it is incoming and its id is not yet known;
   * the fresh ones keep their incoming order.
   */
  lemma FreshMessages(incoming: seq<Message>, ids: set<string>, m: Message)
    ensures m in Fresh(incoming, ids) <==> m in incoming && m.id !in ids
    ensures forall a, b :: incoming == a + b ==> Fresh(incoming, ids) == Fresh(a, ids) + Fresh(b, ids)
    ensures (forall i :: 0 <= i < |incoming| ==> incoming[i].id !in ids) ==> Fresh(incoming, ids) == incoming
  {
    var keep := (m: Message) => m.id !in ids;
    FilterMembers(incoming, keep, m);
    forall a, b | incoming == a + b ensures Fresh(incoming, ids) == Fresh(a, ids) + Fresh(b, ids) {
      FilterAppend(a, b, keep);
    }
    if forall i :: 0 <= i < |incoming| ==> incoming[i].id !in ids {
      FilterAll(incoming, keep);
    }
  }

  /**
   * `handleMessagesUpdate`: the incoming list followed by the local unsettled
   * messages; `hasMore` is false unless given, and the chat changes only when given.
   */
  method HandleMessagesUpdate(st: State, incoming: Option<seq<Message>>, chat: Option<ChatRef>, hasMore: Option<bool>)
    modifies st
    ensures st.messages == incoming.GetOr([]) + Unsettled(old(st.messages))
    ensures st.hasMore == hasMore.GetOr(false)
    ensures st.currentChat == if chat.Some? then chat else old(st.currentChat)
    ensures st.currentView == old(st.currentView) && st.currentUser == old(st.currentUser)
    ensures st.conversations == old(st.conversations) && st.groups == old(st.groups)
    ensures st.searchResults == old(st.searchResults) && st.loadingMore == old(st.loadingMore)
  {
    var incomingMessages := incoming.GetOr([]);
    if chat.Some? {
      st.currentChat := chat;
    }
    st.hasMore := hasMore.GetOr(false);
    var localPending := Unsettled(st.messages);
    var merged := PushAll(incomingMessages, localPending);
    st.messages := merged;
  }

  /** `for (const m of extra) list.push(m)` on a copy of `list`. */
  method PushAll(list: seq<Message>, extra: seq<Message>) returns (merged: seq<Message>)
    ensures merged == list + extra
  {
    merged := list;
    for i := 0 to |extra|
      invariant merged == list + extra[..i]
    {
      merged := merged + [extra[i]];
      assert extra[..i + 1] == extra[..i] + [extra[i]];
    }
    assert extra[..|extra|] == extra;
  }

  // ---------------------------------------------------------------------------
  // handleMessageSent
  // ---------------------------------------------------------------------------

  /** How many messages of `ms` carry the id. */
  function Occurrences(ms: seq<Message>, id: string): nat {
    if ms == [] then 0 else (if ms[0].id == id then 1 else 0) + Occurrences(ms[1..], id)
  }

  lemma {:induction false} OccurrencesAppend(a: seq<Message>, b: seq<Message>, id: string)
    ensures Occurrences(a + b, id) == Occurrences(a, id) + Occurrences(b, id)
  {
    if a == [] {
      assert a + b == b;
    } else {
      assert (a + b)[1..] == a[1..] + b;
      OccurrencesAppend(a[1..], b, id);
    }
  }

  lemma {:induction false} OccurrencesNone(ms: seq<Message>, id: string)
    requires forall j :: 0 <= j < |ms| ==> ms[j].id != id
    ensures Occurrences(ms, id) == 0
  {
    if ms != [] {
      OccurrencesNone(ms[1..], id);
    }
  }

  /** An occurrence at `k`, split off. */
  lemma OccurrencesAround(ms: seq<Message>, k: nat, id: string)
    requires k < |ms| && ms[k].id == id
    ensures Occurrences(ms, id) == Occurrences(ms[..k], id) + 1 + Occurrences(ms[k + 1..], id)
    ensures Occurrences(ms[..k] + ms[k + 1..], id) + 1 == Occurrences(ms, id)
  {
    assert ms == ms[..k] + ([ms[k]] + ms[k + 1..]);
    OccurrencesAppend(ms[..k], [ms[k]] + ms[k + 1..], id);
    OccurrencesAppend([ms[k]], ms[k + 1..], id);
    OccurrencesAppend(ms[..k], ms[k + 1..], id);
  }

  /** No occurrence after `k`. */
  lemma OccurrencesNoneAfter(ms: seq<Message>, k: nat, id: string)
    requires k < |ms| && forall j :: k < j < |ms| ==> ms[j].id != id
    ensures Occurrences(ms[k + 1..], id) == 0
  {
    var t := ms[k + 1..];
    forall j | 0 <= j < |t| ensures t[j].id != id {
      assert t[j] == ms[k + 1 + j];
    }
    OccurrencesNone(t, id);
  }

  /** Two distinct occurrences make at least two. */
  lemma OccurrencesOfTwo(ms: seq<Message>, f: nat, l: nat, id: string)
    requires f < l < |ms| && ms[f].id == id && ms[l].id == id
    ensures Occurrences(ms, id) >= 2
  {
    OccurrencesAround(ms, f, id);
    var t := ms[f + 1..];
    assert t[l - f - 1] == ms[l];
    OccurrencesAround(t, l - f - 1, id);
  }

  /** The first and the last occurrence differ exactly when the id occurs more than once. */
  lemma FirstLastOccurrences(ms: seq<Message>, id: string)
    requires FirstWithId(ms, id).Some?
    ensures FirstWithId(ms, id) != LastWithId(ms, id) <==> Occurrences(ms, id) >= 2
  {
    var f := FirstWithId(ms, id).value;
    var l := LastWithId(ms, id).value;
    if f == l {
      OccurrencesAround(ms, f, id);
      OccurrencesNone(ms[..f], id);
      OccurrencesNoneAfter(ms, f, id);
    } else {
      OccurrencesOfTwo(ms, f, l, id);
    }
  }

  /**
   * After the temporary message at `idx` became the server's message: when the id
   * now occurs twice, the occurrence other than `idx` is removed (lines 158-163).
   */
  function Dedupe(ms: seq<Message>, idx: nat): (r: seq<Message>)
    requires idx < |ms|
  {
    var id := ms[idx].id;
    var first := FirstWithId(ms, id).value;
    var last := LastWithId(ms, id).value;
    if first != last then
      var dup := if first == idx then last else first;
      ms[..dup] + ms[dup + 1..]
    else ms
  }

  /** Removing a different entry keeps the one at `idx` and shortens the list by one. */
  lemma RemovingOtherEntry(ms: seq<Message>, dup: nat, idx: nat)
    requires dup < |ms| && idx < |ms| && dup != idx
    ensures ms[idx] in ms[..dup] + ms[dup + 1..]
    ensures |ms[..dup] + ms[dup + 1..]| == |ms| - 1
  {
    if idx < dup {
      assert (ms[..dup] + ms[dup + 1..])[idx] == ms[idx];
    } else {
      assert (ms[..dup] + ms[dup + 1..])[idx - 1] == ms[idx];
    }
  }

  /**
   * Deduplication keeps the message at `idx`, removes at most one entry, and
   * removes one with the same id exactly when the id occurred more than once.
   */
  lemma DedupeRemovesOneCopy(ms: seq<Message>, idx: nat)
    requires idx < |ms|
    ensures ms[idx] in Dedupe(ms, idx)
    ensures |Dedupe(ms, idx)| == |ms| || |Dedupe(ms, idx)| == |ms| - 1
    ensures Occurrences(Dedupe(ms, idx), ms[idx].id) ==
              if Occurrences(ms, ms[idx].id) >= 2 then Occurrences(ms, ms[idx].id) - 1 else Occurrences(ms, ms[idx].id)
  {
    var id := ms[idx].id;
    FirstLastOccurrences(ms, id);
    var first := FirstWithId(ms, id).value;
    var last := LastWithId(ms, id).value;
    if first != last {
      var dup := if first == idx then last else first;
      assert dup != idx;
      var r := ms[..dup] + ms[dup + 1..];
      assert Dedupe(ms, idx) == r;
      RemovingOtherEntry(ms, dup, idx);
      OccurrencesAround(ms, dup, id);
    } else {
      assert Dedupe(ms, idx) == ms;
    }
  }

  /** The list after `handleMessageSent(tempId, msg)`. */
  function AfterSent(ms: seq<Message>, tempId: Option<string>, msg: Message): seq<Message> {
    if tempId.Some? && tempId.value != "" then
      match FirstWithId(ms, tempId.value)
      case Some(idx) => Dedupe(ms[idx := msg], idx)
      case None => if msg.id in IdsOf(ms) then ms else ms + [msg]
    else ms + [msg]
  }

  /**
   * With the temporary message present, the server's message takes its slot and
   * the list keeps its length or loses one duplicate; without it, the server's
   * message is appended unless already present; with no temporary id it is
   * always appended.
   */
  lemma AfterSentCases(ms: seq<Message>, tempId: Option<string>, msg: Message)
    ensures msg.id in IdsOf(AfterSent(ms, tempId, msg))
    ensures tempId.None? || tempId.value == "" ==> AfterSent(ms, tempId, msg) == ms + [msg]
    ensures tempId.Some? && tempId.value != "" && FirstWithId(ms, tempId.value).Some? ==>
              var r := AfterSent(ms, tempId, msg);
              (|r| == |ms| || |r| == |ms| - 1) &&
              (Occurrences(ms[FirstWithId(ms, tempId.value).value := msg], msg.id) <= 2 ==> Occurrences(r, msg.id) == 1)
    ensures tempId.Some? && tempId.value != "" && FirstWithId(ms, tempId.value).None? ==>
              AfterSent(ms, tempId, msg) == if msg.id in IdsOf(ms) then ms else ms + [msg]
  {
    if tempId.Some? && tempId.value != "" {
      match FirstWithId(ms, tempId.value)
      case Some(idx) =>
        var placed := ms[idx := msg];
        DedupeRemovesOneCopy(placed, idx);
        OccurrencesAround(placed, idx, msg.id);
        var r := Dedupe(placed, idx);
        var k :| 0 <= k < |r| && r[k] == msg;
        assert r[k].id in IdsOf(r);
      case None =>
        var r := AfterSent(ms, tempId, msg);
        if msg.id !in IdsOf(ms) {
          assert r[|ms|] == msg;
        }
    }
    if tempId.None? || tempId.value == "" {
      assert (ms + [msg])[|ms|] == msg;
    }
  }

  /** `handleMessageSent`. */
  method HandleMessageSent(st: State, tempId: Option<string>, msg: Message)
    modifies st
    ensures st.messages == AfterSent(old(st.messages), tempId, msg)
    ensures st.currentView == old(st.currentView) && st.currentUser == old(st.currentUser)
    ensures st.currentChat == old(st.currentChat)
    ensures st.conversations == old(st.conversations) && st.groups == old(st.groups)
    ensures st.searchResults == old(st.searchResults)
    ensures st.hasMore == old(st.hasMore) && st.loadingMore == old(st.loadingMore)
  {
    if tempId.Some? && tempId.value != "" {
      var found := FirstWithId(st.messages, tempId.value);
      if found.Some? {
        var idx := found.value;
        st.messages := st.messages[idx := msg];
        assert st.messages[idx].id == msg.id;
        var firstIdx := FirstWithId(st.messages, msg.id).value;
        var lastIdx := LastWithId(st.messages, msg.id).value;
        if firstIdx != lastIdx {
          var duplicateIdx := if firstIdx == idx then lastIdx else firstIdx;
          st.messages := st.messages[..duplicateIdx] + st.messages[duplicateIdx + 1..];
        }
      } else {
        var alreadyListed := msg.id in IdsOf(st.messages);
        if !alreadyListed {
          st.messages := st.messages + [msg];
        }
      }
    } else {
      st.messages := st.messages + [msg];
    }
  }

  // ---------------------------------------------------------------------------
  // New and older messages, paging
  // ---------------------------------------------------------------------------

  /** `handleNewMessages`: the incoming messages with unknown ids, appended in order. */
  method HandleNewMessages(st: State, incoming: Option<seq<Message>>)
    modifies st
    ensures st.messages == old(st.messages) + Fresh(incoming.GetOr([]), IdsOf(old(st.messages)))
    ensures st.currentView == old(st.currentView) && st.currentUser == old(st.currentUser)
    ensures st.currentChat == old(st.currentChat)
    ensures st.conversations == old(st.conversations) && st.groups == old(st.groups)
    ensures st.searchResults == old(st.searchResults)
    ensures st.hasMore == old(st.hasMore) && st.loadingMore == old(st.loadingMore)
  {
    if incoming.Some? && |incoming.value| > 0 {
      var existingIds := IdsOf(st.messages);
      var newMsgs := Fresh(incoming.value, existingIds);
      if |newMsgs| > 0 {
        st.messages := st.messages + newMsgs;
      }
    }
  }

  /** `handleOlderMessages`: the older messages with unknown ids, prepended in order. */
  method HandleOlderMessages(st: State, older: Option<seq<Message>>, hasMore: Option<bool>)
    modifies st
    ensures st.messages == Fresh(older.GetOr([]), IdsOf(old(st.messages))) + old(st.messages)
    ensures !st.loadingMore && st.hasMore == hasMore.GetOr(false)
    ensures st.currentView == old(st.currentView) && st.currentUser == old(st.currentUser)
    ensures st.currentChat == old(st.currentChat)
    ensures st.conversations == old(st.conversations) && st.groups == old(st.groups)
    ensures st.searchResults == old(st.searchResults)
  {
    st.loadingMore := false;
    if older.Some? && |older.value| > 0 {
      var existingIds := IdsOf(st.messages);
      var olderMsgs := Fresh(older.value, existingIds);
      if |olderMsgs| > 0 {
        st.messages := olderMsgs + st.messages;
      }
    }
    st.hasMore := hasMore.GetOr(false);
  }

  /** No message added by `handleNewMessages` or `handleOlderMessages` shares an id with one already listed. */
  lemma FreshIdsAreNew(old_: seq<Message>, incoming: seq<Message>)
    ensures forall i :: 0 <= i < |Fresh(incoming, IdsOf(old_))| ==> Fresh(incoming, IdsOf(old_))[i].id !in IdsOf(old_)
    ensures forall m :: m in incoming && m.id !in IdsOf(old_) ==> m in Fresh(incoming, IdsOf(old_))
  {
    forall m | m in incoming && m.id !in IdsOf(old_) ensures m in Fresh(incoming, IdsOf(old_)) {
      FreshMessages(incoming, IdsOf(old_), m);
    }
  }

  /** The request `loadMoreMessages` posts: the open chat and the cursor of the oldest message. */
  datatype MoreRequest = MoreRequest(chatType: string, chatId: string, cursor: string)

  /**
   * `loadMoreMessages`: only when not already loading, more exist, a chat is open
   * and the list is non-empty; then it marks the load and asks for messages older
   * than the first one.
   */
  method LoadMoreMessages(st: State) returns (req: Option<MoreRequest>)
    modifies st
    ensures st.messages == old(st.messages) && st.hasMore == old(st.hasMore) && st.currentChat == old(st.currentChat)
    ensures req.Some? <==> !old(st.loadingMore) && old(st.hasMore) && old(st.currentChat).Some? && |old(st.messages)| > 0
    ensures req.Some? ==>
              st.loadingMore &&
              req.value == MoreRequest(st.currentChat.value.kind, st.currentChat.value.id, st.messages[0].createdAt)
    ensures req.None? ==> st.loadingMore == old(st.loadingMore)
    ensures st.currentView == old(st.currentView) && st.currentUser == old(st.currentUser)
    ensures st.conversations == old(st.conversations) && st.groups == old(st.groups)
    ensures st.searchResults == old(st.searchResults)
  {
    if st.loadingMore || !st.hasMore || st.currentChat.None? || |st.messages| == 0 {
      return None;
    }
    st.loadingMore := true;
    var oldestMessage := st.messages[0];
    var cursor := oldestMessage.createdAt;
    req := Some(MoreRequest(st.currentChat.value.kind, st.currentChat.value.id, cursor));
  }

  // ---------------------------------------------------------------------------
  // sendMessage, logout and send errors
  // ---------------------------------------------------------------------------

  /** The request `sendMessage` posts to the extension. */
  datatype SendRequest = SendRequest(content: string, chatType: string, chatId: string, tempId: string)

  /**
   * `sendMessage` with the input box's text: the clock (`Date.now()` and the ISO
   * time) and the uuid are parameters. Nothing happens for blank input or without
   * an open chat; otherwise one pending message with the trimmed text is appended.
   */
  method SendMessage(st: State, input: string, now: nat, isoTime: string, uuid: string)
    returns (req: Option<SendRequest>)
    modifies st
    ensures st.currentChat == old(st.currentChat) && st.currentUser == old(st.currentUser)
    ensures req.None? <==> Trim(input) == "" || old(st.currentChat).None?
    ensures req.None? ==> st.messages == old(st.messages)
    ensures req.Some? ==>
              var tempId := "temp-" + NatToString(now) + "-" + uuid;
              st.messages == old(st.messages) + [Message(tempId, Trim(input), isoTime, st.currentUser, Pending)] &&
              req.value == SendRequest(Trim(input), st.currentChat.value.kind, st.currentChat.value.id, tempId)
    ensures st.currentView == old(st.currentView) && st.hasMore == old(st.hasMore) && st.loadingMore == old(st.loadingMore)
    ensures st.conversations == old(st.conversations) && st.groups == old(st.groups)
    ensures st.searchResults == old(st.searchResults)
  {
    var content := Trim(input);
    if content == "" || st.currentChat.None? {
      return None;
    }
    var tempId := "temp-" + NatToString(now) + "-" + uuid;
    var tempMessage := Message(tempId, content, isoTime, st.currentUser, Pending);
    st.messages := st.messages + [tempMessage];
    req := Some(SendRequest(content, st.currentChat.value.kind, st.currentChat.value.id, tempId));
  }

  /** The `logout` case: back to the login view with the session's data cleared. */
  method Logout(st: State)
    modifies st
    ensures st.currentUser.None? && st.currentView == Login && st.currentChat.None?
    ensures st.conversations == [] && st.groups == [] && st.messages == []
    ensures st.searchResults == old(st.searchResults)
    ensures st.hasMore == old(st.hasMore) && st.loadingMore == old(st.loadingMore)
  {
    st.currentUser := None;
    st.currentView := Login;
    st.conversations := [];
    st.groups := [];
    st.currentChat := None;
    st.messages := [];
  }

  /** The `error` case: the temporary message named by the error, if any, is marked failed. */
  method HandleSendError(st: State, tempId: Option<string>)
    modifies st
    ensures st.messages ==
              if tempId.Some? && tempId.value != "" then UpdateFirst(old(st.messages), tempId.value, Patch(None, None, Some(Failed)))
              else old(st.messages)
    ensures st.currentView == old(st.currentView) && st.currentUser == old(st.currentUser)
    ensures st.currentChat == old(st.currentChat)
    ensures st.conversations == old(st.conversations) && st.groups == old(st.groups)
    ensures st.searchResults == old(st.searchResults)
    ensures st.hasMore == old(st.hasMore) && st.loadingMore == old(st.loadingMore)
  {
    if tempId.Some? && tempId.value != "" {
      var _ := st.UpdateMessage(tempId.value, Patch(None, None, Some(Failed)));
    }
  }
}

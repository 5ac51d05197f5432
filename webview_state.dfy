/**
 * The webview's shared state object (state.js): the records it holds and
 * `updateMessage`, which patches the first message with a given id in place.
 */
module WebviewState {
  import opened Wrappers

  /** The `status` of a message: absent once the server has it, `'pending'` while sending, `'error'` on failure. */
  datatype Status = Settled | Pending | Failed

  datatype User = User(id: string, username: string)

  /** A message as the webview keeps it. */
  datatype Message = Message(id: string, content: string, createdAt: string, sender: Option<User>, status: Status)

  /** The chat that is open: `{ type, id, name }`. */
  datatype ChatRef = ChatRef(kind: string, id: string, name: string)

  /** `currentView`. */
  datatype View = Loading | Settings | Login | ChatList | ChatView | UserSearch

  /** The fields an `updates` object of `updateMessage` may carry; absent ones keep the old value. */
  datatype Patch = Patch(id: Option<string>, content: Option<string>, status: Option<Status>)

  /** `{ ...m, ...updates }`. */
  function Apply(m: Message, p: Patch): (r: Message)
    ensures r.createdAt == m.createdAt && r.sender == m.sender
    ensures p.id.Some? ==> r.id == p.id.value
    ensures p.id.None? ==> r.id == m.id
    ensures p.content.Some? ==> r.content == p.content.value
    ensures p.content.None? ==> r.content == m.content
    ensures p.status.Some? ==> r.status == p.status.value
    ensures p.status.None? ==> r.status == m.status
    ensures p == Patch(None, None, None) ==> r == m
  {
    m.(id := p.id.GetOr(m.id), content := p.content.GetOr(m.content), status := p.status.GetOr(m.status))
  }

  /** `ms.findIndex(m => m.id === id)`. */
  function FirstWithId(ms: seq<Message>, id: string): (r: Option<nat>)
    ensures r.Some? ==> r.value < |ms| && ms[r.value].id == id
    ensures r.Some? ==> forall j :: 0 <= j < r.value ==> ms[j].id != id
    ensures r.None? ==> forall j :: 0 <= j < |ms| ==> ms[j].id != id
  {
    if ms == [] then None
    else if ms[0].id == id then Some(0)
    else match FirstWithId(ms[1..], id)
      case None => None
      case Some(i) => Some(i + 1)
  }

  /** `ms.findLastIndex(m => m.id === id)`. */
  function LastWithId(ms: seq<Message>, id: string): (r: Option<nat>)
    ensures r.Some? ==> r.value < |ms| && ms[r.value].id == id
    ensures r.Some? ==> forall j :: r.value < j < |ms| ==> ms[j].id != id
    ensures r.None? ==> forall j :: 0 <= j < |ms| ==> ms[j].id != id
  {
    if ms == [] then None
    else if ms[|ms| - 1].id == id then Some(|ms| - 1)
    else LastWithId(ms[..|ms| - 1], id)
  }

  /** The list after `updateMessage(id, p)`: the first message with that id patched. */
  function UpdateFirst(ms: seq<Message>, id: string, p: Patch): seq<Message> {
    match FirstWithId(ms, id)
    case None => ms
    case Some(i) => ms[i := Apply(ms[i], p)]
  }

  /**
   * Exactly the first message with the id changes, to the old record with the
   * patch's fields; the length and every other entry stay; without a match the
   * list is unchanged.
   */
  lemma UpdateFirstChangesOnlyFirstMatch(ms: seq<Message>, id: string, p: Patch)
    ensures |UpdateFirst(ms, id, p)| == |ms|
    ensures forall j :: 0 <= j < |ms| && ms[j].id == id && (forall k :: 0 <= k < j ==> ms[k].id != id) ==>
              UpdateFirst(ms, id, p)[j] == Apply(ms[j], p) &&
              forall k :: 0 <= k < |ms| && k != j ==> UpdateFirst(ms, id, p)[k] == ms[k]
    ensures (forall j :: 0 <= j < |ms| ==> ms[j].id != id) ==> UpdateFirst(ms, id, p) == ms
  {
    match FirstWithId(ms, id)
    case None =>
    case Some(i) =>
      forall j | 0 <= j < |ms| && ms[j].id == id && (forall k :: 0 <= k < j ==> ms[k].id != id)
        ensures j == i
      {
      }
  }

  /** The mutable `state` object of state.js. */
  class State {
    var currentView: View
    var currentUser: Option<User>
    /** The conversation list, the group list and the search results, by id. */
    var conversations: seq<string>
    var groups: seq<string>
    var searchResults: seq<string>
    var currentChat: Option<ChatRef>
    var messages: seq<Message>
    var hasMore: bool
    var loadingMore: bool

    /** The initial value of `state`. */
    constructor()
      ensures currentView == Loading && currentUser.None? && currentChat.None?
      ensures conversations == [] && groups == [] && searchResults == [] && messages == []
      ensures !hasMore && !loadingMore
    {
      currentView := Loading;
      currentUser := None;
      conversations := [];
      groups := [];
      searchResults := [];
      currentChat := None;
      messages := [];
      hasMore := false;
      loadingMore := false;
    }

    /**
     * `updateMessage`: finds the first message with the id and overwrites it with
     * the patched record; true exactly when one was found.
     */
    method UpdateMessage(id: string, p: Patch) returns (found: bool)
      modifies this
      ensures found <==> exists j :: 0 <= j < |old(messages)| && old(messages)[j].id == id
      ensures messages == UpdateFirst(old(messages), id, p)
      ensures currentView == old(currentView) && currentUser == old(currentUser) && currentChat == old(currentChat)
      ensures conversations == old(conversations) && groups == old(groups) && searchResults == old(searchResults)
      ensures hasMore == old(hasMore) && loadingMore == old(loadingMore)
    {
      var idx := 0;
      while idx < |messages| && messages[idx].id != id
        invariant 0 <= idx <= |messages|
        invariant forall j :: 0 <= j < idx ==> messages[j].id != id
      {
        idx := idx + 1;
      }
      if idx < |messages| {
        assert FirstWithId(messages, id) == Some(idx);
        messages := messages[idx := Apply(messages[idx], p)];
        return true;
      }
      assert FirstWithId(messages, id).None?;
      return false;
    }
  }
}

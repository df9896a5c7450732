/**
 * The chat component of src/client/index.tsx: how it picks the user name it
 * shows, and the message list it keeps as state, changed by the optimistic
 * send and by the events the room delivers.
 *
 * The browser's storage, `Math.random`, `nanoid` and `Date.now` are passed in
 * as parameters; the socket send is the event a method returns.
 */
module Client {
  import opened Shared
  import opened Reconcile

  /** What `getStoredUsername` decides: the name, and whether it writes it back to storage. */
  datatype Selection = Selection(username: string, store: bool)

  /**
   * `getStoredUsername`: keep the stored name when it is one of the names,
   * otherwise take `names[Math.floor(random * names.length)]` and store it.
   * `random` stands for the value of `Math.random()`, in [0, 1).
   */
  function SelectUsername(stored: Option<string>, random: real): (r: Selection)
    requires 0.0 <= random < 1.0
    ensures r.username in Names()
    ensures (stored.Some? && r.username == stored.value) <==> (stored.Some? && stored.value in Names())
    ensures r.store <==> !(stored.Some? && stored.value in Names())
    ensures r.store ==> r.username == Names()[(random * NameCount as real).Floor]
  {
    if stored.Some? && stored.value in Names() then
      Selection(stored.value, false)
    else
      var k := (random * NameCount as real).Floor;
      Selection(Names()[k], true)
  }

  /** The message state of one mounted chat component. */
  class ChatClient {
    /** The display name chosen once, when the component mounts. */
    const name: string
    /** The rendered list of messages (React state `messages`). */
    var messages: seq<ChatMessage>

    constructor (stored: Option<string>, random: real)
      requires 0.0 <= random < 1.0
      ensures name == SelectUsername(stored, random).username
      ensures name in Names()
      ensures messages == []
    {
      name := SelectUsername(stored, random).username;
      messages := [];
    }

    /** `onMessage`: reconcile one decoded event into the list. */
    method OnMessage(msg: Message)
      modifies this
      ensures messages == Apply(old(messages), msg)
    {
      messages := Apply(messages, msg);
    }

    /**
     * `onSubmit`: build the message with role "user", append it at once and
     * return the `add` event sent to the room. `id` and `timestamp` stand for
     * `nanoid(8)` and `Date.now()`.
     */
    method Submit(id: string, content: string, timestamp: int) returns (sent: Message)
      modifies this
      ensures messages == OptimisticAppend(old(messages), ChatMessage(id, content, name, User, timestamp))
      ensures sent == AddOf(ChatMessage(id, content, name, User, timestamp))
      ensures sent.Add? && sent.id == id && sent.content == content && sent.user == name
      ensures sent.role == User && sent.timestamp == timestamp
    {
      var chatMessage := ChatMessage(id, content, name, User, timestamp);
      messages := messages + [chatMessage];
      sent := AddOf(chatMessage);
    }
  }

  /**
   * Two clients in one room, both named `user013`. A sends a message
   * optimistically; the room echoes the same `add` to both. A still shows
   * one entry, and B has it appended.
   */
  method EchoScenario() returns (viewA: seq<ChatMessage>, viewB: seq<ChatMessage>)
    ensures viewA == [ChatMessage("abc12345", "hi", Names()[13], User, 1000)]
    ensures viewB == viewA
  {
    var user013 := Names()[13];
    var a := new ChatClient(Some(user013), 0.0);
    var b := new ChatClient(Some(user013), 0.5);
    var sent := a.Submit("abc12345", "hi", 1000);
    var m := ChatMessage("abc12345", "hi", user013, User, 1000);
    assert a.messages == OptimisticAppend([], m);
    SelfEchoIsIdempotent([], m);
    a.OnMessage(sent);
    b.OnMessage(sent);
    viewA, viewB := a.messages, b.messages;
  }
}

/**
 * The client's reconciliation of protocol events into its local view of a
 * room (the `onMessage` handler of src/client/index.tsx). The view is an
 * ordered list of messages; each event produces a new list.
 *
 * The handler looks an `add` up in the list it rendered and splices into the
 * list React hands its state updater; this model uses one list for both.
 */
module Reconcile {
  import opened Shared

  /** The identifiers of a view, in order. */
  function Ids(view: seq<ChatMessage>): seq<string> {
    seq(|view|, j requires 0 <= j < |view| => view[j].id)
  }

  predicate Distinct(ids: seq<string>) {
    forall i, j :: 0 <= i < j < |ids| ==> ids[i] != ids[j]
  }

  /** `x` occurs in `ids` at position `p` and nowhere else. */
  predicate OnlyAt(ids: seq<string>, x: string, p: int) {
    && 0 <= p < |ids|
    && forall j :: 0 <= j < |ids| ==> (ids[j] == x <==> j == p)
  }

  /**
   * `view.findIndex((m) => m.id === id)`: the first position holding `id`,
   * or -1 when there is none.
   */
  function FindIndex(view: seq<ChatMessage>, id: string): (r: int)
    ensures r == -1 <==> id !in Ids(view)
    ensures r != -1 ==> 0 <= r < |view| && view[r].id == id
    ensures r != -1 ==> forall j :: 0 <= j < r ==> view[j].id != id
  {
    if view == [] then -1
    else if view[0].id == id then
      assert Ids(view)[0] == id;
      0
    else
      var k := FindIndex(view[1..], id);
      assert Ids(view) == [view[0].id] + Ids(view[1..]);
      if k == -1 then -1 else k + 1
  }

  /**
   * An `add`: append when the identifier is new, otherwise overwrite the
   * first entry that has it, in place.
   */
  function ApplyAdd(view: seq<ChatMessage>, m: ChatMessage): (r: seq<ChatMessage>)
    ensures m.id !in Ids(view) ==> r == view + [m]
    ensures m.id !in Ids(view) ==> Ids(r) == Ids(view) + [m.id]
    ensures m.id in Ids(view) ==>
      && |r| == |view|
      && Ids(r) == Ids(view)
      && r[FindIndex(view, m.id)] == m
      && forall j :: 0 <= j < |view| && j != FindIndex(view, m.id) ==> r[j] == view[j]
  {
    var i := FindIndex(view, m.id);
    if i == -1 then
      view + [m]
    else
      view[..i] + [m] + view[i + 1..]
  }

  /**
   * An `update`: `view.map(e => e.id === m.id ? m : e)`. Every entry with
   * the identifier gets the new fields; nothing is ever added.
   */
  function ApplyUpdate(view: seq<ChatMessage>, m: ChatMessage): (r: seq<ChatMessage>)
    ensures |r| == |view|
    ensures forall j :: 0 <= j < |view| && view[j].id == m.id ==> r[j] == m
    ensures forall j :: 0 <= j < |view| && view[j].id != m.id ==> r[j] == view[j]
    ensures Ids(r) == Ids(view)
    ensures m.id !in Ids(view) ==> r == view
  {
    if view == [] then []
    else
      var rest := ApplyUpdate(view[1..], m);
      assert Ids(view) == [view[0].id] + Ids(view[1..]);
      var r := [if view[0].id == m.id then m else view[0]] + rest;
      assert forall j :: 1 <= j < |view| ==> r[j] == rest[j - 1] && view[j] == view[1..][j - 1];
      r
  }

  /** The whole `onMessage` handler applied to one decoded event. */
  function Apply(view: seq<ChatMessage>, msg: Message): (r: seq<ChatMessage>)
    ensures msg.All? ==> r == msg.messages
    ensures msg.Add? ==> r == ApplyAdd(view, EntryOf(msg))
    ensures msg.Update? ==> r == ApplyUpdate(view, EntryOf(msg))
  {
    match msg
    case Add(_, _, _, _, _) => ApplyAdd(view, EntryOf(msg))
    case Update(_, _, _, _, _) => ApplyUpdate(view, EntryOf(msg))
    case All(messages) => messages
  }

  predicate NoSnapshot(events: seq<Message>) {
    forall k :: 0 <= k < |events| ==> !events[k].All?
  }

  /**
   * Events applied one after another, in delivery order. Without a snapshot
   * among them, the identifiers already shown are never dropped or reordered.
   */
  function Replay(view: seq<ChatMessage>, events: seq<Message>): (r: seq<ChatMessage>)
    ensures NoSnapshot(events) ==> |view| <= |r| && Ids(r)[..|view|] == Ids(view)
    decreases |events|
  {
    if events == [] then view
    else
      var next := Apply(view, events[0]);
      assert NoSnapshot(events) ==> NoSnapshot(events[1..]) && Ids(next)[..|view|] == Ids(view);
      Replay(next, events[1..])
  }

  // ---------------------------------------------------------------------
  // Properties of single events

  /** A snapshot replaces the view wholesale, whatever it held before. */
  lemma SnapshotReplaces(view: seq<ChatMessage>, messages: seq<ChatMessage>)
    ensures Apply(view, All(messages)) == messages
    ensures forall other: seq<ChatMessage> :: Apply(other, All(messages)) == Apply(view, All(messages))
  {
  }

  /**
   * `add` and `update` never reorder and never drop identifiers: an `add`
   * of a new identifier appends it, anything else leaves the identifiers as
   * they were.
   */
  lemma IdsAfterEvent(view: seq<ChatMessage>, msg: Message)
    requires !msg.All?
    ensures Ids(Apply(view, msg)) == if msg.Add? && msg.id !in Ids(view) then Ids(view) + [msg.id] else Ids(view)
  {
  }

  /** Pairwise distinct identifiers stay pairwise distinct under `add` and `update`. */
  lemma DistinctPreserved(view: seq<ChatMessage>, msg: Message)
    requires !msg.All?
    requires Distinct(Ids(view))
    ensures Distinct(Ids(Apply(view, msg)))
  {
    IdsAfterEvent(view, msg);
  }

  /** An `update` for an identifier that is not in the view changes nothing. */
  lemma UpdateOfAbsentIsNoOp(view: seq<ChatMessage>, m: ChatMessage)
    requires m.id !in Ids(view)
    ensures Apply(view, UpdateOf(m)) == view
  {
  }

  /** Delivering the same `add` twice has the effect of delivering it once. */
  lemma AddIdempotent(view: seq<ChatMessage>, m: ChatMessage)
    ensures Apply(Apply(view, AddOf(m)), AddOf(m)) == Apply(view, AddOf(m))
  {
    if m.id !in Ids(view) {
      SelfEchoIsIdempotent(view, m);
    } else {
      var once := Apply(view, AddOf(m));
      FirstIndexDependsOnIds(view, once, m.id);
      assert once[FindIndex(once, m.id)] == m;
      assert Apply(once, AddOf(m)) == once;
    }
  }

  /** Delivering the same `update` twice has the effect of delivering it once. */
  lemma UpdateIdempotent(view: seq<ChatMessage>, m: ChatMessage)
    ensures Apply(Apply(view, UpdateOf(m)), UpdateOf(m)) == Apply(view, UpdateOf(m))
  {
  }

  /** The first position of an identifier is determined by the identifiers alone. */
  lemma FirstIndexDependsOnIds(v: seq<ChatMessage>, w: seq<ChatMessage>, id: string)
    requires id in Ids(v)
    requires |v| <= |w| && forall j :: 0 <= j < |v| ==> w[j].id == v[j].id
    ensures FindIndex(w, id) == FindIndex(v, id)
  {
    var i := FindIndex(v, id);
    assert Ids(w)[i] == w[i].id == id;
    var k := FindIndex(w, id);
    assert k <= i;
    assert v[k].id == id;
  }

  /**
   * An identifier held at exactly one position stays there, alone, after
   * any `add` or `update`.
   */
  lemma OnlyAtPreserved(view: seq<ChatMessage>, msg: Message, x: string, p: int)
    requires !msg.All?
    requires OnlyAt(Ids(view), x, p)
    ensures OnlyAt(Ids(Apply(view, msg)), x, p)
  {
    IdsAfterEvent(view, msg);
    assert x in Ids(view) by { assert Ids(view)[p] == x; }
  }

  // ---------------------------------------------------------------------
  // Optimistic send and its echo

  /** The view right after the user submits `m`: it is appended at the tail. */
  function OptimisticAppend(view: seq<ChatMessage>, m: ChatMessage): (r: seq<ChatMessage>)
    ensures |r| == |view| + 1 && r[..|view|] == view && r[|view|] == m
  {
    view + [m]
  }

  /**
   * The echo of the client's own message, arriving right after the send,
   * leaves the view exactly as the optimistic append made it.
   */
  lemma SelfEchoIsIdempotent(view: seq<ChatMessage>, m: ChatMessage)
    requires m.id !in Ids(view)
    ensures Apply(OptimisticAppend(view, m), AddOf(m)) == OptimisticAppend(view, m)
  {
    var v := OptimisticAppend(view, m);
    assert Ids(v) == Ids(view) + [m.id];
    forall j | 0 <= j < |view| ensures v[j].id != m.id {
      assert Ids(view)[j] == v[j].id;
    }
    assert v[|view|].id == m.id;
  }

  /** Replaying `add` and `update` events keeps an identifier that is held once where it is. */
  lemma {:induction false} ReplayKeepsOnlyAt(view: seq<ChatMessage>, events: seq<Message>, x: string, p: int)
    requires NoSnapshot(events)
    requires OnlyAt(Ids(view), x, p)
    ensures OnlyAt(Ids(Replay(view, events)), x, p)
    decreases |events|
  {
    if events != [] {
      OnlyAtPreserved(view, events[0], x, p);
      assert NoSnapshot(events[1..]) by {
        forall k | 0 <= k < |events[1..]| ensures !events[1..][k].All? {
          assert events[1..][k] == events[k + 1];
        }
      }
      ReplayKeepsOnlyAt(Apply(view, events[0]), events[1..], x, p);
    }
  }

  /**
   * The client appends `m` optimistically; any `add` and `update` events from
   * the room arrive; then the echo of `m`. The view then holds exactly one
   * entry with `m`'s identifier, at the position it was appended, carrying
   * `m`'s fields.
   */
  lemma {:induction false} EchoCollapses(view: seq<ChatMessage>, m: ChatMessage, between: seq<Message>)
    requires m.id !in Ids(view)
    requires NoSnapshot(between)
    ensures var final := Apply(Replay(OptimisticAppend(view, m), between), AddOf(m));
      && OnlyAt(Ids(final), m.id, |view|)
      && final[|view|] == m
  {
    var appended := OptimisticAppend(view, m);
    assert Ids(appended) == Ids(view) + [m.id];
    assert OnlyAt(Ids(appended), m.id, |view|) by {
      forall j | 0 <= j < |view| ensures Ids(appended)[j] != m.id {
        assert Ids(appended)[j] == Ids(view)[j];
      }
    }
    ReplayKeepsOnlyAt(appended, between, m.id, |view|);
    var before := Replay(appended, between);
    OnlyAtPreserved(before, AddOf(m), m.id, |view|);
    assert Ids(before)[|view|] == m.id;
    var i := FindIndex(before, m.id);
    assert Ids(before)[i] == m.id;
  }
}

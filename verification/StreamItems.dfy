/** Items on their way from the engine to the client: the queue, the read already in flight, the
    consumer loop, and the drain task that takes over after a disconnection. */
module StreamItems {
  import opened Common

  datatype Item = Chunk(text: string) | Other(payload: string) | Sentinel

  /** Who reads the queue: the loop, the drain, nobody because all was read, nobody because of a failure. */
  datatype Mode = Streaming | Draining | Complete | Broken

  datatype State = State(
    produced: seq<Item>,         // everything the engine emitted so far
    closed: bool,                // the sentinel was queued
    queue: seq<Item>,
    inFlight: Option<Item>,      // the result of the pending read, once it has one
    taken: Option<Item>,         // in the hands of the loop: its text is counted, it is not sent yet
    yielded: seq<Item>,          // sent to the client
    drained: seq<Item>,          // read by the drain
    partial: string,             // the accumulated partial text
    mode: Mode)

  const INIT := State([], false, [], None, None, [], [], "", Streaming)

  datatype Action =
    | Emit(item: Item)      // the engine emits an event
    | Close                 // the runner queues the sentinel
    | ReadCompletes         // the pending read gets the head of the queue
    | Spin                  // a terminal line, or a disconnection that is not confirmed
    | Take                  // the current reader takes the completed read and counts its text
    | Yield                 // the loop sends what it took
    | Disconnect            // confirmed: the drain takes over the pending read and the queue
    | Break                 // an error in the reader, its cancellation, or the client closing the generator

  predicate Enabled(s: State, a: Action) {
    match a
    case Emit(item) => !s.closed && item != Sentinel
    case Close => !s.closed
    case ReadCompletes => (s.mode == Streaming || s.mode == Draining) && s.inFlight.None? && s.queue != []
    case Spin => s.mode == Streaming && s.taken.None?
    case Take => (s.mode == Streaming || s.mode == Draining) && s.inFlight.Some? && s.taken.None?
    case Yield => s.mode == Streaming && s.taken.Some?
    case Disconnect => s.mode == Streaming && s.taken.None?
    case Break => s.mode == Streaming || s.mode == Draining
  }

  function TextOf(item: Item): string {
    if item.Chunk? then item.text else ""
  }

  function Next(s: State, a: Action): State
    requires Enabled(s, a)
  {
    match a
    case Emit(item) => s.(produced := s.produced + [item], queue := s.queue + [item])
    case Close => s.(closed := true, queue := s.queue + [Sentinel])
    case ReadCompletes => s.(inFlight := Some(s.queue[0]), queue := s.queue[1..])
    case Spin => s
    case Take =>
      var item := s.inFlight.value;
      if item == Sentinel then s.(inFlight := None, mode := Complete)
      else
        var t := s.(inFlight := None, partial := s.partial + TextOf(item));
        if s.mode == Streaming then t.(taken := Some(item)) else t.(drained := s.drained + [item])
    case Yield => s.(taken := None, yielded := s.yielded + [s.taken.value])
    case Disconnect => s.(mode := Draining)
    case Break => s.(mode := Broken)
  }

  function After(actions: seq<Action>): Option<State> {
    if actions == [] then Some(INIT)
    else
      var before := After(actions[..|actions| - 1]);
      if before.Some? && Enabled(before.value, actions[|actions| - 1])
      then Some(Next(before.value, actions[|actions| - 1])) else None
  }

  function Listed(item: Option<Item>): seq<Item> {
    if item.Some? then [item.value] else []
  }

  /** What has been read from the queue but not yet taken. */
  function Held(s: State): seq<Item> {
    Listed(s.inFlight)
  }

  /** Everything whose text is counted, in order. */
  function Counted(s: State): seq<Item> {
    s.yielded + Listed(s.taken) + s.drained
  }

  function Text(items: seq<Item>): string {
    if items == [] then "" else Text(items[..|items| - 1]) + TextOf(items[|items| - 1])
  }

  lemma TextAppend(items: seq<Item>, item: Item)
    ensures Text(items + [item]) == Text(items) + TextOf(item)
  {
    assert (items + [item])[..|items|] == items;
  }

  /** Nothing is lost, repeated or reordered between the engine and its readers. */
  ghost predicate Conserved(s: State) {
    var end := if s.closed && s.mode != Complete then [Sentinel] else [];
    && Counted(s) + Held(s) + s.queue == s.produced + end
    && Sentinel !in s.produced && Sentinel !in Counted(s)
    && (s.mode == Complete ==> s.closed && s.inFlight.None? && s.queue == [])
    && (s.mode == Streaming ==> s.drained == [])
    && (s.taken.Some? ==> s.drained == [] && (s.mode == Streaming || s.mode == Broken))
    && s.partial == Text(Counted(s))
  }

  lemma EmitConserves(s: State, a: Action)
    requires Conserved(s) && Enabled(s, a) && (a.Emit? || a.Close?)
    ensures Conserved(Next(s, a))
  {
    var t, item := Next(s, a), if a.Emit? then a.item else Sentinel;
    assert Counted(t) + Held(t) + t.queue == (Counted(s) + Held(s) + s.queue) + [item];
  }

  lemma ReadConserves(s: State)
    requires Conserved(s) && Enabled(s, ReadCompletes)
    ensures Conserved(Next(s, ReadCompletes))
  {
    var t := Next(s, ReadCompletes);
    assert s.queue == [s.queue[0]] + s.queue[1..];
    assert Counted(t) + Held(t) + t.queue == Counted(s) + Held(s) + s.queue;
  }

  /** The first sentinel ends both ways of reading the same items. */
  lemma FirstSentinel(a: seq<Item>, rest: seq<Item>, b: seq<Item>)
    requires Sentinel !in a && Sentinel !in b && a + [Sentinel] + rest == b + [Sentinel]
    ensures a == b && rest == []
  {
    var all := b + [Sentinel];
    assert forall i :: 0 <= i < |b| ==> all[i] == b[i] != Sentinel;
    assert all[|a|] == (a + [Sentinel] + rest)[|a|] == Sentinel;
    assert |a| == |b| && all[..|a|] == a && all[..|b|] == b;
  }

  /** Items before the first sentinel are a prefix. */
  lemma BeforeSentinel(a: seq<Item>, rest: seq<Item>, b: seq<Item>, end: seq<Item>)
    requires Sentinel !in a && a + rest == b + end && (end == [] || end == [Sentinel])
    ensures a <= b
  {
    var all := b + end;
    assert forall i :: 0 <= i < |a| ==> all[i] == a[i] != Sentinel;
    assert end != [] ==> all[|b|] == Sentinel;
    assert |a| <= |b| && all[..|a|] == a;
  }

  lemma SentinelConserves(s: State)
    requires Conserved(s) && Enabled(s, Take) && s.inFlight == Some(Sentinel)
    ensures Conserved(Next(s, Take))
  {
    var counted, end := Counted(s), if s.closed then [Sentinel] else [];
    assert counted + [Sentinel] + s.queue == s.produced + end;
    assert (s.produced + end)[|counted|] == Sentinel;
    assert end == [] ==> s.produced + end == s.produced;
    FirstSentinel(counted, s.queue, s.produced);
    assert counted + [] + [] == s.produced + [];
  }

  lemma ItemConserves(s: State)
    requires Conserved(s) && Enabled(s, Take) && s.inFlight.value != Sentinel
    ensures Conserved(Next(s, Take))
  {
    var t, item := Next(s, Take), s.inFlight.value;
    TextAppend(Counted(s), item);
    assert Counted(t) == Counted(s) + [item];
    assert Counted(t) + Held(t) + t.queue == Counted(s) + [item] + s.queue;
  }

  lemma NextConserves(s: State, a: Action)
    requires Conserved(s) && Enabled(s, a)
    ensures Conserved(Next(s, a))
  {
    match a
    case Emit(_) => EmitConserves(s, a);
    case Close => EmitConserves(s, a);
    case ReadCompletes => ReadConserves(s);
    case Take => if s.inFlight.value == Sentinel { SentinelConserves(s); } else { ItemConserves(s); }
    case Yield => assert Counted(Next(s, a)) == Counted(s);
    case _ => assert Held(Next(s, a)) == Held(s);
  }

  lemma {:induction false} RunsConserve(actions: seq<Action>)
    requires After(actions).Some?
    ensures Conserved(After(actions).value)
  {
    if actions != [] {
      RunsConserve(actions[..|actions| - 1]);
      NextConserves(After(actions[..|actions| - 1]).value, actions[|actions| - 1]);
    }
  }

  /** In every interleaving, what the client got, what the loop has in hand and what the drain read is what the engine
      emitted, in order and each item once: a prefix at any time, failures included, and all of it once the sentinel was
      read. The partial text is exactly the text of those items: of what was sent and drained, except for the one item
      that the loop took and has not sent, or never sends when it fails there. */
  lemma ItemsAreConserved(actions: seq<Action>)
    requires After(actions).Some?
    ensures var s := After(actions).value;
            && s.yielded + Listed(s.taken) + s.drained <= s.produced
            && (s.mode == Complete ==> s.yielded + s.drained == s.produced)
            && s.partial == Text(s.yielded + Listed(s.taken) + s.drained)
            && (s.taken.Some? ==> s.drained == [] && (s.mode == Streaming || s.mode == Broken))
  {
    RunsConserve(actions);
    ReadIsPrefix(After(actions).value);
  }

  lemma ReadIsPrefix(s: State)
    requires Conserved(s)
    ensures Counted(s) <= s.produced
    ensures s.mode == Complete ==> s.yielded + s.drained == s.produced
  {
    var rest, end := Held(s) + s.queue, if s.closed && s.mode != Complete then [Sentinel] else [];
    assert Counted(s) + rest == s.produced + end;
    BeforeSentinel(Counted(s), rest, s.produced, end);
    if s.mode == Complete {
      assert Counted(s) == s.yielded + s.drained;
      assert Counted(s) + rest == Counted(s) && s.produced + end == s.produced;
    }
  }

  /** A failure between counting an item and sending it leaves its text in the partial text of a client that never saw it. */
  lemma CutBeforeYield(text: string)
    ensures var s := After([Emit(Chunk(text)), ReadCompletes, Take, Break]);
            s.Some? && s.value.mode == Broken && s.value.yielded == [] && s.value.partial == text
  {
    var actions := [Emit(Chunk(text)), ReadCompletes, Take, Break];
    assert actions[..0] == [] && actions[..1][..0] == [];
    assert actions[..2][..1] == actions[..1] && actions[..3][..2] == actions[..2];
    assert After(actions[..1]) == Some(Next(INIT, actions[0]));
    var read := Next(Next(INIT, actions[0]), actions[1]);
    assert After(actions[..2]) == Some(read);
    assert After(actions[..3]) == Some(Next(read, Take)) && read.inFlight == Some(Chunk(text));
    assert "" + text == text;
  }
}

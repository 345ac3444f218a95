/** The per-workspace run lock of the streaming bridge: stream generators, their engine runs and
    their drain tasks as one step system, over an asyncio lock and the table of live locks. */
module RunLock {
  import opened Common

  type Gen = nat
  type Workspace = nat
  type LockId = nat

  /** A waiter's future: not yet resolved, resolved by a release, or cancelled. */
  datatype Future = Pending | Woken | Cancelled

  datatype Waiter = Waiter(gen: Gen, future: Future)

  datatype Lock = Lock(workspace: Workspace, locked: bool, waiters: seq<Waiter>)

  datatype Phase =
    | Waiting     // inside acquire
    | Starting    // lock taken, first event not yet delivered
    | Streaming   // the consumer loop
    | Closing     // the loop was left other than by disconnection
    | Handed      // the client is gone; the drain task owns the lock
    | Finished

  /** The engine task: created, running the engine, winding up after it, or done. */
  datatype Runner = NoRunner | Created | Running | Winding | Done(sentinel: bool)

  datatype Drain = NoDrain | Draining | Drained

  datatype GenState = GenState(workspace: Workspace, lock: LockId, phase: Phase, runner: Runner, drain: Drain,
                               acquired: nat, released: nat)

  datatype State = State(gens: map<Gen, GenState>, locks: map<LockId, Lock>, table: map<Workspace, LockId>)

  datatype Action =
    | Start(g: Gen, w: Workspace, newLock: LockId)
    | Resume(g: Gen)              // a woken waiter takes the lock
    | CancelWait(g: Gen)          // a waiter's future is cancelled
    | AbandonWait(g: Gen)         // a cancelled or woken waiter leaves with CancelledError
    | StartFails(g: Gen)          // error, cancellation or close before the loop
    | Launch(g: Gen)              // create the runner and enter the loop
    | RunBegins(g: Gen)
    | RunEnds(g: Gen)             // the engine returned, failed, or was cancelled
    | RunnerDone(g: Gen, sentinel: bool)
    | RunnerNeverRan(g: Gen)      // cancelled before its first step
    | LoopEnds(g: Gen)            // the sentinel was consumed
    | LoopBreaks(g: Gen)          // error, cancellation or close inside the loop
    | Disconnect(g: Gen)          // a confirmed disconnection hands the lock to a drain task
    | CloseReleases(g: Gen)       // the generator releases once its runner is done
    | DrainReleases(g: Gen)       // the drain releases after the sentinel

  const INIT := State(map[], map[], map[])

  // ---- the asyncio lock ----

  predicate AllCancelled(waiters: seq<Waiter>) {
    forall w :: w in waiters ==> w.future == Cancelled
  }

  /** Resolve the first waiter's future unless it is already done. */
  function WakeFirst(waiters: seq<Waiter>): seq<Waiter> {
    if waiters != [] && waiters[0].future == Pending
    then [waiters[0].(future := Woken)] + waiters[1..]
    else waiters
  }

  function Without(waiters: seq<Waiter>, g: Gen): seq<Waiter> {
    if waiters == [] then []
    else if waiters[0].gen == g then waiters[1..]
    else [waiters[0]] + Without(waiters[1..], g)
  }

  function WithFuture(waiters: seq<Waiter>, g: Gen, f: Future): seq<Waiter> {
    if waiters == [] then []
    else if waiters[0].gen == g then [waiters[0].(future := f)] + waiters[1..]
    else [waiters[0]] + WithFuture(waiters[1..], g, f)
  }

  function FutureOf(waiters: seq<Waiter>, g: Gen): Future {
    if waiters == [] then Pending
    else if waiters[0].gen == g then waiters[0].future
    else FutureOf(waiters[1..], g)
  }

  // ---- steps ----

  predicate Refers(s: State, g: Gen) {
    g in s.gens && s.gens[g].lock in s.locks
  }

  function WaitersOf(s: State, g: Gen): seq<Waiter>
    requires Refers(s, g)
  {
    s.locks[s.gens[g].lock].waiters
  }

  predicate Enabled(s: State, a: Action) {
    match a
    case Start(g, w, newLock) => g !in s.gens && (w in s.table ==> s.table[w] in s.locks) && (w !in s.table ==> newLock !in s.locks)
    case Resume(g) => Refers(s, g) && s.gens[g].phase == Waiting && FutureOf(WaitersOf(s, g), g) == Woken
    case CancelWait(g) => Refers(s, g) && s.gens[g].phase == Waiting && FutureOf(WaitersOf(s, g), g) == Pending
    case AbandonWait(g) => Refers(s, g) && s.gens[g].phase == Waiting && FutureOf(WaitersOf(s, g), g) != Pending
    case StartFails(g) => Refers(s, g) && s.gens[g].phase == Starting
    case Launch(g) => Refers(s, g) && s.gens[g].phase == Starting
    case RunBegins(g) => Refers(s, g) && s.gens[g].runner == Created
    case RunEnds(g) => Refers(s, g) && s.gens[g].runner == Running
    case RunnerDone(g, _) => Refers(s, g) && s.gens[g].runner == Winding
    case RunnerNeverRan(g) => Refers(s, g) && s.gens[g].runner == Created
    case LoopEnds(g) => Refers(s, g) && s.gens[g].phase == Streaming && s.gens[g].runner == Done(true)
    case LoopBreaks(g) => Refers(s, g) && s.gens[g].phase == Streaming
    case Disconnect(g) => Refers(s, g) && s.gens[g].phase == Streaming
    case CloseReleases(g) => Refers(s, g) && s.gens[g].phase == Closing && s.gens[g].runner.Done?
    case DrainReleases(g) => Refers(s, g) && s.gens[g].drain == Draining && s.gens[g].runner == Done(true)
  }

  /** Take the lock at once when it is free and nobody live waits; else queue up. */
  function Acquire(s: State, g: Gen, w: Workspace, l: LockId): State
    requires l in s.locks
  {
    var lock := s.locks[l];
    if !lock.locked && AllCancelled(lock.waiters) then
      s.(locks := s.locks[l := lock.(locked := true)],
         gens := s.gens[g := GenState(w, l, Starting, NoRunner, NoDrain, 1, 0)])
    else
      s.(locks := s.locks[l := lock.(waiters := lock.waiters + [Waiter(g, Pending)])],
         gens := s.gens[g := GenState(w, l, Waiting, NoRunner, NoDrain, 0, 0)])
  }

  /** Release the lock if it is locked, wake a waiter, and drop it from the table when nobody waits. */
  function Release(s: State, g: Gen, after: GenState): State
    requires Refers(s, g)
  {
    var me := s.gens[g];
    var lock := s.locks[me.lock];
    if !lock.locked then s.(gens := s.gens[g := after])
    else
      var free := lock.(locked := false, waiters := WakeFirst(lock.waiters));
      State(s.gens[g := after.(released := after.released + 1)],
            s.locks[me.lock := free],
            if me.workspace in s.table && s.table[me.workspace] == me.lock && free.waiters == []
            then s.table - {me.workspace} else s.table)
  }

  function Moved(s: State, g: Gen, after: GenState): State {
    s.(gens := s.gens[g := after])
  }

  function Next(s: State, a: Action): State
    requires Enabled(s, a)
  {
    match a
    case Start(g, w, newLock) =>
      if w in s.table then Acquire(s, g, w, s.table[w])
      else Acquire(s.(table := s.table[w := newLock], locks := s.locks[newLock := Lock(w, false, [])]), g, w, newLock)
    case Resume(g) =>
      var me := s.gens[g];
      var lock := s.locks[me.lock];
      State(s.gens[g := me.(phase := Starting, acquired := me.acquired + 1)],
            s.locks[me.lock := lock.(locked := true, waiters := Without(lock.waiters, g))], s.table)
    case CancelWait(g) =>
      var me := s.gens[g];
      var lock := s.locks[me.lock];
      s.(locks := s.locks[me.lock := lock.(waiters := WithFuture(lock.waiters, g, Cancelled))])
    case AbandonWait(g) =>
      var me := s.gens[g];
      var lock := s.locks[me.lock];
      var left := Without(lock.waiters, g);
      State(s.gens[g := me.(phase := Finished)],
            s.locks[me.lock := lock.(waiters := if lock.locked then left else WakeFirst(left))], s.table)
    case StartFails(g) => Release(s, g, s.gens[g].(phase := Finished))
    case Launch(g) => Moved(s, g, s.gens[g].(phase := Streaming, runner := Created))
    case RunBegins(g) => Moved(s, g, s.gens[g].(runner := Running))
    case RunEnds(g) => Moved(s, g, s.gens[g].(runner := Winding))
    case RunnerDone(g, sentinel) => Moved(s, g, s.gens[g].(runner := Done(sentinel)))
    case RunnerNeverRan(g) => Moved(s, g, s.gens[g].(runner := Done(false)))
    case LoopEnds(g) => Moved(s, g, s.gens[g].(phase := Closing))
    case LoopBreaks(g) => Moved(s, g, s.gens[g].(phase := Closing))
    case Disconnect(g) => Moved(s, g, s.gens[g].(phase := Handed, drain := Draining))
    case CloseReleases(g) => Release(s, g, s.gens[g].(phase := Finished))
    case DrainReleases(g) => Release(s, g, s.gens[g].(drain := Drained))
  }

  /** The state a run leads to, if every action was enabled when it was taken. */
  function After(actions: seq<Action>): Option<State> {
    if actions == [] then Some(INIT)
    else
      var before := After(actions[..|actions| - 1]);
      if before.Some? && Enabled(before.value, actions[|actions| - 1])
      then Some(Next(before.value, actions[|actions| - 1])) else None
  }

  // ---- the invariant ----

  /** The generator, or its drain task, holds its lock. */
  predicate Holds(me: GenState) {
    me.phase == Starting || me.phase == Streaming || me.phase == Closing || (me.phase == Handed && me.drain == Draining)
  }

  /** The engine task exists and has not finished. */
  predicate Engaged(me: GenState) {
    me.runner == Created || me.runner == Running || me.runner == Winding
  }

  predicate LifeOk(me: GenState) {
    && (me.phase == Waiting ==> me.acquired == 0)
    && (Holds(me) ==> me.acquired == 1 && me.released == 0)
    && (!Holds(me) ==> me.released == me.acquired <= 1)
    && (Engaged(me) ==> Holds(me))
    && (me.phase == Waiting || me.phase == Starting ==> me.runner == NoRunner)
    && (me.phase == Streaming || me.phase == Closing || me.phase == Handed ==> me.runner != NoRunner)
    && (me.phase == Handed <==> me.drain != NoDrain)
  }

  ghost predicate GenOk(s: State, g: Gen) {
    && Refers(s, g)
    && var me := s.gens[g];
       && LifeOk(me)
       && s.locks[me.lock].workspace == me.workspace
       && (Holds(me) || me.phase == Waiting ==> me.workspace in s.table && s.table[me.workspace] == me.lock)
       && (Holds(me) ==> s.locks[me.lock].locked)
       && (me.phase == Waiting ==> g in Names(s.locks[me.lock].waiters))
  }

  function Names(waiters: seq<Waiter>): (names: seq<Gen>)
    ensures |names| == |waiters| && forall i :: 0 <= i < |waiters| ==> names[i] == waiters[i].gen
  {
    seq(|waiters|, i requires 0 <= i < |waiters| => waiters[i].gen)
  }

  /** Only the first waiter can be woken, and only while the lock is free; while the lock is free
      the first waiter is on its way, so no wake-up is ever lost. */
  predicate FrontOk(lock: Lock) {
    && (forall i :: 0 < i < |lock.waiters| ==> lock.waiters[i].future != Woken)
    && (lock.waiters != [] && lock.waiters[0].future == Woken ==> !lock.locked)
    && (lock.waiters != [] && !lock.locked ==> lock.waiters[0].future != Pending)
  }

  ghost predicate LockOk(s: State, l: LockId) {
    && l in s.locks
    && FrontOk(s.locks[l])
    && Distinct(Names(s.locks[l].waiters))
    && (forall g :: g in Names(s.locks[l].waiters) ==> g in s.gens && s.gens[g].lock == l && s.gens[g].phase == Waiting)
    && (s.locks[l].locked ==> exists g :: HolderOf(s, l, g))
  }

  predicate HolderOf(s: State, l: LockId, g: Gen) {
    g in s.gens && s.gens[g].lock == l && Holds(s.gens[g])
  }

  ghost predicate OneHolderEach(s: State) {
    forall l, g, h {:trigger HolderOf(s, l, g), HolderOf(s, l, h)} :: HolderOf(s, l, g) && HolderOf(s, l, h) ==> g == h
  }

  ghost predicate TableOk(s: State) {
    forall w {:trigger s.table[w]} :: w in s.table ==> s.table[w] in s.locks && s.locks[s.table[w]].workspace == w
  }

  ghost predicate Inv(s: State) {
    && (forall g {:trigger GenOk(s, g)} :: g in s.gens ==> GenOk(s, g))
    && (forall l {:trigger LockOk(s, l)} :: l in s.locks ==> LockOk(s, l))
    && OneHolderEach(s)
    && TableOk(s)
  }

  // ---- queues ----

  lemma {:induction false} WithoutNames(waiters: seq<Waiter>, g: Gen)
    requires Distinct(Names(waiters))
    ensures Distinct(Names(Without(waiters, g)))
    ensures forall h :: h in Names(Without(waiters, g)) <==> h in Names(waiters) && h != g
  {
    if waiters != [] {
      var tail := waiters[1..];
      assert Names(waiters) == [waiters[0].gen] + Names(tail);
      assert Distinct(Names(tail)) by {
        forall i, j | 0 <= i < j < |tail| ensures Names(tail)[i] != Names(tail)[j] {
          assert Names(waiters)[i + 1] != Names(waiters)[j + 1];
        }
      }
      if waiters[0].gen == g {
        forall h | h in Names(tail)
          ensures h != g
        {
          var i :| 0 <= i < |tail| && Names(tail)[i] == h;
          assert Names(waiters)[0] != Names(waiters)[i + 1];
        }
      } else {
        WithoutNames(tail, g);
        var rest := Without(tail, g);
        assert Names([waiters[0]] + rest) == [waiters[0].gen] + Names(rest);
        forall i | 0 <= i < |tail|
          ensures Names(tail)[i] != waiters[0].gen
        {
          assert Names(waiters)[0] != Names(waiters)[i + 1];
        }
        assert waiters[0].gen !in Names(rest);
      }
    }
  }

  lemma {:induction false} WithoutFutures(waiters: seq<Waiter>, g: Gen)
    ensures waiters != [] && waiters[0].gen == g ==> Without(waiters, g) == waiters[1..]
    ensures waiters != [] && waiters[0].gen != g ==> Without(waiters, g) != [] && Without(waiters, g)[0] == waiters[0]
    ensures forall w :: w in Without(waiters, g) ==> w in waiters
    ensures (forall i :: 0 < i < |waiters| ==> waiters[i].future != Woken) ==>
              forall i :: 0 < i < |Without(waiters, g)| ==> Without(waiters, g)[i].future != Woken
  {
    if waiters != [] && waiters[0].gen != g {
      WithoutFutures(waiters[1..], g);
      if forall i :: 0 < i < |waiters| ==> waiters[i].future != Woken {
        forall w | w in Without(waiters[1..], g)
          ensures w.future != Woken
        {
          assert w in waiters[1..];
        }
      }
    }
  }

  lemma NamesCons(w: Waiter, rest: seq<Waiter>)
    ensures Names([w] + rest) == [w.gen] + Names(rest)
  {
  }

  lemma {:induction false} WithFutureNames(waiters: seq<Waiter>, g: Gen, f: Future)
    ensures Names(WithFuture(waiters, g, f)) == Names(waiters)
    ensures forall i :: 0 <= i < |waiters| ==>
              WithFuture(waiters, g, f)[i] == waiters[i] || WithFuture(waiters, g, f)[i] == Waiter(g, f)
    ensures waiters != [] && waiters[0].gen == g ==> FutureOf(waiters, g) == waiters[0].future
  {
    if waiters != [] {
      NamesCons(waiters[0], waiters[1..]);
      assert [waiters[0]] + waiters[1..] == waiters;
      if waiters[0].gen != g {
        WithFutureNames(waiters[1..], g, f);
        NamesCons(waiters[0], WithFuture(waiters[1..], g, f));
      } else {
        NamesCons(Waiter(g, f), waiters[1..]);
      }
    }
  }

  lemma {:induction false} FutureIsThere(waiters: seq<Waiter>, g: Gen)
    requires FutureOf(waiters, g) != Pending
    ensures Waiter(g, FutureOf(waiters, g)) in waiters
  {
    if waiters[0].gen != g {
      FutureIsThere(waiters[1..], g);
      assert Waiter(g, FutureOf(waiters, g)) in waiters[1..];
    }
  }

  lemma WakeFirstNames(waiters: seq<Waiter>)
    ensures Names(WakeFirst(waiters)) == Names(waiters)
  {
  }

  // ---- every step keeps the invariant ----

  /** The table is unchanged, or lock `l` is entered or dropped under its own workspace. */
  ghost predicate TableStep(s: State, t: State, l: LockId)
    requires l in t.locks
  {
    var w := t.locks[l].workspace;
    t.table == s.table ||
    ((w in s.table ==> s.table[w] == l) && (t.table == s.table[w := l] || t.table == s.table - {w}))
  }

  /** A step that touches only generator `g` and its lock `l`. */
  ghost predicate Local(s: State, t: State, g: Gen, l: LockId) {
    && l in t.locks && TableStep(s, t, l)
    && t.gens.Keys == s.gens.Keys + {g} && t.locks.Keys == s.locks.Keys + {l}
    && (forall h :: h in s.gens && h != g ==> t.gens[h] == s.gens[h])
    && (forall m :: m in s.locks && m != l ==> t.locks[m] == s.locks[m])
    && (l in s.locks ==> t.locks[l].workspace == s.locks[l].workspace)
    && t.gens[g].lock == l && (g in s.gens ==> s.gens[g].lock == l)
  }

  lemma OtherGenOk(s: State, t: State, g: Gen, l: LockId, h: Gen)
    requires Inv(s) && Local(s, t, g, l) && h in s.gens && h != g
    requires s.gens[h].lock != l || !(Holds(s.gens[h]) || s.gens[h].phase == Waiting)
    ensures GenOk(t, h)
  {
    assert GenOk(s, h);
  }

  lemma OtherLockOk(s: State, t: State, g: Gen, l: LockId, m: LockId)
    requires Inv(s) && Local(s, t, g, l) && m in s.locks && m != l
    ensures LockOk(t, m)
  {
    assert LockOk(s, m);
    if s.locks[m].locked {
      var h :| HolderOf(s, m, h);
      assert HolderOf(t, m, h);
    }
  }

  lemma OneHolder(s: State, t: State, g: Gen, l: LockId, m: LockId, h: Gen, k: Gen)
    requires Local(s, t, g, l) && HolderOf(t, m, h) && HolderOf(t, m, k)
    requires HolderOf(s, m, h) && HolderOf(s, m, k) ==> h == k
    requires Holds(t.gens[g]) ==> (h != g ==> !HolderOf(s, l, h)) && (k != g ==> !HolderOf(s, l, k))
    ensures h == k
  {
    if h != g && k != g {
      assert HolderOf(s, m, h) && HolderOf(s, m, k);
    } else if h != k {
      assert m == l;
      var other := if h == g then k else h;
      assert t.gens[other] == s.gens[other];
      assert HolderOf(s, l, other);
    }
  }

  /** What a step must establish when it is local. */
  lemma StepKeepsInv(s: State, t: State, g: Gen, l: LockId)
    requires Inv(s) && Local(s, t, g, l) && GenOk(t, g) && LockOk(t, l)
    // other generators of the lock are not disturbed
    requires forall h :: h in s.gens && h != g && s.gens[h].lock == l && (Holds(s.gens[h]) || s.gens[h].phase == Waiting) ==> GenOk(t, h)
    // at most one holder
    requires Holds(t.gens[g]) ==> forall h :: h != g ==> !HolderOf(s, l, h)
    ensures Inv(t)
  {
    forall h | h in t.gens
      ensures GenOk(t, h)
    {
      if h != g && (s.gens[h].lock != l || !(Holds(s.gens[h]) || s.gens[h].phase == Waiting)) {
        OtherGenOk(s, t, g, l, h);
      }
    }
    forall m | m in t.locks
      ensures LockOk(t, m)
    {
      if m != l { OtherLockOk(s, t, g, l, m); }
    }
    StepKeepsOneHolder(s, t, g, l);
    StepKeepsTable(s, t, g, l);
  }

  lemma StepKeepsOneHolder(s: State, t: State, g: Gen, l: LockId)
    requires OneHolderEach(s) && Local(s, t, g, l)
    requires Holds(t.gens[g]) ==> forall h :: h != g ==> !HolderOf(s, l, h)
    ensures OneHolderEach(t)
  {
    forall m, h, k | HolderOf(t, m, h) && HolderOf(t, m, k)
      ensures h == k
    {
      OneHolder(s, t, g, l, m, h, k);
    }
  }

  lemma StepKeepsTable(s: State, t: State, g: Gen, l: LockId)
    requires TableOk(s) && Local(s, t, g, l)
    ensures TableOk(t)
  {
    forall w | w in t.table
      ensures t.table[w] in t.locks && t.locks[t.table[w]].workspace == w
    {
      assert w in s.table || w == t.locks[l].workspace;
    }
  }

  /** A step that only moves generator `g` through its life keeps the invariant. */
  lemma MoveKeepsInv(s: State, g: Gen, after: GenState)
    requires Inv(s) && Refers(s, g)
    requires var me := s.gens[g];
             && after.workspace == me.workspace && after.lock == me.lock && LifeOk(after)
             && Holds(after) == Holds(me) && (after.phase == Waiting <==> me.phase == Waiting)
    ensures Inv(Moved(s, g, after))
  {
    var t, l := Moved(s, g, after), s.gens[g].lock;
    assert GenOk(s, g) && LockOk(s, l);
    if s.locks[l].locked {
      var h :| HolderOf(s, l, h);
      assert HolderOf(t, l, h);
    }
    forall h | h in s.gens && h != g
      ensures GenOk(t, h)
    {
      assert GenOk(s, h);
    }
    forall h | h != g && HolderOf(s, l, h)
      ensures !Holds(after)
    {
      assert Holds(after) ==> HolderOf(s, l, g);
    }
    StepKeepsInv(s, t, g, l);
  }

  /** Releasing wakes a waiter and may drop the lock, but never while anyone holds or awaits it. */
  lemma ReleaseKeepsInv(s: State, g: Gen, after: GenState)
    requires Inv(s) && Refers(s, g) && Holds(s.gens[g])
    requires var me := s.gens[g];
             && after.workspace == me.workspace && after.lock == me.lock && !Holds(after) && after.phase != Waiting
             && after.acquired == me.acquired && after.released == me.released
             && LifeOk(after.(released := 1))
    ensures Inv(Release(s, g, after))
  {
    var t, l := Release(s, g, after), s.gens[g].lock;
    var lock := s.locks[l];
    assert GenOk(s, g) && LockOk(s, l);
    WakeFirstNames(lock.waiters);
    forall h | h in s.gens && h != g && s.gens[h].lock == l && (Holds(s.gens[h]) || s.gens[h].phase == Waiting)
      ensures GenOk(t, h)
    {
      assert GenOk(s, h);
      assert HolderOf(s, l, g);
      assert !HolderOf(s, l, h);
    }
    StepKeepsInv(s, t, g, l);
  }

  lemma FreeLockHasNoHolder(s: State, l: LockId)
    requires Inv(s) && l in s.locks
    ensures !s.locks[l].locked ==> forall h :: !HolderOf(s, l, h)
  {
    forall h | h in s.gens
      ensures HolderOf(s, l, h) ==> s.locks[l].locked
    {
      assert GenOk(s, h);
    }
  }

  lemma AcquireKeepsInv(s: State, g: Gen, w: Workspace, l: LockId)
    requires Inv(s) && g !in s.gens && l in s.locks && w in s.table && s.table[w] == l
    ensures Inv(Acquire(s, g, w, l))
  {
    var t, lock := Acquire(s, g, w, l), s.locks[l];
    assert LockOk(s, l);
    forall h | h in s.gens && s.gens[h].lock == l && (Holds(s.gens[h]) || s.gens[h].phase == Waiting)
      ensures GenOk(t, h)
    {
      assert GenOk(s, h);
      if !lock.locked && AllCancelled(lock.waiters) {
      } else {
        assert Names(lock.waiters + [Waiter(g, Pending)]) == Names(lock.waiters) + [g];
      }
    }
    if !lock.locked && AllCancelled(lock.waiters) {
      assert HolderOf(t, l, g);
    } else {
      assert Names(lock.waiters + [Waiter(g, Pending)]) == Names(lock.waiters) + [g];
      assert g !in Names(lock.waiters);
      if lock.locked {
        var h :| HolderOf(s, l, h);
        assert HolderOf(t, l, h);
      } else {
        var v :| v in lock.waiters && v.future != Cancelled;
      }
    }
    FreeLockHasNoHolder(s, l);
    StepKeepsInv(s, t, g, l);
  }

  /** Entering a brand-new lock in the table keeps the invariant. */
  lemma NewLockKeepsInv(s: State, w: Workspace, l: LockId)
    requires Inv(s) && w !in s.table && l !in s.locks
    ensures Inv(s.(table := s.table[w := l], locks := s.locks[l := Lock(w, false, [])]))
  {
    var t := s.(table := s.table[w := l], locks := s.locks[l := Lock(w, false, [])]);
    forall g | g in t.gens
      ensures GenOk(t, g)
    {
      assert GenOk(s, g);
    }
    forall m | m in t.locks
      ensures LockOk(t, m)
    {
      if m != l {
        assert LockOk(s, m);
        if s.locks[m].locked {
          var h :| HolderOf(s, m, h);
          assert HolderOf(t, m, h);
        }
      }
    }
    forall m, h, k | HolderOf(t, m, h) && HolderOf(t, m, k)
      ensures h == k
    {
      assert HolderOf(s, m, h) && HolderOf(s, m, k);
    }
  }

  lemma WokenIsFirst(lock: Lock, g: Gen)
    requires FrontOk(lock) && FutureOf(lock.waiters, g) == Woken
    ensures lock.waiters != [] && lock.waiters[0] == Waiter(g, Woken) && !lock.locked
  {
    FutureIsThere(lock.waiters, g);
    var i :| 0 <= i < |lock.waiters| && lock.waiters[i] == Waiter(g, Woken);
  }

  lemma ResumeKeepsInv(s: State, g: Gen)
    requires Inv(s) && Enabled(s, Resume(g))
    ensures Inv(Next(s, Resume(g)))
  {
    var t, l := Next(s, Resume(g)), s.gens[g].lock;
    var lock := s.locks[l];
    assert GenOk(s, g) && LockOk(s, l);
    WokenIsFirst(lock, g);
    WithoutNames(lock.waiters, g);
    WithoutFutures(lock.waiters, g);
    assert HolderOf(t, l, g);
    forall h | h in s.gens && h != g && s.gens[h].lock == l && (Holds(s.gens[h]) || s.gens[h].phase == Waiting)
      ensures GenOk(t, h)
    {
      assert GenOk(s, h);
    }
    FreeLockHasNoHolder(s, l);
    StepKeepsInv(s, t, g, l);
  }

  lemma CancelKeepsInv(s: State, g: Gen)
    requires Inv(s) && Enabled(s, CancelWait(g))
    ensures Inv(Next(s, CancelWait(g)))
  {
    var t, l := Next(s, CancelWait(g)), s.gens[g].lock;
    var lock := s.locks[l];
    assert GenOk(s, g) && LockOk(s, l);
    WithFutureNames(lock.waiters, g, Cancelled);
    forall h | h in s.gens && h != g && s.gens[h].lock == l && (Holds(s.gens[h]) || s.gens[h].phase == Waiting)
      ensures GenOk(t, h)
    {
      assert GenOk(s, h);
    }
    if lock.locked {
      var h :| HolderOf(s, l, h);
      assert HolderOf(t, l, h);
    }
    StepKeepsInv(s, t, g, l);
  }

  lemma AbandonKeepsInv(s: State, g: Gen)
    requires Inv(s) && Enabled(s, AbandonWait(g))
    ensures Inv(Next(s, AbandonWait(g)))
  {
    var t, l := Next(s, AbandonWait(g)), s.gens[g].lock;
    var lock := s.locks[l];
    assert GenOk(s, g) && LockOk(s, l);
    WithoutNames(lock.waiters, g);
    WithoutFutures(lock.waiters, g);
    WakeFirstNames(Without(lock.waiters, g));
    forall h | h in s.gens && h != g && s.gens[h].lock == l && (Holds(s.gens[h]) || s.gens[h].phase == Waiting)
      ensures GenOk(t, h)
    {
      assert GenOk(s, h);
    }
    if lock.locked {
      var h :| HolderOf(s, l, h);
      assert HolderOf(t, l, h);
    }
    AbandonKeepsFront(lock, g);
    StepKeepsInv(s, t, g, l);
  }

  lemma AbandonKeepsFront(lock: Lock, g: Gen)
    requires FrontOk(lock)
    ensures var left := Without(lock.waiters, g);
            FrontOk(lock.(waiters := if lock.locked then left else WakeFirst(left)))
  {
    WithoutFutures(lock.waiters, g);
  }

  lemma NextKeepsInv(s: State, a: Action)
    requires Inv(s) && Enabled(s, a)
    ensures Inv(Next(s, a))
  {
    match a
    case Start(g, w, newLock) =>
      if w in s.table {
        AcquireKeepsInv(s, g, w, s.table[w]);
      } else {
        NewLockKeepsInv(s, w, newLock);
        AcquireKeepsInv(s.(table := s.table[w := newLock], locks := s.locks[newLock := Lock(w, false, [])]), g, w, newLock);
      }
    case Resume(g) => ResumeKeepsInv(s, g);
    case CancelWait(g) => CancelKeepsInv(s, g);
    case AbandonWait(g) => AbandonKeepsInv(s, g);
    case StartFails(g) =>
      assert GenOk(s, g);
      ReleaseKeepsInv(s, g, s.gens[g].(phase := Finished));
    case CloseReleases(g) =>
      assert GenOk(s, g);
      ReleaseKeepsInv(s, g, s.gens[g].(phase := Finished));
    case DrainReleases(g) =>
      assert GenOk(s, g);
      ReleaseKeepsInv(s, g, s.gens[g].(drain := Drained));
    case Launch(g) =>
      assert GenOk(s, g);
      MoveKeepsInv(s, g, s.gens[g].(phase := Streaming, runner := Created));
    case RunBegins(g) =>
      assert GenOk(s, g);
      MoveKeepsInv(s, g, s.gens[g].(runner := Running));
    case RunEnds(g) =>
      assert GenOk(s, g);
      MoveKeepsInv(s, g, s.gens[g].(runner := Winding));
    case RunnerDone(g, sentinel) =>
      assert GenOk(s, g);
      MoveKeepsInv(s, g, s.gens[g].(runner := Done(sentinel)));
    case RunnerNeverRan(g) =>
      assert GenOk(s, g);
      MoveKeepsInv(s, g, s.gens[g].(runner := Done(false)));
    case LoopEnds(g) =>
      assert GenOk(s, g);
      MoveKeepsInv(s, g, s.gens[g].(phase := Closing));
    case LoopBreaks(g) =>
      assert GenOk(s, g);
      MoveKeepsInv(s, g, s.gens[g].(phase := Closing));
    case Disconnect(g) =>
      assert GenOk(s, g);
      MoveKeepsInv(s, g, s.gens[g].(phase := Handed, drain := Draining));
  }

  /** Every state of every run satisfies the invariant. */
  lemma {:induction false} RunsKeepInv(actions: seq<Action>)
    requires After(actions).Some?
    ensures Inv(After(actions).value)
  {
    if actions != [] {
      RunsKeepInv(actions[..|actions| - 1]);
      NextKeepsInv(After(actions[..|actions| - 1]).value, actions[|actions| - 1]);
    }
  }

  // ---- what every interleaving guarantees ----

  /** Mutual exclusion: at most one stream per workspace holds its lock, even across lock objects
      that were dropped from the table, so engine runs of one workspace never overlap. */
  lemma OneRunPerWorkspace(actions: seq<Action>, g: Gen, h: Gen)
    requires After(actions).Some?
    requires var s := After(actions).value; g in s.gens && h in s.gens && s.gens[g].workspace == s.gens[h].workspace
    ensures var s := After(actions).value; Holds(s.gens[g]) && Holds(s.gens[h]) ==> g == h
    ensures var s := After(actions).value; Engaged(s.gens[g]) && Engaged(s.gens[h]) ==> g == h
  {
    RunsKeepInv(actions);
    var s := After(actions).value;
    assert GenOk(s, g) && GenOk(s, h);
    if Holds(s.gens[g]) && Holds(s.gens[h]) {
      assert HolderOf(s, s.gens[g].lock, g) && HolderOf(s, s.gens[g].lock, h);
    }
  }

  /** Each acquisition is released at most once, exactly once when the stream is over,
      and never while its engine task is alive. */
  lemma ReleasedOnceAfterTheRun(actions: seq<Action>, g: Gen)
    requires After(actions).Some? && g in After(actions).value.gens
    ensures var me := After(actions).value.gens[g];
            && me.released <= me.acquired <= 1
            && (me.phase == Finished || (me.phase == Handed && me.drain == Drained) ==> me.released == me.acquired)
            && (Engaged(me) ==> me.acquired == 1 && me.released == 0)
  {
    RunsKeepInv(actions);
    assert GenOk(After(actions).value, g);
  }

  lemma SomeName(waiters: seq<Waiter>)
    requires waiters != []
    ensures exists g :: g in Names(waiters)
  {
    assert Names(waiters)[0] in Names(waiters);
  }

  predicate IsRelease(a: Action) {
    a.StartFails? || a.CloseReleases? || a.DrainReleases?
  }

  /** A release frees the lock, and drops it from the table exactly when nobody waits for it; else the first in the queue is
      on its way. */
  lemma ReleaseDropsIff(actions: seq<Action>, a: Action)
    requires After(actions).Some? && Enabled(After(actions).value, a) && IsRelease(a)
    ensures var s := After(actions).value;
            var t, me := Next(s, a), s.gens[a.g];
            var queue := s.locks[me.lock].waiters;
            && !t.locks[me.lock].locked && t.table - {me.workspace} == s.table - {me.workspace}
            && (me.workspace in t.table <==> queue != [])
            && (queue != [] ==> t.locks[me.lock].waiters != [] && t.locks[me.lock].waiters[0].gen == queue[0].gen
                                && t.locks[me.lock].waiters[0].future != Pending)
  {
    RunsKeepInv(actions);
    var s := After(actions).value;
    assert GenOk(s, a.g) && LockOk(s, s.gens[a.g].lock);
  }

  /** A lock that is not in the table has no holder and no waiter, and is free. */
  lemma DroppedLockIsIdle(actions: seq<Action>, l: LockId)
    requires After(actions).Some?
    requires var s := After(actions).value; l in s.locks && (forall w :: w in s.table ==> s.table[w] != l)
    ensures var s := After(actions).value;
            !s.locks[l].locked && s.locks[l].waiters == [] && forall g :: !HolderOf(s, l, g)
  {
    RunsKeepInv(actions);
    var s := After(actions).value;
    assert LockOk(s, l);
    forall g | g in s.gens && s.gens[g].lock == l
      ensures !Holds(s.gens[g]) && s.gens[g].phase != Waiting
    {
      assert GenOk(s, g);
    }
    forall g
      ensures g !in Names(s.locks[l].waiters)
    {
    }
    if s.locks[l].waiters != [] {
      SomeName(s.locks[l].waiters);
    }
  }

  /** No lost wake-up: if a free lock has waiters, the first of them can take its next step. */
  lemma FreeLockHasARunnableWaiter(actions: seq<Action>, l: LockId)
    requires After(actions).Some?
    requires var s := After(actions).value; l in s.locks && !s.locks[l].locked && s.locks[l].waiters != []
    ensures var s := After(actions).value;
            var g := s.locks[l].waiters[0].gen;
            Enabled(s, AbandonWait(g)) || Enabled(s, Resume(g))
  {
    RunsKeepInv(actions);
    var s := After(actions).value;
    assert LockOk(s, l);
    var g := s.locks[l].waiters[0].gen;
    assert g == Names(s.locks[l].waiters)[0];
  }
}

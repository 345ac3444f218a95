/** Recording how a run ended, so that it can be retried after a crash between any two store calls. */
module TerminalOutcome {
  import opened Common

  datatype Status = Failed | Cancelled

  /** A ledger entry: the run's own failure or cancellation, or any other event of the thread. */
  datatype Event = RunFailed | RunCancelled | Foreign

  function Outcome(status: Status): Event {
    if status == Failed then RunFailed else RunCancelled
  }

  /** The durable state: how many terminal messages the run has, and the thread's ledger. */
  datatype Store = Store(messages: nat, events: seq<Event>)

  /** What the store offers: an atomic terminal writer, a recorded append, a listing of the ledger, a ledger append,
      updates of the run's status; and whether its ledger ignores an event key it already holds. */
  datatype Caps = Caps(
    atomic: bool, recorded: bool, lists: bool, ledger: bool, updates: bool, agentUpdates: bool, keyed: bool)

  const LISTING_LIMIT := 500

  const EMPTY := Store(0, [])

  /** One store call: it reads, closes the run, or commits a message and an event together, the atomic writer closing the
      run in the same transaction. */
  datatype Call = Read | Update | Commit(message: bool, event: Option<Event>, closes: bool)

  function Bit(b: bool): nat { if b then 1 else 0 }

  /** Whether a commit adds its event: a keyed ledger ignores a key it already holds. */
  predicate Adds(caps: Caps, s: Store, c: Call) {
    c.Commit? && c.event.Some? && !(caps.keyed && c.event.value in s.events)
  }

  function Perform(caps: Caps, s: Store, c: Call): Store {
    if c.Commit? then
      Store(s.messages + Bit(c.message), if Adds(caps, s, c) then s.events + [c.event.value] else s.events)
    else s
  }

  /** Whether the listing, which is cut off at its limit, shows the failure. */
  predicate ListingShowsFailure(s: Store) {
    RunFailed in if |s.events| <= LISTING_LIMIT then s.events else s.events[..LISTING_LIMIT]
  }

  /** The atomic writer is only used while the terminal message is missing. */
  predicate Atomic(s: Store, caps: Caps) {
    s.messages == 0 && caps.atomic
  }

  /** The reads and status updates an attempt starts with, in order. */
  function Preparation(s: Store, caps: Caps, status: Status): seq<Call> {
    if Atomic(s, caps) then [Read, Read]
    else
      [Read] + (if caps.updates then [Update] else []) + (if caps.agentUpdates then [Update] else []) + [Read] +
      if status == Failed && caps.lists && !(s.messages == 0 && caps.recorded) then [Read] else []
  }

  /** The commits an attempt then makes, in order. */
  function Commits(s: Store, caps: Caps, status: Status): seq<Call> {
    if Atomic(s, caps) then [Commit(true, Some(Outcome(status)), true)]
    else if status == Failed && s.messages == 0 && caps.recorded then [Commit(true, Some(RunFailed), false)]
    else
      (if s.messages == 0 then [Commit(true, None, false)] else []) +
      if status == Failed && !(caps.lists && ListingShowsFailure(s)) && caps.ledger
      then [Commit(false, Some(RunFailed), false)] else []
  }

  function Plan(s: Store, caps: Caps, status: Status): seq<Call> {
    Preparation(s, caps, status) + Commits(s, caps, status)
  }

  function PerformAll(caps: Caps, s: Store, calls: seq<Call>): Store
    decreases |calls|
  {
    if calls == [] then s else PerformAll(caps, Perform(caps, s, calls[0]), calls[1..])
  }

  /** An attempt that crashes after its first `k` calls, or runs to the end. */
  function Attempt(s: Store, caps: Caps, status: Status, k: nat): Store {
    var plan := Plan(s, caps, status);
    PerformAll(caps, s, if k <= |plan| then plan[..k] else plan)
  }

  /** What may happen over time: an attempt, cut short or not, or other events on the thread. */
  datatype Step = Try(status: Status, calls: nat) | Others(n: nat)

  function Then(s: Store, caps: Caps, step: Step): Store {
    match step
    case Try(status, k) => Attempt(s, caps, status, k)
    case Others(n) => s.(events := s.events + seq(n, _ => Foreign))
  }

  function After(caps: Caps, steps: seq<Step>): Store {
    if steps == [] then EMPTY else Then(After(caps, steps[..|steps| - 1]), caps, steps[|steps| - 1])
  }

  function Count(events: seq<Event>, e: Event): nat {
    if events == [] then 0 else Bit(events[0] == e) + Count(events[1..], e)
  }

  function Failures(events: seq<Event>): nat {
    Count(events, RunFailed)
  }

  function Cancellations(events: seq<Event>): nat {
    Count(events, RunCancelled)
  }

  lemma {:induction false} CountAppend(a: seq<Event>, b: seq<Event>, e: Event)
    ensures Count(a + b, e) == Count(a, e) + Count(b, e)
  {
    if a == [] {
      assert a + b == b;
    } else {
      assert (a + b)[1..] == a[1..] + b;
      CountAppend(a[1..], b, e);
    }
  }

  lemma {:induction false} CountMember(events: seq<Event>, e: Event)
    ensures e in events <==> Count(events, e) > 0
  {
    if events != [] {
      CountMember(events[1..], e);
    }
  }

  lemma ForeignCounts(events: seq<Event>, n: nat)
    ensures Failures(events + seq(n, _ => Foreign)) == Failures(events)
    ensures Cancellations(events + seq(n, _ => Foreign)) == Cancellations(events)
  {
    var more := seq(n, _ => Foreign);
    CountAppend(events, more, RunFailed);
    CountAppend(events, more, RunCancelled);
    CountMember(more, RunFailed);
    CountMember(more, RunCancelled);
  }

  // ---- a second failure must be ignored or foreseen ----

  /** Nothing but the listing keeps a ledger append from adding a second failure. */
  predicate NeedsListing(caps: Caps) {
    caps.ledger && !caps.keyed
  }

  /** A store that needs the listing can list the ledger, and at every attempt the thread still fits the listing. */
  ghost predicate Covered(caps: Caps, steps: seq<Step>) {
    NeedsListing(caps) ==> caps.lists && forall i :: 0 <= i < |steps| ==> Fits(caps, steps, i)
  }

  ghost predicate Fits(caps: Caps, steps: seq<Step>, i: nat)
    requires i < |steps|
  {
    steps[i].Try? ==> |After(caps, steps[..i]).events| < LISTING_LIMIT
  }

  /** Never a second terminal message; never a failure or a cancellation without its message; never a second
      cancellation; and, when `covered`, never a second failure, and a failure that could be appended again is shown by
      the listing. */
  ghost predicate Inv(s: Store, caps: Caps, covered: bool) {
    && s.messages <= 1
    && (Failures(s.events) > 0 ==> s.messages == 1)
    && Cancellations(s.events) <= s.messages
    && (covered ==> Failures(s.events) <= 1 && (NeedsListing(caps) && Failures(s.events) == 1 ==> ListingShowsFailure(s)))
  }

  lemma ShownFailureStays(s: Store, more: seq<Event>)
    requires ListingShowsFailure(s)
    ensures ListingShowsFailure(s.(events := s.events + more))
  {
    var before := if |s.events| <= LISTING_LIMIT then s.events else s.events[..LISTING_LIMIT];
    var i :| 0 <= i < |before| && before[i] == RunFailed;
    assert (s.events + more)[i] == RunFailed;
    var t := s.(events := s.events + more);
    var after := if |t.events| <= LISTING_LIMIT then t.events else t.events[..LISTING_LIMIT];
    assert after[i] == RunFailed;
  }

  /** The commit carries this event and adds it. */
  predicate AddsOutcome(caps: Caps, s: Store, c: Call, e: Event) {
    Adds(caps, s, c) && c.event == Some(e)
  }

  lemma CommitCounts(caps: Caps, s: Store, c: Call)
    requires c.Commit?
    ensures Perform(caps, s, c).messages == s.messages + Bit(c.message)
    ensures Failures(Perform(caps, s, c).events) == Failures(s.events) + Bit(AddsOutcome(caps, s, c, RunFailed))
    ensures Cancellations(Perform(caps, s, c).events) == Cancellations(s.events) + Bit(AddsOutcome(caps, s, c, RunCancelled))
    ensures AddsOutcome(caps, s, c, RunFailed) <==> c.event == Some(RunFailed) && !(caps.keyed && Failures(s.events) > 0)
    ensures AddsOutcome(caps, s, c, RunFailed) && |s.events| < LISTING_LIMIT ==> ListingShowsFailure(Perform(caps, s, c))
  {
    CountMember(s.events, RunFailed);
    if Adds(caps, s, c) {
      var t, e := Perform(caps, s, c), c.event.value;
      CountAppend(s.events, [e], RunFailed);
      CountAppend(s.events, [e], RunCancelled);
      assert [e][1..] == [] && Count([e], RunFailed) == Bit(e == RunFailed) && Count([e], RunCancelled) == Bit(e == RunCancelled);
      assert t.events[|s.events|] == e;
    }
  }

  lemma {:induction false} QuietCalls(caps: Caps, s: Store, quiet: seq<Call>, rest: seq<Call>)
    requires forall c :: c in quiet ==> !c.Commit?
    ensures PerformAll(caps, s, quiet + rest) == PerformAll(caps, s, rest)
  {
    if quiet == [] {
      assert quiet + rest == rest;
    } else {
      assert (quiet + rest)[1..] == quiet[1..] + rest;
      QuietCalls(caps, s, quiet[1..], rest);
    }
  }

  lemma PrefixEffect(caps: Caps, s: Store, quiet: seq<Call>, commits: seq<Call>, k: nat)
    requires forall c :: c in quiet ==> !c.Commit?
    ensures var plan, q := quiet + commits, |quiet|;
            PerformAll(caps, s, if k <= |plan| then plan[..k] else plan) ==
            PerformAll(caps, s, commits[..if k <= q then 0 else if k <= q + |commits| then k - q else |commits|])
  {
    var plan := quiet + commits;
    if k <= |quiet| {
      assert plan[..k] == quiet[..k] + [];
      QuietCalls(caps, s, quiet[..k], []);
    } else if k <= |plan| {
      assert plan[..k] == quiet + commits[..k - |quiet|];
      QuietCalls(caps, s, quiet, commits[..k - |quiet|]);
    } else {
      assert commits[..|commits|] == commits;
      QuietCalls(caps, s, quiet, commits);
    }
  }

  /** A crashed attempt leaves the effect of some of its commits, in order. */
  lemma AttemptCommits(s: Store, caps: Caps, status: Status, k: nat)
    ensures var q, commits := |Preparation(s, caps, status)|, Commits(s, caps, status);
            Attempt(s, caps, status, k) ==
            PerformAll(caps, s, commits[..if k <= q then 0 else if k <= q + |commits| then k - q else |commits|])
  {
    PrefixEffect(caps, s, Preparation(s, caps, status), Commits(s, caps, status), k);
  }

  lemma CommitsKeepInv(s: Store, caps: Caps, status: Status, n: nat, covered: bool)
    requires Inv(s, caps, covered) && n <= |Commits(s, caps, status)|
    requires covered && NeedsListing(caps) ==> caps.lists && |s.events| < LISTING_LIMIT
    ensures Inv(PerformAll(caps, s, Commits(s, caps, status)[..n]), caps, covered)
  {
    var commits := Commits(s, caps, status);
    if n >= 1 {
      CommitCounts(caps, s, commits[0]);
      var t := Perform(caps, s, commits[0]);
      assert commits[..n][0] == commits[0] && commits[..n][1..] == commits[1..n];
      if n == 1 {
        assert PerformAll(caps, s, commits[..n]) == PerformAll(caps, t, []);
      } else {
        CommitCounts(caps, t, commits[1]);
        assert commits[1..n] == [commits[1]];
        assert PerformAll(caps, t, [commits[1]]) == PerformAll(caps, Perform(caps, t, commits[1]), []);
      }
    }
  }

  /** One more attempt, or other events in between, keeps the invariant. */
  lemma ThenKeepsInv(s: Store, caps: Caps, step: Step, covered: bool)
    requires Inv(s, caps, covered)
    requires covered && NeedsListing(caps) ==> caps.lists && (step.Try? ==> |s.events| < LISTING_LIMIT)
    ensures Inv(Then(s, caps, step), caps, covered)
  {
    match step
    case Try(status, k) =>
      AttemptCommits(s, caps, status, k);
      var q, commits := |Preparation(s, caps, status)|, Commits(s, caps, status);
      CommitsKeepInv(s, caps, status, if k <= q then 0 else if k <= q + |commits| then k - q else |commits|, covered);
    case Others(n) =>
      ForeignCounts(s.events, n);
      if covered && NeedsListing(caps) && Failures(s.events) == 1 {
        ShownFailureStays(s, seq(n, _ => Foreign));
      }
  }

  lemma {:induction false} RunsKeepInv(caps: Caps, steps: seq<Step>, covered: bool)
    requires covered ==> Covered(caps, steps)
    ensures Inv(After(caps, steps), caps, covered)
  {
    if steps != [] {
      var front, last := steps[..|steps| - 1], steps[|steps| - 1];
      if covered { FrontIsCovered(caps, steps); }
      RunsKeepInv(caps, front, covered);
      ThenKeepsInv(After(caps, front), caps, last, covered);
    }
  }

  lemma FrontIsCovered(caps: Caps, steps: seq<Step>)
    requires Covered(caps, steps) && steps != []
    ensures var front, last := steps[..|steps| - 1], steps[|steps| - 1];
            Covered(caps, front) && (NeedsListing(caps) && last.Try? ==> |After(caps, front).events| < LISTING_LIMIT)
  {
    var front := steps[..|steps| - 1];
    forall i | NeedsListing(caps) && 0 <= i < |front|
      ensures Fits(caps, front, i)
    {
      assert Fits(caps, steps, i) && front[..i] == steps[..i];
    }
    assert NeedsListing(caps) ==> Fits(caps, steps, |front|);
  }

  // ---- what one attempt does ----

  /** An uninterrupted attempt performs all its commits. */
  lemma FullAttempt(s: Store, caps: Caps, status: Status, k: nat)
    requires |Plan(s, caps, status)| <= k
    ensures Attempt(s, caps, status, k) == PerformAll(caps, s, Commits(s, caps, status))
  {
    var commits := Commits(s, caps, status);
    AttemptCommits(s, caps, status, k);
    assert commits[..|commits|] == commits;
  }

  lemma TwoCommits(caps: Caps, s: Store, commits: seq<Call>)
    requires |commits| <= 2
    ensures |commits| == 0 ==> PerformAll(caps, s, commits) == s
    ensures |commits| == 1 ==> PerformAll(caps, s, commits) == Perform(caps, s, commits[0])
    ensures |commits| == 2 ==> PerformAll(caps, s, commits) == Perform(caps, Perform(caps, s, commits[0]), commits[1])
  {
    if |commits| >= 1 {
      var t, rest := Perform(caps, s, commits[0]), commits[1..];
      assert PerformAll(caps, s, commits) == PerformAll(caps, t, rest);
      if |commits| == 2 {
        assert rest[0] == commits[1] && |rest[1..]| == 0;
        assert PerformAll(caps, t, rest) == PerformAll(caps, Perform(caps, t, rest[0]), rest[1..]);
      }
    }
  }

  /** An attempt that is not cut short adds an event for its outcome. */
  predicate Records(s: Store, caps: Caps, status: Status) {
    && !(caps.keyed && Outcome(status) in s.events)
    && if s.messages == 0 && (caps.atomic || (status == Failed && caps.recorded)) then true
       else status == Failed && caps.ledger && !(caps.lists && ListingShowsFailure(s))
  }

  /** An attempt that is not cut short supplies the missing message, and adds at most the event of its own outcome. */
  lemma CompleteAttempt(s: Store, caps: Caps, status: Status, k: nat)
    requires |Plan(s, caps, status)| <= k
    ensures Attempt(s, caps, status, k) ==
            Store(if s.messages == 0 then 1 else s.messages,
                  s.events + if Records(s, caps, status) then [Outcome(status)] else [])
  {
    FullAttempt(s, caps, status, k);
    TwoCommits(caps, s, Commits(s, caps, status));
    assert s.events + [] == s.events;
  }

  /** What a complete attempt adds to either count. */
  lemma CompleteCounts(s: Store, caps: Caps, status: Status, e: Event, k: nat)
    requires |Plan(s, caps, status)| <= k
    ensures Count(Attempt(s, caps, status, k).events, e) ==
            Count(s.events, e) + Bit(Records(s, caps, status) && e == Outcome(status))
  {
    CompleteAttempt(s, caps, status, k);
    CountAppend(s.events, [Outcome(status)], e);
    assert [Outcome(status)][1..] == [] && s.events + [] == s.events;
  }

  /** An attempt that is cut short leaves nothing, everything, or, when message and event are written apart, the message
      alone. */
  lemma CutAttempt(s: Store, caps: Caps, status: Status, k: nat)
    ensures var t, whole := Attempt(s, caps, status, k), Attempt(s, caps, status, |Plan(s, caps, status)|);
            || t == s || t == whole
            || (t == Store(1, s.events) && s.messages == 0 && !caps.atomic && !(status == Failed && caps.recorded))
  {
    var n := |Preparation(s, caps, status)|;
    var commits := Commits(s, caps, status);
    AttemptCommits(s, caps, status, k);
    FullAttempt(s, caps, status, |Plan(s, caps, status)|);
    var m := if k <= n then 0 else if k <= n + |commits| then k - n else |commits|;
    TwoCommits(caps, s, commits[..m]);
    TwoCommits(caps, s, commits);
  }

  /** A cancelled attempt, cut anywhere, records no failure, and a failed one no cancellation. */
  lemma OtherOutcomeStays(s: Store, caps: Caps, k: nat)
    ensures Failures(Attempt(s, caps, Cancelled, k).events) == Failures(s.events)
    ensures Cancellations(Attempt(s, caps, Failed, k).events) == Cancellations(s.events)
  {
    CompleteCounts(s, caps, Cancelled, RunFailed, |Plan(s, caps, Cancelled)|);
    CompleteCounts(s, caps, Failed, RunCancelled, |Plan(s, caps, Failed)|);
    CutAttempt(s, caps, Cancelled, k);
    CutAttempt(s, caps, Failed, k);
  }

  // ---- what retrying guarantees ----

  /** However often attempts are cut short and retried, there is never a second terminal message or cancellation;
      and never a second failure event when the ledger is keyed or the listing covers the thread. */
  lemma AtMostOneOfEach(caps: Caps, steps: seq<Step>)
    ensures After(caps, steps).messages <= 1 && Cancellations(After(caps, steps).events) <= 1
    ensures Covered(caps, steps) ==> Failures(After(caps, steps).events) <= 1
  {
    RunsKeepInv(caps, steps, false);
    if Covered(caps, steps) { RunsKeepInv(caps, steps, true); }
  }

  /** An attempt with status failed that is not cut short leaves the message, and leaves the failure
      exactly when it was there, can be appended, or goes in with the message. */
  lemma CompleteAttemptRecords(caps: Caps, steps: seq<Step>, k: nat)
    requires Covered(caps, steps)
    requires var s := After(caps, steps); |Plan(s, caps, Failed)| <= k && (NeedsListing(caps) ==> |s.events| < LISTING_LIMIT)
    ensures var s, t := After(caps, steps), Attempt(After(caps, steps), caps, Failed, k);
            && t.messages == 1
            && (Failures(t.events) == 1 <==>
                  Failures(s.events) == 1 || caps.ledger || (s.messages == 0 && (caps.atomic || caps.recorded)))
  {
    var s := After(caps, steps);
    RunsKeepInv(caps, steps, true);
    CompleteAttempt(s, caps, Failed, k);
    CompleteCounts(s, caps, Failed, RunFailed, k);
    CountMember(s.events, RunFailed);
  }

  /** A cancelled attempt that is not cut short leaves exactly one message, and one cancellation exactly when it was there
      or went in with the message. */
  lemma CompleteCancelledAttempt(caps: Caps, steps: seq<Step>, k: nat)
    requires |Plan(After(caps, steps), caps, Cancelled)| <= k
    ensures var s, t := After(caps, steps), Attempt(After(caps, steps), caps, Cancelled, k);
            && t.messages == 1
            && (Cancellations(t.events) == 1 <==> Cancellations(s.events) == 1 || (s.messages == 0 && caps.atomic))
  {
    var s := After(caps, steps);
    RunsKeepInv(caps, steps, false);
    CompleteAttempt(s, caps, Cancelled, k);
    CompleteCounts(s, caps, Cancelled, RunCancelled, k);
    CountMember(s.events, RunCancelled);
  }

  function Writes(caps: Caps): bool {
    caps.atomic || caps.recorded || caps.ledger
  }

  lemma PlanIsShort(s: Store, caps: Caps, status: Status)
    ensures |Plan(s, caps, status)| <= 8
  {
  }

  lemma FirstAttempt(caps: Caps, n: nat, k: nat)
    requires k >= 8
    ensures var s := Store(0, seq(n, _ => Foreign));
            var t := Attempt(s, caps, Failed, k);
            && t == Store(1, if Writes(caps) then s.events + [RunFailed] else s.events)
            && Failures(t.events) == Bit(Writes(caps))
  {
    var s := Store(0, seq(n, _ => Foreign));
    ForeignCounts([], n);
    assert [] + s.events == s.events && s.events + [] == s.events;
    CountMember(s.events, RunFailed);
    PlanIsShort(s, caps, Failed);
    CompleteAttempt(s, caps, Failed, k);
    CompleteCounts(s, caps, Failed, RunFailed, k);
    assert Records(s, caps, Failed) == Writes(caps);
  }

  lemma ShownIff(n: nat)
    ensures ListingShowsFailure(Store(1, seq(n, _ => Foreign) + [RunFailed])) <==> n < 500
  {
    var events := seq(n, _ => Foreign) + [RunFailed];
    assert events[n] == RunFailed;
    assert |events| == n + 1;
  }

  /** Exactly when two uninterrupted failed attempts leave one failure event: something writes it, and a ledger append
      is to a keyed ledger or is guarded by a listing that the thread did not outgrow. */
  lemma RetryIsIdempotentIff(caps: Caps, n: nat, k: nat)
    requires k >= 8
    ensures var s := Store(0, seq(n, _ => Foreign));
            var t := Attempt(Attempt(s, caps, Failed, k), caps, Failed, k);
            Failures(t.events) == 1 <==> Writes(caps) && (caps.ledger ==> caps.keyed || (caps.lists && n < 500))
  {
    var s := Store(0, seq(n, _ => Foreign));
    var t := Attempt(s, caps, Failed, k);
    FirstAttempt(caps, n, k);
    ShownIff(n);
    PlanIsShort(t, caps, Failed);
    CountMember(t.events, RunFailed);
    CompleteCounts(t, caps, Failed, RunFailed, k);
  }

  // ---- the run's own status ----

  predicate Closes(c: Call) {
    c.Update? || (c.Commit? && c.closes)
  }

  /** The status a run is closed with: the first one stays. */
  function ClosedBy(closed: Option<Status>, calls: seq<Call>, status: Status): Option<Status>
    decreases |calls|
  {
    if closed.Some? || calls == [] then closed
    else ClosedBy(if Closes(calls[0]) then Some(status) else None, calls[1..], status)
  }

  lemma {:induction false} ClosedIff(closed: Option<Status>, calls: seq<Call>, status: Status)
    ensures ClosedBy(closed, calls, status) ==
            if closed.Some? then closed else if exists i :: 0 <= i < |calls| && Closes(calls[i]) then Some(status) else None
    decreases |calls|
  {
    if closed.None? && calls != [] {
      var next := if Closes(calls[0]) then Some(status) else None;
      ClosedIff(next, calls[1..], status);
      if i :| 0 <= i < |calls[1..]| && Closes(calls[1..][i]) { assert Closes(calls[i + 1]); }
      if i :| 0 < i < |calls| && Closes(calls[i]) { assert Closes(calls[1..][i - 1]); }
    }
  }

  /** The status of the run after the same steps as `After`. */
  function StatusAfter(caps: Caps, steps: seq<Step>): Option<Status> {
    if steps == [] then None
    else
      var front, last := steps[..|steps| - 1], steps[|steps| - 1];
      match last
      case Others(_) => StatusAfter(caps, front)
      case Try(status, k) =>
        var plan := Plan(After(caps, front), caps, status);
        ClosedBy(StatusAfter(caps, front), if k <= |plan| then plan[..k] else plan, status)
  }

  predicate CanClose(caps: Caps) {
    caps.atomic || caps.updates || caps.agentUpdates
  }

  /** Before its first commit is done, an attempt has closed the run if the store can. */
  lemma ClosesBeforeCommit(s: Store, caps: Caps, status: Status, k: nat)
    requires CanClose(caps) && |Preparation(s, caps, status)| < k <= |Plan(s, caps, status)|
    requires s.messages == 0
    ensures exists i :: 0 <= i < k && Closes(Plan(s, caps, status)[i])
  {
    var plan, n := Plan(s, caps, status), |Preparation(s, caps, status)|;
    if Atomic(s, caps) {
      assert Closes(plan[n]);
    } else {
      assert Closes(plan[1]);
    }
  }

  /** No terminal message without a closed run: the status is there whenever the message is, in a store that can close
      runs, however attempts are cut short. */
  lemma {:induction false} MessageImpliesClosed(caps: Caps, steps: seq<Step>)
    requires CanClose(caps) && After(caps, steps).messages > 0
    ensures StatusAfter(caps, steps).Some?
  {
    if steps != [] {
      var front, last := steps[..|steps| - 1], steps[|steps| - 1];
      var s := After(caps, front);
      if s.messages > 0 {
        MessageImpliesClosed(caps, front);
      } else {
        var k, plan := last.calls, Plan(s, caps, last.status);
        AttemptCommits(s, caps, last.status, k);
        if k <= |plan| { ClosesBeforeCommit(s, caps, last.status, k); }
        if k > |plan| { ClosesBeforeCommit(s, caps, last.status, |plan|); }
        var done := if k <= |plan| then plan[..k] else plan;
        var i :| 0 <= i < |done| && Closes(plan[i]);
        assert Closes(done[i]);
        ClosedIff(StatusAfter(caps, front), done, last.status);
      }
    }
  }

  lemma PlanClosesIff(s: Store, caps: Caps, status: Status)
    ensures var plan := Plan(s, caps, status);
            (exists i :: 0 <= i < |plan| && Closes(plan[i])) <==> Atomic(s, caps) || caps.updates || caps.agentUpdates
  {
    var plan := Plan(s, caps, status);
    if Atomic(s, caps) {
      assert Closes(plan[2]);
    } else if caps.updates || caps.agentUpdates {
      assert Closes(plan[1]);
    }
  }

  /** The first status stays, and an attempt that is not cut short closes an open run if the store can. */
  lemma {:induction false} CompleteAttemptCloses(caps: Caps, steps: seq<Step>, status: Status, k: nat)
    requires |Plan(After(caps, steps), caps, status)| <= k
    ensures var before, after := StatusAfter(caps, steps), StatusAfter(caps, steps + [Try(status, k)]);
            && (before.Some? ==> after == before)
            && (before.None? && caps.atomic && After(caps, steps).messages == 0 ==> after == Some(status))
            && (before.None? && (caps.updates || caps.agentUpdates) ==> after == Some(status))
            && (before.None? && !CanClose(caps) ==> after == None)
  {
    var plan, more := Plan(After(caps, steps), caps, status), steps + [Try(status, k)];
    assert more[..|more| - 1] == steps && plan[..|plan|] == plan;
    ClosedIff(StatusAfter(caps, steps), plan, status);
    PlanClosesIff(After(caps, steps), caps, status);
  }
}

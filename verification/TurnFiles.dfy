/** The registry of files changed per turn: live snapshots, and the results of the last few runs. */
module TurnFiles {
  import opened Common

  const MAX_RETAINED_RUNS: nat := 16

  /** A baseline of one run: which run, in which context, and what was there. */
  datatype Snapshot<R, C, B> = Snapshot(run: R, context: C, baseline: B)

  /** One finished run. */
  datatype Entry<R, C, F> = Entry(run: R, context: C, files: F)

  function Runs<R, C, F>(log: seq<Entry<R, C, F>>): (runs: seq<R>)
    ensures |runs| == |log| && forall i :: 0 <= i < |log| ==> runs[i] == log[i].run
  {
    seq(|log|, i requires 0 <= i < |log| => log[i].run)
  }

  /** The entries the registry is meant to remember. */
  function Retained<R, C, F>(log: seq<Entry<R, C, F>>): seq<Entry<R, C, F>> {
    if |log| <= MAX_RETAINED_RUNS then log else log[|log| - MAX_RETAINED_RUNS..]
  }

  function FilesOf<R(==), C, F>(log: seq<Entry<R, C, F>>): map<R, F> {
    if log == [] then map[] else FilesOf(log[..|log| - 1])[log[|log| - 1].run := log[|log| - 1].files]
  }

  function ContextOf<R(==), C, F>(log: seq<Entry<R, C, F>>): map<R, C> {
    if log == [] then map[] else ContextOf(log[..|log| - 1])[log[|log| - 1].run := log[|log| - 1].context]
  }

  /** The last run of every context. */
  function LastRun<R, C(==), F>(log: seq<Entry<R, C, F>>): map<C, R> {
    if log == [] then map[] else LastRun(log[..|log| - 1])[log[|log| - 1].context := log[|log| - 1].run]
  }

  ghost predicate PointsTo<R, C>(m: map<C, R>, c: C, r: R) {
    c in m && m[c] == r
  }

  /** Forgetting the oldest entry removes its run, and only pointers to its run. */
  lemma {:induction false} ForgetOldest<R, C, F>(log: seq<Entry<R, C, F>>)
    requires log != [] && Distinct(Runs(log))
    ensures FilesOf(log[1..]) == FilesOf(log) - {log[0].run}
    ensures ContextOf(log[1..]) == ContextOf(log) - {log[0].run}
    ensures LastRun(log[1..]) == map c | c in LastRun(log) && LastRun(log)[c] != log[0].run :: LastRun(log)[c]
  {
    if |log| == 1 {
      assert log[..0] == [] && log[1..] == [];
    } else {
      var front, last := log[..|log| - 1], log[|log| - 1];
      assert Distinct(Runs(front)) by {
        assert forall i :: 0 <= i < |front| ==> Runs(front)[i] == Runs(log)[i];
      }
      ForgetOldest(front);
      assert log[1..][..|log| - 2] == front[1..];
      assert last.run != log[0].run by { assert Runs(log)[0] != Runs(log)[|log| - 1]; }
    }
  }

  lemma {:induction false} LastRunIsLogged<R, C, F>(log: seq<Entry<R, C, F>>, c: C)
    requires c in LastRun(log)
    ensures LastRun(log)[c] in FilesOf(log) && LastRun(log)[c] in ContextOf(log)
    ensures Distinct(Runs(log)) ==> ContextOf(log)[LastRun(log)[c]] == c
  {
    var front, last := log[..|log| - 1], log[|log| - 1];
    if c != last.context {
      LastRunIsLogged(front, c);
      if Distinct(Runs(log)) {
        assert Distinct(Runs(front)) by {
          assert forall i :: 0 <= i < |front| ==> Runs(front)[i] == Runs(log)[i];
        }
        KeysAreRuns(front);
        var i := IndexOf(Runs(front), LastRun(front)[c]);
        assert Runs(log)[i] != Runs(log)[|log| - 1];
      }
    }
  }

  lemma {:induction false} KeysAreRuns<R, C, F>(log: seq<Entry<R, C, F>>)
    ensures forall r :: r in FilesOf(log) <==> r in Runs(log)
    ensures forall r :: r in ContextOf(log) <==> r in Runs(log)
  {
    if log != [] {
      var front, last := log[..|log| - 1], log[|log| - 1];
      KeysAreRuns(front);
      assert Runs(log) == Runs(front) + [last.run];
    }
  }

  lemma {:induction false} DistinctSize<T>(s: seq<T>)
    requires Distinct(s)
    ensures |set x | x in s| == |s|
  {
    if s != [] {
      var front, last := s[..|s| - 1], s[|s| - 1];
      DistinctSize(front);
      assert last !in front;
      assert (set x | x in s) == (set x | x in front) + {last};
    }
  }

  lemma {:induction false} TailDistinct<R, C, F>(log: seq<Entry<R, C, F>>)
    requires log != [] && Distinct(Runs(log))
    ensures Distinct(Runs(log[1..]))
    ensures Runs(log[1..]) == Runs(log)[1..]
  {
    assert forall i :: 0 <= i < |log| - 1 ==> Runs(log[1..])[i] == Runs(log)[i + 1];
  }

  /** What was retained, and the newest entry. */
  function Recent<R, C, F>(log: seq<Entry<R, C, F>>): seq<Entry<R, C, F>>
    requires log != []
  {
    Retained(log[..|log| - 1]) + [log[|log| - 1]]
  }

  lemma RetainedIsRecent<R, C, F>(log: seq<Entry<R, C, F>>)
    requires log != []
    ensures Retained(log) == Retained(Recent(log))
  {
  }

  lemma FreshRun<R, C, F>(log: seq<Entry<R, C, F>>, entry: Entry<R, C, F>)
    requires Distinct(Runs(log + [entry]))
    ensures Distinct(Runs(log)) && Distinct(Runs(Recent(log + [entry])))
    ensures entry.run !in Runs(Retained(log))
    ensures Runs(Recent(log + [entry])) == Runs(Retained(log)) + [entry.run]
  {
    var whole, recent := log + [entry], Recent(log + [entry]);
    assert whole[..|log|] == log;
    assert forall i :: 0 <= i < |log| ==> Runs(log)[i] == Runs(whole)[i];
    var skip := |whole| - |recent|;
    assert forall i :: 0 <= i < |recent| ==> Runs(recent)[i] == Runs(whole)[i + skip];
    assert forall i :: 0 <= i < |Retained(log)| ==> Runs(Retained(log))[i] == Runs(recent)[i];
  }

  /** The files of a run, to a client of its own context; nothing to any other, and nothing once it is forgotten. */
  function Told<R(==), C(==), F>(entries: seq<Entry<R, C, F>>, context: C, run: Option<R>, nothing: F): F {
    if entries == [] || run.None? then nothing
    else
      var last := entries[|entries| - 1];
      if last.run == run.value then if last.context == context then last.files else nothing
      else Told(entries[..|entries| - 1], context, run, nothing)
  }

  lemma {:induction false} ToldIsStored<R, C, F>(entries: seq<Entry<R, C, F>>, context: C, run: Option<R>, nothing: F)
    ensures forall r :: r in FilesOf(entries) <==> r in ContextOf(entries)
    ensures Told(entries, context, run, nothing) ==
      if run.Some? && PointsTo(ContextOf(entries), run.value, context)
      then FilesOf(entries)[run.value] else nothing
  {
    if entries != [] {
      ToldIsStored(entries[..|entries| - 1], context, run, nothing);
    }
  }

  lemma RetainedDistinct<R, C, F>(log: seq<Entry<R, C, F>>)
    requires Distinct(Runs(log))
    ensures Distinct(Runs(Retained(log)))
  {
    var skip := |log| - |Retained(log)|;
    assert forall i :: 0 <= i < |Retained(log)| ==> Runs(Retained(log))[i] == Runs(log)[i + skip];
  }

  /** The four dictionaries of finished runs; `order` lists the keys of `results`, oldest insertion first. */
  datatype Memory<R(==), C(==), F> = Memory(order: seq<R>, results: map<R, F>, contexts: map<R, C>, latest: map<C, R>) {

    /** What holds whatever ids the callers choose. */
    ghost predicate Consistent() {
      && Distinct(order)
      && results.Keys == (set r | r in order)
      && contexts.Keys == results.Keys
      && forall c :: c in latest ==> latest[c] in results
    }

    /** The finished runs remembered are these, no more and no less. */
    ghost predicate Remembers(entries: seq<Entry<R, C, F>>) {
      && order == Runs(entries)
      && results == FilesOf(entries)
      && contexts == ContextOf(entries)
      && latest == LastRun(entries)
    }

    function Recorded(entry: Entry<R, C, F>): Memory<R, C, F> {
      Memory(
        if entry.run in results then order else order + [entry.run],
        results[entry.run := entry.files],
        contexts[entry.run := entry.context],
        latest[entry.context := entry.run])
    }

    function Forgotten(): Memory<R, C, F>
      requires order != []
    {
      Memory(
        order[1..],
        results - {order[0]},
        contexts - {order[0]},
        map c | c in latest && latest[c] != order[0] :: latest[c])
    }
  }

  lemma RecordedIsConsistent<R, C, F>(m: Memory<R, C, F>, entry: Entry<R, C, F>)
    requires m.Consistent()
    ensures m.Recorded(entry).Consistent()
  {
    if entry.run !in m.results {
      assert entry.run !in m.order;
    } else {
      assert entry.run in m.order;
    }
  }

  lemma ForgottenIsConsistent<R, C, F>(m: Memory<R, C, F>)
    requires m.Consistent() && m.order != []
    ensures m.Forgotten().Consistent()
  {
    var after := m.Forgotten();
    forall r
      ensures r in after.order <==> r in m.order && r != m.order[0]
    {
      if r in m.order {
        var i := IndexOf(m.order, r);
        assert i > 0 ==> after.order[i - 1] == r;
      }
    }
    assert m.order[0] in m.order;
  }

  lemma RecordedIsRemembered<R, C, F>(m: Memory<R, C, F>, entries: seq<Entry<R, C, F>>, entry: Entry<R, C, F>)
    requires m.Remembers(entries) && entry.run !in Runs(entries)
    ensures m.Recorded(entry).Remembers(entries + [entry])
  {
    KeysAreRuns(entries);
    assert (entries + [entry])[..|entries|] == entries;
    assert Runs(entries + [entry]) == Runs(entries) + [entry.run];
  }

  lemma ForgottenIsForgotten<R, C, F>(m: Memory<R, C, F>, entries: seq<Entry<R, C, F>>)
    requires m.Remembers(entries) && entries != [] && Distinct(Runs(entries))
    ensures m.order != [] && m.Forgotten().Remembers(entries[1..]) && Distinct(Runs(entries[1..]))
  {
    ForgetOldest(entries);
    TailDistinct(entries);
  }

  /** The registry never holds more results than the limit, and its pointers are never dangling. */
  lemma Bounded<R, C, F>(m: Memory<R, C, F>)
    requires m.Consistent()
    ensures |m.results| == |m.contexts| == |m.order|
  {
    DistinctSize(m.order);
    assert |m.results.Keys| == |m.order|;
    assert |m.contexts.Keys| == |m.order|;
  }

  /** The oldest results go until the limit holds. */
  function Trimmed<R, C, F>(m: Memory<R, C, F>): Memory<R, C, F>
    decreases |m.order|
  {
    if |m.order| <= MAX_RETAINED_RUNS then m else Trimmed(m.Forgotten())
  }

  lemma {:induction false} TrimmedIsConsistent<R, C, F>(m: Memory<R, C, F>)
    requires m.Consistent()
    ensures Trimmed(m).Consistent() && |Trimmed(m).order| <= MAX_RETAINED_RUNS
    decreases |m.order|
  {
    if |m.order| > MAX_RETAINED_RUNS {
      ForgottenIsConsistent(m);
      TrimmedIsConsistent(m.Forgotten());
    }
  }

  /** The run just finished is never the one forgotten, and keeps its files, context and pointers. */
  lemma {:induction false} TrimmedKeepsNewest<R, C, F>(m: Memory<R, C, F>, run: R)
    requires m.Consistent() && run in m.results
    requires |m.order| <= MAX_RETAINED_RUNS || m.order[|m.order| - 1] == run
    ensures run in Trimmed(m).results && Trimmed(m).results[run] == m.results[run]
    ensures run in m.contexts && PointsTo(Trimmed(m).contexts, run, m.contexts[run])
    ensures forall c :: PointsTo(m.latest, c, run) ==> PointsTo(Trimmed(m).latest, c, run)
    decreases |m.order|
  {
    if |m.order| > MAX_RETAINED_RUNS {
      ForgottenIsConsistent(m);
      assert m.order[0] != m.order[|m.order| - 1];
      TrimmedKeepsNewest(m.Forgotten(), run);
    }
  }

  /** Trimming a faithful memory leaves a faithful memory of the last entries. */
  lemma {:induction false} TrimmedIsRetained<R, C, F>(m: Memory<R, C, F>, entries: seq<Entry<R, C, F>>)
    requires m.Remembers(entries) && Distinct(Runs(entries))
    ensures Trimmed(m).Remembers(Retained(entries))
    decreases |entries|
  {
    if |entries| > MAX_RETAINED_RUNS {
      ForgottenIsForgotten(m, entries);
      TrimmedIsRetained(m.Forgotten(), entries[1..]);
      assert Retained(entries[1..]) == Retained(entries);
    }
  }

  /** Bounded and without dangling pointers; with unique run ids, exactly the last finished runs. */
  ghost predicate Sound<R(!new), C(!new), F(!new)>(m: Memory<R, C, F>, log: seq<Entry<R, C, F>>) {
    && m.Consistent()
    && |m.results| <= 16
    && (Distinct(Runs(log)) ==> m.Remembers(Retained(log)))
  }

  /** Finishing a run keeps the memory sound, and the run just finished is never the one forgotten. */
  lemma FinishedIsSound<R(!new), C(!new), F(!new)>(
      m: Memory<R, C, F>, log: seq<Entry<R, C, F>>, entry: Entry<R, C, F>)
    requires Sound(m, log)
    ensures m.Recorded(entry).Consistent()
    ensures Sound(Trimmed(m.Recorded(entry)), log + [entry])
    ensures entry.run in Trimmed(m.Recorded(entry)).results
    ensures Trimmed(m.Recorded(entry)).results[entry.run] == entry.files
    ensures PointsTo(Trimmed(m.Recorded(entry)).contexts, entry.run, entry.context)
    ensures PointsTo(Trimmed(m.Recorded(entry)).latest, entry.context, entry.run)
  {
    var recorded := m.Recorded(entry);
    Bounded(m);
    RecordedIsConsistent(m, entry);
    TrimmedIsConsistent(recorded);
    Bounded(Trimmed(recorded));
    NewestIsKept(m, entry);
    if Distinct(Runs(log + [entry])) { FinishedIsRemembered(m, log, entry); }
  }

  lemma NewestIsKept<R(!new), C(!new), F(!new)>(m: Memory<R, C, F>, entry: Entry<R, C, F>)
    requires m.Consistent() && m.Recorded(entry).Consistent() && |m.order| <= MAX_RETAINED_RUNS
    ensures var t := Trimmed(m.Recorded(entry));
            && entry.run in t.results && t.results[entry.run] == entry.files
            && PointsTo(t.contexts, entry.run, entry.context) && PointsTo(t.latest, entry.context, entry.run)
  {
    TrimmedKeepsNewest(m.Recorded(entry), entry.run);
  }

  lemma FinishedIsRemembered<R(!new), C(!new), F(!new)>(
      m: Memory<R, C, F>, log: seq<Entry<R, C, F>>, entry: Entry<R, C, F>)
    requires Sound(m, log) && Distinct(Runs(log + [entry]))
    ensures Trimmed(m.Recorded(entry)).Remembers(Retained(log + [entry]))
  {
    FreshRun(log, entry);
    RecordedIsRemembered(m, Retained(log), entry);
    assert (log + [entry])[..|log|] == log;
    TrimmedIsRetained(m.Recorded(entry), Recent(log + [entry]));
    RetainedIsRecent(log + [entry]);
  }

  // ---- the runs that are under way ----

  /** The snapshots of active runs, and the active run of every context. */
  datatype Live<R(==), C(==), B> = Live(active: map<R, Snapshot<R, C, B>>, byContext: map<C, R>) {

    function Start(s: Snapshot<R, C, B>): Live<R, C, B> {
      Live(active[s.run := s], byContext[s.context := s.run])
    }

    function Stop(s: Snapshot<R, C, B>): Live<R, C, B> {
      Live(active - {s.run},
           if s.context in byContext && byContext[s.context] == s.run then byContext - {s.context} else byContext)
    }

    /** Every context with an active run has a live snapshot of that context. */
    ghost predicate Pointed() {
      forall c :: c in byContext ==>
        byContext[c] in active && active[byContext[c]].run == byContext[c] && active[byContext[c]].context == c
    }

    /** The run is the active one of some other context. */
    ghost predicate Elsewhere(run: R, context: C) {
      run in active && active[run].context != context && PointsTo(byContext, active[run].context, run)
    }
  }

  /** Starting a run keeps the pointers live exactly when it is not the active run of another context. */
  lemma StartKeepsPointedIff<R(!new), C(!new), B(!new)>(l: Live<R, C, B>, s: Snapshot<R, C, B>)
    requires l.Pointed()
    ensures l.Start(s).Pointed() <==> !l.Elsewhere(s.run, s.context)
  {
    if l.Elsewhere(s.run, s.context) {
      assert l.active[s.run].context in l.Start(s).byContext;
    }
  }

  /** So does stopping one. */
  lemma StopKeepsPointedIff<R(!new), C(!new), B(!new)>(l: Live<R, C, B>, s: Snapshot<R, C, B>)
    requires l.Pointed()
    ensures l.Stop(s).Pointed() <==> !l.Elsewhere(s.run, s.context)
  {
    if l.Elsewhere(s.run, s.context) {
      assert l.active[s.run].context in l.Stop(s).byContext;
    }
  }

  /** A call that changes these tables. */
  datatype Call<R, C, B> = Capturing(snapshot: Snapshot<R, C, B>) | Finalizing(snapshot: Snapshot<R, C, B>)

  function After<R(==), C(==), B>(calls: seq<Call<R, C, B>>): Live<R, C, B> {
    if calls == [] then Live(map[], map[])
    else
      var before := After(calls[..|calls| - 1]);
      match calls[|calls| - 1]
      case Capturing(s) => before.Start(s)
      case Finalizing(s) => before.Stop(s)
  }

  /** A run id is captured at most once, and a run is finalised with the snapshot captured for it. */
  ghost predicate Proper<R, C, B>(calls: seq<Call<R, C, B>>) {
    forall i :: 0 <= i < |calls| ==>
      if calls[i].Capturing?
      then forall j :: 0 <= j < i && calls[j].Capturing? ==> calls[j].snapshot.run != calls[i].snapshot.run
      else Capturing(calls[i].snapshot) in calls[..i]
  }

  /** Every active snapshot is one that was captured. */
  lemma {:induction false} ActiveWasCaptured<R, C, B>(calls: seq<Call<R, C, B>>, r: R)
    requires r in After(calls).active
    ensures After(calls).active[r].run == r && Capturing(After(calls).active[r]) in calls
  {
    var front, last := calls[..|calls| - 1], calls[|calls| - 1];
    assert calls == front + [last];
    if !(last.Capturing? && last.snapshot.run == r) { ActiveWasCaptured(front, r); }
  }

  /** In a proper sequence no call names the active run of another context. */
  lemma NeverElsewhere<R, C, B>(calls: seq<Call<R, C, B>>, call: Call<R, C, B>)
    requires Proper(calls + [call])
    ensures !After(calls).Elsewhere(call.snapshot.run, call.snapshot.context)
  {
    var more, run, n := calls + [call], call.snapshot.run, |calls|;
    assert more[n] == call && more[..n] == calls;
    if run in After(calls).active {
      ActiveWasCaptured(calls, run);
      var i := IndexOf(calls, Capturing(After(calls).active[run]));
      assert more[i] == calls[i];
      if call.Finalizing? {
        var j := IndexOf(calls, Capturing(call.snapshot));
        assert more[j] == calls[j];
        OnceCaptured(more, i, j);
      }
    }
  }

  lemma OnceCaptured<R, C, B>(calls: seq<Call<R, C, B>>, i: nat, j: nat)
    requires Proper(calls) && i < |calls| && j < |calls| && calls[i].Capturing? && calls[j].Capturing?
    requires calls[i].snapshot.run == calls[j].snapshot.run
    ensures i == j
  {
  }

  /** After any proper sequence of calls every context with an active run has a live snapshot of that context. */
  lemma {:induction false} ProperIsPointed<R(!new), C(!new), B(!new)>(calls: seq<Call<R, C, B>>)
    requires Proper(calls)
    ensures After(calls).Pointed()
  {
    if calls != [] {
      var front, last := calls[..|calls| - 1], calls[|calls| - 1];
      assert calls == front + [last];
      ProperFront(front, last);
      ProperIsPointed(front);
      NeverElsewhere(front, last);
      StartKeepsPointedIff(After(front), last.snapshot);
      StopKeepsPointedIff(After(front), last.snapshot);
    }
  }

  lemma ProperFront<R, C, B>(calls: seq<Call<R, C, B>>, call: Call<R, C, B>)
    requires Proper(calls + [call])
    ensures Proper(calls)
  {
    var more := calls + [call];
    forall i | 0 <= i < |calls|
      ensures calls[i] == more[i] && calls[..i] == more[..i]
    {
    }
  }

  datatype Status = Active | Finalized

  class Registry<R(==,!new), C(==,!new), B(!new), F(!new)> {
    var active: map<R, Snapshot<R, C, B>>
    var activeByContext: map<C, R>
    var latest: map<C, R>
    var results: map<R, F>
    var order: seq<R>
    var resultContext: map<R, C>
    /** Every call of `Finalize` so far. */
    ghost var log: seq<Entry<R, C, F>>
    /** Every call of `Capture` that took a snapshot, and of `Finalize`. */
    ghost var calls: seq<Call<R, C, B>>

    constructor ()
      ensures Valid() && log == [] && calls == []
    {
      active, activeByContext, latest := map[], map[], map[];
      results, order, resultContext, log, calls := map[], [], map[], [], [];
    }

    ghost function Finished(): Memory<R, C, F>
      reads this`order, this`results, this`resultContext, this`latest
    {
      Memory(order, results, resultContext, latest)
    }

    ghost function Living(): Live<R, C, B>
      reads this`active, this`activeByContext
    {
      Live(active, activeByContext)
    }

    ghost predicate Valid()
      reads this`order, this`results, this`resultContext, this`latest, this`log, this`active, this`activeByContext, this`calls
    {
      Sound(Finished(), log) && Living() == After(calls)
    }

    /** Starts tracking a run; there is no baseline when the workspace cannot be read. */
    method Capture(context: C, run: R, baseline: Option<B>) returns (r: Option<Snapshot<R, C, B>>)
      requires Valid()
      modifies this`active, this`activeByContext, this`calls
      ensures Valid()
      ensures r == if baseline.Some? then Some(Snapshot(run, context, baseline.value)) else None
      ensures calls == if r.Some? then old(calls) + [Capturing(r.value)] else old(calls)
      ensures Living() == if r.Some? then old(Living()).Start(r.value) else old(Living())
    {
      if baseline.None? {
        return None;
      }
      var snapshot := Snapshot(run, context, baseline.value);
      active := active[run := snapshot];
      activeByContext := activeByContext[context := run];
      calls := calls + [Capturing(snapshot)];
      assert calls[..|calls| - 1] == old(calls);
      return Some(snapshot);
    }

    /** Records the files a run changed, and forgets the runs beyond the limit. */
    method Finalize(snapshot: Snapshot<R, C, B>, changes: F)
      requires Valid()
      modifies this
      ensures Valid()
      ensures log == old(log) + [Entry(snapshot.run, snapshot.context, changes)]
      ensures calls == old(calls) + [Finalizing(snapshot)]
      ensures snapshot.run in results && results[snapshot.run] == changes
      ensures PointsTo(resultContext, snapshot.run, snapshot.context)
      ensures PointsTo(latest, snapshot.context, snapshot.run)
      ensures Living() == old(Living()).Stop(snapshot)
    {
      Deactivate(snapshot);
      Store(snapshot, changes);
    }

    /** Records a result and trims, touching only the tables of finished runs. */
    method Store(snapshot: Snapshot<R, C, B>, changes: F)
      requires Sound(Finished(), log)
      modifies this`results, this`order, this`resultContext, this`latest, this`log
      ensures Sound(Finished(), log)
      ensures log == old(log) + [Entry(snapshot.run, snapshot.context, changes)]
      ensures snapshot.run in results && results[snapshot.run] == changes
      ensures PointsTo(resultContext, snapshot.run, snapshot.context)
      ensures PointsTo(latest, snapshot.context, snapshot.run)
    {
      FinishedIsSound(Finished(), log, Entry(snapshot.run, snapshot.context, changes));
      Record(snapshot, changes);
      Trim();
    }

    /** Stores the result and moves the pointer of its context. */
    method Record(snapshot: Snapshot<R, C, B>, changes: F)
      modifies this`results, this`order, this`resultContext, this`latest, this`log
      ensures log == old(log) + [Entry(snapshot.run, snapshot.context, changes)]
      ensures Finished() == old(Finished()).Recorded(log[|log| - 1])
    {
      var run, context := snapshot.run, snapshot.context;
      if run !in results {
        order := order + [run];
      }
      results := results[run := changes];
      resultContext := resultContext[run := context];
      latest := latest[context := run];
      log := log + [Entry(run, context, changes)];
    }

    /** Takes the snapshot out of the active tables. */
    method Deactivate(snapshot: Snapshot<R, C, B>)
      requires Living() == After(calls)
      modifies this`active, this`activeByContext, this`calls
      ensures Living() == old(Living()).Stop(snapshot) == After(calls) && calls == old(calls) + [Finalizing(snapshot)]
    {
      var run, context := snapshot.run, snapshot.context;
      active := active - {run};
      if context in activeByContext && activeByContext[context] == run {
        activeByContext := activeByContext - {context};
      }
      calls := calls + [Finalizing(snapshot)];
      assert calls[..|calls| - 1] == old(calls);
    }

    /** Pops the oldest results until the limit holds. */
    method Trim()
      requires Finished().Consistent()
      modifies this`results, this`order, this`resultContext, this`latest
      ensures Finished() == Trimmed(old(Finished()))
    {
      Bounded(Finished());
      if |results| > MAX_RETAINED_RUNS {
        var doomed := order[..|order| - MAX_RETAINED_RUNS];
        var i := 0;
        while i < |doomed|
          invariant 0 <= i <= |doomed| == |old(order)| - MAX_RETAINED_RUNS
          invariant doomed == old(order)[..|doomed|] && order == old(order)[i..]
          invariant Trimmed(Finished()) == Trimmed(old(Finished()))
        {
          Forget(doomed[i]);
          assert old(order)[i..][1..] == old(order)[i + 1..];
          i := i + 1;
        }
      }
    }

    /** Removes the oldest result, its context, and the pointers to it. */
    method Forget(run: R)
      requires order != [] && run == order[0]
      modifies this`results, this`order, this`resultContext, this`latest
      ensures Finished() == old(Finished()).Forgotten()
    {
      results := results - {run};
      order := order[1..];
      resultContext := resultContext - {run};
      DropPointers(run);
    }

    method DropPointers(run: R)
      modifies this`latest
      ensures latest == map c | c in old(latest) && old(latest)[c] != run :: old(latest)[c]
    {
      var todo := latest.Keys;
      while todo != {}
        invariant todo <= old(latest).Keys
        invariant latest == map c | c in old(latest) && (c in todo || old(latest)[c] != run) :: old(latest)[c]
        decreases |todo|
      {
        var c :| c in todo;
        if latest[c] == run {
          latest := latest - {c};
        }
        todo := todo - {c};
      }
    }

    /** What a client is told: the run, whether it is live, and its files. */
    method Latest(context: C, asked: Option<R>, compute: Snapshot<R, C, B> -> F, nothing: F)
      returns (run: Option<R>, status: Status, files: F)
      requires Valid()
      ensures asked.Some? ==> run == asked
      // live exactly when the run asked for is active in this context, or when the context has an active run
      ensures asked.Some? ==> (status.Active? <==> asked.value in active && active[asked.value].context == context)
      ensures asked.None? ==> (status.Active? <==> context in activeByContext && activeByContext[context] in active)
      ensures status.Active? ==> run.Some? && run.value in active && files == compute(active[run.value])
      ensures status.Active? && (asked.Some? || Proper(calls)) ==> active[run.value].context == context
      ensures asked.None? && Proper(calls) ==> (status.Active? <==> context in activeByContext)
      ensures asked.None? && status.Active? ==> run == Lookup(activeByContext, context)
      ensures Distinct(Runs(log)) && status.Finalized? && asked.None? ==>
        run == Lookup(LastRun(Retained(log)), context)
      ensures Distinct(Runs(log)) && status.Finalized? ==> files == Told(Retained(log), context, run, nothing)
    {
      if Proper(calls) { ProperIsPointed(calls); }
      if asked.Some? {
        var r := asked.value;
        if r in active && active[r].context == context {
          return Some(r), Active, compute(active[r]);
        }
        if r in resultContext && resultContext[r] == context {
          files := results[r];
        } else {
          files := nothing;
        }
        run, status := Some(r), Finalized;
      } else if context in activeByContext && activeByContext[context] in active {
        return Some(activeByContext[context]), Active, compute(active[activeByContext[context]]);
      } else {
        run, status := Lookup(latest, context), Finalized;
        files := if run.Some? && run.value in results then results[run.value] else nothing;
      }
      if Distinct(Runs(log)) {
        ToldIsStored(Retained(log), context, run, nothing);
        if run.Some? && run == Lookup(latest, context) {
          RetainedDistinct(log);
          LastRunIsLogged(Retained(log), context);
        }
      }
    }
  }
}

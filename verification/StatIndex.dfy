/** The stat index in front of the content hash: hashing threads, outside writers, flushes and restarts interleave. */
module StatIndex {
  import opened Common

  /** What a file's size and modification time read. */
  type Stat = (nat, int)

  datatype File<C> = File(stat: Stat, content: C)

  /** One remembered digest. */
  datatype Entry<D> = Entry(stat: Stat, digest: D)

  /** A thread inside `file_hash`, past the index lookup: it knows the stat, then the content as well. */
  datatype Reader<P, C> = Stated(path: P, stat: Option<Stat>) | Loaded(path: P, stat: Option<Stat>, content: C)

  datatype State<P(==), C, D> = State(
    files: map<P, File<C>>,
    index: map<P, Entry<D>>,
    dirty: bool,
    saved: map<P, Entry<D>>,
    readers: map<int, Reader<P, C>>)

  datatype Step<P, C> =
    | Write(path: P, file: File<C>)        // an outside program replaces the content
    | Remove(path: P)
    | Enter(thread: int, path: P, statOk: bool)
    | Load(thread: int)
    | Store(thread: int)
    | Flush
    | Restart(readable: bool)

  ghost predicate Initial<P, C, D>(s: State<P, C, D>) {
    s.index == map[] && !s.dirty && s.saved == map[] && s.readers == map[]
  }

  /** The answer of the fast path, if it is taken. */
  function Remembered<P, C, D>(s: State<P, C, D>, path: P): Option<D> {
    if path in s.files && path in s.index && s.index[path].stat == s.files[path].stat
    then Some(s.index[path].digest) else None
  }

  /** One step; `hash` is the full hash of a file's content under its path, with the body extraction included. */
  function Next<P, C, D>(s: State<P, C, D>, hash: (P, C) -> D, step: Step<P, C>): State<P, C, D> {
    match step
    case Write(path, file) => s.(files := s.files[path := file])
    case Remove(path) => s.(files := s.files - {path})
    case Enter(thread, path, statOk) =>
      if thread in s.readers || path !in s.files then s
      else if statOk && Remembered(s, path).Some? then s
      else s.(readers := s.readers[thread := Stated(path, if statOk then Some(s.files[path].stat) else None)])
    case Load(thread) =>
      if thread !in s.readers || !s.readers[thread].Stated? then s
      else
        var r := s.readers[thread];
        if r.path !in s.files then s.(readers := s.readers - {thread})
        else s.(readers := s.readers[thread := Loaded(r.path, r.stat, s.files[r.path].content)])
    case Store(thread) =>
      if thread !in s.readers || !s.readers[thread].Loaded? then s
      else
        var r := s.readers[thread];
        var left := s.(readers := s.readers - {thread});
        if r.stat.None? then left
        else left.(index := s.index[r.path := Entry(r.stat.value, hash(r.path, r.content))], dirty := true)
    case Flush => if s.dirty then s.(saved := s.index, dirty := false) else s
    case Restart(readable) => s.(index := if readable then s.saved else map[], dirty := false, readers := map[])
  }

  // ---- what keeps the fast path right ----

  /** A digest remembered for a stat is the full hash, if the file still has that stat. */
  ghost predicate Matches<P, C, D>(files: map<P, File<C>>, hash: (P, C) -> D, path: P, stat: Stat, digest: D) {
    path in files && files[path].stat == stat ==> digest == hash(path, files[path].content)
  }

  ghost predicate Trusted<P(!new), C, D>(files: map<P, File<C>>, hash: (P, C) -> D, index: map<P, Entry<D>>) {
    forall p :: p in index ==> Matches(files, hash, p, index[p].stat, index[p].digest)
  }

  ghost predicate ReaderTrusted<P, C, D>(files: map<P, File<C>>, hash: (P, C) -> D, r: Reader<P, C>) {
    r.Loaded? && r.stat.Some? ==> Matches(files, hash, r.path, r.stat.value, hash(r.path, r.content))
  }

  /** Everything remembered, saved or about to be stored is right for the stat it goes with. */
  ghost predicate Sound<P(!new), C, D>(s: State<P, C, D>, hash: (P, C) -> D) {
    && Trusted(s.files, hash, s.index)
    && Trusted(s.files, hash, s.saved)
    && forall t :: t in s.readers ==> ReaderTrusted(s.files, hash, s.readers[t])
  }

  /** Whenever the fast path answers, it answers with the full hash. */
  ghost predicate FastIsFull<P(!new), C, D>(s: State<P, C, D>, hash: (P, C) -> D) {
    forall p :: p in s.files && Remembered(s, p).Some? ==> Remembered(s, p).value == hash(p, s.files[p].content)
  }

  /** Some digest that goes with the file's new stat is not the digest of its new content. */
  ghost predicate Confusable<P(!new), C, D>(s: State<P, C, D>, hash: (P, C) -> D, path: P, file: File<C>) {
    var files := map[path := file];
    || !(path in s.index ==> Matches(files, hash, path, s.index[path].stat, s.index[path].digest))
    || !(path in s.saved ==> Matches(files, hash, path, s.saved[path].stat, s.saved[path].digest))
    || exists t :: t in s.readers && s.readers[t].path == path && !ReaderTrusted(files, hash, s.readers[t])
  }

  /** Every step but a write keeps soundness, because the stat is taken before the content is read. */
  lemma QuietStepKeepsSound<P(!new), C, D>(s: State<P, C, D>, hash: (P, C) -> D, step: Step<P, C>)
    requires Sound(s, hash) && !step.Write?
    ensures Sound(Next(s, hash, step), hash)
  {
  }

  /** A write keeps soundness exactly when no remembered digest can be mistaken for the new content's. */
  lemma WriteKeepsSoundIff<P(!new), C, D>(s: State<P, C, D>, hash: (P, C) -> D, path: P, file: File<C>)
    requires Sound(s, hash)
    ensures Sound(Next(s, hash, Write(path, file)), hash) <==> !Confusable(s, hash, path, file)
  {
    var t, one := Next(s, hash, Write(path, file)), map[path := file];
    if Confusable(s, hash, path, file) {
      if r :| r in s.readers && s.readers[r].path == path && !ReaderTrusted(one, hash, s.readers[r]) {
        assert !ReaderTrusted(t.files, hash, t.readers[r]);
      } else if !(path in s.index ==> Matches(one, hash, path, s.index[path].stat, s.index[path].digest)) {
        assert !Matches(t.files, hash, path, t.index[path].stat, t.index[path].digest);
      } else {
        assert !Matches(t.files, hash, path, t.saved[path].stat, t.saved[path].digest);
      }
    } else {
      forall r | r in t.readers
        ensures ReaderTrusted(t.files, hash, t.readers[r])
      {
        assert ReaderTrusted(s.files, hash, s.readers[r]);
      }
    }
  }

  function After<P, C, D>(s: State<P, C, D>, hash: (P, C) -> D, steps: seq<Step<P, C>>): State<P, C, D> {
    if steps == [] then s else Next(After(s, hash, steps[..|steps| - 1]), hash, steps[|steps| - 1])
  }

  /** A state is sound exactly when the fast path is right now, after any pending store, and after a restart. */
  lemma SoundIffNeverWrong<P(!new), C, D>(s: State<P, C, D>, hash: (P, C) -> D)
    ensures Sound(s, hash) <==>
            FastIsFull(s, hash) && FastIsFull(Next(s, hash, Restart(true)), hash)
            && forall t :: FastIsFull(Next(s, hash, Store(t)), hash)
  {
    if Sound(s, hash) {
      forall t
        ensures FastIsFull(Next(s, hash, Store(t)), hash)
      {
        QuietStepKeepsSound(s, hash, Store(t));
      }
    } else if !Trusted(s.files, hash, s.index) {
      var p :| p in s.index && !Matches(s.files, hash, p, s.index[p].stat, s.index[p].digest);
      assert Remembered(s, p).Some?;
    } else if !Trusted(s.files, hash, s.saved) {
      var p :| p in s.saved && !Matches(s.files, hash, p, s.saved[p].stat, s.saved[p].digest);
      assert Remembered(Next(s, hash, Restart(true)), p).Some?;
    } else {
      var t :| t in s.readers && !ReaderTrusted(s.files, hash, s.readers[t]);
      assert Remembered(Next(s, hash, Store(t)), s.readers[t].path).Some?;
    }
  }

  // ---- runs in which every write changes the stat ----

  /** The stats that paths have had in a run. */
  ghost function Used<P(!new), C, D>(s: State<P, C, D>, steps: seq<Step<P, C>>): set<(P, Stat)> {
    if steps == [] then set p | p in s.files :: (p, s.files[p].stat)
    else
      var last := steps[|steps| - 1];
      Used(s, steps[..|steps| - 1]) + if last.Write? then {(last.path, last.file.stat)} else {}
  }

  /** Every write gives its file a size and modification time it never had before. */
  ghost predicate AlwaysChanging<P(!new), C, D>(s: State<P, C, D>, steps: seq<Step<P, C>>) {
    steps != [] ==>
      var front, last := steps[..|steps| - 1], steps[|steps| - 1];
      AlwaysChanging(s, front) && (last.Write? ==> (last.path, last.file.stat) !in Used(s, front))
  }

  /** No stat is remembered that its file never had. */
  ghost predicate Known<P(!new), C, D>(s: State<P, C, D>, used: set<(P, Stat)>) {
    && (forall p :: p in s.files ==> (p, s.files[p].stat) in used)
    && (forall p :: p in s.index ==> (p, s.index[p].stat) in used)
    && (forall p :: p in s.saved ==> (p, s.saved[p].stat) in used)
    && (forall t :: t in s.readers && s.readers[t].stat.Some? ==> (s.readers[t].path, s.readers[t].stat.value) in used)
  }

  lemma NextKeepsKnown<P(!new), C, D>(s: State<P, C, D>, hash: (P, C) -> D, step: Step<P, C>, used: set<(P, Stat)>)
    requires Known(s, used)
    ensures Known(Next(s, hash, step), used + if step.Write? then {(step.path, step.file.stat)} else {})
  {
  }

  lemma {:induction false} RunsStaySound<P(!new), C, D>(s: State<P, C, D>, hash: (P, C) -> D, steps: seq<Step<P, C>>)
    requires Initial(s) && AlwaysChanging(s, steps)
    ensures Sound(After(s, hash, steps), hash)
    ensures Known(After(s, hash, steps), Used(s, steps))
  {
    if steps != [] {
      var front, last := steps[..|steps| - 1], steps[|steps| - 1];
      RunsStaySound(s, hash, front);
      var t := After(s, hash, front);
      NextKeepsKnown(t, hash, last, Used(s, front));
      if last.Write? {
        WriteKeepsSoundIff(t, hash, last.path, last.file);
      } else {
        QuietStepKeepsSound(t, hash, last);
      }
    }
  }

  /** Over every interleaving in which writes always change the stat, the fast path is the full hash. */
  lemma FastPathIsFullHash<P(!new), C, D>(s: State<P, C, D>, hash: (P, C) -> D, steps: seq<Step<P, C>>)
    requires Initial(s) && AlwaysChanging(s, steps)
    ensures FastIsFull(After(s, hash, steps), hash)
  {
    RunsStaySound(s, hash, steps);
  }

  /** Giving back an old stat together with its old content is not enough: a thread that saw the old stat
      and read the newer content stores a digest that is wrong from then on. */
  lemma RestoringAFileFoolsTheIndex<P(!new), C, D>(hash: (P, C) -> D, p: P, old_: File<C>, new_: File<C>)
    requires old_.stat != new_.stat && hash(p, old_.content) != hash(p, new_.content)
    ensures var s := State(map[p := old_], map[], false, map[], map[]);
            Initial(s) && !FastIsFull(After(s, hash,
              [Enter(0, p, true), Write(p, new_), Load(0), Write(p, old_), Store(0)]), hash)
  {
    var s: State<P, C, D> := State(map[p := old_], map[], false, map[], map[]);
    var three := [Enter(0, p, true), Write(p, new_), Load(0)];
    ThreeSteps(s, hash, Enter(0, p, true), Write(p, new_), Load(0));
    OneStep(s, hash, three, Write(p, old_));
    OneStep(s, hash, three + [Write(p, old_)], Store(0));
    assert three + [Write(p, old_)] + [Store(0)] == [Enter(0, p, true), Write(p, new_), Load(0), Write(p, old_), Store(0)];
    assert Remembered(After(s, hash, three + [Write(p, old_)] + [Store(0)]), p).Some?;
  }

  // ---- what a process that ends keeps ----

  /** Nothing is remembered in memory alone once the index is no longer marked as changed. */
  ghost predicate Persisted<P(!new), C, D>(s: State<P, C, D>) {
    !s.dirty ==> forall p :: p in s.index ==> p in s.saved && s.saved[p] == s.index[p]
  }

  lemma {:induction false} RunsStayPersisted<P(!new), C, D>(s: State<P, C, D>, hash: (P, C) -> D, steps: seq<Step<P, C>>)
    requires Initial(s)
    ensures Persisted(After(s, hash, steps))
  {
    if steps != [] {
      RunsStayPersisted(s, hash, steps[..|steps| - 1]);
    }
  }

  /** After any run, a flush lets the next process answer from the index wherever this one did, and with the same digest. */
  lemma FlushedSurvivesRestart<P(!new), C, D>(s: State<P, C, D>, hash: (P, C) -> D, steps: seq<Step<P, C>>, path: P)
    requires Initial(s) && Remembered(After(s, hash, steps), path).Some?
    ensures Remembered(After(s, hash, steps + [Flush] + [Restart(true)]), path) == Remembered(After(s, hash, steps), path)
  {
    RunsStayPersisted(s, hash, steps);
    OneStep(s, hash, steps, Flush);
    OneStep(s, hash, steps + [Flush], Restart(true));
  }

  /** A call whose steps nobody interrupts leaves its file remembered: as before if it was, else with the full hash. */
  lemma CallIsRemembered<P(!new), C, D>(s: State<P, C, D>, hash: (P, C) -> D, thread: int, path: P)
    requires thread !in s.readers && path in s.files
    ensures var before, after := Remembered(s, path),
                                 Remembered(After(s, hash, [Enter(thread, path, true), Load(thread), Store(thread)]), path);
            after == if before.Some? then before else Some(hash(path, s.files[path].content))
  {
    ThreeSteps(s, hash, Enter(thread, path, true), Load(thread), Store(thread));
  }

  // ---- one call, without interference ----

  /** The process-wide index. */
  class Cache<P(==,!new), C, D> {
    var index: map<P, Entry<D>>
    var dirty: bool

    constructor (saved: map<P, Entry<D>>)
      ensures index == saved && !dirty
    {
      index, dirty := saved, false;
    }

    /** The digest of a file whose stat, if it could be read, and content are given; they belong together here. */
    method FileHash(hash: (P, C) -> D, path: P, stat: Option<Stat>, content: C, ghost files: map<P, File<C>>)
      returns (digest: D)
      requires path in files && files[path].content == content && (stat.Some? ==> files[path].stat == stat.value)
      modifies this
      ensures Trusted(files, hash, old(index)) ==> digest == hash(path, content) && Trusted(files, hash, index)
      ensures stat.Some? ==> path in index && index[path] == Entry(stat.value, digest)
      ensures index - {path} == old(index) - {path}
      ensures index != old(index) ==> dirty
      ensures old(dirty) ==> dirty
      ensures var s := State(files, old(index), old(dirty), map[], map[]);
              var t := After(s, hash, [Enter(0, path, stat.Some?), Load(0), Store(0)]);
              index == t.index && dirty == t.dirty
    {
      FileHashSteps(State(files, index, dirty, map[], map[]), hash, path, stat);
      if stat.Some? && path in index && index[path].stat == stat.value {
        assert Trusted(files, hash, index) ==> Matches(files, hash, path, stat.value, index[path].digest);
        return index[path].digest;
      }
      digest := hash(path, content);
      if stat.Some? {
        index := index[path := Entry(stat.value, digest)];
        dirty := true;
      }
    }
  }

  lemma FileHashSteps<P(!new), C, D>(s: State<P, C, D>, hash: (P, C) -> D, path: P, stat: Option<Stat>)
    requires path in s.files && (stat.Some? ==> s.files[path].stat == stat.value) && s.readers == map[]
    ensures var t := After(s, hash, [Enter(0, path, stat.Some?), Load(0), Store(0)]);
            var known := stat.Some? && path in s.index && s.index[path].stat == stat.value;
            && t.index == (if stat.Some? && !known
                           then s.index[path := Entry(stat.value, hash(path, s.files[path].content))] else s.index)
            && t.dirty == (s.dirty || (stat.Some? && !known))
  {
    ThreeSteps(s, hash, Enter(0, path, stat.Some?), Load(0), Store(0));
  }

  lemma ThreeSteps<P(!new), C, D>(s: State<P, C, D>, hash: (P, C) -> D, a: Step<P, C>, b: Step<P, C>, c: Step<P, C>)
    ensures After(s, hash, [a, b, c]) == Next(Next(Next(s, hash, a), hash, b), hash, c)
  {
    OneStep(s, hash, [], a);
    OneStep(s, hash, [a], b);
    OneStep(s, hash, [a, b], c);
    assert [] + [a] == [a] && [a] + [b] == [a, b] && [a, b] + [c] == [a, b, c];
  }

  lemma OneStep<P(!new), C, D>(s: State<P, C, D>, hash: (P, C) -> D, steps: seq<Step<P, C>>, a: Step<P, C>)
    ensures After(s, hash, steps + [a]) == Next(After(s, hash, steps), hash, a)
  {
    assert (steps + [a])[..|steps|] == steps;
  }
}

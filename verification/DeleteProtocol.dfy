/** Many threads in `FinalizeChunk`: who loads the deletes, under which lock, and what the others see.
    A run is any schedule of single steps; a step of a blocked thread changes nothing. */
module DeleteProtocol {
  import opened Basics
  import opened DeleteSets

  /** The live delete files of each delete manifest, and the rows of each file. */
  datatype Config = Config(manifests: seq<seq<string>>, content: string -> seq<DeleteRow>)

  /** A chunk to be finalized: the data file it comes from and its row numbers. */
  datatype Chunk = Chunk(file: string, ids: seq<int>)

  /** Where a thread is in FinalizeChunk. `handle` is the reference GetDeletesForFile returned. */
  datatype Thread =
    | Idle
    | Locking(chunk: Chunk)                            // about to take delete_lock
    | Testing(chunk: Chunk)                            // about to compare current_delete_manifest
    | Listing(chunk: Chunk, files: seq<string>)        // in the first loop of ProcessDeletes
    | Scanning(chunk: Chunk, rows: seq<DeleteRow>)     // in ScanDeleteFile, with these rows to go
    | Looking(chunk: Chunk)                            // about to call GetDeletesForFile
    | Unlocking(chunk: Chunk, handle: Option<string>)  // about to release delete_lock
    | Applying(chunk: Chunk, handle: Option<string>, next: nat, kept: seq<int>)  // in Apply, unlocked
    | Finished(chunk: Chunk, kept: seq<int>)

  type ThreadId = nat

  /** The shared fields, the lock's owner, every thread, and how often ProcessDeletes has returned. */
  datatype State = State(current: nat, sets: Deletes, lock: Option<ThreadId>, threads: map<ThreadId, Thread>, loads: nat)

  function Initial(ids: set<ThreadId>): State {
    State(0, map[], None, map t | t in ids :: Idle, 0)
  }

  function RowsIn(cfg: Config, files: seq<string>): seq<DeleteRow> {
    if files == [] then [] else cfg.content(files[0]) + RowsIn(cfg, files[1..])
  }

  /** The complete map: every row of every live delete file. */
  function Full(cfg: Config): Deletes {
    AddRows(map[], RowsIn(cfg, Flatten(cfg.manifests)))
  }

  /** One step of thread `t`; `chunk` is what it works on next when it has nothing to do. */
  function Step(cfg: Config, s: State, t: ThreadId, chunk: Chunk): State
    requires t in s.threads
  {
    match s.threads[t]
    case Idle => s.(threads := s.threads[t := Locking(chunk)])
    case Finished(_, _) => s.(threads := s.threads[t := Locking(chunk)])
    case Locking(c) =>
      if s.lock.None? then s.(lock := Some(t), threads := s.threads[t := Testing(c)]) else s
    case Testing(c) =>
      s.(threads := s.threads[t := if s.current != |cfg.manifests| then Listing(c, []) else Looking(c)])
    case Listing(c, files) =>
      if s.current < |cfg.manifests| then
        s.(current := s.current + 1, threads := s.threads[t := Listing(c, files + cfg.manifests[s.current])])
      else s.(threads := s.threads[t := Scanning(c, RowsIn(cfg, files))])
    case Scanning(c, rows) =>
      if rows != [] then s.(sets := AddRow(s.sets, rows[0]), threads := s.threads[t := Scanning(c, rows[1..])])
      else s.(loads := s.loads + 1, threads := s.threads[t := Looking(c)])
    case Looking(c) =>
      s.(threads := s.threads[t := Unlocking(c, if Fold(c.file) in s.sets then Some(Fold(c.file)) else None)])
    case Unlocking(c, handle) => s.(lock := None, threads := s.threads[t := Applying(c, handle, 0, [])])
    case Applying(c, handle, next, kept) =>
      if next < |c.ids| then
        var deleted := handle.Some? && c.ids[next] in RowsOf(s.sets, handle.value);
        s.(threads := s.threads[t := Applying(c, handle, next + 1, if deleted then kept else kept + [next])])
      else s.(threads := s.threads[t := Finished(c, kept)])
  }

  datatype Turn = Turn(thread: ThreadId, chunk: Chunk)

  /** Any interleaving whatever. */
  function Run(cfg: Config, s: State, schedule: seq<Turn>): (s': State)
    requires forall turn | turn in schedule :: turn.thread in s.threads
    ensures s'.threads.Keys == s.threads.Keys
    decreases schedule
  {
    if schedule == [] then s else Run(cfg, Step(cfg, s, schedule[0].thread, schedule[0].chunk), schedule[1..])
  }

  // ----- the invariant -----------------------------------------------------------------------------

  predicate InCritical(thread: Thread) {
    thread.Testing? || thread.Listing? || thread.Scanning? || thread.Looking? || thread.Unlocking?
  }

  predicate NotBegun(cfg: Config, s: State) {
    s.current == 0 < |cfg.manifests| && s.sets == map[] && s.loads == 0
  }

  predicate Loaded(cfg: Config, s: State) {
    s.current == |cfg.manifests| && s.sets == Full(cfg) && s.loads == if cfg.manifests == [] then 0 else 1
  }

  /** The rows of a chunk that should be kept, by index. */
  function Kept(cfg: Config, c: Chunk, n: nat): seq<int>
    requires n <= |c.ids|
  {
    Surviving(Positions(0, n), c.ids[..n], RowsOf(Full(cfg), Fold(c.file)))
  }

  function HandleOf(cfg: Config, c: Chunk): Option<string> {
    if Fold(c.file) in Full(cfg) then Some(Fold(c.file)) else None
  }

  predicate ThreadOk(cfg: Config, s: State, thread: Thread) {
    match thread
    case Idle => true
    case Locking(_) => true
    case Testing(_) => NotBegun(cfg, s) || Loaded(cfg, s)
    case Listing(_, files) =>
      && s.current <= |cfg.manifests| && cfg.manifests != [] && s.sets == map[] && s.loads == 0
      && files == Flatten(cfg.manifests[..s.current])
    case Scanning(_, rows) =>
      && s.current == |cfg.manifests| && cfg.manifests != [] && s.loads == 0
      && AddRows(s.sets, rows) == Full(cfg)
    case Looking(_) => Loaded(cfg, s)
    case Unlocking(c, handle) => Loaded(cfg, s) && handle == HandleOf(cfg, c)
    case Applying(c, handle, next, kept) =>
      Loaded(cfg, s) && handle == HandleOf(cfg, c) && next <= |c.ids| && kept == Kept(cfg, c, next)
    case Finished(c, kept) => Loaded(cfg, s) && kept == Kept(cfg, c, |c.ids|)
  }

  ghost predicate Inv(cfg: Config, s: State) {
    && (forall t | t in s.threads :: InCritical(s.threads[t]) <==> s.lock == Some(t))
    && (forall t | t in s.threads :: ThreadOk(cfg, s, s.threads[t]))
    && (s.lock.Some? ==> s.lock.value in s.threads)
    && (s.lock.None? ==> NotBegun(cfg, s) || Loaded(cfg, s))
  }

  lemma InitialInv(cfg: Config, ids: set<ThreadId>)
    ensures Inv(cfg, Initial(ids))
  {
    if cfg.manifests == [] {
      assert Full(cfg) == map[];
    }
  }

  lemma KeptSnoc(cfg: Config, c: Chunk, n: nat)
    requires n < |c.ids|
    ensures Kept(cfg, c, n + 1) == Kept(cfg, c, n) + if c.ids[n] in RowsOf(Full(cfg), Fold(c.file)) then [] else [n]
  {
    hide Full;
    var deleted := RowsOf(Full(cfg), Fold(c.file));
    TakeSnoc(c.ids, n);
    assert Positions(0, n + 1) == Positions(0, n) + [n];
    SurvivingConcat(Positions(0, n), c.ids[..n], [n], [c.ids[n]], deleted);
    assert Surviving([n], [c.ids[n]], deleted) == if c.ids[n] in deleted then [] else [n];
  }

  /** The stepping thread's own claim holds after its step. */
  lemma StepOwn(cfg: Config, s: State, t: ThreadId, chunk: Chunk)
    requires Inv(cfg, s) && t in s.threads
    ensures var s' := Step(cfg, s, t, chunk); ThreadOk(cfg, s', s'.threads[t])
  {
    hide Full, Kept;
    match s.threads[t]
    case Idle =>
    case Finished(_, _) =>
    case Locking(_) =>
    case Testing(_) =>
    case Listing(_, files) =>
      if s.current < |cfg.manifests| {
        TakeSnoc(cfg.manifests, s.current);
        FlattenSnoc(cfg.manifests[..s.current], cfg.manifests[s.current]);
      } else {
        assert cfg.manifests[..s.current] == cfg.manifests;
        FullIs(cfg);
      }
    case Scanning(_, rows) =>
    case Looking(_) =>
    case Unlocking(c, _) => KeptNone(cfg, c);
    case Applying(c, handle, next, _) =>
      if next < |c.ids| {
        KeptSnoc(cfg, c, next);
      }
  }

  lemma KeptNone(cfg: Config, c: Chunk)
    ensures Kept(cfg, c, 0) == []
  {
  }

  lemma FullIs(cfg: Config)
    ensures AddRows(map[], RowsIn(cfg, Flatten(cfg.manifests))) == Full(cfg)
  {
  }

  /** Only a thread inside ProcessDeletes changes shared fields, and then no other thread has been
      handed anything yet; so every other thread's claim survives. */
  lemma StepOther(cfg: Config, s: State, t: ThreadId, chunk: Chunk, u: ThreadId)
    requires Inv(cfg, s) && t in s.threads && u in s.threads && u != t
    ensures ThreadOk(cfg, Step(cfg, s, t, chunk), s.threads[u])
  {
    hide Full, Kept;
  }

  /** Every step of every thread keeps the invariant. */
  lemma StepInv(cfg: Config, s: State, t: ThreadId, chunk: Chunk)
    requires Inv(cfg, s) && t in s.threads
    ensures Inv(cfg, Step(cfg, s, t, chunk))
  {
    hide Full, Kept;
    var s' := Step(cfg, s, t, chunk);
    StepOwn(cfg, s, t, chunk);
    forall u | u in s'.threads && u != t ensures ThreadOk(cfg, s', s'.threads[u]) {
      StepOther(cfg, s, t, chunk, u);
    }
  }

  lemma {:induction false} RunInv(cfg: Config, s: State, schedule: seq<Turn>)
    requires Inv(cfg, s) && forall turn | turn in schedule :: turn.thread in s.threads
    ensures Inv(cfg, Run(cfg, s, schedule))
    decreases schedule
  {
    if schedule != [] {
      StepInv(cfg, s, schedule[0].thread, schedule[0].chunk);
      RunInv(cfg, Step(cfg, s, schedule[0].thread, schedule[0].chunk), schedule[1..]);
    }
  }

  // ----- what follows for whole runs -------------------------------------------------------------

  predicate HandedOut(thread: Thread) {
    thread.Unlocking? || thread.Applying? || thread.Finished?
  }

  /** The row numbers that the delete files name for a data file. */
  function Named(cfg: Config, file: string): set<int> {
    DeletedRows(RowsIn(cfg, Flatten(cfg.manifests)), file)
  }

  /** In every interleaving ProcessDeletes returns at most once, and what any thread keeps of a chunk
      is what the rows of all delete files leave of it. */
  lemma RunSafe(cfg: Config, ids: set<ThreadId>, schedule: seq<Turn>, t: ThreadId)
    requires forall turn | turn in schedule :: turn.thread in ids
    requires t in ids
    ensures var s := Run(cfg, Initial(ids), schedule);
            && s.loads <= 1
            && (HandedOut(s.threads[t]) ==> s.sets == Full(cfg))
            && (s.threads[t].Finished? ==>
                  var c := s.threads[t].chunk;
                  s.threads[t].kept == Surviving(Positions(0, |c.ids|), c.ids, Named(cfg, c.file)))
  {
    hide Run, Surviving, DeletedRows, AddRows;
    InitialInv(cfg, ids);
    RunInv(cfg, Initial(ids), schedule);
    var s := Run(cfg, Initial(ids), schedule);
    assert ThreadOk(cfg, s, s.threads[t]);
    LoadsAtMostOnce(cfg, s);
    if s.threads[t].Finished? {
      var c := s.threads[t].chunk;
      assert c.ids[..|c.ids|] == c.ids;
      LookupIsDeletedRows(RowsIn(cfg, Flatten(cfg.manifests)), c.file);
    }
  }

  lemma LoadsAtMostOnce(cfg: Config, s: State)
    requires Inv(cfg, s)
    ensures s.loads <= 1
  {
    if s.lock.Some? {
      assert ThreadOk(cfg, s, s.threads[s.lock.value]);
    }
  }

  lemma StepKeepsLoaded(cfg: Config, s: State, t: ThreadId, chunk: Chunk)
    requires Inv(cfg, s) && Loaded(cfg, s) && t in s.threads
    ensures Loaded(cfg, Step(cfg, s, t, chunk))
  {
    hide Full, Kept;
    assert ThreadOk(cfg, s, s.threads[t]);
  }

  lemma {:induction false} RunKeepsLoaded(cfg: Config, s: State, schedule: seq<Turn>)
    requires Inv(cfg, s) && Loaded(cfg, s) && forall turn | turn in schedule :: turn.thread in s.threads
    ensures Loaded(cfg, Run(cfg, s, schedule))
    decreases schedule
  {
    hide Inv, Loaded;
    if schedule != [] {
      StepKeepsLoaded(cfg, s, schedule[0].thread, schedule[0].chunk);
      StepInv(cfg, s, schedule[0].thread, schedule[0].chunk);
      RunKeepsLoaded(cfg, Step(cfg, s, schedule[0].thread, schedule[0].chunk), schedule[1..]);
    }
  }

  /** Once any set has been handed out, no set ever changes again, whatever runs afterwards: applying
      it outside the lock is safe. */
  lemma HandedOutIsFinal(cfg: Config, ids: set<ThreadId>, before: seq<Turn>, after: seq<Turn>, t: ThreadId)
    requires forall turn | turn in before + after :: turn.thread in ids
    requires t in ids
    ensures forall turn | turn in before :: turn.thread in ids
    ensures forall turn | turn in after :: turn.thread in ids
    ensures var s := Run(cfg, Initial(ids), before);
            HandedOut(s.threads[t]) ==> Run(cfg, s, after).sets == s.sets && Run(cfg, s, after).loads == s.loads
  {
    hide Run, Full;
    forall turn | turn in before ensures turn.thread in ids { assert turn in before + after; }
    forall turn | turn in after ensures turn.thread in ids { assert turn in before + after; }
    InitialInv(cfg, ids);
    RunInv(cfg, Initial(ids), before);
    var s := Run(cfg, Initial(ids), before);
    assert ThreadOk(cfg, s, s.threads[t]);
    if HandedOut(s.threads[t]) {
      RunKeepsLoaded(cfg, s, after);
    }
  }

  /** Steps the owner of the lock still has to take before it releases the lock. */
  function StepsToRelease(cfg: Config, s: State, thread: Thread): nat {
    match thread
    case Testing(_) =>
      if s.current < |cfg.manifests| then |cfg.manifests| - s.current + |RowsIn(cfg, Flatten(cfg.manifests))| + 6 else 3
    case Listing(_, _) => Max(|cfg.manifests| - s.current, 0) + |RowsIn(cfg, Flatten(cfg.manifests))| + 5
    case Scanning(_, rows) => |rows| + 3
    case Looking(_) => 2
    case Unlocking(_, _) => 1
    case _ => 0
  }

  function Max(a: int, b: int): int {
    if a >= b then a else b
  }

  /** The lock is always released: each step of its owner brings the release nearer. */
  lemma OwnerProgress(cfg: Config, s: State, t: ThreadId, chunk: Chunk)
    requires Inv(cfg, s) && s.lock == Some(t) && t in s.threads
    ensures var s' := Step(cfg, s, t, chunk);
            StepsToRelease(cfg, s', s'.threads[t]) < StepsToRelease(cfg, s, s.threads[t])
    ensures StepsToRelease(cfg, s, s.threads[t]) > 0
  {
    assert ThreadOk(cfg, s, s.threads[t]);
    if s.threads[t].Listing? && s.current >= |cfg.manifests| {
      assert cfg.manifests[..s.current] == cfg.manifests;
    }
  }

  // ----- every thread finishes ---------------------------------------------------------------------------

  predicate AtWork(thread: Thread) {
    !thread.Idle? && !thread.Finished?
  }

  predicate Blocked(s: State, t: ThreadId)
    requires t in s.threads
  {
    s.threads[t].Locking? && s.lock.Some?
  }

  /** Steps a thread may still have to take for its chunk. */
  function Work(cfg: Config, s: State, thread: Thread): nat {
    match thread
    case Idle => 0
    case Finished(_, _) => 0
    case Locking(c) => |cfg.manifests| + |RowsIn(cfg, Flatten(cfg.manifests))| + |c.ids| + 8
    case Applying(c, _, next, _) => Max(|c.ids| - next, 0) + 1
    case _ => StepsToRelease(cfg, s, thread) + |thread.chunk.ids| + 1
  }

  /** A turn of a thread, which rests once its chunk is finished. */
  function Serve(cfg: Config, s: State, t: ThreadId): (s': State)
    requires t in s.threads
    ensures s'.threads.Keys == s.threads.Keys
  {
    if AtWork(s.threads[t]) then Step(cfg, s, t, s.threads[t].chunk) else s
  }

  /** Turns of threads, in this order. */
  function ServeAll(cfg: Config, s: State, turns: seq<ThreadId>): (s': State)
    requires forall t | t in turns :: t in s.threads
    ensures s'.threads.Keys == s.threads.Keys
    decreases turns
  {
    if turns == [] then s else ServeAll(cfg, Serve(cfg, s, turns[0]), turns[1..])
  }

  /** Rounds of turns. */
  function ServeRounds(cfg: Config, s: State, rounds: seq<seq<ThreadId>>): (s': State)
    requires forall round, t | round in rounds && t in round :: t in s.threads
    ensures s'.threads.Keys == s.threads.Keys
    decreases rounds
  {
    if rounds == [] then s else ServeRounds(cfg, ServeAll(cfg, s, rounds[0]), rounds[1..])
  }

  function TotalWork(cfg: Config, s: State, all: seq<ThreadId>): nat
    requires forall t | t in all :: t in s.threads
  {
    if all == [] then 0 else Work(cfg, s, s.threads[all[0]]) + TotalWork(cfg, s, all[1..])
  }

  /** A turn changes nothing, or it lowers the thread's own work and no other thread's. */
  lemma ServeLowers(cfg: Config, s: State, t: ThreadId)
    requires Inv(cfg, s) && t in s.threads
    ensures var s' := Serve(cfg, s, t);
            && Inv(cfg, s')
            && (forall u | u in s.threads :: s'.threads[u].Idle? <==> s.threads[u].Idle?)
            && (if AtWork(s.threads[t]) && !Blocked(s, t) then Work(cfg, s', s'.threads[t]) < Work(cfg, s, s.threads[t])
                else s' == s)
            && forall u | u in s.threads && u != t :: Work(cfg, s', s'.threads[u]) == Work(cfg, s, s.threads[u])
  {
    hide Inv, Work;
    if AtWork(s.threads[t]) {
      hide ThreadOk;
      StepInv(cfg, s, t, s.threads[t].chunk);
      OwnWorkFalls(cfg, s, t, s.threads[t].chunk);
      forall u | u in s.threads && u != t
        ensures Work(cfg, Step(cfg, s, t, s.threads[t].chunk), s.threads[u]) == Work(cfg, s, s.threads[u])
      {
        OtherWorkStays(cfg, s, t, s.threads[t].chunk, u);
      }
    }
  }

  lemma OwnWorkFalls(cfg: Config, s: State, t: ThreadId, chunk: Chunk)
    requires Inv(cfg, s) && t in s.threads && AtWork(s.threads[t])
    ensures var s' := Step(cfg, s, t, chunk);
            if Blocked(s, t) then s' == s else Work(cfg, s', s'.threads[t]) < Work(cfg, s, s.threads[t])
  {
    hide Full, Kept;
    assert ThreadOk(cfg, s, s.threads[t]);
    if s.lock == Some(t) {
      hide StepsToRelease;
      OwnerProgress(cfg, s, t, chunk);
    }
  }

  lemma OtherWorkStays(cfg: Config, s: State, t: ThreadId, chunk: Chunk, u: ThreadId)
    requires Inv(cfg, s) && t in s.threads && u in s.threads && t != u
    ensures Work(cfg, Step(cfg, s, t, chunk), s.threads[u]) == Work(cfg, s, s.threads[u])
  {
    hide ThreadOk, Full, Kept;
  }

  lemma {:induction false} ServeTotal(cfg: Config, s: State, t: ThreadId, all: seq<ThreadId>)
    requires Inv(cfg, s) && t in s.threads && forall u | u in all :: u in s.threads
    ensures var s' := Serve(cfg, s, t);
            && TotalWork(cfg, s', all) <= TotalWork(cfg, s, all)
            && (t in all && AtWork(s.threads[t]) && !Blocked(s, t) ==> TotalWork(cfg, s', all) < TotalWork(cfg, s, all))
    decreases all
  {
    hide Inv, Work, Serve, Blocked;
    if all != [] {
      ServeLowers(cfg, s, t);
      ServeTotal(cfg, s, t, all[1..]);
    }
  }

  /** A round with a turn for a thread that can move lowers the total. */
  lemma {:induction false} RoundLowers(cfg: Config, s: State, turns: seq<ThreadId>, all: seq<ThreadId>)
    requires Inv(cfg, s) && forall t | t in turns :: t in all
    requires forall t | t in all :: t in s.threads
    ensures var s' := ServeAll(cfg, s, turns);
            && Inv(cfg, s')
            && (forall t | t in s.threads :: s'.threads[t].Idle? <==> s.threads[t].Idle?)
            && TotalWork(cfg, s', all) <= TotalWork(cfg, s, all)
            && ((exists t :: t in turns && AtWork(s.threads[t]) && !Blocked(s, t)) ==>
                  TotalWork(cfg, s', all) < TotalWork(cfg, s, all))
    decreases turns
  {
    hide Inv, Work, Serve, TotalWork;
    if turns != [] {
      ServeLowers(cfg, s, turns[0]);
      ServeTotal(cfg, s, turns[0], all);
      RoundLowers(cfg, Serve(cfg, s, turns[0]), turns[1..], all);
      assert forall t :: t in turns <==> t == turns[0] || t in turns[1..];
    }
  }

  /** There is no deadlock: if any thread is at work, one can move. */
  lemma SomeoneMoves(cfg: Config, s: State, t: ThreadId) returns (mover: ThreadId)
    requires Inv(cfg, s) && t in s.threads && AtWork(s.threads[t])
    ensures mover in s.threads && AtWork(s.threads[mover]) && !Blocked(s, mover)
  {
    mover := if s.lock.Some? then s.lock.value else t;
  }

  lemma {:induction false} WorkedOff(cfg: Config, s: State, all: seq<ThreadId>, t: ThreadId)
    requires forall u | u in all :: u in s.threads
    requires t in all && AtWork(s.threads[t]) && Inv(cfg, s)
    ensures TotalWork(cfg, s, all) > 0
    decreases all
  {
    if t != all[0] {
      WorkedOff(cfg, s, all[1..], t);
    } else {
      assert ThreadOk(cfg, s, s.threads[t]);
    }
  }

  /** Every thread finishes: under any schedule whose rounds give every thread a turn, in any order and as
      often as it likes, no more rounds are needed than there is work; and what each thread then keeps
      is what the complete deletes leave (`Inv`). */
  lemma {:induction false} EveryoneFinishes(cfg: Config, s: State, rounds: seq<seq<ThreadId>>, all: seq<ThreadId>)
    requires Inv(cfg, s) && forall t :: t in all <==> t in s.threads
    requires forall round, t | round in rounds :: t in round <==> t in s.threads
    requires |rounds| >= TotalWork(cfg, s, all)
    ensures var s' := ServeRounds(cfg, s, rounds);
            && Inv(cfg, s')
            && forall t | t in s.threads :: if s.threads[t].Idle? then s'.threads[t].Idle? else s'.threads[t].Finished?
    decreases rounds
  {
    hide Inv, TotalWork, Blocked;
    if rounds == [] {
      forall t | t in s.threads ensures !AtWork(s.threads[t]) {
        if AtWork(s.threads[t]) {
          WorkedOff(cfg, s, all, t);
        }
      }
    } else {
      var s' := ServeAll(cfg, s, rounds[0]);
      assert rounds[0] in rounds;
      RoundLowers(cfg, s, rounds[0], all);
      if t :| t in s.threads && AtWork(s.threads[t]) {
        var mover := SomeoneMoves(cfg, s, t);
        assert mover in rounds[0];
      } else {
        NoWork(cfg, s, all);
      }
      EveryoneFinishes(cfg, s', rounds[1..], all);
    }
  }

  lemma {:induction false} NoWork(cfg: Config, s: State, all: seq<ThreadId>)
    requires forall t | t in all :: t in s.threads && !AtWork(s.threads[t])
    ensures TotalWork(cfg, s, all) == 0
  {
    if all != [] {
      NoWork(cfg, s, all[1..]);
    }
  }

  /** Why the comparison of `current_delete_manifest` must be made under the lock: the iterator reaches
      the end before any delete has been stored. */
  lemma TestAloneIsNotEnough(cfg: Config, t: ThreadId, chunk: Chunk)
    requires |cfg.manifests| == 1 && RowsIn(cfg, cfg.manifests[0]) != []
    ensures var s := Run(cfg, Initial({t}), [Turn(t, chunk), Turn(t, chunk), Turn(t, chunk), Turn(t, chunk)]);
            s.current == |cfg.manifests| && s.sets == map[] != Full(cfg)
  {
    var turn := Turn(t, chunk);
    var s0 := Initial({t});
    var s1 := Step(cfg, s0, t, chunk);
    var s2 := Step(cfg, s1, t, chunk);
    var s3 := Step(cfg, s2, t, chunk);
    var s4 := Step(cfg, s3, t, chunk);
    assert Run(cfg, s4, []) == s4;
    assert Run(cfg, s3, [turn]) == s4 by { assert [turn][1..] == []; }
    assert Run(cfg, s2, [turn, turn]) == s4 by { assert [turn, turn][1..] == [turn]; }
    assert Run(cfg, s1, [turn, turn, turn]) == s4 by { assert [turn, turn, turn][1..] == [turn, turn]; }
    assert Run(cfg, s0, [turn, turn, turn, turn]) == s4 by { assert [turn, turn, turn, turn][1..] == [turn, turn, turn]; }
    var rows := RowsIn(cfg, cfg.manifests[0]);
    assert Flatten(cfg.manifests) == cfg.manifests[0] by {
      assert cfg.manifests[1..] == [];
      ConcatNil(cfg.manifests[0]);
    }
    AddRowsMeaning(map[], rows, Fold(rows[0].path));
    assert Mentioned(rows, Fold(rows[0].path));
  }
}

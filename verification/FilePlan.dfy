/** How `IcebergMultiFileList` expands its data files on demand, as a function of its state. */
module FilePlan {
  import opened Basics
  import opened Manifests
  import opened ReadCursor

  /** What opening a manifest gives: its chunks, or nothing when its path is not recognised. */
  type Source = Option<Chunks<EntryRow>>

  /** What does not change while files are listed: the advance, the entry producer, the data
      manifests as they open, and how a stored path is resolved. */
  datatype Setup = Setup(adv: Advance, f: EntryRow -> Option<Entry>, sources: seq<Source>,
                         resolve: string -> Result<string, Error>)

  /** `data_files`, whether a manifest is being read and how far, and `current_data_manifest`. */
  datatype Planner = Planner(files: seq<Entry>, open: bool, cursor: Cursor<EntryRow>, next: nat) {
    predicate Fits(s: Setup) {
      && next <= |s.sources|
      && (if open then next < |s.sources| else cursor == Cursor([], []))
    }
  }

  const INITIAL: Planner := Planner([], false, Cursor([], []), 0)

  /** The live entries of the manifests in order, up to one that cannot be opened. */
  function Remaining(f: EntryRow -> Option<Entry>, sources: seq<Source>): seq<Entry> {
    if sources == [] || sources[0].None? then []
    else Produce(f, Flatten(sources[0].value)) + Remaining(f, sources[1..])
  }

  predicate AllOpen(sources: seq<Source>) {
    forall i | 0 <= i < |sources| :: sources[i].Some?
  }

  /** The entries still to come. */
  function Pending(s: Setup, p: Planner): seq<Entry>
    requires p.Fits(s)
  {
    if p.open then Produce(s.f, Unread(p.cursor)) + Remaining(s.f, s.sources[p.next + 1..])
    else Remaining(s.f, s.sources[p.next..])
  }

  /** Everything the planner will ever list. */
  function Total(s: Setup, p: Planner): seq<Entry>
    requires p.Fits(s)
  {
    p.files + Pending(s, p)
  }

  predicate CanRead(s: Setup, p: Planner, fileId: nat)
    requires p.Fits(s)
  {
    fileId >= |p.files| && (p.open || (p.next < |s.sources| && s.sources[p.next].Some?))
  }

  function CursorOf(s: Setup, p: Planner): Cursor<EntryRow>
    requires p.Fits(s) && (p.open || (p.next < |s.sources| && s.sources[p.next].Some?))
  {
    if p.open then p.cursor else AtStart(s.sources[p.next].value)
  }

  /** One iteration of the loop in GetFile: open the next manifest if needed, then read. */
  function ReadMore(s: Setup, p: Planner, fileId: nat): (p': Planner)
    requires p.Fits(s) && CanRead(s, p, fileId)
    ensures p'.Fits(s)
    ensures p'.open ==> p'.next == p.next && |p'.files| == fileId + 1
    ensures !p'.open ==> p'.next == p.next + 1 && |p'.files| <= fileId
  {
    var o := ReadFrom(s.adv, s.f, CursorOf(s, p), fileId + 1 - |p.files|, 0);
    DeliveredCount(s.adv, s.f, CursorOf(s, p), fileId + 1 - |p.files|, 0, o);
    Planner(p.files + o.delivered, !o.finished, o.cursor, p.next + if o.finished then 1 else 0)
  }

  /** The loop in GetFile: read until `fileId` is listed, the manifests run out, or one cannot be opened. */
  function Expand(s: Setup, p: Planner, fileId: nat): (p': Planner)
    requires p.Fits(s)
    ensures p'.Fits(s)
    decreases |s.sources| - p.next, if fileId < |p.files| then 0 else 1
  {
    if CanRead(s, p, fileId) then Expand(s, ReadMore(s, p, fileId), fileId) else p
  }

  /** GetFile throws while expanding: it stopped at a manifest it cannot open. */
  predicate Stuck(s: Setup, p: Planner, fileId: nat)
    requires p.Fits(s)
  {
    fileId >= |p.files| && !p.open && p.next < |s.sources|
  }

  // ----- no entry is ever invented; when none is lost ---------------------------------------------

  lemma RemainingStep(s: Setup, p: Planner)
    requires p.Fits(s) && (p.open || (p.next < |s.sources| && s.sources[p.next].Some?))
    ensures Pending(s, p) == Produce(s.f, Unread(CursorOf(s, p))) + Remaining(s.f, s.sources[p.next + 1..])
  {
    if !p.open {
      assert s.sources[p.next..][1..] == s.sources[p.next + 1..];
      ConcatNil(Flatten(s.sources[p.next].value));
    }
  }

  /** One read moves entries from pending to listed; the total shrinks exactly by what is jumped over. */
  lemma ReadMoreTotal(s: Setup, p: Planner, fileId: nat)
    requires p.Fits(s) && CanRead(s, p, fileId)
    ensures var o := ReadFrom(s.adv, s.f, CursorOf(s, p), fileId + 1 - |p.files|, 0);
            var p' := ReadMore(s, p, fileId);
            && p.files <= p'.files
            && |Total(s, p')| + |Produce(s.f, o.dropped)| == |Total(s, p)|
            && (Total(s, p') == Total(s, p) <==> Produce(s.f, o.dropped) == [])
  {
    hide ReadFrom, Produce, Unread, Remaining;
    var c, count := CursorOf(s, p), fileId + 1 - |p.files|;
    var o, p' := ReadFrom(s.adv, s.f, c, count, 0), ReadMore(s, p, fileId);
    var rest := Remaining(s.f, s.sources[p.next + 1..]);
    ReadAccounted(s.adv, s.f, c, count, 0, o);
    DeliveredCount(s.adv, s.f, c, count, 0, o);
    RemainingStep(s, p);
    assert Pending(s, p') == Produce(s.f, Unread(o.cursor)) + rest by {
      if o.finished {
        NothingUnread(s.f);
        ConcatNil(rest);
      }
    }
    TotalMoves(p.files, Produce(s.f, Unread(c)), o.delivered, Produce(s.f, Unread(o.cursor)), rest);
  }

  lemma NothingUnread(f: EntryRow -> Option<Entry>)
    ensures Produce(f, Unread(Cursor([], []))) == []
  {
    ConcatNil<EntryRow>([]);
  }

  lemma TotalMoves<T>(files: seq<T>, before: seq<T>, delivered: seq<T>, left: seq<T>, rest: seq<T>)
    ensures files + delivered + (left + rest) == files + (before + rest) <==> delivered + left == before
  {
    ConcatAssoc(files, delivered, left + rest);
    ConcatAssoc(delivered, left, rest);
    ConcatCancel(files, delivered + left + rest, before + rest);
    if delivered + left + rest == before + rest {
      assert |delivered + left| == |before|;
      assert delivered + left == (delivered + left + rest)[..|before|] == (before + rest)[..|before|] == before;
    }
  }

  /** Whatever the advance, expanding only ever appends to `data_files` and never gains entries. */
  lemma {:induction false} ExpandGrows(s: Setup, p: Planner, fileId: nat)
    requires p.Fits(s)
    ensures var p' := Expand(s, p, fileId);
            && p.files <= p'.files
            && |Total(s, p')| <= |Total(s, p)|
            && !CanRead(s, p', fileId)
            && |p'.files| <= if fileId < |p.files| then |p.files| else fileId + 1
    decreases |s.sources| - p.next, if fileId < |p.files| then 0 else 1
  {
    if CanRead(s, p, fileId) {
      ReadMoreTotal(s, p, fileId);
      ExpandGrows(s, ReadMore(s, p, fileId), fileId);
    }
  }

  /** The calls that lose nothing: any index with the intended advance; with the code's, any index
      that is listed already or is the next one. */
  predicate Safe(s: Setup, p: Planner, fileId: nat) {
    s.adv.Scanned? || fileId <= |p.files|
  }

  lemma ReadMoreKeepsTotal(s: Setup, p: Planner, fileId: nat)
    requires p.Fits(s) && CanRead(s, p, fileId) && Safe(s, p, fileId)
    ensures Total(s, ReadMore(s, p, fileId)) == Total(s, p)
    ensures Safe(s, ReadMore(s, p, fileId), fileId)
  {
    hide Total, Produce, Unread, ReadFrom;
    ReadMoreTotal(s, p, fileId);
    ReadLossless(s.adv, s.f, CursorOf(s, p), fileId + 1 - |p.files|);
    LosslessIff(s.adv, s.f, CursorOf(s, p), fileId + 1 - |p.files|);
  }

  lemma {:induction false} ExpandKeepsTotal(s: Setup, p: Planner, fileId: nat)
    requires p.Fits(s) && Safe(s, p, fileId)
    ensures Total(s, Expand(s, p, fileId)) == Total(s, p)
    decreases |s.sources| - p.next, if fileId < |p.files| then 0 else 1
  {
    if CanRead(s, p, fileId) {
      ReadMoreKeepsTotal(s, p, fileId);
      ExpandKeepsTotal(s, ReadMore(s, p, fileId), fileId);
    }
  }

  /** After a safe call: the file is listed iff it exists, exactly the files up to it are listed, and
      the call got stuck iff it needed a manifest that cannot be opened. */
  lemma ExpandComplete(s: Setup, p: Planner, fileId: nat)
    requires p.Fits(s) && Safe(s, p, fileId)
    ensures var p', total := Expand(s, p, fileId), Total(s, p);
            && p'.files <= total
            && (fileId < |p'.files| <==> fileId < |total|)
            && (fileId >= |total| ==> p'.files == total)
            && (fileId >= |p.files| && fileId < |total| ==> |p'.files| == fileId + 1)
            && (fileId < |p.files| ==> p' == p)
  {
    ExpandGrows(s, p, fileId);
    ExpandKeepsTotal(s, p, fileId);
    var p' := Expand(s, p, fileId);
    if fileId >= |p'.files| {
      assert Pending(s, p') == [];
      ConcatNil(p'.files);
    }
  }

  function Unopened(s: Setup, p: Planner): seq<Source>
    requires p.Fits(s)
  {
    s.sources[if p.open then p.next + 1 else p.next..]
  }

  lemma {:induction false} StuckIff(s: Setup, p: Planner, fileId: nat)
    requires p.Fits(s) && Safe(s, p, fileId)
    ensures Stuck(s, Expand(s, p, fileId), fileId) <==> fileId >= |Total(s, p)| && !AllOpen(Unopened(s, p))
    decreases |s.sources| - p.next, if fileId < |p.files| then 0 else 1
  {
    hide Total, Pending, ReadMore, AllOpen;
    if CanRead(s, p, fileId) {
      ReadMoreKeepsTotal(s, p, fileId);
      StuckIff(s, ReadMore(s, p, fileId), fileId);
      ReadMoreUnopened(s, p, fileId);
    } else {
      StuckNow(s, p, fileId);
    }
  }

  lemma ReadMoreUnopened(s: Setup, p: Planner, fileId: nat)
    requires p.Fits(s) && CanRead(s, p, fileId)
    ensures AllOpen(Unopened(s, ReadMore(s, p, fileId))) <==> AllOpen(Unopened(s, p))
  {
    if !p.open {
      OpenFirst(s.sources, p.next);
    }
  }

  lemma StuckNow(s: Setup, p: Planner, fileId: nat)
    requires p.Fits(s) && !CanRead(s, p, fileId)
    ensures Stuck(s, p, fileId) <==> fileId >= |Total(s, p)| && !AllOpen(Unopened(s, p))
  {
    if fileId >= |p.files| {
      assert Pending(s, p) == [];
      if p.next < |s.sources| {
        assert Unopened(s, p)[0].None?;
      }
    }
  }

  lemma OpenFirst(sources: seq<Source>, next: nat)
    requires next < |sources| && sources[next].Some?
    ensures AllOpen(sources[next..]) <==> AllOpen(sources[next + 1..])
  {
    assert sources[next..] == [sources[next]] + sources[next + 1..];
  }

  // ----- the three calls, in any order -----------------------------------------------------------

  /** What GetFile returns once it has expanded to `p`. */
  function Answer(s: Setup, p: Planner, fileId: nat): Result<string, Error>
    requires p.Fits(s)
  {
    if Stuck(s, p, fileId) then Failure(UnrecognisedPath)
    else if fileId >= |p.files| then Success("")
    else s.resolve(p.files[fileId].filePath)
  }

  /** GetFile(i) answers from the whole list: its i-th path, or empty past the end. */
  lemma GetFileAnswer(s: Setup, p: Planner, fileId: nat)
    requires p.Fits(s) && Safe(s, p, fileId)
    ensures var total := Total(s, p);
            Answer(s, Expand(s, p, fileId), fileId) ==
            if fileId < |total| then s.resolve(total[fileId].filePath)
            else if AllOpen(Unopened(s, p)) then Success("")
            else Failure(UnrecognisedPath)
  {
    hide Total, Expand, AllOpen, Unopened;
    ExpandComplete(s, p, fileId);
    StuckIff(s, p, fileId);
  }

  lemma CountStep(s: Setup, p: Planner)
    requires p.Fits(s)
    ensures var p' := Expand(s, p, |p.files|);
            && Total(s, p') == Total(s, p)
            && p.files <= p'.files
            && (if Pending(s, p) == [] then p'.files == p.files else |p'.files| == |p.files| + 1)
            && (Pending(s, p) != [] ==> |Pending(s, p')| < |Pending(s, p)|)
  {
    ExpandGrows(s, p, |p.files|);
    ExpandComplete(s, p, |p.files|);
    ExpandKeepsTotal(s, p, |p.files|);
  }

  /** GetTotalFileCount: ask for the next file until the answer is empty. */
  function CountUp(s: Setup, p: Planner): (r: (Planner, Result<nat, Error>))
    requires p.Fits(s)
    ensures r.0.Fits(s)
    decreases |Pending(s, p)|
  {
    var p' := Expand(s, p, |p.files|);
    match Answer(s, p', |p.files|)
    case Failure(error) => (p', Failure(error))
    case Success(path) =>
      if path == "" then (p', Success(|p'.files|))
      else
        CountStep(s, p);
        CountUp(s, p')
  }

  predicate PathsResolve(s: Setup, entries: seq<Entry>) {
    forall i | 0 <= i < |entries| :: s.resolve(entries[i].filePath).Success?
  }

  /** An empty path is not told apart from the end of the list. */
  predicate NoneEmpty(s: Setup, entries: seq<Entry>) {
    forall i | 0 <= i < |entries| :: s.resolve(entries[i].filePath) != Success("")
  }

  /** GetTotalFileCount returns the number of live entries exactly when no entry before the last one
      still pending has an empty path. */
  lemma {:induction false} CountExactIff(s: Setup, p: Planner)
    requires p.Fits(s) && AllOpen(Unopened(s, p)) && PathsResolve(s, Pending(s, p))
    ensures var r, pending := CountUp(s, p).1, Pending(s, p);
            && r.Success?
            && (r.value == |Total(s, p)| <==> pending == [] || NoneEmpty(s, pending[..|pending| - 1]))
    decreases |Pending(s, p)|
  {
    hide Expand, Unopened, Answer, AllOpen, Pending;
    var n, p', pending := |p.files|, Expand(s, p, |p.files|), Pending(s, p);
    CountStep(s, p);
    GetFileAnswer(s, p, n);
    if pending != [] {
      assert Total(s, p)[n] == pending[0];
      var path := s.resolve(pending[0].filePath).value;
      PendingTail(s, p, p');
      if path != "" {
        ExpandUnopened(s, p, n);
        CountExactIff(s, p');
        if |pending| > 1 {
          NoneEmptyHead(s, pending[..|pending| - 1]);
          assert pending[..|pending| - 1][1..] == pending[1..][..|pending| - 2];
        }
      }
    }
  }

  lemma PendingTail(s: Setup, p: Planner, p': Planner)
    requires p.Fits(s) && p'.Fits(s) && Total(s, p') == Total(s, p)
    requires p.files <= p'.files && |p'.files| == |p.files| + 1
    ensures Pending(s, p') == Pending(s, p)[1..]
  {
    hide Pending;
    assert Pending(s, p) == Total(s, p)[|p.files|..];
    assert Pending(s, p') == Total(s, p)[|p'.files|..];
  }

  lemma NoneEmptyHead(s: Setup, entries: seq<Entry>)
    requires entries != []
    ensures NoneEmpty(s, entries) <==> s.resolve(entries[0].filePath) != Success("") && NoneEmpty(s, entries[1..])
  {
    assert entries == [entries[0]] + entries[1..];
  }

  lemma {:induction false} ExpandUnopened(s: Setup, p: Planner, fileId: nat)
    requires p.Fits(s)
    ensures AllOpen(Unopened(s, Expand(s, p, fileId))) <==> AllOpen(Unopened(s, p))
    decreases |s.sources| - p.next, if fileId < |p.files| then 0 else 1
  {
    if CanRead(s, p, fileId) {
      ReadMoreUnopened(s, p, fileId);
      ExpandUnopened(s, ReadMore(s, p, fileId), fileId);
    }
  }

  datatype Call = GetFile(fileId: nat) | GetTotalFileCount | GetExpandResult

  function After(s: Setup, p: Planner, call: Call): (p': Planner)
    requires p.Fits(s)
    ensures p'.Fits(s)
  {
    match call
    case GetFile(fileId) => Expand(s, p, fileId)
    case GetTotalFileCount => CountUp(s, p).0
    case GetExpandResult => Expand(s, p, 1)
  }

  function Run(s: Setup, p: Planner, calls: seq<Call>): (p': Planner)
    requires p.Fits(s)
    ensures p'.Fits(s)
    decreases calls
  {
    if calls == [] then p else Run(s, After(s, p, calls[0]), calls[1..])
  }

  predicate SafeCall(s: Setup, p: Planner, call: Call) {
    match call
    case GetFile(fileId) => Safe(s, p, fileId)
    case GetTotalFileCount => true
    case GetExpandResult => Safe(s, p, 1)
  }

  predicate SafeRun(s: Setup, p: Planner, calls: seq<Call>)
    requires p.Fits(s)
    decreases calls
  {
    calls == [] || (SafeCall(s, p, calls[0]) && SafeRun(s, After(s, p, calls[0]), calls[1..]))
  }

  lemma {:induction false} CountKeepsTotal(s: Setup, p: Planner)
    requires p.Fits(s)
    ensures var p' := CountUp(s, p).0; p.files <= p'.files && Total(s, p') == Total(s, p)
    decreases |Pending(s, p)|
  {
    hide Total, Pending, Expand;
    var p' := Expand(s, p, |p.files|);
    CountStep(s, p);
    match Answer(s, p', |p.files|)
    case Failure(_) =>
    case Success(path) =>
      if path != "" {
        CountKeepsTotal(s, p');
      }
  }

  /** After any safe sequence of calls the listed files are a prefix of the one list of live entries,
      and that list has not changed. */
  lemma {:induction false} RunExact(s: Setup, p: Planner, calls: seq<Call>)
    requires p.Fits(s) && SafeRun(s, p, calls)
    ensures var p' := Run(s, p, calls);
            p.files <= p'.files <= Total(s, p) && Total(s, p') == Total(s, p)
    decreases calls
  {
    if calls != [] {
      var p' := After(s, p, calls[0]);
      match calls[0] {
        case GetFile(fileId) => ExpandGrows(s, p, fileId); ExpandKeepsTotal(s, p, fileId);
        case GetTotalFileCount => CountKeepsTotal(s, p);
        case GetExpandResult => ExpandGrows(s, p, 1); ExpandKeepsTotal(s, p, 1);
      }
      RunExact(s, p', calls[1..]);
    }
  }

  /** Any sequence of calls at all, with either advance: files are only appended, none is invented. */
  lemma {:induction false} RunGrows(s: Setup, p: Planner, calls: seq<Call>)
    requires p.Fits(s)
    ensures var p' := Run(s, p, calls); p.files <= p'.files && |Total(s, p')| <= |Total(s, p)|
    decreases calls
  {
    if calls != [] {
      match calls[0] {
        case GetFile(fileId) => ExpandGrows(s, p, fileId);
        case GetTotalFileCount => CountKeepsTotal(s, p);
        case GetExpandResult => ExpandGrows(s, p, 1);
      }
      RunGrows(s, After(s, p, calls[0]), calls[1..]);
    }
  }

  /** At the start the whole list is still pending. */
  lemma StartTotal(s: Setup)
    ensures Total(s, INITIAL) == Remaining(s.f, s.sources) && Unopened(s, INITIAL) == s.sources
  {
    assert s.sources[0..] == s.sources;
    ConcatNil(Remaining(s.f, s.sources));
  }

  lemma {:induction false} CountUnopened(s: Setup, p: Planner)
    requires p.Fits(s)
    ensures AllOpen(Unopened(s, CountUp(s, p).0)) <==> AllOpen(Unopened(s, p))
    decreases |Pending(s, p)|
  {
    hide Total, Pending, Expand, Unopened, AllOpen;
    var p' := Expand(s, p, |p.files|);
    CountStep(s, p);
    ExpandUnopened(s, p, |p.files|);
    match Answer(s, p', |p.files|)
    case Failure(_) =>
    case Success(path) =>
      if path != "" {
        CountUnopened(s, p');
      }
  }

  lemma {:induction false} RunUnopened(s: Setup, p: Planner, calls: seq<Call>)
    requires p.Fits(s)
    ensures AllOpen(Unopened(s, Run(s, p, calls))) <==> AllOpen(Unopened(s, p))
    decreases calls
  {
    hide Unopened, AllOpen;
    if calls != [] {
      match calls[0] {
        case GetFile(fileId) => ExpandUnopened(s, p, fileId);
        case GetTotalFileCount => CountUnopened(s, p);
        case GetExpandResult => ExpandUnopened(s, p, 1);
      }
      RunUnopened(s, After(s, p, calls[0]), calls[1..]);
    }
  }

  // ----- exactly when the code's GetFile is safe ---------------------------------------------------

  /** Every chunk a manifest hands out fits. */
  predicate SourcesFit(sources: seq<Source>) {
    forall i | 0 <= i < |sources| :: sources[i].Some? ==> FitVectors(sources[i].value)
  }

  /** GetFile(fileId) loses no file when it is called after `calls`, if these listed `listed` files. */
  ghost predicate KeepsTotalAfter(s: Setup, calls: seq<Call>, listed: nat, fileId: nat) {
    var p := Run(s, INITIAL, calls);
    |p.files| == listed ==> Total(s, Expand(s, p, fileId)) == Total(s, p)
  }

  /** When `listed` files have been listed by any calls, GetFile(fileId) as written is lossless on every
      table exactly when `fileId` is listed already or is the next one. */
  lemma GetFileLosslessIff(s: Setup, live: EntryRow, listed: nat, fileId: nat)
    requires s.adv.Requested? && s.f(live).Some?
    ensures (forall sources: seq<Source>, calls: seq<Call> | SourcesFit(sources) ::
               KeepsTotalAfter(s.(sources := sources), calls, listed, fileId)) <==> fileId <= listed
  {
    if fileId <= listed {
      forall sources: seq<Source>, calls: seq<Call> | SourcesFit(sources)
        ensures KeepsTotalAfter(s.(sources := sources), calls, listed, fileId)
      {
        var p := Run(s.(sources := sources), INITIAL, calls);
        if |p.files| == listed {
          ExpandKeepsTotal(s.(sources := sources), p, fileId);
        }
      }
    } else {
      var sources, calls := LossySources(live, listed, fileId + 1 - listed), FirstFiles(listed);
      GetFileLoses(s.(sources := sources), live, listed, fileId);
      assert SourcesFit(sources) && !KeepsTotalAfter(s.(sources := sources), calls, listed, fileId);
    }
  }

  /** One manifest: `listed` rows to list first, then rows of which a read for `count` loses one. */
  function LossySources(live: EntryRow, listed: nat, count: nat): (sources: seq<Source>)
    requires count >= 2
    ensures SourcesFit(sources)
  {
    [Some(Singles(live, listed, LossyChunks(live, count)))]
  }

  /** One call that lists the first `listed` files. */
  function FirstFiles(listed: nat): seq<Call> {
    if listed == 0 then [] else [GetFile(listed - 1)]
  }

  /** After that call the one manifest is still open, before `rest`. */
  lemma FirstFilesListed(s: Setup, live: EntryRow, listed: nat, rest: Chunks<EntryRow>)
    requires listed > 0 && s.f(live).Some? && s.sources == [Some(Singles(live, listed, rest))]
    ensures Run(s, INITIAL, FirstFiles(listed)) == Planner(Repeat(s.f(live).value, listed), true, Cursor([], rest), 0)
  {
    hide Repeat, Singles;
    var o: Outcome<EntryRow, Entry> := Outcome(Cursor([], rest), [], [], false);
    assert o == ReadFrom(s.adv, s.f, Cursor([], rest), listed, listed);
    assert ReadFrom(s.adv, s.f, CursorOf(s, INITIAL), listed, 0) ==
           Outcome(Cursor([], rest), Repeat(s.f(live).value, listed), [], false) by {
      hide ReadFrom;
      ReadSingles(s.adv, s.f, live, listed, rest, listed, 0, o);
      ConcatNil(Repeat(s.f(live).value, listed));
    }
    hide ReadFrom;
    var p := ReadMore(s, INITIAL, listed - 1);
    ConcatNil(Repeat(s.f(live).value, listed));
    assert p == Planner(Repeat(s.f(live).value, listed), true, Cursor([], rest), 0);
    assert Expand(s, p, listed - 1) == p;
    assert Expand(s, INITIAL, listed - 1) == p;
    RunOne(s, INITIAL, GetFile(listed - 1));
  }

  lemma RunOne(s: Setup, p: Planner, call: Call)
    requires p.Fits(s)
    ensures Run(s, p, [call]) == After(s, p, call)
  {
    hide After;
    assert [call][1..] == [];
    assert Run(s, After(s, p, call), []) == After(s, p, call);
  }

  lemma GetFileLoses(s: Setup, live: EntryRow, listed: nat, fileId: nat)
    requires s.adv.Requested? && s.f(live).Some? && fileId > listed
    requires s.sources == LossySources(live, listed, fileId + 1 - listed)
    ensures var p := Run(s, INITIAL, FirstFiles(listed));
            |p.files| == listed && |Total(s, Expand(s, p, fileId))| < |Total(s, p)|
  {
    hide Total, ReadFrom, Repeat, Singles;
    var count := fileId + 1 - listed;
    var p := Run(s, INITIAL, FirstFiles(listed));
    if listed > 0 {
      FirstFilesListed(s, live, listed, LossyChunks(live, count));
    } else {
      SinglesNone(live, LossyChunks(live, count));
    }
    assert CursorOf(s, p) == AtStart(LossyChunks(live, count));
    RequestedLoses(s.f, live, count);
    LosslessIff(Requested, s.f, AtStart(LossyChunks(live, count)), count);
    ReadMoreTotal(s, p, fileId);
    ExpandGrows(s, ReadMore(s, p, fileId), fileId);
  }

  lemma SinglesNone(live: EntryRow, rest: Chunks<EntryRow>)
    ensures Singles(live, 0, rest) == rest
  {
  }

  // ----- GetExpandResult -----------------------------------------------------------------------------

  datatype FileExpandResult = NO_FILES | SINGLE_FILE | MULTIPLE_FILES

  /** None, one, or more than one of both. */
  predicate SameClass(listed: nat, total: nat) {
    (listed == 0 <==> total == 0) && (listed == 1 <==> total == 1) && (listed > 1 <==> total > 1)
  }

  /** Unless it throws, GetExpandResult has listed no file, one file or more exactly as there are none, one
      or more in the whole list, when it is called after `calls` and these listed `listed` files. */
  ghost predicate ClassifiesAfter(s: Setup, calls: seq<Call>, listed: nat) {
    var p := Run(s, INITIAL, calls);
    |p.files| == listed && !Stuck(s, Expand(s, p, 1), 1) ==>
      SameClass(|Expand(s, p, 1).files|, |Total(s, p)|)
  }

  /** A safe expansion to the second file lists none, one or more exactly as there are. */
  lemma ExpandSameClass(s: Setup, p: Planner)
    requires p.Fits(s) && Safe(s, p, 1)
    ensures SameClass(|Expand(s, p, 1).files|, |Total(s, p)|)
  {
    hide Total, Expand;
    ExpandComplete(s, p, 1);
  }

  /** GetExpandResult as written is right on every table exactly when a file was listed before it (for a
      producer that keeps some rows and skips others). */
  lemma ExpandResultRightIff(s: Setup, live: EntryRow, dead: EntryRow, listed: nat)
    requires s.adv.Requested? && s.f(live).Some? && s.f(dead).None?
    ensures (forall sources: seq<Source>, calls: seq<Call> | SourcesFit(sources) ::
               ClassifiesAfter(s.(sources := sources), calls, listed)) <==> listed >= 1
  {
    if listed >= 1 {
      forall sources: seq<Source>, calls: seq<Call> | SourcesFit(sources)
        ensures ClassifiesAfter(s.(sources := sources), calls, listed)
      {
        var p := Run(s.(sources := sources), INITIAL, calls);
        if |p.files| == listed {
          ExpandSameClass(s.(sources := sources), p);
        }
      }
    } else {
      var sources: seq<Source> := [Some([[live, dead, dead, live]])];
      MissesSecondFile(s, live, dead);
      assert Run(s.(sources := sources), INITIAL, []) == INITIAL;
      assert SourcesFit(sources) && !ClassifiesAfter(s.(sources := sources), [], listed);
    }
  }

  /** Asked first, GetExpandResult reports a single file where there are two. */
  lemma MissesSecondFile(s: Setup, live: EntryRow, dead: EntryRow)
    requires s.adv.Requested? && s.f(live).Some? && s.f(dead).None?
    ensures var s' := s.(sources := [Some([[live, dead, dead, live]])]);
            && !Stuck(s', Expand(s', INITIAL, 1), 1)
            && |Expand(s', INITIAL, 1).files| == 1
            && |Total(s', INITIAL)| == 2
  {
    hide ReadFrom, Produce, Total;
    var chunk := [live, dead, dead, live];
    var s' := s.(sources := [Some([chunk])]);
    RequestedLosesLast(s.f, live, dead);
    ReadMoreTotal(s', INITIAL, 1);
    var p := ReadMore(s', INITIAL, 1);
    assert p == Planner([s.f(live).value], false, Cursor([], []), 1);
    assert Expand(s', p, 1) == p;
    ProduceOne(s.f, live);
    NothingLeft(s', p);
  }

  lemma NothingLeft(s: Setup, p: Planner)
    requires p.Fits(s) && !p.open && p.next == |s.sources|
    ensures Total(s, p) == p.files
  {
    ConcatNil(p.files);
  }
}

/** What `ManifestReader::ReadEntries` does, as a function of its cursor: the advance the code
    performs (`offset += count`) and the advance that delivers every row (`offset += to_scan`). */
module ReadCursor {
  import opened Basics

  /** How far one iteration moves `offset`: by the count the caller asked for, as the code does, or
      by the rows it handed to the producer. */
  datatype Advance = Requested | Scanned

  /** The rows of the current chunk from `offset` on, and the chunks the scan has not handed out yet. */
  datatype Cursor<R> = Cursor(ahead: seq<R>, rest: seq<seq<R>>)

  /** A call's effect: the cursor it leaves, the entries it produced, the rows it jumped over, and
      whether it met the end of the scan. */
  datatype Outcome<R, T> = Outcome(cursor: Cursor<R>, delivered: seq<T>, dropped: seq<R>, finished: bool)

  /** The entries a producer makes of some rows: row by row, leaving out those it skips. */
  function Produce<R, T>(f: R -> Option<T>, rows: seq<R>): (out: seq<T>)
    ensures |out| <= |rows|
  {
    if rows == [] then []
    else
      var tail := Produce(f, rows[1..]);
      match f(rows[0]) { case Some(t) => [t] + tail case None => tail }
  }

  lemma {:induction false} ProduceConcat<R, T>(f: R -> Option<T>, a: seq<R>, b: seq<R>)
    ensures Produce(f, a + b) == Produce(f, a) + Produce(f, b)
  {
    if a == [] {
      ConcatNil(b);
      ConcatNil(Produce(f, b));
    } else {
      ProduceConcat(f, a[1..], b);
      ConcatHead(a, b);
      if f(a[0]).Some? {
        ConcatAssoc([f(a[0]).value], Produce(f, a[1..]), Produce(f, b));
      }
    }
  }

  lemma ProduceOne<R, T>(f: R -> Option<T>, row: R)
    ensures Produce(f, [row]) == match f(row) { case Some(t) => [t] case None => [] }
  {
    assert [row][1..] == [];
  }

  /** The rows not consumed yet. */
  function Unread<R>(c: Cursor<R>): seq<R> {
    c.ahead + Flatten(c.rest)
  }

  function AtStart<R>(chunks: Chunks<R>): Cursor<R> {
    Cursor([], chunks)
  }

  function NextChunk<R>(c: Cursor<R>): Cursor<R>
    requires c.rest != []
  {
    Cursor(c.rest[0], c.rest[1..])
  }

  /** How many rows one iteration hands to the producer. */
  function ToScan<R>(c: Cursor<R>, count: nat, scanned: nat): nat
    requires scanned < count
  {
    Min(|c.ahead|, count - scanned)
  }

  /** How many rows one iteration moves past. */
  function Advanced<R>(adv: Advance, c: Cursor<R>, count: nat, scanned: nat): nat
    requires scanned < count
  {
    if adv.Requested? then Min(|c.ahead|, count) else ToScan(c, count, scanned)
  }

  function Taken<R>(c: Cursor<R>, count: nat, scanned: nat): seq<R>
    requires scanned < count
  {
    c.ahead[..ToScan(c, count, scanned)]
  }

  /** The rows one iteration jumps over. */
  function Jumped<R>(adv: Advance, c: Cursor<R>, count: nat, scanned: nat): seq<R>
    requires scanned < count
  {
    c.ahead[ToScan(c, count, scanned)..Advanced(adv, c, count, scanned)]
  }

  function Step<R>(adv: Advance, c: Cursor<R>, count: nat, scanned: nat): Cursor<R>
    requires scanned < count
  {
    Cursor(c.ahead[Advanced(adv, c, count, scanned)..], c.rest)
  }

  /** The loop of ReadEntries, entered with `scanned` entries already produced. */
  function ReadFrom<R, T>(adv: Advance, f: R -> Option<T>, c: Cursor<R>, count: nat, scanned: nat): Outcome<R, T>
    decreases |c.rest|, |c.ahead|
  {
    if scanned >= count then Outcome(c, [], [], false)
    else if c.ahead == [] then
      if c.rest == [] then Outcome(c, [], [], true)
      else ReadFrom(adv, f, NextChunk(c), count, scanned)
    else
      var out := Produce(f, Taken(c, count, scanned));
      var o := ReadFrom(adv, f, Step(adv, c, count, scanned), count, scanned + |out|);
      Outcome(o.cursor, out + o.delivered, Jumped(adv, c, count, scanned) + o.dropped, o.finished)
  }

  // ----- conservation ----------------------------------------------------------------------------

  /** One iteration splits what is unread into the rows taken, the rows jumped over and the rest. */
  lemma UnreadStep<R>(adv: Advance, c: Cursor<R>, count: nat, scanned: nat)
    requires scanned < count
    ensures Unread(c) == Taken(c, count, scanned) +
                         (Jumped(adv, c, count, scanned) + Unread(Step(adv, c, count, scanned)))
  {
    var taken, jumped, next := Taken(c, count, scanned), Jumped(adv, c, count, scanned), Step(adv, c, count, scanned);
    SplitInThree(c.ahead, ToScan(c, count, scanned), Advanced(adv, c, count, scanned));
    ConcatAssoc(taken, jumped + next.ahead, Flatten(c.rest));
    ConcatAssoc(jumped, next.ahead, Flatten(c.rest));
  }

  lemma UnreadNext<R>(c: Cursor<R>)
    requires c.ahead == [] && c.rest != []
    ensures Unread(NextChunk(c)) == Unread(c)
  {
    ConcatNil(Flatten(c.rest));
  }

  /** Every live row is delivered, still unread, or jumped over; so nothing is lost exactly when no
      live row is jumped over. */
  ghost predicate Accounted<R, T>(f: R -> Option<T>, c: Cursor<R>, o: Outcome<R, T>) {
    var lost := Produce(f, o.dropped);
    && |Produce(f, Unread(c))| == |o.delivered| + |lost| + |Produce(f, Unread(o.cursor))|
    && (Produce(f, Unread(c)) == o.delivered + Produce(f, Unread(o.cursor)) <==> lost == [])
  }

  /** One iteration of the loop. */
  lemma ReadUnfold<R, T>(adv: Advance, f: R -> Option<T>, c: Cursor<R>, count: nat, scanned: nat)
    requires scanned < count && c.ahead != []
    ensures var out := Produce(f, Taken(c, count, scanned));
            var o := ReadFrom(adv, f, Step(adv, c, count, scanned), count, scanned + |out|);
            ReadFrom(adv, f, c, count, scanned) ==
            Outcome(o.cursor, out + o.delivered, Jumped(adv, c, count, scanned) + o.dropped, o.finished)
  {
    hide Produce, Taken, Step, Jumped;
  }

  /** Conservation over a whole call, for either advance. */
  lemma {:induction false} ReadAccounted<R, T>(adv: Advance, f: R -> Option<T>, c: Cursor<R>, count: nat, scanned: nat,
                                               o: Outcome<R, T>)
    requires o == ReadFrom(adv, f, c, count, scanned)
    ensures Accounted(f, c, o)
    decreases |c.rest|, |c.ahead|
  {
    hide Accounted, Produce, Unread;
    if scanned >= count || (c.ahead == [] && c.rest == []) {
      AccountedNothing(f, c, o);
    } else if c.ahead == [] {
      ReadAccounted(adv, f, NextChunk(c), count, scanned, o);
      AccountedNext(f, c, o);
    } else {
      var taken, next := Taken(c, count, scanned), Step(adv, c, count, scanned);
      assert |next.ahead| < |c.ahead| && next.rest == c.rest;
      hide Taken, Jumped, Step, ReadFrom;
      ReadUnfold(adv, f, c, count, scanned);
      var tail := ReadFrom(adv, f, next, count, scanned + |Produce(f, taken)|);
      ReadAccounted(adv, f, next, count, scanned + |Produce(f, taken)|, tail);
      AccountedStep(adv, f, c, count, scanned, tail, o);
    }
  }

  lemma AccountedNothing<R, T>(f: R -> Option<T>, c: Cursor<R>, o: Outcome<R, T>)
    requires o.cursor == c && o.delivered == [] && o.dropped == []
    ensures Accounted(f, c, o)
  {
    ConcatNil(Produce(f, Unread(c)));
  }

  lemma AccountedNext<R, T>(f: R -> Option<T>, c: Cursor<R>, o: Outcome<R, T>)
    requires c.ahead == [] && c.rest != [] && Accounted(f, NextChunk(c), o)
    ensures Accounted(f, c, o)
  {
    UnreadNext(c);
  }

  /** One iteration carries the account of the iterations after it to the whole call. */
  lemma AccountedStep<R, T>(adv: Advance, f: R -> Option<T>, c: Cursor<R>, count: nat, scanned: nat,
                            tail: Outcome<R, T>, o: Outcome<R, T>)
    requires scanned < count
    requires Accounted(f, Step(adv, c, count, scanned), tail)
    requires o == Outcome(tail.cursor, Produce(f, Taken(c, count, scanned)) + tail.delivered,
                          Jumped(adv, c, count, scanned) + tail.dropped, tail.finished)
    ensures Accounted(f, c, o)
  {
    var taken, jumped := Taken(c, count, scanned), Jumped(adv, c, count, scanned);
    var unread := Unread(Step(adv, c, count, scanned));
    UnreadStep(adv, c, count, scanned);
    ProduceConcat(f, taken, jumped + unread);
    ProduceConcat(f, jumped, unread);
    ProduceConcat(f, jumped, tail.dropped);
    LossIff(Produce(f, taken), Produce(f, jumped), Produce(f, unread), tail.delivered, Produce(f, tail.dropped),
            Produce(f, Unread(tail.cursor)));
  }

  lemma LossIff<T>(taken: seq<T>, jumped: seq<T>, unread: seq<T>, delivered: seq<T>, lost: seq<T>, left: seq<T>)
    requires |unread| == |delivered| + |lost| + |left|
    requires unread == delivered + left <==> lost == []
    ensures taken + (jumped + unread) == taken + delivered + left <==> jumped + lost == []
  {
    ConcatAssoc(taken, delivered, left);
    ConcatCancel(taken, jumped + unread, delivered + left);
    if jumped == [] {
      ConcatNil(unread);
    }
  }

  /** A call delivers no more than was asked for, and fewer only when the scan is used up. */
  lemma {:induction false} DeliveredCount<R, T>(adv: Advance, f: R -> Option<T>, c: Cursor<R>, count: nat, scanned: nat,
                                                o: Outcome<R, T>)
    requires scanned <= count && o == ReadFrom(adv, f, c, count, scanned)
    ensures o.finished ==> o.cursor == Cursor([], []) && scanned + |o.delivered| < count
    ensures !o.finished ==> scanned + |o.delivered| == count
    ensures adv.Scanned? ==> o.dropped == []
    decreases |c.rest|, |c.ahead|
  {
    if scanned < count {
      if c.ahead != [] {
        var next, produced := Step(adv, c, count, scanned), scanned + |Produce(f, Taken(c, count, scanned))|;
        DeliveredCount(adv, f, next, count, produced, ReadFrom(adv, f, next, count, produced));
      } else if c.rest != [] {
        DeliveredCount(adv, f, NextChunk(c), count, scanned, o);
      }
    }
  }

  function Size<R>(c: Cursor<R>): nat {
    |Unread(c)|
  }

  /** A call that does not meet the end of the scan leaves less unread. */
  lemma {:induction false} ReadProgress<R, T>(adv: Advance, f: R -> Option<T>, c: Cursor<R>, count: nat, scanned: nat,
                                              o: Outcome<R, T>)
    requires o == ReadFrom(adv, f, c, count, scanned)
    ensures Size(o.cursor) <= Size(c)
    ensures !o.finished && scanned < count ==> Size(o.cursor) < Size(c)
    decreases |c.rest|, |c.ahead|
  {
    if scanned < count {
      if c.ahead != [] {
        var next, produced := Step(adv, c, count, scanned), scanned + |Produce(f, Taken(c, count, scanned))|;
        assert Size(next) < Size(c);
        ReadProgress(adv, f, next, count, produced, ReadFrom(adv, f, next, count, produced));
      } else if c.rest != [] {
        UnreadNext(c);
        ReadProgress(adv, f, NextChunk(c), count, scanned, o);
      }
    }
  }

  // ----- when a call loses rows --------------------------------------------------------------------

  /** An iteration of the code jumps over rows exactly when something was produced before it and the
      chunk has more rows left than are still wanted. */
  lemma JumpedNonEmptyIff<R>(c: Cursor<R>, count: nat, scanned: nat)
    requires scanned < count
    ensures Jumped(Requested, c, count, scanned) != [] <==> 0 < scanned && count - scanned < |c.ahead|
  {
  }

  /** Some iteration of a call by the code runs with entries already produced and more rows ahead than
      are still wanted. */
  predicate Overshoots<R, T>(f: R -> Option<T>, c: Cursor<R>, count: nat, scanned: nat)
    decreases |c.rest|, |c.ahead|
  {
    scanned < count &&
    if c.ahead == [] then c.rest != [] && Overshoots(f, NextChunk(c), count, scanned)
    else
      (0 < scanned && count - scanned < |c.ahead|) ||
      Overshoots(f, Step(Requested, c, count, scanned), count, scanned + |Produce(f, Taken(c, count, scanned))|)
  }

  /** A call of the code jumps over rows exactly when one of its iterations overshoots. */
  lemma {:induction false} DropsIffOvershoots<R, T>(f: R -> Option<T>, c: Cursor<R>, count: nat, scanned: nat)
    ensures ReadFrom(Requested, f, c, count, scanned).dropped != [] <==> Overshoots(f, c, count, scanned)
    decreases |c.rest|, |c.ahead|
  {
    hide Produce, Taken;
    if scanned < count {
      if c.ahead != [] {
        JumpedNonEmptyIff(c, count, scanned);
        DropsIffOvershoots(f, Step(Requested, c, count, scanned), count, scanned + |Produce(f, Taken(c, count, scanned))|);
      } else if c.rest != [] {
        DropsIffOvershoots(f, NextChunk(c), count, scanned);
      }
    }
  }

  /** Both advances agree on a call for at most one entry. */
  lemma {:induction false} OneAtATime<R, T>(f: R -> Option<T>, c: Cursor<R>, count: nat)
    requires count <= 1
    ensures ReadFrom(Requested, f, c, count, 0) == ReadFrom(Scanned, f, c, count, 0)
    decreases |c.rest|, |c.ahead|
  {
    if count == 1 {
      if c.ahead != [] {
        var next := Step(Scanned, c, 1, 0);
        assert next == Step(Requested, c, 1, 0);
        if Produce(f, Taken(c, 1, 0)) == [] {
          OneAtATime(f, next, 1);
        }
      } else if c.rest != [] {
        OneAtATime(f, NextChunk(c), 1);
      }
    }
  }

  ghost predicate Lossless<R, T>(adv: Advance, f: R -> Option<T>, c: Cursor<R>, count: nat) {
    var o := ReadFrom(adv, f, c, count, 0);
    Produce(f, Unread(c)) == o.delivered + Produce(f, Unread(o.cursor))
  }

  /** The intended advance never loses a row; the code loses none when asked for at most one entry. */
  lemma ReadLossless<R, T>(adv: Advance, f: R -> Option<T>, c: Cursor<R>, count: nat)
    requires adv.Scanned? || count <= 1
    ensures Lossless(adv, f, c, count)
  {
    if adv.Requested? {
      OneAtATime(f, c, count);
    }
    var o := ReadFrom(Scanned, f, c, count, 0);
    ReadAccounted(Scanned, f, c, count, 0, o);
    DeliveredCount(Scanned, f, c, count, 0, o);
  }

  /** A call of the code loses nothing exactly when every row it jumps over is one the producer skips. */
  lemma LosslessIff<R, T>(adv: Advance, f: R -> Option<T>, c: Cursor<R>, count: nat)
    ensures Lossless(adv, f, c, count) <==> Produce(f, ReadFrom(adv, f, c, count, 0).dropped) == []
  {
    ReadAccounted(adv, f, c, count, 0, ReadFrom(adv, f, c, count, 0));
  }

  function Repeat<R>(row: R, n: nat): (rows: seq<R>)
    ensures |rows| == n && forall i | 0 <= i < n :: rows[i] == row
  {
    seq(n, _ => row)
  }

  lemma {:induction false} ProduceRepeat<R, T>(f: R -> Option<T>, row: R, n: nat)
    requires f(row).Some?
    ensures Produce(f, Repeat(row, n)) == Repeat(f(row).value, n)
    decreases n
  {
    if n > 0 {
      assert Repeat(row, n)[1..] == Repeat(row, n - 1);
      ProduceRepeat(f, row, n - 1);
      assert [f(row).value] + Repeat(f(row).value, n - 1) == Repeat(f(row).value, n);
    }
  }

  /** No chunk is larger than DuckDB's chunk capacity, as every chunk a scan hands out is. */
  predicate FitVectors<R>(chunks: seq<seq<R>>) {
    forall i | 0 <= i < |chunks| :: |chunks[i]| <= STANDARD_VECTOR_SIZE
  }

  /** `n` chunks of one row each, then `rest`. */
  function Singles<R>(row: R, n: nat, rest: Chunks<R>): (chunks: Chunks<R>)
    ensures FitVectors(rest) ==> FitVectors(chunks)
  {
    if n == 0 then rest else [[row]] + Singles(row, n - 1, rest)
  }

  /** `count - 1` chunks of one live row, then a chunk of two: one row more than is asked for. */
  function LossyChunks<R>(live: R, count: nat): Chunks<R>
    requires count >= 2
  {
    Singles(live, count - 1, [[live, live]])
  }

  /** One iteration over a chunk of one live row. */
  lemma ReadSingle<R, T>(adv: Advance, f: R -> Option<T>, live: R, rest: seq<seq<R>>, count: nat, scanned: nat)
    requires scanned < count && f(live).Some?
    ensures var o := ReadFrom(adv, f, Cursor([], rest), count, scanned + 1);
            ReadFrom(adv, f, Cursor([], [[live]] + rest), count, scanned) ==
            Outcome(o.cursor, [f(live).value] + o.delivered, o.dropped, o.finished)
  {
    var start := Cursor([], [[live]] + rest);
    var c := NextChunk(start);
    assert c == Cursor([live], rest);
    assert Taken(c, count, scanned) == [live] && Jumped(adv, c, count, scanned) == [];
    assert Step(adv, c, count, scanned) == Cursor([], rest);
    ProduceOne(f, live);
    var o := ReadFrom(adv, f, Cursor([], rest), count, scanned + 1);
    ConcatNil(o.dropped);
  }

  /** A read that takes `n` one-row chunks and wants more goes on behind them. */
  lemma {:induction false} ReadSingles<R, T>(adv: Advance, f: R -> Option<T>, live: R, n: nat, rest: Chunks<R>,
                                             count: nat, scanned: nat, o: Outcome<R, T>)
    requires scanned + n <= count && f(live).Some?
    requires o == ReadFrom(adv, f, Cursor([], rest), count, scanned + n)
    ensures ReadFrom(adv, f, Cursor([], Singles(live, n, rest)), count, scanned) ==
            Outcome(o.cursor, Repeat(f(live).value, n) + o.delivered, o.dropped, o.finished)
    decreases n
  {
    hide ReadFrom, Repeat;
    if n == 0 {
      ConcatNil(o.delivered);
      assert Repeat(f(live).value, n) == [];
    } else {
      ReadSingle(adv, f, live, Singles(live, n - 1, rest), count, scanned);
      ReadSingles(adv, f, live, n - 1, rest, count, scanned + 1, o);
      RepeatCons(f(live).value, n, o.delivered);
    }
  }

  lemma RepeatCons<R>(row: R, n: nat, tail: seq<R>)
    requires n > 0
    ensures [row] + (Repeat(row, n - 1) + tail) == Repeat(row, n) + tail
  {
    ConcatAssoc([row], Repeat(row, n - 1), tail);
    assert [row] + Repeat(row, n - 1) == Repeat(row, n);
  }

  /** The last iteration takes one row of the chunk of two and jumps over the other. */
  lemma ReadPair<R, T>(f: R -> Option<T>, live: R, count: nat)
    requires count >= 2 && f(live).Some?
    ensures ReadFrom(Requested, f, Cursor([], [[live, live]]), count, count - 1).dropped == [live]
  {
    var c := NextChunk(Cursor([], [[live, live]]));
    assert c == Cursor([live, live], []);
    assert Taken(c, count, count - 1) == [live] && Jumped(Requested, c, count, count - 1) == [live];
    ProduceOne(f, live);
    assert Step(Requested, c, count, count - 1) == Cursor([], []);
    assert ReadFrom<R, T>(Requested, f, Cursor([], []), count, count).dropped == [];
  }

  /** Any request for two or more entries can lose one, in chunks that fit and with no row skipped. */
  lemma RequestedLoses<R, T>(f: R -> Option<T>, live: R, count: nat)
    requires count >= 2 && f(live).Some?
    ensures FitVectors(LossyChunks(live, count))
    ensures ReadFrom(Requested, f, AtStart(LossyChunks(live, count)), count, 0).dropped == [live]
    ensures !Lossless(Requested, f, AtStart(LossyChunks(live, count)), count)
  {
    hide ReadFrom, Singles, Repeat, Lossless;
    ReadPair(f, live, count);
    ReadSingles(Requested, f, live, count - 1, [[live, live]], count, 0,
                ReadFrom(Requested, f, Cursor([], [[live, live]]), count, count - 1));
    LosslessIff(Requested, f, AtStart(LossyChunks(live, count)), count);
    ProduceOne(f, live);
  }

  /** The smallest such scan: live, skipped, skipped, live, read with a request for two. */
  lemma RequestedLosesLast<R, T>(f: R -> Option<T>, live: R, dead: R)
    requires f(live).Some? && f(dead).None?
    ensures ReadFrom(Requested, f, AtStart([[live, dead, dead, live]]), 2, 0) ==
            Outcome(Cursor([], []), [f(live).value], [live], true)
  {
    var rows := [live, dead, dead, live];
    var c := NextChunk(AtStart([rows]));
    assert c == Cursor(rows, []);
    assert Taken(c, 2, 0) == [live] + [dead];
    ProduceConcat(f, [live], [dead]);
    ProduceOne(f, live);
    ProduceOne(f, dead);
    var c' := Step(Requested, c, 2, 0);
    assert c' == Cursor([dead, live], []);
    assert Taken(c', 2, 1) == [dead] && Jumped(Requested, c', 2, 1) == [live];
    var c'' := Step(Requested, c', 2, 1);
    assert c'' == Cursor([], []);
    assert ReadFrom(Requested, f, c'', 2, 1) == Outcome(c'', [], [], true);
    assert ReadFrom(Requested, f, c', 2, 1) == Outcome(c'', [], [live], true);
    assert ReadFrom(Requested, f, c, 2, 0) == Outcome(c'', [f(live).value], [live], true);
  }

  /** The guard a caller can check: the code loses no row, whatever chunks the scan hands out, exactly
      when it is asked for at most one entry. */
  lemma LosslessForAllIff<R(!new), T>(f: R -> Option<T>, live: R, count: nat)
    requires f(live).Some?
    ensures (forall chunks: Chunks<R> | FitVectors(chunks) :: Lossless(Requested, f, AtStart(chunks), count)) <==> count <= 1
  {
    if count <= 1 {
      forall chunks: Chunks<R> | FitVectors(chunks) ensures Lossless(Requested, f, AtStart(chunks), count) {
        ReadLossless(Requested, f, AtStart(chunks), count);
      }
    } else {
      RequestedLoses(f, live, count);
    }
  }

  /** Any sequence of calls, each for its own number of entries. */
  function ReadMany<R, T>(adv: Advance, f: R -> Option<T>, c: Cursor<R>, counts: seq<nat>): (Cursor<R>, seq<T>)
    decreases counts
  {
    if counts == [] then (c, [])
    else
      var o := ReadFrom(adv, f, c, counts[0], 0);
      var (c', out) := ReadMany(adv, f, o.cursor, counts[1..]);
      (c', o.delivered + out)
  }

  /** Exactly-once over any sequence of calls: what was live and unread is what was delivered, in
      order, followed by what is still live and unread. The code's advance needs counts of at most one. */
  lemma {:induction false} ReadManyExact<R, T>(adv: Advance, f: R -> Option<T>, c: Cursor<R>, counts: seq<nat>)
    requires adv.Scanned? || forall i | 0 <= i < |counts| :: counts[i] <= 1
    ensures var (c', out) := ReadMany(adv, f, c, counts);
            Produce(f, Unread(c)) == out + Produce(f, Unread(c'))
    decreases counts
  {
    hide Produce, Unread, ReadFrom;
    if counts == [] {
      ConcatNil(Produce(f, Unread(c)));
    } else {
      var o := ReadFrom(adv, f, c, counts[0], 0);
      ReadLossless(adv, f, c, counts[0]);
      ReadManyExact(adv, f, o.cursor, counts[1..]);
      var (c', out) := ReadMany(adv, f, o.cursor, counts[1..]);
      ConcatAssoc(o.delivered, out, Produce(f, Unread(c')));
    }
  }

  // ----- draining a scan ---------------------------------------------------------------------------

  /** Calls for `count` entries until the scan is finished, as ScanAvroMetadata, InitializeFiles and
      ProcessDeletes do. */
  function Drain<R, T>(adv: Advance, f: R -> Option<T>, c: Cursor<R>, count: nat): seq<T>
    requires count > 0
    decreases Size(c)
  {
    var o := ReadFrom(adv, f, c, count, 0);
    if o.finished then o.delivered
    else
      ReadProgress(adv, f, c, count, 0, o);
      o.delivered + Drain(adv, f, o.cursor, count)
  }

  /** With the intended advance, draining yields every live row once and in order. */
  lemma {:induction false} DrainExact<R, T>(f: R -> Option<T>, c: Cursor<R>, count: nat)
    requires count > 0
    ensures Drain(Scanned, f, c, count) == Produce(f, Unread(c))
    decreases Size(c)
  {
    var o := ReadFrom(Scanned, f, c, count, 0);
    ReadLossless(Scanned, f, c, count);
    DeliveredCount(Scanned, f, c, count, 0, o);
    if o.finished {
      ConcatNil(o.delivered);
    } else {
      ReadProgress(Scanned, f, c, count, 0, o);
      DrainExact(f, o.cursor, count);
    }
  }

  /** A call delivers nothing that was not unread. */
  lemma {:induction false} DeliveredWithin<R, T>(adv: Advance, f: R -> Option<T>, c: Cursor<R>, count: nat, scanned: nat,
                                                 o: Outcome<R, T>, t: T)
    requires o == ReadFrom(adv, f, c, count, scanned)
    requires t in o.delivered || t in Produce(f, Unread(o.cursor))
    ensures t in Produce(f, Unread(c))
    decreases |c.rest|, |c.ahead|
  {
    hide Produce;
    if scanned < count {
      if c.ahead != [] {
        var taken, next := Taken(c, count, scanned), Step(adv, c, count, scanned);
        var tail := ReadFrom(adv, f, next, count, scanned + |Produce(f, taken)|);
        UnreadStep(adv, c, count, scanned);
        ProduceConcat(f, taken, Jumped(adv, c, count, scanned) + Unread(next));
        ProduceConcat(f, Jumped(adv, c, count, scanned), Unread(next));
        if t !in Produce(f, taken) {
          DeliveredWithin(adv, f, next, count, scanned + |Produce(f, taken)|, tail, t);
        }
      } else if c.rest != [] {
        UnreadNext(c);
        DeliveredWithin(adv, f, NextChunk(c), count, scanned, o, t);
      }
    }
  }

  /** A drain by either advance yields live rows only. */
  lemma {:induction false} DrainWithin<R, T>(adv: Advance, f: R -> Option<T>, c: Cursor<R>, count: nat, t: T)
    requires count > 0 && t in Drain(adv, f, c, count)
    ensures t in Produce(f, Unread(c))
    decreases Size(c)
  {
    hide Produce, Unread, ReadFrom;
    var o := ReadFrom(adv, f, c, count, 0);
    ReadProgress(adv, f, c, count, 0, o);
    if t !in o.delivered {
      DrainWithin(adv, f, o.cursor, count, t);
    }
    DeliveredWithin(adv, f, c, count, 0, o, t);
  }

  /** What is still drained when a call has already produced `acc` entries at a chunk boundary. */
  function DrainOn<R, T>(adv: Advance, f: R -> Option<T>, rest: seq<seq<R>>, count: nat, acc: nat): seq<T>
    requires acc < count
  {
    var o := ReadFrom(adv, f, Cursor([], rest), count, acc);
    if o.finished then o.delivered else o.delivered + Drain(adv, f, o.cursor, count)
  }

  lemma DrainOnStart<R, T>(f: R -> Option<T>, chunks: Chunks<R>, count: nat)
    requires count > 0
    ensures DrainOn(Requested, f, chunks, count, 0) == Drain(Requested, f, AtStart(chunks), count)
  {
  }

  function Restart(acc: nat, count: nat): nat {
    if acc < count then acc else 0
  }

  /** The chunk sizes and live rows line up: whenever a call meets a chunk that holds more rows than
      the call still wants, the surplus holds no live row. */
  predicate Aligned<R, T>(f: R -> Option<T>, rest: seq<seq<R>>, count: nat, acc: nat)
    requires acc < count
  {
    rest == [] ||
    var take := Min(|rest[0]|, count - acc);
    && Produce(f, rest[0][take..]) == []
    && Aligned(f, rest[1..], count, Restart(acc + |Produce(f, rest[0][..take])|, count))
  }

  /** One chunk of a drain by the code, when chunks are no larger than the count asked for. */
  lemma DrainOnChunk<R, T>(f: R -> Option<T>, rest: seq<seq<R>>, count: nat, acc: nat)
    requires acc < count && rest != [] && 0 < |rest[0]| <= count
    ensures var out := Produce(f, rest[0][..Min(|rest[0]|, count - acc)]);
            DrainOn(Requested, f, rest, count, acc) ==
            out + DrainOn(Requested, f, rest[1..], count, Restart(acc + |out|, count))
  {
    var c := Cursor(rest[0], rest[1..]);
    var out := Produce(f, Taken(c, count, acc));
    var next := Step(Requested, c, count, acc);
    assert next == Cursor([], rest[1..]);
    var o := ReadFrom(Requested, f, next, count, acc + |out|);
    assert ReadFrom(Requested, f, c, count, acc) == Outcome(o.cursor, out + o.delivered, Jumped(Requested, c, count, acc) + o.dropped, o.finished);
    if acc + |out| < count {
      if !o.finished {
        ConcatAssoc(out, o.delivered, Drain(Requested, f, o.cursor, count));
      }
    } else {
      assert o == Outcome(next, [], [], false);
      ConcatNil(out);
    }
  }

  /** The exact condition for the code's drain to be complete. */
  lemma {:induction false} DrainOnExactIff<R, T>(f: R -> Option<T>, rest: seq<seq<R>>, count: nat, acc: nat)
    requires acc < count
    requires forall i | 0 <= i < |rest| :: 0 < |rest[i]| <= count
    ensures var drained, live := DrainOn(Requested, f, rest, count, acc), Produce(f, Flatten(rest));
            && |drained| <= |live|
            && (drained == live <==> Aligned(f, rest, count, acc))
            && (|drained| == |live| ==> drained == live)
  {
    if rest != [] {
      var take := Min(|rest[0]|, count - acc);
      var out, surplus := Produce(f, rest[0][..take]), Produce(f, rest[0][take..]);
      var acc' := Restart(acc + |out|, count);
      DrainOnChunk(f, rest, count, acc);
      DrainOnExactIff(f, rest[1..], count, acc');
      ProduceConcat(f, rest[0], Flatten(rest[1..]));
      assert rest[0] == rest[0][..take] + rest[0][take..];
      ProduceConcat(f, rest[0][..take], rest[0][take..]);
      SurplusIff(out, surplus, DrainOn(Requested, f, rest[1..], count, acc'), Produce(f, Flatten(rest[1..])));
    }
  }

  lemma SurplusIff<T>(out: seq<T>, surplus: seq<T>, drained: seq<T>, live: seq<T>)
    requires |drained| <= |live| && (|drained| == |live| ==> drained == live)
    ensures |out + drained| <= |out + surplus + live|
    ensures out + drained == out + surplus + live <==> surplus == [] && drained == live
    ensures |out + drained| == |out + surplus + live| ==> out + drained == out + surplus + live
  {
    ConcatNil(out);
    ConcatCancel(out, drained, live);
  }

  /** The code's drain yields every live row exactly when the chunks are aligned. */
  lemma DrainExactIff<R, T>(f: R -> Option<T>, chunks: Chunks<R>, count: nat)
    requires count > 0
    requires forall i | 0 <= i < |chunks| :: |chunks[i]| <= count
    ensures Drain(Requested, f, AtStart(chunks), count) == Produce(f, Flatten(chunks)) <==> Aligned(f, chunks, count, 0)
  {
    DrainOnExactIff(f, chunks, count, 0);
  }

  /** A producer that skips nothing drains a scan of full chunks, the last one possibly short, completely. */
  lemma {:induction false} FullChunksAligned<R, T>(f: R -> Option<T>, chunks: seq<seq<R>>, count: nat)
    requires count > 0
    requires forall r: R :: f(r).Some?
    requires forall i | 0 <= i < |chunks| - 1 :: |chunks[i]| == count
    requires chunks != [] ==> |chunks[|chunks| - 1]| <= count
    ensures Aligned(f, chunks, count, 0)
  {
    if |chunks| == 1 {
      assert chunks[0][|chunks[0]|..] == [];
    } else if |chunks| > 1 {
      assert chunks[0][..count] == chunks[0] && chunks[0][count..] == [];
      ProduceAll(f, chunks[0]);
      FullChunksAligned(f, chunks[1..], count);
    }
  }

  /** A short chunk before a full one is not aligned, so the code's drain loses rows. */
  lemma ShortThenFull<R, T>(f: R -> Option<T>, first: R, full: seq<R>, count: nat)
    requires count >= 2 && |full| == count && f(first).Some? && f(full[count - 1]).Some?
    ensures !Aligned(f, [[first], full], count, 0)
    ensures Drain(Requested, f, AtStart([[first], full]), count) != Produce(f, [first] + full)
  {
    hide Drain, Produce;
    var chunks: Chunks<R> := [[first], full];
    assert chunks[0][..1] == [first] && chunks[1..] == [full];
    ProduceOne(f, first);
    assert full[count - 1..] == [full[count - 1]];
    ProduceOne(f, full[count - 1]);
    assert !Aligned(f, [full], count, 1);
    DrainExactIff(f, chunks, count);
    assert Flatten(chunks) == [first] + full by {
      ConcatNil(full);
      assert Flatten([full]) == full by { assert [full][1..] == []; }
    }
  }

  lemma {:induction false} ProduceAll<R, T>(f: R -> Option<T>, rows: seq<R>)
    requires forall r: R :: f(r).Some?
    ensures |Produce(f, rows)| == |rows|
  {
    if rows != [] {
      ProduceAll(f, rows[1..]);
    }
  }
}

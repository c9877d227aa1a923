/** The resumable reader over one Avro file, and the drain loop over a whole file. */
module ManifestReaders {
  import opened Basics
  import opened Manifests
  import opened ReadCursor

  /** `AvroScan`: a file as the chunks it still has to hand out. */
  class AvroScan<R> {
    var chunks: Chunks<R>
    var finished: bool

    constructor (chunks: Chunks<R>)
      ensures this.chunks == chunks && !finished
    {
      this.chunks, finished := chunks, false;
    }

    method GetNext() returns (result: seq<R>, more: bool)
      modifies this
      ensures old(chunks) != [] ==>
                && result == old(chunks)[0] && chunks == old(chunks)[1..]
                && finished == old(finished) && more
      ensures old(chunks) == [] ==> result == [] && chunks == [] && finished && !more
    {
      if chunks == [] {
        result := [];
      } else {
        result, chunks := chunks[0], chunks[1..];
      }
      more := |result| != 0;
      if !more {
        finished := true;
      }
    }
  }

  function CursorAt<R>(chunk: seq<R>, offset: nat, rest: seq<seq<R>>): Cursor<R> {
    Cursor(if offset < |chunk| then chunk[offset..] else [], rest)
  }

  /** One iteration in the reader's own terms: a chunk, an offset and `to_scan`. */
  lemma CursorStep<R>(adv: Advance, chunk: seq<R>, offset: nat, rest: seq<seq<R>>, count: nat, scanned: nat)
    requires offset < |chunk| && scanned < count
    ensures var c, toScan := CursorAt(chunk, offset, rest), Min(|chunk| - offset, count - scanned);
            && Taken(c, count, scanned) == chunk[offset..offset + toScan]
            && Step(adv, c, count, scanned) ==
               CursorAt(chunk, offset + if adv.Requested? then count else toScan, rest)
  {
  }

  /** The call that began at `start` has delivered `delivered` so far and stands at `c`. */
  ghost predicate ReadContinues<R, T>(adv: Advance, f: R -> Option<T>, start: Cursor<R>, count: nat, c: Cursor<R>,
                                      delivered: seq<T>) {
    var whole, o := ReadFrom(adv, f, start, count, 0), ReadFrom(adv, f, c, count, |delivered|);
    whole.cursor == o.cursor && whole.finished == o.finished && whole.delivered == delivered + o.delivered
  }

  lemma ReadBegins<R, T>(adv: Advance, f: R -> Option<T>, start: Cursor<R>, count: nat)
    ensures ReadContinues(adv, f, start, count, start, [])
  {
    ConcatNil(ReadFrom(adv, f, start, count, 0).delivered);
  }

  lemma ReadFetches<R, T>(adv: Advance, f: R -> Option<T>, start: Cursor<R>, count: nat, c: Cursor<R>, delivered: seq<T>)
    requires ReadContinues(adv, f, start, count, c, delivered) && |delivered| < count && c.ahead == []
    ensures c.rest != [] ==> ReadContinues(adv, f, start, count, NextChunk(c), delivered)
    ensures c.rest == [] ==> var whole := ReadFrom(adv, f, start, count, 0);
                             whole.finished && whole.cursor == c && whole.delivered == delivered
  {
    ConcatNil(delivered);
  }

  lemma ReadIterates<R, T>(adv: Advance, f: R -> Option<T>, start: Cursor<R>, count: nat, c: Cursor<R>, delivered: seq<T>)
    requires ReadContinues(adv, f, start, count, c, delivered) && |delivered| < count && c.ahead != []
    ensures ReadContinues(adv, f, start, count, Step(adv, c, count, |delivered|),
                          delivered + Produce(f, Taken(c, count, |delivered|)))
  {
    hide Produce, Taken, Step, Jumped;
    ReadUnfold(adv, f, c, count, |delivered|);
    var out, next := Produce(f, Taken(c, count, |delivered|)), Step(adv, c, count, |delivered|);
    ConcatAssoc(delivered, out, ReadFrom(adv, f, next, count, |delivered| + |out|).delivered);
  }

  lemma ReadEnds<R, T>(adv: Advance, f: R -> Option<T>, start: Cursor<R>, count: nat, c: Cursor<R>, delivered: seq<T>)
    requires ReadContinues(adv, f, start, count, c, delivered) && |delivered| >= count
    ensures var whole := ReadFrom(adv, f, start, count, 0);
            !whole.finished && whole.cursor == c && whole.delivered == delivered
  {
    ConcatNil(delivered);
  }

  class ManifestReader<R> {
    const advance: Advance
    var scan: AvroScan?<R>
    var chunk: seq<R>
    var offset: nat
    var finished: bool

    /** Both `finished` flags always agree, which is why Finished() may ask the scan. */
    ghost predicate Valid()
      reads this, scan
    {
      && finished == (scan == null || scan.finished)
      && (finished ==> Position() == Cursor([], []))
    }

    ghost function Position(): Cursor<R>
      reads this, scan
    {
      CursorAt(chunk, offset, if scan == null then [] else scan.chunks)
    }

    constructor (advance: Advance)
      ensures Valid() && finished && scan == null && this.advance == advance
    {
      this.advance := advance;
      scan, chunk, offset, finished := null, [], 0, true;
    }

    method Initialize(newScan: AvroScan<R>)
      requires !newScan.finished
      modifies this
      ensures Valid() && !finished && scan == newScan && Position() == AtStart(newScan.chunks)
    {
      scan := newScan;
      chunk := [];
      finished := false;
      offset := 0;
    }

    method ReadEntries<T>(count: nat, f: R -> Option<T>, result: seq<T>) returns (scanned: nat, result': seq<T>)
      requires Valid()
      modifies this, scan
      ensures Valid() && scan == old(scan)
      ensures old(finished) ==> finished && scanned == 0 && result' == result
      ensures !old(finished) ==>
                var o := ReadFrom(advance, f, old(Position()), count, 0);
                && Position() == o.cursor && finished == o.finished
                && result' == result + o.delivered && scanned == |o.delivered|
    {
      hide ReadContinues, ReadFrom, Taken, Step, Produce;
      scanned, result' := 0, result;
      if scan == null || finished {
        return;
      }
      ghost var start := Position();
      ghost var c, delivered := start, [];
      ConcatNil(result);
      ReadBegins(advance, f, start, count);
      while scanned < count
        invariant scan == old(scan) && !finished && !scan.finished
        invariant scanned == |delivered| && result' == result + delivered
        invariant c == Position()
        invariant ReadContinues(advance, f, start, count, c, delivered)
        decreases |scan.chunks|, |chunk| - offset
      {
        if offset >= |chunk| {
          ReadFetches(advance, f, start, count, c, delivered);
          var more;
          chunk, more := scan.GetNext();
          if |chunk| == 0 {
            finished := true;
            return;
          }
          offset := 0;
          c := NextChunk(c);
        }
        var remaining := count - scanned;
        var toScan := Min(|chunk| - offset, remaining);
        ghost var out := Produce(f, Taken(c, count, scanned));
        ReadIterates(advance, f, start, count, c, delivered);
        CursorStep(advance, chunk, offset, scan.chunks, count, scanned);
        ConcatAssoc(result, delivered, out);
        c, delivered := Step(advance, c, count, scanned), delivered + out;
        var produced;
        produced, result' := ProduceEntries(chunk, offset, toScan, f, result');
        scanned := scanned + produced;
        offset := offset + match advance { case Requested => count case Scanned => toScan };
      }
      ReadEnds(advance, f, start, count, c, delivered);
    }

    /** Whether the scan has met its end. */
    predicate Finished()
      reads this, scan
    {
      scan == null || scan.finished
    }
  }

  lemma DrainUnfold<R, T>(adv: Advance, f: R -> Option<T>, c: Cursor<R>, count: nat, o: Outcome<R, T>)
    requires count > 0 && o == ReadFrom(adv, f, c, count, 0)
    ensures Drain(adv, f, c, count) == o.delivered + if o.finished then [] else Drain(adv, f, o.cursor, count)
    ensures !o.finished ==> Size(o.cursor) < Size(c)
  {
    ConcatNil(o.delivered);
    ReadProgress(adv, f, c, count, 0, o);
  }

  /** Reads a whole file: the entries its drain delivers. */
  method ScanAvroMetadata<R, T>(advance: Advance, chunks: Chunks<R>, f: R -> Option<T>) returns (ret: seq<T>)
    ensures ret == Drain(advance, f, AtStart(chunks), STANDARD_VECTOR_SIZE)
  {
    hide ReadFrom, Drain;
    var scan := new AvroScan(chunks);
    var reader := new ManifestReader<R>(advance);
    reader.Initialize(scan);
    ret := [];
    ghost var left := Drain(advance, f, AtStart(chunks), STANDARD_VECTOR_SIZE);
    ConcatNil(left);
    while !reader.Finished()
      invariant reader.Valid() && reader.scan == scan && fresh(reader) && fresh(scan)
      invariant left == if reader.finished then [] else Drain(advance, f, reader.Position(), STANDARD_VECTOR_SIZE)
      invariant ret + left == Drain(advance, f, AtStart(chunks), STANDARD_VECTOR_SIZE)
      decreases !reader.finished, Size(reader.Position())
    {
      ghost var o := ReadFrom(advance, f, reader.Position(), STANDARD_VECTOR_SIZE, 0);
      DrainUnfold(advance, f, reader.Position(), STANDARD_VECTOR_SIZE, o);
      left := if o.finished then [] else Drain(advance, f, o.cursor, STANDARD_VECTOR_SIZE);
      ConcatAssoc(ret, o.delivered, left);
      var scanned;
      scanned, ret := reader.ReadEntries(STANDARD_VECTOR_SIZE, f, ret);
    }
    ConcatNil(ret);
  }
}

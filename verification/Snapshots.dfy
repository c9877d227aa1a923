/** Choosing a snapshot: the latest, one by id, or the one valid at a timestamp. */
module Snapshots {
  import opened Basics

  type UInt64 = x: int | 0 <= x < 0x1_0000_0000_0000_0000
  type Int64 = x: int | -0x8000_0000_0000_0000 <= x < 0x8000_0000_0000_0000

  /** A snapshot object of the metadata file, with the fields the searches read, where present. */
  datatype SnapshotJson = SnapshotJson(id: Option<UInt64>, timestampMs: Option<UInt64>)

  /** The comparison converts the signed milliseconds to unsigned. */
  function AsUnsigned(millis: Int64): UInt64 {
    if millis >= 0 then millis else millis + 0x1_0000_0000_0000_0000
  }

  predicate AllTimed(snapshots: seq<SnapshotJson>) {
    forall i | 0 <= i < |snapshots| :: snapshots[i].timestampMs.Some?
  }

  /** `i` is the last listed of the snapshots with the greatest timestamp not above `bound`. */
  predicate IsLatest(snapshots: seq<SnapshotJson>, bound: UInt64, i: nat)
    requires AllTimed(snapshots) && i < |snapshots|
  {
    && snapshots[i].timestampMs.value <= bound
    && forall j | 0 <= j < |snapshots| && snapshots[j].timestampMs.value <= bound ::
         snapshots[j].timestampMs.value < snapshots[i].timestampMs.value ||
         (snapshots[j].timestampMs.value == snapshots[i].timestampMs.value && j <= i)
  }

  /** The answer at `bound`: the latest snapshot up to it, or none when every snapshot is later. */
  predicate Answers(snapshots: seq<SnapshotJson>, bound: UInt64, r: Option<nat>)
    requires AllTimed(snapshots)
  {
    match r
    case Some(i) => i < |snapshots| && IsLatest(snapshots, bound, i)
    case None => forall j | 0 <= j < |snapshots| :: snapshots[j].timestampMs.value > bound
  }

  const MAX_UINT64: UInt64 := 0xffff_ffff_ffff_ffff

  method FindLatestSnapshot(snapshots: seq<SnapshotJson>) returns (r: Result<Option<nat>, Error>)
    ensures r.Success? <==> AllTimed(snapshots)
    ensures r.Success? ==> Answers(snapshots, MAX_UINT64, r.value)
    ensures r.Failure? ==> r.error == MissingField
  {
    var maxTimestamp: UInt64 := 0;
    var maxSnapshot: Option<nat> := None;
    for i := 0 to |snapshots|
      invariant AllTimed(snapshots[..i])
      invariant Answers(snapshots[..i], MAX_UINT64, maxSnapshot)
      invariant maxTimestamp == match maxSnapshot { case None => 0 case Some(k) => snapshots[k].timestampMs.value }
    {
      TakeSnoc(snapshots, i);
      match snapshots[i].timestampMs {
        case None => return Failure(MissingField);
        case Some(timestamp) =>
          if timestamp >= maxTimestamp {
            maxTimestamp := timestamp;
            maxSnapshot := Some(i);
          }
      }
    }
    assert snapshots[..|snapshots|] == snapshots;
    r := Success(maxSnapshot);
  }

  method FindSnapshotByTimestamp(snapshots: seq<SnapshotJson>, millis: Int64) returns (r: Result<Option<nat>, Error>)
    ensures r.Success? <==> AllTimed(snapshots)
    ensures r.Success? ==> Answers(snapshots, AsUnsigned(millis), r.value)
    ensures r.Failure? ==> r.error == MissingField
  {
    var maxMillis: UInt64 := 0;
    var maxSnapshot: Option<nat> := None;
    for i := 0 to |snapshots|
      invariant AllTimed(snapshots[..i])
      invariant Answers(snapshots[..i], AsUnsigned(millis), maxSnapshot)
      invariant maxMillis == match maxSnapshot { case None => 0 case Some(k) => snapshots[k].timestampMs.value }
    {
      TakeSnoc(snapshots, i);
      match snapshots[i].timestampMs {
        case None => return Failure(MissingField);
        case Some(currMillis) =>
          if currMillis <= AsUnsigned(millis) && currMillis >= maxMillis {
            maxSnapshot := Some(i);
            maxMillis := currMillis;
          }
      }
    }
    assert snapshots[..|snapshots|] == snapshots;
    r := Success(maxSnapshot);
  }

  /** The first snapshot with the id; a snapshot without one is an error only if it comes before. */
  method FindSnapshotById(snapshots: seq<SnapshotJson>, targetId: UInt64) returns (r: Result<Option<nat>, Error>)
    ensures r.Success? && r.value.Some? ==>
              var k := r.value.value;
              k < |snapshots| && snapshots[k].id == Some(targetId)
              && forall j | 0 <= j < k :: snapshots[j].id.Some? && snapshots[j].id != Some(targetId)
    ensures r.Success? && r.value.None? ==>
              forall j | 0 <= j < |snapshots| :: snapshots[j].id.Some? && snapshots[j].id != Some(targetId)
    ensures r.Failure? ==>
              r.error == MissingField && exists k | 0 <= k < |snapshots| ::
                snapshots[k].id.None? && forall j | 0 <= j < k :: snapshots[j].id != Some(targetId)
  {
    for i := 0 to |snapshots|
      invariant forall j | 0 <= j < i :: snapshots[j].id.Some? && snapshots[j].id != Some(targetId)
    {
      match snapshots[i].id {
        case None => return Failure(MissingField);
        case Some(id) =>
          if id == targetId {
            return Success(Some(i));
          }
      }
    }
    r := Success(None);
  }

  // ----- time travel ---------------------------------------------------------------------------------

  lemma AnswerUnique(snapshots: seq<SnapshotJson>, bound: UInt64, r: Option<nat>, r': Option<nat>)
    requires AllTimed(snapshots) && Answers(snapshots, bound, r) && Answers(snapshots, bound, r')
    ensures r == r'
  {
  }

  /** For a timestamp that is not negative: later questions have later answers, asking again at the
      answer's own time gives it back, and from the newest timestamp on the answer is the latest snapshot. */
  lemma TimeTravel(snapshots: seq<SnapshotJson>, t: Int64, t': Int64, r: Option<nat>, r': Option<nat>, latest: Option<nat>)
    requires AllTimed(snapshots) && 0 <= t <= t'
    requires Answers(snapshots, AsUnsigned(t), r) && Answers(snapshots, AsUnsigned(t'), r')
    requires Answers(snapshots, MAX_UINT64, latest)
    ensures r.Some? ==> snapshots[r.value].timestampMs.value <= t
    ensures r.Some? ==> r'.Some? && snapshots[r.value].timestampMs.value <= snapshots[r'.value].timestampMs.value
    ensures r.Some? ==> Answers(snapshots, snapshots[r.value].timestampMs.value, r)
    ensures (forall j | 0 <= j < |snapshots| :: snapshots[j].timestampMs.value <= t) ==> r == latest
  {
    if r.Some? {
      assert snapshots[r.value].timestampMs.value <= t';
    }
    if forall j | 0 <= j < |snapshots| :: snapshots[j].timestampMs.value <= t {
      assert Answers(snapshots, MAX_UINT64, r);
      AnswerUnique(snapshots, MAX_UINT64, r, latest);
    }
  }

  /** Before the epoch the right answer is none, as no timestamp is negative; the conversion to unsigned
      gives it exactly when every stored timestamp is above the wrapped bound. */
  lemma NegativeTimeIff(snapshots: seq<SnapshotJson>, t: Int64, r: Option<nat>)
    requires AllTimed(snapshots) && t < 0 && Answers(snapshots, AsUnsigned(t), r)
    ensures r == None <==> forall j | 0 <= j < |snapshots| :: snapshots[j].timestampMs.value > t + 0x1_0000_0000_0000_0000
    ensures snapshots != [] && (forall j | 0 <= j < |snapshots| :: snapshots[j].timestampMs.value < 0x8000_0000_0000_0000) ==>
              r.Some? && Answers(snapshots, MAX_UINT64, r)
  {
    if r.Some? {
      assert snapshots[r.value].timestampMs.value <= AsUnsigned(t);
    }
    if snapshots != [] {
      assert snapshots[0].timestampMs.value < 0x8000_0000_0000_0000 ==> snapshots[0].timestampMs.value <= AsUnsigned(t);
    }
  }
}

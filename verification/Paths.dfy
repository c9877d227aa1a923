/** Re-rooting of the paths stored in a table that was moved (`allow_moved_paths`). */
module Paths {
  import opened Basics

  const METADATA_DIR: string := "/metadata/"
  const DATA_DIR: string := "/data/"

  predicate OccursAt(s: string, pattern: string, i: nat) {
    i + |pattern| <= |s| && forall k | 0 <= k < |pattern| :: s[i + k] == pattern[k]
  }

  ghost predicate Contains(s: string, pattern: string) {
    exists i: nat :: OccursAt(s, pattern, i)
  }

  /** The last occurrence that starts before `end`. */
  function RFindBelow(s: string, pattern: string, end: nat): (r: Option<nat>)
    ensures r.Some? ==> r.value < end && OccursAt(s, pattern, r.value)
    ensures forall i | (if r.Some? then r.value + 1 else 0) <= i < end :: !OccursAt(s, pattern, i)
  {
    if end == 0 then None
    else if OccursAt(s, pattern, end - 1) then Some(end - 1)
    else RFindBelow(s, pattern, end - 1)
  }

  function RFind(s: string, pattern: string): (r: Option<nat>)
    ensures r.Some? ==> OccursAt(s, pattern, r.value)
    ensures forall i: nat | r.Some? ==> r.value < i :: !OccursAt(s, pattern, i) || pattern == ""
  {
    RFindBelow(s, pattern, |s| + 1)
  }

  function JoinPath(a: string, b: string): string {
    a + "/" + b
  }

  function GetFullPath(root: string, path: string): Result<string, Error> {
    match RFind(path, METADATA_DIR)
    case Some(found) => Success(JoinPath(root, path[found + 1..]))
    case None =>
      match RFind(path, DATA_DIR)
      case Some(found) => Success(JoinPath(root, path[found + 1..]))
      case None => Failure(UnrecognisedPath)
  }

  /** How the planner opens a stored path. */
  function Resolve(allowMoved: bool, root: string, path: string): Result<string, Error> {
    if allowMoved then GetFullPath(root, path) else Success(path)
  }

  lemma FoundIsLast(s: string, pattern: string, i: nat)
    requires pattern != "" && OccursAt(s, pattern, i)
    requires forall j: nat | i < j :: !OccursAt(s, pattern, j)
    ensures RFind(s, pattern) == Some(i)
  {
  }

  /** Re-rooting replaces what precedes the last occurrence, and that occurrence stays the last. */
  lemma RootedFinds(root: string, p: string, pattern: string, i: nat)
    requires pattern != "" && pattern[0] == '/'
    requires RFind(p, pattern) == Some(i)
    ensures JoinPath(root, p[i + 1..]) == root + p[i..]
    ensures RFind(root + p[i..], pattern) == Some(|root|)
  {
    var q := root + p[i..];
    assert p[i + 0] == '/';
    assert p[i..] == "/" + p[i + 1..];
    assert OccursAt(q, pattern, |root|);
    forall j: nat | |root| < j ensures !OccursAt(q, pattern, j) {
      assert !OccursAt(p, pattern, i + (j - |root|));
      if j + |pattern| <= |q| {
        var shift := i - |root|;
        assert forall k | j <= k < j + |pattern| :: q[k] == p[shift + k];
      }
    }
    FoundIsLast(q, pattern, |root|);
  }

  lemma OccursInTail(root: string, tail: string, pattern: string, j: nat)
    requires OccursAt(root + tail, pattern, j) && j >= |root|
    ensures OccursAt(tail, pattern, j - |root|)
  {
    assert tail == (root + tail)[|root|..];
  }

  /** The only slash of `/metadata/` after its first is its last character. */
  lemma SlashEnds(q: string, j: nat, slash: nat)
    requires OccursAt(q, METADATA_DIR, j) && j < slash < |q| && q[slash] == '/'
    ensures j + 9 <= slash
  {
    var k := slash - j;
    assert forall i | 0 < i < 9 :: METADATA_DIR[i] != '/';
    assert k < |METADATA_DIR| ==> q[j + k] == METADATA_DIR[k];
  }

  /** A `/metadata/` in a path re-rooted at a `/` can only lie in the root and that slash. */
  lemma SlashStopsPattern(root: string, tail: string)
    requires tail != "" && tail[0] == '/' && !Contains(tail, METADATA_DIR)
    ensures Contains(root + tail, METADATA_DIR) <==> Contains(root + "/", METADATA_DIR)
  {
    var q, r := root + tail, root + "/";
    forall j: nat | OccursAt(q, METADATA_DIR, j) ensures OccursAt(r, METADATA_DIR, j) {
      if j >= |root| {
        OccursInTail(root, tail, METADATA_DIR, j);
      }
      SlashEnds(q, j, |root|);
      forall k | 0 <= k < |METADATA_DIR| ensures r[j + k] == METADATA_DIR[k] {
        assert q[j + k] == METADATA_DIR[k];
      }
    }
    forall j: nat | OccursAt(r, METADATA_DIR, j) ensures OccursAt(q, METADATA_DIR, j) {
      forall k | 0 <= k < |METADATA_DIR| ensures q[j + k] == METADATA_DIR[k] {
        assert r[j + k] == METADATA_DIR[k];
      }
    }
    if i: nat :| OccursAt(q, METADATA_DIR, i) {
      assert OccursAt(r, METADATA_DIR, i);
    }
    if i: nat :| OccursAt(r, METADATA_DIR, i) {
      assert OccursAt(q, METADATA_DIR, i);
    }
  }

  /** What re-rooting does: it keeps the path from the last `/metadata/` on, or if there is none from the
      last `/data/` on, below the new root. */
  lemma FullPathIs(root: string, before: string, dir: string, rest: string)
    requires dir == "/metadata/" || (dir == "/data/" && !Contains(before + (dir + rest), "/metadata/"))
    requires forall i: nat | |before| < i :: !OccursAt(before + (dir + rest), dir, i)
    ensures GetFullPath(root, before + (dir + rest)) == Success(root + (dir + rest))
  {
    var path := before + (dir + rest);
    assert path[|before|..] == dir + rest;
    assert OccursAt(path, dir, |before|);
    FoundIsLast(path, dir, |before|);
    RootedFinds(root, path, dir, |before|);
  }

  /** It fails exactly for a path with neither. */
  lemma FullPathFailsIff(root: string, path: string)
    ensures GetFullPath(root, path).Failure? <==> !Contains(path, "/metadata/") && !Contains(path, "/data/")
  {
    FindsIff(path, METADATA_DIR);
    FindsIff(path, DATA_DIR);
  }

  lemma FindsIff(s: string, pattern: string)
    requires pattern != ""
    ensures RFind(s, pattern).Some? <==> Contains(s, pattern)
  {
    if i: nat :| OccursAt(s, pattern, i) {
      assert i < |s|;
    }
  }

  /** The last root wins: moving a table twice is moving it once, exactly when the path names a
      metadata file or the first root does not itself end inside a metadata directory; else the path grows. */
  lemma LastRootWinsIff(newRoot: string, oldRoot: string, p: string)
    requires GetFullPath(oldRoot, p).Success?
    ensures GetFullPath(newRoot, GetFullPath(oldRoot, p).value) == GetFullPath(newRoot, p)
            <==> Contains(p, METADATA_DIR) || !Contains(oldRoot + "/", METADATA_DIR)
    ensures var twice, once := GetFullPath(newRoot, GetFullPath(oldRoot, p).value), GetFullPath(newRoot, p);
            twice.Success? && once.Success? && (twice == once || |twice.value| > |once.value|)
  {
    match RFind(p, METADATA_DIR) {
      case Some(i) =>
        RootedFinds(oldRoot, p, METADATA_DIR, i);
        SameTail(newRoot, oldRoot, p, i);
      case None =>
        var i := RFind(p, DATA_DIR).value;
        RootedFinds(oldRoot, p, DATA_DIR, i);
        var q := oldRoot + p[i..];
        NotInTail(p, METADATA_DIR, i);
        SlashStopsPattern(oldRoot, p[i..]);
        match RFind(q, METADATA_DIR) {
          case None =>
            SameTail(newRoot, oldRoot, p, i);
          case Some(j) =>
            StartsInRoot(oldRoot, p[i..], METADATA_DIR, j);
            assert |JoinPath(newRoot, q[j + 1..])| > |JoinPath(newRoot, p[i + 1..])|;
        }
    }
  }

  lemma NotInTail(p: string, pattern: string, i: nat)
    requires i <= |p| && !Contains(p, pattern)
    ensures !Contains(p[i..], pattern)
  {
    forall j: nat ensures OccursAt(p[i..], pattern, j) ==> OccursAt(p, pattern, i + j) {
    }
  }

  /** An occurrence in a re-rooted path that is not in its tail starts in the root. */
  lemma StartsInRoot(root: string, tail: string, pattern: string, j: nat)
    requires OccursAt(root + tail, pattern, j) && !Contains(tail, pattern)
    ensures j < |root| && Contains(root + tail, pattern)
  {
    if j >= |root| {
      OccursInTail(root, tail, pattern, j);
    }
  }

  lemma SameTail(newRoot: string, oldRoot: string, p: string, i: nat)
    requires i < |p|
    ensures (oldRoot + p[i..])[|oldRoot| + 1..] == p[i + 1..]
  {
  }
}

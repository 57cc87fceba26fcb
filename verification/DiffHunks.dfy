/** Which regions a diff has: one for each of its hunks, no larger than the lines the hunk deletes. */
module DiffHunks {

  import opened Basics
  import opened DiffRegions

  // ---- Hunks ----

  /** The operations before the first kept line. */
  function Leading(script: seq<Op>): (h: seq<Op>)
    ensures h <= script && (|h| < |script| ==> script[|h|].Keep?)
  {
    if script == [] || script[0].Keep? then [] else [script[0]] + Leading(script[1..])
  }

  function Deletions(h: seq<Op>): nat {
    if h == [] then 0 else Deletions(h[..|h| - 1]) + if h[|h| - 1].Delete? then 1 else 0
  }

  function Insertions(h: seq<Op>): seq<string> {
    if h == [] then []
    else Insertions(h[..|h| - 1]) + if h[|h| - 1].Insert? then [h[|h| - 1].text] else []
  }

  /** The regions of a diff that starts at the given line. A hunk that deletes lines replaces exactly those by what it
      inserts; one that only inserts replaces the kept line behind it by the insertion and that line, and has no region
      if there is no such line. */
  ghost function Hunks(script: seq<Op>, line: nat): seq<Region>
    decreases |script|
  {
    var h := Leading(script);
    var rest := script[|h|..];
    if rest == [] then HunkRegion(h, line, None)
    else HunkRegion(h, line, Some(rest[0].text)) + Hunks(rest[1..], line + Deletions(h) + 1)
  }

  ghost function HunkRegion(h: seq<Op>, line: nat, kept: Option<string>): seq<Region> {
    if Deletions(h) > 0 then [Region(line, line + Deletions(h) - 1, Join(Insertions(h)))]
    else if Insertions(h) != [] && kept.Some? then [Region(line, line, Join(Insertions(h)) + kept.value)]
    else []
  }

  // ---- The scan, hunk by hunk ----

  function ScanFrom(s: Scan, script: seq<Op>): Scan
    decreases |script|
  {
    if script == [] then s else ScanFrom(Step(s, script[0]), script[1..])
  }

  lemma {:induction false} ScanConcat(s: Scan, a: seq<Op>, b: seq<Op>)
    ensures ScanFrom(s, a + b) == ScanFrom(ScanFrom(s, a), b)
    decreases |a|
  {
    hide Step;
    if a == [] {
      assert a + b == b;
    } else {
      ScanConcat(Step(s, a[0]), a[1..], b);
      assert (a + b)[0] == a[0] && (a + b)[1..] == a[1..] + b;
    }
  }

  lemma {:induction false} ScanOne(s: Scan, op: Op)
    ensures ScanFrom(s, [op]) == Step(s, op)
  {
    hide Step;
    assert [op][1..] == [];
  }

  lemma {:induction false} SameScan(script: seq<Op>)
    ensures ScanAll(script) == ScanFrom(Scan(1, None, 0, None, []), script)
  {
    hide Step;
    if script == [] {
    } else {
      var n := |script| - 1;
      SameScan(script[..n]);
      ScanConcat(Scan(1, None, 0, None, []), script[..n], [script[n]]);
      ScanOne(ScanAll(script[..n]), script[n]);
      assert script[..n] + [script[n]] == script;
    }
  }

  // What the scan knows behind a hunk.
  ghost predicate Behind(s: Scan, t: Scan, h: seq<Op>) {
    && t.lineNum == s.lineNum + Deletions(h) && t.regions == s.regions
    && t.start == (if Deletions(h) > 0 then Some(s.lineNum) else None)
    && (Deletions(h) > 0 ==> t.end == t.lineNum - 1)
    && t.text == if Deletions(h) > 0 || Insertions(h) != [] then Some(Join(Insertions(h))) else None
  }

  lemma {:induction false} ScanHunk(s: Scan, h: seq<Op>)
    requires s.start.None? && s.text.None? && forall i :: 0 <= i < |h| ==> !h[i].Keep?
    ensures Behind(s, ScanFrom(s, h), h)
  {
    if h == [] {
    } else {
      var n := |h| - 1;
      ScanHunk(s, h[..n]);
      hide ScanFrom;
      ScanConcat(s, h[..n], [h[n]]);
      ScanOne(ScanFrom(s, h[..n]), h[n]);
      assert h[..n] + [h[n]] == h;
      BehindNext(s, ScanFrom(s, h[..n]), h);
    }
  }

  lemma {:induction false} BehindNext(s: Scan, t: Scan, h: seq<Op>)
    requires h != [] && !h[|h| - 1].Keep? && Behind(s, t, h[..|h| - 1])
    ensures Behind(s, Step(t, h[|h| - 1]), h)
  {
    var n := |h| - 1;
    assert Join([]) == "";
    if h[n].Insert? {
      JoinNext(Insertions(h[..n]), h[n].text);
    } else {
      assert Insertions(h[..n]) + [] == Insertions(h[..n]);
    }
  }

  lemma {:induction false} LeadingKeepsNone(script: seq<Op>)
    ensures forall i :: 0 <= i < |Leading(script)| ==> !Leading(script)[i].Keep?
  {
    if script == [] || script[0].Keep? {
    } else {
      LeadingKeepsNone(script[1..]);
    }
  }

  // From a line where no hunk is open.
  lemma {:induction false} HunksFrom(s: Scan, script: seq<Op>)
    requires s.start.None? && s.text.None?
    ensures Finish(ScanFrom(s, script)) == s.regions + Hunks(script, s.lineNum)
    decreases |script|
  {
    hide Step, ScanFrom, Behind, Finish, HunkRegion;
    var h := Leading(script);
    var t, rest := ScanFrom(s, h), script[|h|..];
    LeadingKeepsNone(script);
    ScanHunk(s, h);
    assert h + rest == script;
    ScanConcat(s, h, rest);
    if rest == [] {
      NothingMore(t);
      FinishHunk(s, t, h);
    } else {
      assert [rest[0]] + rest[1..] == rest;
      ScanConcat(t, [rest[0]], rest[1..]);
      ScanOne(t, rest[0]);
      KeepHunk(s, t, h, rest[0]);
      HunksFrom(Step(t, rest[0]), rest[1..]);
      Joined(s.regions, HunkRegion(h, s.lineNum, Some(rest[0].text)),
             Hunks(rest[1..], s.lineNum + Deletions(h) + 1));
    }
  }

  lemma {:induction false} Joined(a: seq<Region>, b: seq<Region>, c: seq<Region>)
    ensures a + b + c == a + (b + c)
  {
  }

  lemma {:induction false} NothingMore(s: Scan)
    ensures ScanFrom(s, []) == s
  {
  }

  lemma {:induction false} FinishHunk(s: Scan, t: Scan, h: seq<Op>)
    requires Behind(s, t, h)
    ensures Finish(t) == s.regions + HunkRegion(h, s.lineNum, None)
  {
    hide Join, Insertions, Deletions;
  }

  lemma {:induction false} KeepHunk(s: Scan, t: Scan, h: seq<Op>, keep: Op)
    requires Behind(s, t, h) && keep.Keep?
    ensures var u := Step(t, keep);
      && u.start.None? && u.text.None? && u.lineNum == s.lineNum + Deletions(h) + 1
      && u.regions == s.regions + HunkRegion(h, s.lineNum, Some(keep.text))
  {
    hide Join, Insertions, Deletions;
  }

  /** The walk yields exactly one region per hunk, as small as that. */
  lemma {:induction false} RegionPerHunk(script: seq<Op>)
    ensures Regions(script) == Hunks(script, 1)
  {
    hide ScanAll, ScanFrom, Hunks;
    SameScan(script);
    HunksFrom(Scan(1, None, 0, None, []), script);
    assert [] + Hunks(script, 1) == Hunks(script, 1);
  }
}

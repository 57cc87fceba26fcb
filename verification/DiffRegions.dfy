/** Turning a line diff into replacement regions: the scanning loop of the review generator, and what the
    regions it yields do to the source lines. */
module DiffRegions {

  import opened Basics
  import opened ReviewFixes

  // One line of the diff: kept, removed, added, or a '? ' hint.
  datatype Op = Keep(text: string) | Delete(text: string) | Insert(text: string) | Hint

  /** Lines start to end, counted from 1, are to be replaced by text. */
  datatype Region = Region(start: nat, end: nat, text: string)

  // ---- What the diff says ----

  function Source(script: seq<Op>): seq<string> {
    if script == [] then [] else
    var op := script[|script| - 1];
    Source(script[..|script| - 1]) + (if op.Keep? || op.Delete? then [op.text] else [])
  }

  function Target(script: seq<Op>): seq<string> {
    if script == [] then [] else
    var op := script[|script| - 1];
    Target(script[..|script| - 1]) + (if op.Keep? || op.Insert? then [op.text] else [])
  }

  function Join(lines: seq<string>): string {
    if lines == [] then "" else Join(lines[..|lines| - 1]) + lines[|lines| - 1]
  }

  // Whether the operations after the last kept line delete or insert anything.
  function DeletesLast(script: seq<Op>): bool {
    script != [] &&
    var op := script[|script| - 1];
    op.Delete? || (!op.Keep? && DeletesLast(script[..|script| - 1]))
  }

  function InsertsLast(script: seq<Op>): bool {
    script != [] &&
    var op := script[|script| - 1];
    op.Insert? || (!op.Keep? && InsertsLast(script[..|script| - 1]))
  }

  /** After its last kept line the diff adds lines and removes none. */
  predicate EndsInBareInsertion(script: seq<Op>) { InsertsLast(script) && !DeletesLast(script) }

  // ---- What regions do ----

  // Regions inside the first p lines, in increasing order and disjoint.
  ghost predicate Increasing(regions: seq<Region>, p: int) {
    regions == [] || (
      var r := regions[|regions| - 1];
      1 <= r.start <= r.end <= p && Increasing(regions[..|regions| - 1], r.start - 1))
  }

  // The first p lines with the regions replaced.
  ghost function Apply(lines: seq<string>, regions: seq<Region>, p: nat): string
    requires Increasing(regions, p) && p <= |lines|
  {
    if regions == [] then Join(lines[..p]) else
    var r := regions[|regions| - 1];
    Apply(lines, regions[..|regions| - 1], r.start - 1) + r.text + Join(lines[r.end..p])
  }

  // ---- The scan ----

  datatype Scan = Scan(lineNum: nat, start: Option<nat>, end: nat, text: Option<string>, regions: seq<Region>)

  function Close(s: Scan): Scan
    requires s.start.Some? && s.text.Some?
  {
    s.(regions := s.regions + [Region(s.start.value, s.end, s.text.value)], start := None, text := None)
  }

  function Text(s: Scan): string { if s.text.Some? then s.text.value else "" }

  function Step(s: Scan, op: Op): Scan {
    match op
    case Hint => s
    case Delete(_) =>
      s.(start := Some(if s.start.Some? then s.start.value else s.lineNum), end := s.lineNum,
         text := Some(Text(s)), lineNum := s.lineNum + 1)
    case Insert(line) => s.(text := Some(Text(s) + line))
    case Keep(line) =>
      var closed :=
        if s.text.None? then s
        else if s.start.Some? then Close(s)
        else Close(s.(start := Some(s.lineNum), end := s.lineNum, text := Some(Text(s) + line)));
      closed.(lineNum := s.lineNum + 1)
  }

  function ScanAll(script: seq<Op>): Scan {
    if script == [] then Scan(1, None, 0, None, [])
    else Step(ScanAll(script[..|script| - 1]), script[|script| - 1])
  }

  function Finish(s: Scan): seq<Region> {
    if s.text.Some? && s.start.Some? then Close(s).regions else s.regions
  }

  function Regions(script: seq<Op>): seq<Region> { Finish(ScanAll(script)) }

  /** The diff walk, before a region is checked against the lines the pull request changed. */
  method ScanRegions(script: seq<Op>) returns (regions: seq<Region>)
    ensures regions == Regions(script)
  {
    var lineNum := 1;
    var start: Option<nat>, end, text := None, 0, None;
    regions := [];
    for i := 0 to |script|
      invariant Scan(lineNum, start, end, text, regions) == ScanAll(script[..i])
    {
      assert script[..i + 1][..i] == script[..i];
      ghost var s := Scan(lineNum, start, end, text, regions);
      match script[i] {
        case Hint =>
        case Delete(_) =>
          if start.None? {
            start := Some(lineNum);
          }
          end := lineNum;
          if text.None? {
            text := Some("");
          }
          lineNum := lineNum + 1;
        case Insert(line) =>
          assert "" + line == line;
          text := Some(if text.None? then line else text.value + line);
        case Keep(line) =>
          if text.Some? {
            if start.None? {
              start, end, text := Some(lineNum), lineNum, Some(text.value + line);
            }
            regions := regions + [Region(start.value, end, text.value)];
            start, text := None, None;
          }
          lineNum := lineNum + 1;
      }
      assert Scan(lineNum, start, end, text, regions) == Step(s, script[i]);
    }
    assert script[..|script|] == script;
    if text.Some? && start.Some? {
      regions := regions + [Region(start.value, end, text.value)];
    }
  }

  // ---- The regions rebuild the changed text ----

  lemma {:induction false} Assoc(a: string, b: string, c: string)
    ensures a + b + c == a + (b + c)
  {
  }

  lemma {:induction false} JoinSnoc(lines: seq<string>, k: nat, p: nat)
    requires k <= p < |lines|
    ensures Join(lines[k..p + 1]) == Join(lines[k..p]) + lines[p]
  {
    assert lines[k..p + 1][..p - k] == lines[k..p];
  }

  // One more line after all regions is copied.
  lemma {:induction false} ApplyNext(lines: seq<string>, regions: seq<Region>, p: nat)
    requires Increasing(regions, p) && p < |lines|
    ensures Increasing(regions, p + 1)
    ensures Apply(lines, regions, p + 1) == Apply(lines, regions, p) + lines[p]
  {
    if regions == [] {
      assert lines[..p + 1][..p] == lines[..p];
    } else {
      var r := regions[|regions| - 1];
      JoinSnoc(lines, r.end, p);
      Assoc(Apply(lines, regions[..|regions| - 1], r.start - 1) + r.text, Join(lines[r.end..p]), lines[p]);
    }
  }

  // A region that ends with the lines read so far contributes its text.
  lemma {:induction false} ApplyRegion(lines: seq<string>, regions: seq<Region>, r: Region, p: nat)
    requires 1 <= r.start <= r.end == p <= |lines| && Increasing(regions, r.start - 1)
    ensures Increasing(regions + [r], p)
    ensures Apply(lines, regions + [r], p) == Apply(lines, regions, r.start - 1) + r.text
  {
    assert (regions + [r])[..|regions|] == regions;
    assert lines[r.end..p] == [];
  }

  // Everything before this line is settled.
  function Settled(s: Scan): int { (if s.start.Some? then s.start.value else s.lineNum) - 1 }

  ghost predicate Sound(lines: seq<string>, s: Scan, target: string) {
    && 0 <= Settled(s) < s.lineNum <= |lines| + 1
    && (s.start.Some? ==> s.text.Some? && Settled(s) < s.end == s.lineNum - 1)
    && Increasing(s.regions, Settled(s))
    && Apply(lines, s.regions, Settled(s)) + Text(s) == target
  }

  lemma {:induction false} SoundClose(lines: seq<string>, s: Scan, target: string)
    requires Sound(lines, s, target) && s.start.Some?
    ensures Sound(lines, Close(s), target)
  {
    ApplyRegion(lines, s.regions, Region(s.start.value, s.end, s.text.value), s.end);
    assert target + "" == target;
  }

  lemma {:induction false} SoundHint(lines: seq<string>, s: Scan, target: string)
    requires Sound(lines, s, target)
    ensures Sound(lines, Step(s, Hint), target)
  {
  }

  lemma {:induction false} SoundInsert(lines: seq<string>, s: Scan, target: string, line: string)
    requires Sound(lines, s, target)
    ensures Sound(lines, Step(s, Insert(line)), target + line)
  {
    Assoc(Apply(lines, s.regions, Settled(s)), Text(s), line);
  }

  lemma {:induction false} SoundDelete(lines: seq<string>, s: Scan, target: string, line: string)
    requires Sound(lines, s, target) && s.lineNum <= |lines|
    ensures Sound(lines, Step(s, Delete(line)), target)
  {
  }

  // A kept line closes a region, or goes into the region of a bare insertion before it.
  lemma {:induction false} SoundKeep(lines: seq<string>, s: Scan, target: string, line: string)
    requires Sound(lines, s, target) && s.lineNum <= |lines| && lines[s.lineNum - 1] == line
    ensures Sound(lines, Step(s, Keep(line)), target + line)
  {
    hide Sound;
    if s.text.None? {
      SoundNext(lines, s, target, line);
    } else if s.start.Some? {
      SoundClose(lines, s, target);
      SoundNext(lines, Close(s), target, line);
    } else {
      SoundBegin(lines, s, target, line);
      SoundClose(lines, Begin(s, line), target + line);
    }
  }

  // The one-line region made for a bare insertion.
  function Begin(s: Scan, line: string): Scan {
    s.(start := Some(s.lineNum), end := s.lineNum, text := Some(Text(s) + line), lineNum := s.lineNum + 1)
  }

  lemma {:induction false} SoundBegin(lines: seq<string>, s: Scan, target: string, line: string)
    requires Sound(lines, s, target) && s.start.None? && s.lineNum <= |lines|
    ensures Sound(lines, Begin(s, line), target + line)
  {
    Assoc(Apply(lines, s.regions, Settled(s)), Text(s), line);
  }

  lemma {:induction false} SoundNext(lines: seq<string>, s: Scan, target: string, line: string)
    requires Sound(lines, s, target) && s.text.None? && s.lineNum <= |lines| && lines[s.lineNum - 1] == line
    ensures Sound(lines, s.(lineNum := s.lineNum + 1), target + line)
  {
    ApplyNext(lines, s.regions, s.lineNum - 1);
    var applied := Apply(lines, s.regions, s.lineNum - 1);
    assert applied + "" == applied && applied + line + "" == applied + line;
  }

  lemma {:induction false} ScanShape(script: seq<Op>)
    ensures ScanAll(script).lineNum == |Source(script)| + 1
    ensures ScanAll(script).start.Some? <==> DeletesLast(script)
    ensures ScanAll(script).text.Some? <==> DeletesLast(script) || InsertsLast(script)
  {
    if script == [] {
    } else {
      ScanShape(script[..|script| - 1]);
    }
  }

  lemma {:induction false} ScanSound(script: seq<Op>, lines: seq<string>)
    requires Source(script) <= lines
    ensures Sound(lines, ScanAll(script), Join(Target(script)))
  {
    hide Sound, Step;
    if script == [] {
      SoundStart(lines);
    } else {
      var front, op := script[..|script| - 1], script[|script| - 1];
      ScanShape(front);
      ScanSound(front, lines);
      var target, s := Join(Target(front)), ScanAll(front);
      match op
      case Hint =>
        SoundHint(lines, s, target);
        assert Target(script) == Target(front);
      case Insert(line) =>
        SoundInsert(lines, s, target, line);
        assert Target(script)[..|Target(front)|] == Target(front);
      case Delete(line) =>
        SoundDelete(lines, s, target, line);
        assert Target(script) == Target(front);
      case Keep(line) =>
        SoundKeep(lines, s, target, line);
        assert Target(script)[..|Target(front)|] == Target(front);
    }
  }

  lemma {:induction false} SoundStart(lines: seq<string>)
    ensures Sound(lines, Scan(1, None, 0, None, []), "")
  {
    assert lines[..0] == [];
  }

  // The text that a bare insertion at the end leaves pending is not empty.
  lemma {:induction false} PendingText(script: seq<Op>)
    requires forall i :: 0 <= i < |script| && script[i].Insert? ==> script[i].text != ""
    ensures InsertsLast(script) ==> Text(ScanAll(script)) != ""
  {
    if script == [] {
    } else {
      PendingText(script[..|script| - 1]);
    }
  }

  /** The regions of any diff are disjoint, increasing and inside the source; applied to the source lines they
      rebuild the changed text exactly when the diff does not end in a bare insertion. */
  lemma {:induction false} RegionsRebuild(script: seq<Op>)
    requires forall i :: 0 <= i < |script| && script[i].Insert? ==> script[i].text != ""
    ensures Increasing(Regions(script), |Source(script)|)
    ensures Apply(Source(script), Regions(script), |Source(script)|) == Join(Target(script))
       <==> !EndsInBareInsertion(script)
  {
    var lines, s, target := Source(script), ScanAll(script), Join(Target(script));
    ScanShape(script);
    ScanSound(script, lines);
    PendingText(script);
    if s.start.Some? {
      SoundClose(lines, s, target);
      assert Apply(lines, Regions(script), |lines|) + "" == target;
    } else {
      assert |Apply(lines, Regions(script), |lines|)| + |Text(s)| == |target|;
    }
  }

  /** From fixes to suggestions: for separate fixes and any diff between the old and the new lines, accepting
      every suggested region turns the file into the one with all fixes substituted at once. */
  lemma {:induction false} SuggestionsApplyFixes(source: string, fixes: seq<Fix>, script: seq<Op>)
    requires Separate(source, fixes)
    requires forall i :: 0 <= i < |script| && script[i].Insert? ==> script[i].text != ""
    requires Join(Source(script)) == source
    requires Join(Target(script)) == ApplyAll(source, SortDescending(fixes))
    ensures Increasing(Regions(script), |Source(script)|)
    ensures Apply(Source(script), Regions(script), |Source(script)|) == Substitute(source, fixes, 0)
       <==> !EndsInBareInsertion(script)
  {
    hide Apply, Increasing, Substitute, Regions, ApplyAll;
    RegionsRebuild(script);
    SplicingSubstitutes(source, fixes, fixes);
  }

  /** A bare insertion at the end of the file is lost. */
  lemma {:induction false} TrailingInsertionLost()
    ensures Regions([Keep("a\n"), Insert("b\n")]) == []
    ensures Join(Target([Keep("a\n"), Insert("b\n")])) == "a\nb\n"
  {
    var one, two := [Keep("a\n")], [Keep("a\n"), Insert("b\n")];
    assert one[..0] == [] && two[..1] == one;
    assert ScanAll(one) == Scan(2, None, 0, None, []);
    TrailingText();
  }

  lemma {:induction false} JoinNext(lines: seq<string>, line: string)
    ensures Join(lines + [line]) == Join(lines) + line
  {
    assert (lines + [line])[..|lines|] == lines;
  }

  lemma {:induction false} TrailingText()
    ensures Join(Target([Keep("a\n"), Insert("b\n")])) == "a\nb\n"
  {
    var one, two := [Keep("a\n")], [Keep("a\n"), Insert("b\n")];
    assert one[..0] == [] && two[..1] == one;
    var a, b := "a\n", "b\n";
    assert Target(one) == [a] && Target(two) == [a] + [b];
    JoinNext([a], b);
    JoinNext([], a);
    assert [] + [a] == [a] && "" + a == a && a + b == "a\nb\n";
  }
}

/** From clang-tidy fixes to review suggestions: splicing replacements into a file by descending offset,
    and turning a line diff into replacement regions. */
module ReviewFixes {

  import opened Basics

  // ---- Splicing ----

  datatype Fix = Fix(offset: nat, length: nat, text: string)

  // Python slices: a bound past the end is the end.
  function UpTo(s: string, n: nat): string { if n <= |s| then s[..n] else s }
  function From(s: string, n: nat): string { if n <= |s| then s[n..] else "" }

  function Replace(s: string, f: Fix): string { UpTo(s, f.offset) + f.text + From(s, f.offset + f.length) }

  function ApplyAll(s: string, fixes: seq<Fix>): string {
    if fixes == [] then s else Replace(ApplyAll(s, fixes[..|fixes| - 1]), fixes[|fixes| - 1])
  }

  /** The stable sort by descending offset. */
  function InsertFix(f: Fix, sorted: seq<Fix>): seq<Fix> {
    if sorted == [] || f.offset >= sorted[0].offset then [f] + sorted else [sorted[0]] + InsertFix(f, sorted[1..])
  }

  function SortDescending(fixes: seq<Fix>): seq<Fix> {
    if fixes == [] then [] else InsertFix(fixes[0], SortDescending(fixes[1..]))
  }

  /** Applies the fixes last one first, so that earlier offsets stay valid. */
  method CalculateReplacements(source: string, fixes: seq<Fix>) returns (changed: string)
    ensures changed == ApplyAll(source, SortDescending(fixes))
  {
    hide Replace, SortDescending;
    var sorted := SortDescending(fixes);
    changed := source;
    for i := 0 to |sorted|
      invariant changed == ApplyAll(source, sorted[..i])
    {
      assert sorted[..i + 1][..i] == sorted[..i];
      changed := Replace(changed, sorted[i]);
    }
    assert sorted[..|sorted|] == sorted;
  }

  // ---- The reference: all fixes at once ----

  function FixAt(fixes: seq<Fix>, p: nat): Option<Fix> {
    if fixes == [] then None else if fixes[0].offset == p then Some(fixes[0]) else FixAt(fixes[1..], p)
  }

  /** Reads the source once from position p on; where a fix starts, its text comes in place of its range. */
  function Substitute(source: string, fixes: seq<Fix>, p: nat): string
    requires p <= |source|
    decreases |source| - p, 1
  {
    match FixAt(fixes, p)
    case None => Copy(source, fixes, p)
    case Some(f) =>
      f.text + (if f.length == 0 then Copy(source, fixes, p)
                else if p + f.length <= |source| then Substitute(source, fixes, p + f.length) else "")
  }

  function Copy(source: string, fixes: seq<Fix>, p: nat): string
    requires p <= |source|
    decreases |source| - p, 0
  {
    if p == |source| then "" else [source[p]] + Substitute(source, fixes, p + 1)
  }

  /** Fixes at distinct offsets, inside the file, none reaching into another. */
  ghost predicate Separate(source: string, fixes: seq<Fix>) {
    && (forall f :: f in fixes ==> f.offset + f.length <= |source| && multiset(fixes)[f] == 1)
    && forall f, g :: f in fixes && g in fixes && f != g ==> Apart(f, g)
  }

  ghost predicate Apart(f: Fix, g: Fix) {
    f.offset != g.offset && (f.offset < g.offset ==> f.offset + f.length <= g.offset)
  }

  predicate Descending(fixes: seq<Fix>) {
    |fixes| <= 1 || (fixes[0].offset >= fixes[1].offset && Descending(fixes[1..]))
  }

  lemma {:induction false} InsertDescends(f: Fix, sorted: seq<Fix>)
    requires Descending(sorted)
    ensures Descending(InsertFix(f, sorted))
    ensures InsertFix(f, sorted)[0] == f || (sorted != [] && InsertFix(f, sorted)[0] == sorted[0])
  {
    if sorted == [] || f.offset >= sorted[0].offset {
      assert ([f] + sorted)[1..] == sorted;
    } else {
      InsertDescends(f, sorted[1..]);
      assert InsertFix(f, sorted)[1..] == InsertFix(f, sorted[1..]);
    }
  }

  lemma {:induction false} InsertKeeps(f: Fix, sorted: seq<Fix>)
    ensures multiset(InsertFix(f, sorted)) == multiset([f] + sorted)
  {
    if sorted == [] || f.offset >= sorted[0].offset {
    } else {
      InsertKeeps(f, sorted[1..]);
      assert sorted == [sorted[0]] + sorted[1..];
    }
  }

  /** Sorting puts the fixes in descending order and neither adds nor loses one. */
  lemma {:induction false} SortSorts(fixes: seq<Fix>)
    ensures Descending(SortDescending(fixes)) && multiset(SortDescending(fixes)) == multiset(fixes)
  {
    if fixes == [] {
    } else {
      SortSorts(fixes[1..]);
      InsertDescends(fixes[0], SortDescending(fixes[1..]));
      InsertKeeps(fixes[0], SortDescending(fixes[1..]));
      assert fixes == [fixes[0]] + fixes[1..];
    }
  }

  function AtOffset(fixes: seq<Fix>, p: nat): seq<Fix> {
    if fixes == [] then [] else (if fixes[0].offset == p then [fixes[0]] else []) + AtOffset(fixes[1..], p)
  }

  lemma {:induction false} InsertStable(f: Fix, sorted: seq<Fix>, p: nat)
    ensures AtOffset(InsertFix(f, sorted), p) == AtOffset([f] + sorted, p)
  {
    assert ([f] + sorted)[1..] == sorted;
    if sorted == [] || f.offset >= sorted[0].offset {
    } else {
      InsertStable(f, sorted[1..], p);
      assert ([f] + sorted[1..])[1..] == sorted[1..];
      assert InsertFix(f, sorted)[1..] == InsertFix(f, sorted[1..]);
    }
  }

  /** The sort is stable: fixes at one offset keep their order. */
  lemma {:induction false} SortStable(fixes: seq<Fix>, p: nat)
    ensures AtOffset(SortDescending(fixes), p) == AtOffset(fixes, p)
  {
    if fixes == [] {
    } else {
      SortStable(fixes[1..], p);
      var sorted := SortDescending(fixes[1..]);
      InsertStable(fixes[0], sorted, p);
      assert ([fixes[0]] + sorted)[1..] == sorted;
    }
  }

  lemma {:induction false} FixAtSnoc(fixes: seq<Fix>, f: Fix, p: nat)
    requires f.offset != p
    ensures FixAt(fixes + [f], p) == FixAt(fixes, p)
  {
    if fixes == [] {
    } else {
      FixAtSnoc(fixes[1..], f, p);
      assert (fixes + [f])[1..] == fixes[1..] + [f];
    }
  }

  lemma {:induction false} FixAtLast(fixes: seq<Fix>, f: Fix)
    requires forall i :: 0 <= i < |fixes| ==> fixes[i].offset != f.offset
    ensures FixAt(fixes + [f], f.offset) == Some(f)
  {
    if fixes == [] {
    } else {
      FixAtLast(fixes[1..], f);
      assert (fixes + [f])[1..] == fixes[1..] + [f];
    }
  }

  lemma {:induction false} NoFixAt(fixes: seq<Fix>, p: nat)
    requires forall i :: 0 <= i < |fixes| ==> fixes[i].offset != p
    ensures FixAt(fixes, p) == None
  {
    if fixes == [] {
    } else {
      NoFixAt(fixes[1..], p);
    }
  }

  // A fix that starts before p does not matter from p on.
  lemma {:induction false} SubstituteBehind(source: string, fixes: seq<Fix>, f: Fix, p: nat)
    requires f.offset < p <= |source|
    ensures Substitute(source, fixes + [f], p) == Substitute(source, fixes, p)
    ensures Copy(source, fixes + [f], p) == Copy(source, fixes, p)
    decreases |source| - p
  {
    FixAtSnoc(fixes, f, p);
    if p >= |source| {
    } else {
      SubstituteBehind(source, fixes, f, p + 1);
    }
    match FixAt(fixes, p)
    case None =>
    case Some(g) =>
      if g.length > 0 && p + g.length <= |source| {
        SubstituteBehind(source, fixes, f, p + g.length);
      }
  }

  lemma {:induction false} SubstituteFix(source: string, fixes: seq<Fix>, f: Fix)
    requires f.offset + f.length <= |source| && FixAt(fixes, f.offset) == Some(f)
    ensures Substitute(source, fixes, f.offset)
         == f.text + if f.length == 0 then Copy(source, fixes, f.offset)
                     else Substitute(source, fixes, f.offset + f.length)
  {
  }

  lemma {:induction false} SubstituteNone(source: string, fixes: seq<Fix>, p: nat)
    requires p <= |source| && FixAt(fixes, p) == None
    ensures Substitute(source, fixes, p) == Copy(source, fixes, p)
  {
  }

  lemma {:induction false} CopyStep(source: string, fixes: seq<Fix>, p: nat)
    requires p < |source|
    ensures Copy(source, fixes, p) == [source[p]] + Substitute(source, fixes, p + 1)
  {
  }

  // Characters before every fix are copied.
  lemma {:induction false} SubstituteCopies(source: string, fixes: seq<Fix>, p: nat, q: nat)
    requires p <= q <= |source|
    requires forall i :: 0 <= i < |fixes| ==> q <= fixes[i].offset
    ensures Substitute(source, fixes, p) == source[p..q] + Substitute(source, fixes, q)
    decreases q - p
  {
    hide Substitute, Copy, FixAt;
    if p == q {
      assert source[p..q] == "";
    } else {
      NoFixAt(fixes, p);
      SubstituteNone(source, fixes, p);
      CopyStep(source, fixes, p);
      SubstituteCopies(source, fixes, p + 1, q);
      var rest := Substitute(source, fixes, q);
      assert source[p..q] == [source[p]] + source[p + 1..q];
      assert [source[p]] + (source[p + 1..q] + rest) == [source[p]] + source[p + 1..q] + rest;
    }
  }

  lemma {:induction false} SubstituteAt(source: string, fixes: seq<Fix>, f: Fix)
    requires f.offset + f.length <= |source|
    requires forall i :: 0 <= i < |fixes| ==> f.offset < fixes[i].offset
    ensures Substitute(source, fixes + [f], f.offset) == f.text + Substitute(source, fixes, f.offset + f.length)
  {
    hide Substitute, Copy, FixAt;
    FixAtLast(fixes, f);
    SubstituteFix(source, fixes + [f], f);
    if f.length > 0 {
      SubstituteBehind(source, fixes, f, f.offset + f.length);
    } else {
      NoFixAt(fixes, f.offset);
      SubstituteNone(source, fixes, f.offset);
      CopyBehind(source, fixes, f);
    }
  }

  lemma {:induction false} CopyBehind(source: string, fixes: seq<Fix>, f: Fix)
    requires f.offset <= |source|
    ensures Copy(source, fixes + [f], f.offset) == Copy(source, fixes, f.offset)
  {
    if f.offset < |source| {
      hide Substitute, Copy, FixAt;
      CopyStep(source, fixes, f.offset);
      CopyStep(source, fixes + [f], f.offset);
      SubstituteBehind(source, fixes, f, f.offset + 1);
    }
  }

  lemma {:induction false} SpliceOne(source: string, f: Fix, rest: string, changed: string)
    requires f.offset + f.length <= |source| && changed == source[..f.offset + f.length] + rest
    ensures Replace(changed, f) == source[..f.offset] + (f.text + rest)
  {
    assert changed[..f.offset] == source[..f.offset] && changed[f.offset + f.length..] == rest;
  }

  // Separate fixes in descending order: each one ends where the one before it starts, or earlier.
  ghost predicate Stacked(source: string, fixes: seq<Fix>) {
    && (forall i :: 0 <= i < |fixes| ==> fixes[i].offset + fixes[i].length <= |source|)
    && forall i, j :: 0 <= i < j < |fixes| ==> Below(fixes[j], fixes[i])
  }

  ghost predicate Below(f: Fix, g: Fix) { f.offset < g.offset && f.offset + f.length <= g.offset }

  lemma {:induction false} SpliceStep(source: string, front: seq<Fix>, f: Fix, m: nat)
    requires m <= f.offset && f.offset + f.length <= |source|
    requires forall i :: 0 <= i < |front| ==> f.offset < front[i].offset
    requires ApplyAll(source, front)
          == source[..f.offset + f.length] + Substitute(source, front, f.offset + f.length)
    ensures ApplyAll(source, front + [f]) == source[..m] + Substitute(source, front + [f], m)
  {
    hide Substitute, Copy, Replace;
    var rest := Substitute(source, front, f.offset + f.length);
    var fixes := front + [f];
    assert fixes[..|front|] == front;
    SpliceOne(source, f, rest, ApplyAll(source, front));
    SubstituteAt(source, front, f);
    SubstituteCopies(source, fixes, m, f.offset);
    Regroup(source, m, f.offset, f.text + rest);
  }

  lemma {:induction false} Regroup(source: string, m: nat, n: nat, t: string)
    requires m <= n <= |source|
    ensures source[..n] + t == source[..m] + (source[m..n] + t)
  {
  }

  /** Splicing stacked fixes keeps the text before m and substitutes from m on. */
  lemma {:induction false} SpliceStacked(source: string, fixes: seq<Fix>, m: nat)
    requires Stacked(source, fixes) && m <= |source|
    requires forall i :: 0 <= i < |fixes| ==> m <= fixes[i].offset
    ensures ApplyAll(source, fixes) == source[..m] + Substitute(source, fixes, m)
    decreases |fixes|
  {
    hide Substitute, Copy, Replace;
    if fixes == [] {
      SubstituteCopies(source, fixes, m, |source|);
      NothingLeft(source, fixes);
    } else {
      var f, front := fixes[|fixes| - 1], fixes[..|fixes| - 1];
      assert fixes == front + [f];
      assert forall i :: 0 <= i < |front| ==> Below(f, front[i]);
      SpliceStacked(source, front, f.offset + f.length);
      SpliceStep(source, front, f, m);
    }
  }

  lemma {:induction false} NothingLeft(source: string, fixes: seq<Fix>)
    requires fixes == []
    ensures Substitute(source, fixes, |source|) == ""
  {
  }

  lemma {:induction false} FixAtMeans(fixes: seq<Fix>, p: nat)
    ensures match FixAt(fixes, p)
            case None => forall i :: 0 <= i < |fixes| ==> fixes[i].offset != p
            case Some(f) => f in fixes && f.offset == p
  {
    if fixes == [] {
    } else {
      FixAtMeans(fixes[1..], p);
      assert forall i :: 0 < i < |fixes| ==> fixes[i] == fixes[1..][i - 1];
    }
  }

  ghost predicate DistinctOffsets(fixes: seq<Fix>) {
    forall f, g :: f in fixes && g in fixes && f.offset == g.offset ==> f == g
  }

  lemma {:induction false} FixAtReordered(a: seq<Fix>, b: seq<Fix>, p: nat)
    requires (forall f :: f in a <==> f in b) && DistinctOffsets(a)
    ensures FixAt(a, p) == FixAt(b, p)
  {
    FixAtMeans(a, p);
    FixAtMeans(b, p);
  }

  lemma {:induction false} SubstituteReordered(source: string, a: seq<Fix>, b: seq<Fix>, p: nat)
    requires (forall f :: f in a <==> f in b) && DistinctOffsets(a) && p <= |source|
    ensures Substitute(source, a, p) == Substitute(source, b, p) && Copy(source, a, p) == Copy(source, b, p)
    decreases |source| - p
  {
    FixAtReordered(a, b, p);
    if p >= |source| {
    } else {
      SubstituteReordered(source, a, b, p + 1);
    }
    match FixAt(a, p)
    case None =>
    case Some(g) =>
      if g.length > 0 && p + g.length <= |source| {
        SubstituteReordered(source, a, b, p + g.length);
      }
  }

  lemma {:induction false} InsertStacks(source: string, f: Fix, stack: seq<Fix>)
    requires Stacked(source, stack) && f.offset + f.length <= |source|
    requires forall g :: g in stack ==> Apart(f, g) && Apart(g, f)
    ensures Stacked(source, InsertFix(f, stack))
    ensures forall g :: g in InsertFix(f, stack) <==> g == f || g in stack
  {
    if stack == [] {
    } else if f.offset >= stack[0].offset {
      forall i | 0 <= i < |stack|
        ensures Below(stack[i], f)
      {
        assert i > 0 ==> Below(stack[i], stack[0]);
        assert Apart(stack[i], f);
      }
    } else {
      InsertStacks(source, f, stack[1..]);
      assert stack == [stack[0]] + stack[1..];
      assert Apart(f, stack[0]);
      var rest := InsertFix(f, stack[1..]);
      assert forall g :: g in stack[1..] ==> Below(g, stack[0]);
      assert forall i :: 0 <= i < |rest| ==> rest[i] in rest && Below(rest[i], stack[0]);
    }
  }

  lemma {:induction false} SeparateTail(source: string, fixes: seq<Fix>)
    requires Separate(source, fixes) && fixes != []
    ensures Separate(source, fixes[1..]) && fixes[0] !in fixes[1..]
  {
    assert fixes == [fixes[0]] + fixes[1..];
    assert forall f :: f in fixes[1..] ==> f in fixes && multiset(fixes)[f] >= multiset(fixes[1..])[f] > 0;
    assert multiset(fixes)[fixes[0]] == 1 + multiset(fixes[1..])[fixes[0]];
  }

  lemma {:induction false} SortStacks(source: string, fixes: seq<Fix>)
    requires Separate(source, fixes)
    ensures Stacked(source, SortDescending(fixes))
    ensures forall f :: f in SortDescending(fixes) <==> f in fixes
  {
    hide Stacked;
    if fixes == [] {
      NoneStacked(source);
    } else {
      SeparateTail(source, fixes);
      SortStacks(source, fixes[1..]);
      InsertStacks(source, fixes[0], SortDescending(fixes[1..]));
    }
  }

  lemma {:induction false} NoneStacked(source: string)
    ensures Stacked(source, [])
  {
  }

  lemma {:induction false} SplicedOnce(source: string, fixes: seq<Fix>)
    requires Separate(source, fixes)
    ensures ApplyAll(source, SortDescending(fixes)) == Substitute(source, fixes, 0)
  {
    hide Substitute, Copy, ApplyAll, FixAt, Stacked, SortDescending;
    var sorted := SortDescending(fixes);
    SortStacks(source, fixes);
    SpliceStacked(source, sorted, 0);
    SubstituteReordered(source, fixes, sorted, 0);
    assert source[..0] + Substitute(source, sorted, 0) == Substitute(source, sorted, 0);
  }

  lemma {:induction false} SeparateReordered(source: string, fixes: seq<Fix>, other: seq<Fix>)
    requires Separate(source, fixes) && multiset(other) == multiset(fixes)
    ensures Separate(source, other) && forall f :: f in fixes <==> f in other
  {
    assert forall f :: f in fixes <==> f in multiset(fixes);
    assert forall f :: f in other <==> f in multiset(other);
  }

  /** Splicing separate fixes from the last to the first is the simultaneous substitution, in whatever order
      they come: any other list of the same fixes gives the same text. */
  lemma {:induction false} SplicingSubstitutes(source: string, fixes: seq<Fix>, other: seq<Fix>)
    requires Separate(source, fixes) && multiset(other) == multiset(fixes)
    ensures ApplyAll(source, SortDescending(fixes)) == Substitute(source, fixes, 0)
    ensures ApplyAll(source, SortDescending(other)) == Substitute(source, fixes, 0)
  {
    hide Substitute, Copy, ApplyAll, FixAt, SortDescending;
    SplicedOnce(source, fixes);
    SeparateReordered(source, fixes, other);
    SplicedOnce(source, other);
    SubstituteReordered(source, fixes, other, 0);
  }
}

/** Grouping of the NuttX build targets into CI jobs. */
module TargetGroups {

  import Decimal

  // ---- Chunks ----

  function Concat(parts: seq<seq<string>>): seq<string> {
    if parts == [] then [] else Concat(parts[..|parts| - 1]) + parts[|parts| - 1]
  }

  const MERGE_BACK_THRESHOLD := 5

  // Parts of the given size, and what is left.
  function Cuts(arr: seq<string>, size: nat): seq<seq<string>>
    requires size > 0
    decreases |arr|
  {
    if arr == [] then [] else if |arr| <= size then [arr] else [arr[..size]] + Cuts(arr[size..], size)
  }

  method Chunks(arr: seq<string>, size: nat) returns (result: seq<seq<string>>)
    requires size > 0
    ensures result == Cuts(arr, size)
  {
    hide Cuts;
    result := [];
    CutsEnd(arr, size, 0);
    var i := 0;
    while i < |arr|
      invariant Cuts(arr, size) == result + Cuts(From(arr, i), size)
    {
      var end := if i + size <= |arr| then i + size else |arr|;
      CutsNext(arr, size, i);
      Prepend(result, arr[i..end], Cuts(From(arr, i + size), size));
      result := result + [arr[i..end]];
      i := i + size;
    }
    CutsEnd(arr, size, i);
  }

  function From(arr: seq<string>, i: nat): seq<string> { if i <= |arr| then arr[i..] else [] }

  lemma {:induction false} CutsNext(arr: seq<string>, size: nat, i: nat)
    requires size > 0 && i < |arr|
    ensures var end := if i + size <= |arr| then i + size else |arr|;
      Cuts(From(arr, i), size) == [arr[i..end]] + Cuts(From(arr, i + size), size)
  {
    var rest := arr[i..];
    if |rest| <= size {
      assert arr[i..|arr|] == rest;
      assert [rest] + [] == [rest];
    } else {
      assert rest[..size] == arr[i..i + size] && rest[size..] == arr[i + size..];
    }
  }

  lemma {:induction false} CutsEnd(arr: seq<string>, size: nat, i: nat)
    requires size > 0
    ensures i >= |arr| ==> Cuts(From(arr, i), size) == []
    ensures i == 0 ==> [] + Cuts(From(arr, i), size) == Cuts(arr, size)
  {
    assert arr[0..] == arr;
  }

  lemma {:induction false} Prepend(a: seq<seq<string>>, b: seq<string>, c: seq<seq<string>>)
    ensures a + ([b] + c) == (a + [b]) + c
  {
  }

  lemma {:induction false} ConcatSnoc(parts: seq<seq<string>>, part: seq<string>)
    ensures Concat(parts + [part]) == Concat(parts) + part
  {
    assert (parts + [part])[..|parts|] == parts;
  }

  lemma {:induction false} ConcatHead(part: seq<string>, parts: seq<seq<string>>)
    ensures Concat([part] + parts) == part + Concat(parts)
  {
    if parts == [] {
      assert ([part] + parts)[..0] == [] && [] + part == part == part + [];
    } else {
      var n := |parts| - 1;
      ConcatHead(part, parts[..n]);
      assert ([part] + parts)[..n + 1] == [part] + parts[..n];
      assert part + Concat(parts[..n]) + parts[n] == part + (Concat(parts[..n]) + parts[n]);
    }
  }

  /** The parts of a list: of the given size each, the last one not shorter than five. What would be shorter stays
      with the part before it. */
  function Parts(arr: seq<string>, size: nat): seq<seq<string>>
    requires size > 0
    decreases |arr|
  {
    if arr == [] then []
    else if |arr| <= size || (|arr| <= 2 * size && |arr| < size + 5) then [arr]
    else [arr[..size]] + Parts(arr[size..], size)
  }

  /** Order and content stay, every part but the last has exactly the given size, none is empty or more than four
      longer, and of several parts the last has five or more elements or took up a short one. */
  lemma {:induction false} PartsMean(arr: seq<string>, size: nat)
    requires size > 0
    ensures var parts := Parts(arr, size);
      && Concat(parts) == arr && (arr != [] <==> parts != [])
      && (forall i :: 0 <= i < |parts| ==> 0 < |parts[i]| < size + 5)
      && (forall i :: 0 <= i < |parts| - 1 ==> |parts[i]| == size)
      && (|parts| > 1 ==> |parts[|parts| - 1]| >= 5 || |parts[|parts| - 1]| > size)
    decreases |arr|
  {
    hide Concat;
    if arr == [] {
      assert Concat([]) == [] by { NoParts(); }
    } else if |arr| <= size || (|arr| <= 2 * size && |arr| < size + 5) {
      OnePart(arr);
    } else {
      var rest := Parts(arr[size..], size);
      PartsMean(arr[size..], size);
      ConcatHead(arr[..size], rest);
      assert arr == arr[..size] + arr[size..];
      assert rest != [] && |rest| == 1 ==> rest[0] == arr[size..] by { LastPart(arr[size..], size); }
    }
  }

  lemma {:induction false} NoParts()
    ensures Concat([]) == []
  {
  }

  lemma {:induction false} OnePart(arr: seq<string>)
    ensures Concat([arr]) == arr
  {
    assert [arr][..0] == [] && [] + arr == arr;
  }

  lemma {:induction false} LastPart(arr: seq<string>, size: nat)
    requires size > 0
    ensures |Parts(arr, size)| == 1 ==> Parts(arr, size)[0] == arr
  {
    if |arr| > size && !(|arr| <= 2 * size && |arr| < size + 5) {
      assert arr[size..] != [] && Parts(arr[size..], size) != [];
    }
  }

  // The last part joined to the one before it if it is short.
  function Merged(parts: seq<seq<string>>): seq<seq<string>> {
    var n := |parts|;
    if n > 1 && |parts[n - 1]| < MERGE_BACK_THRESHOLD then parts[..n - 2] + [parts[n - 2] + parts[n - 1]] else parts
  }

  lemma {:induction false} MergedHead(part: seq<string>, parts: seq<seq<string>>)
    requires |parts| > 1
    ensures Merged([part] + parts) == [part] + Merged(parts)
  {
    var all, n := [part] + parts, |parts|;
    assert all[..n - 1] == [part] + parts[..n - 2];
  }

  lemma {:induction false} MergedCuts(arr: seq<string>, size: nat)
    requires size > 0
    ensures Merged(Cuts(arr, size)) == Parts(arr, size)
    decreases |arr|
  {
    hide Merged;
    if |arr| <= size {
      assert Merged(Cuts(arr, size)) == Cuts(arr, size) by { MergedOne(Cuts(arr, size)); }
    } else {
      var head, rest := arr[..size], arr[size..];
      MergedCuts(rest, size);
      assert arr == head + rest;
      if |rest| <= size {
        MergedTwo(head, rest);
        assert [head] + [rest] == [head, rest];
      } else {
        assert |Cuts(rest, size)| > 1;
        MergedHead(head, Cuts(rest, size));
      }
    }
  }

  lemma {:induction false} MergedOne(parts: seq<seq<string>>)
    requires |parts| <= 1
    ensures Merged(parts) == parts
  {
  }

  lemma {:induction false} MergedTwo(a: seq<string>, b: seq<string>)
    ensures Merged([a, b]) == if |b| < 5 then [a + b] else [a, b]
  {
    assert [a, b][..0] == [];
  }

  /** Splits a list and merges a short last part back. */
  method ChunksMerged(arr: seq<string>, size: nat) returns (result: seq<seq<string>>)
    requires size > 0
    ensures result == Parts(arr, size)
  {
    hide Cuts, Parts;
    result := Chunks(arr, size);
    MergedCuts(arr, size);
    var n := |result|;
    if n > 1 && |result[n - 1]| < MERGE_BACK_THRESHOLD {
      result := result[n - 2 := result[n - 2] + result[n - 1]];
      result := result[..n - 1];
    }
  }

  // ---- Configuration and groups ----

  // An entry of a dictionary from keys to target lists, kept in insertion order.
  datatype Entry<K> = Entry(key: K, targets: seq<string>)

  datatype Config = Config(families: map<string, string>, limits: map<string, nat>, defaultLimit: nat,
                           lowerLimit: int, nxpChips: seq<string>) {
    function Chip(target: string): string { if target in families then families[target] else "native" }

    function Limit(chip: string): nat { if chip in limits then limits[chip] else defaultLimit }

    // A split limit of zero makes the splitting raise.
    predicate Valid() { defaultLimit > 0 && forall chip :: chip in limits ==> limits[chip] > 0 }
  }

  datatype Group = Group(name: string, chip: string, targets: seq<string>, len: nat)

  predicate IsSpecial(chip: string) { chip == "special" || chip == "rp2040" }

  /** The group counts its targets, is not too long, and its targets belong to its chip family. */
  ghost predicate Sound(g: Group, c: Config) {
    && g.len == |g.targets| && 0 < g.len <= c.Limit(g.chip) + 4
    && AllFit(g.targets, g.chip, c)
  }

  ghost predicate AllSound(groups: seq<Group>, c: Config) { forall i :: 0 <= i < |groups| ==> Sound(groups[i], c) }

  // All targets of the groups, in order.
  function Emitted(groups: seq<Group>): seq<string> {
    if groups == [] then [] else Emitted(groups[..|groups| - 1]) + groups[|groups| - 1].targets
  }

  lemma {:induction false} Assoc(a: seq<string>, b: seq<string>, c: seq<string>)
    ensures a + b + c == a + (b + c)
  {
  }

  lemma {:induction false} EmittedSnoc(groups: seq<Group>, g: Group)
    ensures Emitted(groups + [g]) == Emitted(groups) + g.targets
  {
    assert (groups + [g])[..|groups|] == groups;
  }

  lemma {:induction false} EmittedConcat(a: seq<Group>, b: seq<Group>)
    ensures Emitted(a + b) == Emitted(a) + Emitted(b)
  {
    if b == [] {
      assert a + b == a;
    } else {
      var front, g := b[..|b| - 1], b[|b| - 1];
      EmittedConcat(a, front);
      EmittedSnoc(a + front, g);
      assert a + b == a + front + [g];
      Assoc(Emitted(a), Emitted(front), g.targets);
    }
  }

  // Whether a target belongs into a group of the chip.
  predicate Fits(t: string, chip: string, c: Config) {
    if IsSpecial(c.Chip(t)) then chip == "special" else chip == c.Chip(t)
  }

  ghost predicate AllFit(ts: seq<string>, chip: string, c: Config) {
    forall i :: 0 <= i < |ts| ==> Fits(ts[i], chip, c)
  }

  function Numbered(name: string, i: nat): string { name + "-" + Decimal.Print(i) }

  function Part(parts: seq<seq<string>>, i: nat, name: string, chip: string): Group
    requires i < |parts|
  {
    Group(name, chip, parts[i], |parts[i]|)
  }

  // Emits one group per part, numbered unless a lone part goes by the bare name.
  method EmitChunks(arr: seq<string>, chip: string, name: string, bare: bool, c: Config)
    returns (groups: seq<Group>)
    requires c.Valid() && AllFit(arr, chip, c)
    ensures Emitted(groups) == arr && AllSound(groups, c)
    ensures |groups| == |Parts(arr, c.Limit(chip))|
    ensures forall i :: 0 <= i < |groups| ==>
      groups[i] == Part(Parts(arr, c.Limit(chip)), i, if bare && |groups| == 1 then name else Numbered(name, i), chip)
  {
    hide Emitted, Concat, AllFit, Sound, Parts;
    var parts := ChunksMerged(arr, c.Limit(chip));
    PartsMean(arr, c.Limit(chip));
    groups := [];
    NothingEmitted();
    for i := 0 to |parts|
      invariant Emitted(groups) == Concat(parts[..i]) && AllSound(groups, c) && |groups| == i
      invariant forall k :: 0 <= k < i ==>
        groups[k] == Part(parts, k, if bare && |parts| == 1 then name else Numbered(name, k), chip)
    {
      assert parts[..i + 1] == parts[..i] + [parts[i]];
      ConcatSnoc(parts[..i], parts[i]);
      var g := Group(if bare && |parts| == 1 then name else name + "-" + Decimal.Print(i), chip, parts[i], |parts[i]|);
      PartFits(parts, i, chip, c);
      SoundGroup(g, c);
      EmittedSnoc(groups, g);
      groups := groups + [g];
    }
    assert parts[..|parts|] == parts;
  }

  lemma {:induction false} NothingEmitted()
    ensures Emitted([]) == [] == Concat([])
  {
  }

  lemma {:induction false} SoundGroup(g: Group, c: Config)
    requires g.len == |g.targets| && 0 < g.len <= c.Limit(g.chip) + 4 && AllFit(g.targets, g.chip, c)
    ensures Sound(g, c)
  {
  }

  lemma {:induction false} PartFits(parts: seq<seq<string>>, i: nat, chip: string, c: Config)
    requires i < |parts| && AllFit(Concat(parts), chip, c)
    ensures AllFit(parts[i], chip, c)
  {
    var n := |parts| - 1;
    FitParts(Concat(parts[..n]), parts[n], chip, c);
    if i >= n {
    } else {
      hide AllFit;
      PartFits(parts[..n], i, chip, c);
    }
  }

  lemma {:induction false} FitParts(a: seq<string>, b: seq<string>, chip: string, c: Config)
    requires AllFit(a + b, chip, c)
    ensures AllFit(a, chip, c) && AllFit(b, chip, c)
  {
    hide Fits;
    assert forall k :: 0 <= k < |a| ==> a[k] == (a + b)[k];
    assert forall k :: 0 <= k < |b| ==> b[k] == (a + b)[|a| + k];
  }

  // ---- Permutations ----

  ghost predicate Permuted(a: seq<string>, b: seq<string>) { multiset(a) == multiset(b) }

  lemma {:induction false} PermutedSame(a: seq<string>)
    ensures Permuted(a, a)
  {
  }

  // More on the first of two lists, or on the second.
  lemma {:induction false} PermutedMore(f: seq<string>, t: seq<string>, h: seq<string>, x: seq<string>)
    requires Permuted(f + t, h)
    ensures Permuted(f + x + t, h + x) && Permuted(f + (t + x), h + x)
  {
    assert f + (t + x) == f + t + x;
    assert multiset(f + x + t) == multiset(f + t + x);
  }

  // More behind the second list, or between the two.
  lemma {:induction false} PermutedBehind(now: seq<string>, was: seq<string>, own: seq<string>, x: seq<string>)
    requires Permuted(now, was)
    ensures Permuted(now + (own + x), was + own + x)
  {
    assert was + own + x == was + (own + x);
  }

  lemma {:induction false} PermutedBetween(now: seq<string>, was: seq<string>, own: seq<string>, x: seq<string>)
    requires Permuted(now, was + x)
    ensures Permuted(now + own, was + own + x)
  {
    assert multiset(was + x + own) == multiset(was + own + x);
  }

  lemma {:induction false} PermutedBoth(a: seq<string>, b: seq<string>, x: seq<string>, y: seq<string>)
    requires Permuted(a, b) && Permuted(x, y)
    ensures Permuted(a + x, b + y)
  {
  }

  lemma {:induction false} PermutedChain(a: seq<string>, b: seq<string>, c: seq<string>)
    requires Permuted(a, b) && Permuted(b, c)
    ensures Permuted(a, c)
  {
  }

  // ---- Dictionaries ----

  function Held<K>(entries: seq<Entry<K>>): seq<string> {
    if entries == [] then [] else entries[0].targets + Held(entries[1..])
  }

  function Extend<K(==)>(entries: seq<Entry<K>>, key: K, targets: seq<string>): seq<Entry<K>> {
    if entries == [] then [Entry(key, targets)]
    else if entries[0].key == key then [Entry(key, entries[0].targets + targets)] + entries[1..]
    else [entries[0]] + Extend(entries[1..], key, targets)
  }

  lemma {:induction false} HeldConcat<K>(a: seq<Entry<K>>, b: seq<Entry<K>>)
    ensures Held(a + b) == Held(a) + Held(b)
  {
    if a == [] {
      assert a + b == b;
    } else {
      HeldConcat(a[1..], b);
      assert (a + b)[1..] == a[1..] + b && (a + b)[0] == a[0];
      assert Held(a + b) == a[0].targets + Held(a[1..] + b) && Held(a) == a[0].targets + Held(a[1..]);
      hide Held;
      Assoc(a[0].targets, Held(a[1..]), Held(b));
    }
  }

  lemma {:induction false} HeldNext<K>(entries: seq<Entry<K>>, k: nat)
    requires k < |entries|
    ensures Held(entries[..k + 1]) == Held(entries[..k]) + entries[k].targets
  {
    assert entries[..k + 1] == entries[..k] + [entries[k]];
    HeldConcat(entries[..k], [entries[k]]);
    assert [entries[k]][1..] == [];
    assert entries[k].targets + [] == entries[k].targets;
  }

  lemma {:induction false} ExtendHeld<K>(entries: seq<Entry<K>>, key: K, targets: seq<string>)
    ensures Permuted(Held(Extend(entries, key, targets)), Held(entries) + targets)
  {
    if entries == [] {
      assert Extend(entries, key, targets)[1..] == [];
    } else {
      var first, rest := entries[0].targets, entries[1..];
      if entries[0].key == key {
        assert Extend(entries, key, targets)[1..] == rest;
        PermutedSame(first + Held(rest));
        PermutedMore(first, Held(rest), first + Held(rest), targets);
      } else {
        ExtendHeld(rest, key, targets);
        assert Extend(entries, key, targets)[1..] == Extend(rest, key, targets);
        PermutedSame(first);
        PermutedBoth(first, first, Held(Extend(rest, key, targets)), Held(rest) + targets);
        assert first + (Held(rest) + targets) == first + Held(rest) + targets;
      }
    }
  }

  ghost predicate NoneEmpty<K>(entries: seq<Entry<K>>) {
    forall i :: 0 <= i < |entries| ==> entries[i].targets != []
  }

  lemma {:induction false} ExtendNoneEmpty<K>(entries: seq<Entry<K>>, key: K, targets: seq<string>)
    requires NoneEmpty(entries) && targets != []
    ensures NoneEmpty(Extend(entries, key, targets))
  {
    if entries == [] || entries[0].key == key {
    } else {
      ExtendNoneEmpty(entries[1..], key, targets);
    }
  }

  // ---- Shares ----

  /** The targets of one chip family, in order. */
  function Filter(targets: seq<string>, chip: string, c: Config): seq<string> {
    if targets == [] then []
    else
      var t := targets[|targets| - 1];
      Filter(targets[..|targets| - 1], chip, c) + if c.Chip(t) == chip then [t] else []
  }

  // NXP families are pooled under one name.
  function KeyOf(chip: string, manufacturer: string, c: Config): string {
    if chip in c.nxpChips then "nxp" else manufacturer
  }

  /** The targets of a chip family that the given lists have for a manufacturer, or for all of them when pooled. */
  function Share(manufacturers: seq<Entry<string>>, chip: string, key: string, c: Config): seq<string> {
    if manufacturers == [] then []
    else
      var last := manufacturers[|manufacturers| - 1];
      Share(manufacturers[..|manufacturers| - 1], chip, key, c)
      + if KeyOf(chip, last.key, c) == key then Filter(last.targets, chip, c) else []
  }

  // The same, looked up in the buckets.
  function InBuckets(buckets: seq<Entry<(string, string)>>, chip: string, key: string, c: Config): seq<string> {
    if buckets == [] then []
    else
      var b := buckets[0];
      (if b.key.0 == chip && KeyOf(chip, b.key.1, c) == key then b.targets else [])
      + InBuckets(buckets[1..], chip, key, c)
  }

  ghost predicate Without(buckets: seq<Entry<(string, string)>>, chip: string) {
    forall i :: 0 <= i < |buckets| ==> buckets[i].key.0 != chip
  }

  // Behind the bucket of the chip and the manufacturer there is none of the chip.
  ghost predicate Trailing(buckets: seq<Entry<(string, string)>>, chip: string, man: string) {
    buckets == []
    || if buckets[0].key == (chip, man) then Without(buckets[1..], chip) else Trailing(buckets[1..], chip, man)
  }

  lemma {:induction false} NoneInBuckets(buckets: seq<Entry<(string, string)>>, chip: string, key: string, c: Config)
    requires Without(buckets, chip)
    ensures InBuckets(buckets, chip, key, c) == []
  {
    if buckets == [] {
    } else {
      NoneInBuckets(buckets[1..], chip, key, c);
    }
  }

  lemma {:induction false} ExtendInBuckets(buckets: seq<Entry<(string, string)>>, chip: string, man: string,
                                           targets: seq<string>, x: string, key: string, c: Config)
    requires Trailing(buckets, chip, man)
    ensures InBuckets(Extend(buckets, (chip, man), targets), x, key, c)
         == InBuckets(buckets, x, key, c) + if x == chip && KeyOf(chip, man, c) == key then targets else []
  {
    hide KeyOf;
    var more := Extend(buckets, (chip, man), targets);
    if buckets == [] {
      assert more[1..] == [];
    } else if buckets[0].key == (chip, man) {
      assert more[1..] == buckets[1..];
      NoneInBuckets(buckets[1..], chip, key, c);
    } else {
      ExtendInBuckets(buckets[1..], chip, man, targets, x, key, c);
      assert more[1..] == Extend(buckets[1..], (chip, man), targets);
    }
  }

  lemma {:induction false} ExtendWithout(buckets: seq<Entry<(string, string)>>, chip: string, man: string,
                                         targets: seq<string>, x: string)
    requires Without(buckets, x) && x != chip
    ensures Without(Extend(buckets, (chip, man), targets), x)
  {
    if buckets == [] || buckets[0].key == (chip, man) {
    } else {
      ExtendWithout(buckets[1..], chip, man, targets, x);
    }
  }

  lemma {:induction false} ExtendTrailing(buckets: seq<Entry<(string, string)>>, chip: string, man: string,
                                          targets: seq<string>, x: string)
    requires Trailing(buckets, x, man)
    ensures Trailing(Extend(buckets, (chip, man), targets), x, man)
  {
    var more := Extend(buckets, (chip, man), targets);
    if buckets == [] {
      assert more[1..] == [];
    } else if buckets[0].key == (chip, man) {
      assert more[1..] == buckets[1..];
    } else {
      assert more[1..] == Extend(buckets[1..], (chip, man), targets);
      if buckets[0].key == (x, man) {
        ExtendWithout(buckets[1..], chip, man, targets, x);
      } else {
        ExtendTrailing(buckets[1..], chip, man, targets, x);
      }
    }
  }

  // No bucket is of the manufacturer.
  ghost predicate Unseen<K>(buckets: seq<Entry<(K, string)>>, man: string) {
    forall i :: 0 <= i < |buckets| ==> buckets[i].key.1 != man
  }

  lemma {:induction false} UnseenTrailing(buckets: seq<Entry<(string, string)>>, man: string, x: string)
    requires Unseen(buckets, man)
    ensures Trailing(buckets, x, man)
  {
    if buckets == [] {
    } else {
      UnseenTrailing(buckets[1..], man, x);
    }
  }

  lemma {:induction false} ExtendUnseen(buckets: seq<Entry<(string, string)>>, chip: string, man: string,
                                        targets: seq<string>, other: string)
    requires Unseen(buckets, other) && man != other
    ensures Unseen(Extend(buckets, (chip, man), targets), other)
  {
    if buckets == [] || buckets[0].key == (chip, man) {
    } else {
      ExtendUnseen(buckets[1..], chip, man, targets, other);
    }
  }

  lemma {:induction false} InBucketsNext(buckets: seq<Entry<(string, string)>>, i: nat, chip: string, key: string,
                                         c: Config)
    requires i < |buckets|
    ensures var b := buckets[i];
      InBuckets(buckets[..i + 1], chip, key, c)
      == InBuckets(buckets[..i], chip, key, c)
         + if b.key.0 == chip && KeyOf(chip, b.key.1, c) == key then b.targets else []
  {
    hide KeyOf;
    if i == 0 {
      assert buckets[..1] == [buckets[0]] && buckets[..1][1..] == [] && buckets[..0] == [];
    } else {
      InBucketsNext(buckets[1..], i - 1, chip, key, c);
      assert buckets[..i + 1][1..] == buckets[1..][..i] && buckets[..i][1..] == buckets[1..][..i - 1];
    }
  }

  ghost predicate SharesMatch(buckets: seq<Entry<(string, string)>>, manufacturers: seq<Entry<string>>, c: Config) {
    forall chip, key :: InBuckets(buckets, chip, key, c) == Share(manufacturers, chip, key, c)
  }

  // ---- Looking up ----

  function Lookup(entries: seq<Entry<string>>, key: string): seq<string> {
    if entries == [] then [] else if entries[0].key == key then entries[0].targets else Lookup(entries[1..], key)
  }

  ghost predicate Missing(entries: seq<Entry<string>>, key: string) {
    forall i :: 0 <= i < |entries| ==> entries[i].key != key
  }

  ghost predicate DistinctKeys(entries: seq<Entry<string>>) {
    entries == [] || (Missing(entries[1..], entries[0].key) && DistinctKeys(entries[1..]))
  }

  lemma {:induction false} MissingLookup(entries: seq<Entry<string>>, key: string)
    requires Missing(entries, key)
    ensures Lookup(entries, key) == []
  {
    if entries == [] {
    } else {
      MissingLookup(entries[1..], key);
    }
  }

  lemma {:induction false} ExtendLookup(entries: seq<Entry<string>>, key: string, targets: seq<string>, x: string)
    ensures Lookup(Extend(entries, key, targets), x) == Lookup(entries, x) + if x == key then targets else []
  {
    var more := Extend(entries, key, targets);
    if entries == [] {
      assert more[1..] == [];
    } else if entries[0].key == key {
      assert more[1..] == entries[1..];
    } else {
      ExtendLookup(entries[1..], key, targets, x);
      assert more[1..] == Extend(entries[1..], key, targets);
    }
  }

  lemma {:induction false} ExtendMissing(entries: seq<Entry<string>>, key: string, targets: seq<string>, x: string)
    requires Missing(entries, x) && x != key
    ensures Missing(Extend(entries, key, targets), x)
  {
    if entries == [] || entries[0].key == key {
    } else {
      ExtendMissing(entries[1..], key, targets, x);
    }
  }

  lemma {:induction false} ExtendDistinct(entries: seq<Entry<string>>, key: string, targets: seq<string>)
    requires DistinctKeys(entries)
    ensures DistinctKeys(Extend(entries, key, targets))
  {
    var more := Extend(entries, key, targets);
    if entries == [] {
      assert more[1..] == [];
    } else if entries[0].key == key {
      assert more[1..] == entries[1..];
    } else {
      ExtendDistinct(entries[1..], key, targets);
      assert more[1..] == Extend(entries[1..], key, targets);
      ExtendMissing(entries[1..], key, targets, entries[0].key);
    }
  }

  lemma {:induction false} InsertLookup(e: Entry<string>, sorted: seq<Entry<string>>, x: string)
    requires Missing(sorted, e.key)
    ensures Lookup(Insert(e, sorted), x) == if x == e.key then e.targets else Lookup(sorted, x)
  {
    hide Leq;
    var all := Insert(e, sorted);
    if sorted == [] || Leq(e.key, sorted[0].key) {
      assert all[1..] == sorted;
    } else {
      InsertLookup(e, sorted[1..], x);
      assert all[1..] == Insert(e, sorted[1..]);
    }
  }

  lemma {:induction false} InsertMissing(e: Entry<string>, sorted: seq<Entry<string>>, x: string)
    requires Missing(sorted, x) && x != e.key
    ensures Missing(Insert(e, sorted), x)
  {
    hide Leq;
    if sorted == [] || Leq(e.key, sorted[0].key) {
    } else {
      InsertMissing(e, sorted[1..], x);
    }
  }

  lemma {:induction false} InsertDistinct(e: Entry<string>, sorted: seq<Entry<string>>)
    requires DistinctKeys(sorted) && Missing(sorted, e.key)
    ensures DistinctKeys(Insert(e, sorted))
  {
    hide Leq;
    var all := Insert(e, sorted);
    if sorted == [] || Leq(e.key, sorted[0].key) {
      assert all[1..] == sorted;
    } else {
      InsertDistinct(e, sorted[1..]);
      assert all[1..] == Insert(e, sorted[1..]);
      InsertMissing(e, sorted[1..], sorted[0].key);
    }
  }

  lemma {:induction false} SortMissing(entries: seq<Entry<string>>, x: string)
    requires Missing(entries, x)
    ensures Missing(SortByName(entries), x)
  {
    if entries == [] {
    } else {
      SortMissing(entries[1..], x);
      InsertMissing(entries[0], SortByName(entries[1..]), x);
    }
  }

  /** Sorting keeps every entry as it is. */
  lemma {:induction false} SortLookup(entries: seq<Entry<string>>, x: string)
    requires DistinctKeys(entries)
    ensures DistinctKeys(SortByName(entries)) && Lookup(SortByName(entries), x) == Lookup(entries, x)
  {
    if entries == [] {
    } else {
      SortLookup(entries[1..], x);
      SortMissing(entries[1..], entries[0].key);
      InsertLookup(entries[0], SortByName(entries[1..]), x);
      InsertDistinct(entries[0], SortByName(entries[1..]));
    }
  }

  /** The manufacturers of a chip family in name order, each with its share. */
  ghost predicate Shares(mans: seq<Entry<string>>, manufacturers: seq<Entry<string>>, chip: string, c: Config) {
    && Ascending(mans) && DistinctKeys(mans) && NoneEmpty(mans)
    && forall key :: Lookup(mans, key) == Share(manufacturers, chip, key, c)
  }

  // ---- Sorting by name ----

  predicate Leq(a: string, b: string) {
    a == "" || (b != "" && (a[0] < b[0] || (a[0] == b[0] && Leq(a[1..], b[1..]))))
  }

  lemma {:induction false} LeqTotal(a: string, b: string)
    ensures Leq(a, b) || Leq(b, a)
  {
    if a == "" || b == "" || a[0] != b[0] {
    } else {
      LeqTotal(a[1..], b[1..]);
    }
  }

  function Insert(e: Entry<string>, sorted: seq<Entry<string>>): seq<Entry<string>> {
    if sorted == [] || Leq(e.key, sorted[0].key) then [e] + sorted else [sorted[0]] + Insert(e, sorted[1..])
  }

  function SortByName(entries: seq<Entry<string>>): seq<Entry<string>> {
    if entries == [] then [] else Insert(entries[0], SortByName(entries[1..]))
  }

  predicate Ascending(entries: seq<Entry<string>>) {
    |entries| <= 1 || (Leq(entries[0].key, entries[1].key) && Ascending(entries[1..]))
  }

  lemma {:induction false} InsertSorts(e: Entry<string>, sorted: seq<Entry<string>>)
    requires Ascending(sorted)
    ensures Ascending(Insert(e, sorted)) && Permuted(Held(Insert(e, sorted)), Held(sorted) + e.targets)
    ensures Insert(e, sorted)[0] == e || (sorted != [] && Insert(e, sorted)[0] == sorted[0])
  {
    hide Permuted;
    var all := Insert(e, sorted);
    if sorted == [] || Leq(e.key, sorted[0].key) {
      assert all[1..] == sorted;
      PermutedSame(Held(sorted));
      assert [] + Held(sorted) == Held(sorted) && [] + e.targets == e.targets;
      PermutedMore([], Held(sorted), Held(sorted), e.targets);
    } else {
      var first, rest := sorted[0].targets, sorted[1..];
      LeqTotal(e.key, sorted[0].key);
      InsertSorts(e, rest);
      assert all[1..] == Insert(e, rest);
      PermutedSame(first);
      PermutedBoth(first, first, Held(Insert(e, rest)), Held(rest) + e.targets);
      assert first + (Held(rest) + e.targets) == first + Held(rest) + e.targets;
    }
  }

  lemma {:induction false} InsertNoneEmpty(e: Entry<string>, sorted: seq<Entry<string>>)
    requires NoneEmpty(sorted) && e.targets != []
    ensures NoneEmpty(Insert(e, sorted))
  {
    if sorted == [] || Leq(e.key, sorted[0].key) {
    } else {
      InsertNoneEmpty(e, sorted[1..]);
    }
  }

  lemma {:induction false} SortNoneEmpty(entries: seq<Entry<string>>)
    requires NoneEmpty(entries)
    ensures NoneEmpty(SortByName(entries))
  {
    if entries == [] {
    } else {
      SortNoneEmpty(entries[1..]);
      InsertNoneEmpty(entries[0], SortByName(entries[1..]));
    }
  }

  /** Sorting by name orders the entries and keeps every target. */
  lemma {:induction false} SortSorts(entries: seq<Entry<string>>)
    ensures Ascending(SortByName(entries)) && Permuted(Held(SortByName(entries)), Held(entries))
  {
    hide Permuted;
    if entries == [] {
      PermutedSame([]);
    } else {
      var e, rest := entries[0], entries[1..];
      SortSorts(rest);
      InsertSorts(e, SortByName(rest));
      PermutedSame(e.targets);
      PermutedBoth(Held(SortByName(rest)), Held(rest), e.targets, e.targets);
      PermutedChain(Held(SortByName(entries)), Held(SortByName(rest)) + e.targets, Held(rest) + e.targets);
      PermutedSwap(Held(rest), e.targets);
      PermutedChain(Held(SortByName(entries)), Held(rest) + e.targets, e.targets + Held(rest));
    }
  }

  lemma {:induction false} PermutedSwap(a: seq<string>, b: seq<string>)
    ensures Permuted(a + b, b + a)
  {
  }

  // ---- One chip family ----

  function Label(chip: string): string { if chip == "stm32f1" then "io" else chip }

  // The targets of one chip family, bucket by bucket.
  function OfChip(buckets: seq<Entry<(string, string)>>, chip: string): seq<string> {
    if buckets == [] then []
    else OfChip(buckets[..|buckets| - 1], chip)
         + if buckets[|buckets| - 1].key.0 == chip then buckets[|buckets| - 1].targets else []
  }

  method GatherManufacturers(buckets: seq<Entry<(string, string)>>, chip: string, c: Config)
    returns (mans: seq<Entry<string>>)
    requires NoneEmpty(buckets)
    ensures Permuted(Held(mans), OfChip(buckets, chip)) && NoneEmpty(mans) && DistinctKeys(mans)
    ensures Gathered(mans, buckets, chip, c)
  {
    hide Permuted, Extend, Gathered, DistinctKeys, Held, NoneEmpty;
    NothingThere(chip, c);
    mans := [];
    GatherStart(buckets, chip);
    for i := 0 to |buckets|
      invariant Permuted(Held(mans), OfChip(buckets[..i], chip)) && NoneEmpty(mans) && DistinctKeys(mans)
      invariant Gathered(mans, buckets[..i], chip, c)
    {
      assert buckets[..i + 1][..i] == buckets[..i];
      var b := buckets[i];
      GatherNext(mans, buckets, i, chip, c);
      if b.key.0 == chip {
        var key := if chip in c.nxpChips then "nxp" else b.key.1;
        assert key == KeyOf(chip, b.key.1, c);
        ExtendHeld(mans, key, b.targets);
        PermutedSame(b.targets);
        PermutedBoth(Held(mans), OfChip(buckets[..i], chip), b.targets, b.targets);
        PermutedChain(Held(Extend(mans, key, b.targets)), Held(mans) + b.targets,
                      OfChip(buckets[..i], chip) + b.targets);
        EntryNotEmpty(buckets, i);
        ExtendNoneEmpty(mans, key, b.targets);
        ExtendDistinct(mans, key, b.targets);
        mans := Extend(mans, key, b.targets);
      } else {
        assert OfChip(buckets[..i], chip) + [] == OfChip(buckets[..i], chip);
      }
    }
    assert buckets[..|buckets|] == buckets;
  }

  lemma {:induction false} NothingThere(chip: string, c: Config)
    ensures DistinctKeys([]) && Gathered([], [], chip, c) && NoneEmpty<string>([])
  {
  }

  lemma {:induction false} GatherStart(buckets: seq<Entry<(string, string)>>, chip: string)
    ensures Permuted(Held<string>([]), OfChip(buckets[..0], chip))
  {
  }

  // Every key holds what the buckets hold for it.
  ghost predicate Gathered(mans: seq<Entry<string>>, buckets: seq<Entry<(string, string)>>, chip: string, c: Config) {
    forall key :: Lookup(mans, key) == InBuckets(buckets, chip, key, c)
  }

  lemma {:induction false} GatherNext(mans: seq<Entry<string>>, buckets: seq<Entry<(string, string)>>, i: nat,
                                      chip: string, c: Config)
    requires i < |buckets| && Gathered(mans, buckets[..i], chip, c)
    ensures var b := buckets[i];
      && (b.key.0 == chip ==>
            Gathered(Extend(mans, KeyOf(chip, b.key.1, c), b.targets), buckets[..i + 1], chip, c))
      && (b.key.0 != chip ==> Gathered(mans, buckets[..i + 1], chip, c))
  {
    hide Lookup, InBuckets, Extend, KeyOf;
    var b := buckets[i];
    forall key
      ensures InBuckets(buckets[..i + 1], chip, key, c)
           == Lookup(mans, key) + if b.key.0 == chip && KeyOf(chip, b.key.1, c) == key then b.targets else []
      ensures Lookup(Extend(mans, KeyOf(chip, b.key.1, c), b.targets), key)
           == Lookup(mans, key) + if key == KeyOf(chip, b.key.1, c) then b.targets else []
    {
      InBucketsNext(buckets, i, chip, key, c);
      ExtendLookup(mans, KeyOf(chip, b.key.1, c), b.targets, key);
    }
    assert forall key :: Lookup(mans, key) + [] == Lookup(mans, key);
  }

  lemma {:induction false} PermutedFits(a: seq<string>, b: seq<string>, chip: string, c: Config)
    requires Permuted(a, b) && AllFit(b, chip, c)
    ensures AllFit(a, chip, c)
  {
    forall i | 0 <= i < |a|
      ensures Fits(a[i], chip, c)
    {
      assert a[i] in multiset(b);
    }
  }

  lemma {:induction false} HeldFits<K>(entries: seq<Entry<K>>, i: nat, chip: string, c: Config)
    requires i < |entries| && AllFit(Held(entries), chip, c)
    ensures AllFit(entries[i].targets, chip, c)
  {
    FitParts(entries[0].targets, Held(entries[1..]), chip, c);
    if i == 0 {
    } else {
      HeldFits(entries[1..], i - 1, chip, c);
    }
  }

  // ---- The layout of a chip family ----

  /** One group per part, numbered from 0 on. */
  ghost predicate IsNumbered(piece: seq<Group>, targets: seq<string>, name: string, chip: string, c: Config)
    requires c.Valid()
  {
    var parts := Parts(targets, c.Limit(chip));
    && |piece| == |parts|
    && forall i: nat :: i < |piece| ==>
         piece[i] == Group(name + "-" + Decimal.Print(i), chip, parts[i], |parts[i]|)
  }

  ghost predicate GetsOne(k: nat, chip: string, c: Config) {
    k <= c.Limit(chip) && (k > c.lowerLimit || chip in c.nxpChips)
  }

  /** The groups of one manufacturer: one if it has neither too few nor too many targets, several if too many, and none
      of its own otherwise. */
  ghost predicate ManLaid(piece: seq<Group>, e: Entry<string>, chip: string, c: Config)
    requires c.Valid()
  {
    var k, name := |e.targets|, e.key + "-" + Label(chip);
    if GetsOne(k, chip, c) then piece == [Group(name, chip, e.targets, k)]
    else if k > c.Limit(chip) then IsNumbered(piece, e.targets, name, chip, c)
    else piece == []
  }

  /** The targets of the manufacturers without a group of their own, in name order. */
  ghost function Small(mans: seq<Entry<string>>, chip: string, c: Config): seq<string> {
    if mans == [] then []
    else
      var e := mans[|mans| - 1];
      Small(mans[..|mans| - 1], chip, c)
      + if GetsOne(|e.targets|, chip, c) || |e.targets| > c.Limit(chip) then [] else e.targets
  }

  ghost predicate MiscLaid(piece: seq<Group>, misc: seq<string>, chip: string, c: Config)
    requires c.Valid()
  {
    if misc == [] then piece == []
    else if |Parts(misc, c.Limit(chip))| == 1 then piece == [Group("misc-" + Label(chip), chip, misc, |misc|)]
    else IsNumbered(piece, misc, "misc-" + Label(chip), chip, c)
  }

  ghost function Flat(pieces: seq<seq<Group>>): seq<Group> {
    if pieces == [] then [] else Flat(pieces[..|pieces| - 1]) + pieces[|pieces| - 1]
  }

  lemma {:induction false} FlatSnoc(pieces: seq<seq<Group>>, piece: seq<Group>)
    ensures Flat(pieces + [piece]) == Flat(pieces) + piece
  {
    assert (pieces + [piece])[..|pieces|] == pieces;
  }

  ghost predicate MansLaid(pieces: seq<seq<Group>>, mans: seq<Entry<string>>, chip: string, c: Config)
    requires c.Valid()
  {
    |pieces| == |mans| && forall i :: 0 <= i < |mans| ==> ManLaid(pieces[i], mans[i], chip, c)
  }

  /** The groups of a chip family: those of each manufacturer in name order, then the misc groups. */
  ghost predicate ChipLaid(groups: seq<Group>, mans: seq<Entry<string>>, pieces: seq<seq<Group>>, misc: seq<Group>,
                           chip: string, c: Config)
    requires c.Valid()
  {
    && groups == Flat(pieces) + misc && MansLaid(pieces, mans, chip, c)
    && MiscLaid(misc, Small(mans, chip, c), chip, c)
  }

  /** The same for the given lists. */
  ghost predicate FamilyLaid(groups: seq<Group>, manufacturers: seq<Entry<string>>, chip: string, c: Config)
    requires c.Valid()
  {
    exists mans, pieces, misc :: Shares(mans, manufacturers, chip, c) && ChipLaid(groups, mans, pieces, misc, chip, c)
  }

  lemma {:induction false} LaidNext(pieces: seq<seq<Group>>, piece: seq<Group>, mans: seq<Entry<string>>, k: nat,
                                    chip: string, c: Config)
    requires c.Valid() && k < |mans| && MansLaid(pieces, mans[..k], chip, c) && ManLaid(piece, mans[k], chip, c)
    ensures MansLaid(pieces + [piece], mans[..k + 1], chip, c)
    ensures Small(mans[..k + 1], chip, c) == Small(mans[..k], chip, c)
      + if GetsOne(|mans[k].targets|, chip, c) || |mans[k].targets| > c.Limit(chip) then [] else mans[k].targets
  {
    hide ManLaid, GetsOne;
    assert mans[..k + 1][..k] == mans[..k];
  }

  lemma {:induction false} Several(piece: seq<Group>, targets: seq<string>, name: string, bare: bool, chip: string,
                                   c: Config)
    requires c.Valid() && targets != [] && |piece| == |Parts(targets, c.Limit(chip))|
    requires forall i :: 0 <= i < |piece| ==>
      piece[i] == Part(Parts(targets, c.Limit(chip)), i,
                       if bare && |piece| == 1 then name else Numbered(name, i), chip)
    ensures !bare || |piece| != 1 ==> IsNumbered(piece, targets, name, chip, c)
    ensures bare && |piece| == 1 ==> piece == [Group(name, chip, targets, |targets|)]
  {
    LastPart(targets, c.Limit(chip));
  }

  /** The groups of one chip family: a manufacturer with neither too few nor too many targets gets a group, one
      with too many gets several, and the others share the misc groups. */
  method EmitChip(buckets: seq<Entry<(string, string)>>, chip: string, c: Config,
                  ghost manufacturers: seq<Entry<string>>)
    returns (groups: seq<Group>)
    requires c.Valid() && NoneEmpty(buckets) && AllFit(OfChip(buckets, chip), chip, c)
    requires SharesMatch(buckets, manufacturers, c)
    ensures Permuted(Emitted(groups), OfChip(buckets, chip)) && AllSound(groups, c)
    ensures FamilyLaid(groups, manufacturers, chip, c)
  {
    hide Permuted, Emitted, AllFit, Sound, SortByName, Held, OfChip, NoneEmpty, SharesMatch, Shares, Parts, Ascending;
    hide MansLaid, Small, Flat, MiscLaid, Gathered, DistinctKeys;
    var limit, forceNamed := c.Limit(chip), chip in c.nxpChips;
    var mans := GatherManufacturers(buckets, chip, c);
    var sorted := SortByName(mans);
    SortSorts(mans);
    SortNoneEmpty(mans);
    SortedShares(mans, buckets, manufacturers, chip, c);
    PermutedChain(Held(sorted), Held(mans), OfChip(buckets, chip));
    PermutedFits(Held(sorted), OfChip(buckets, chip), chip, c);
    groups := [];
    var misc: seq<string> := [];
    ghost var pieces: seq<seq<Group>> := [];
    ChipStart(sorted, chip, c);
    for k := 0 to |sorted|
      invariant Permuted(Emitted(groups) + misc, Held(sorted[..k])) && AllSound(groups, c) && AllFit(misc, chip, c)
      invariant MansLaid(pieces, sorted[..k], chip, c) && groups == Flat(pieces)
      invariant misc == Small(sorted[..k], chip, c)
    {
      var man, targets := sorted[k].key, sorted[k].targets;
      ghost var piece: seq<Group> := [];
      HeldNext(sorted, k);
      HeldFits(sorted, k, chip, c);
      EntryNotEmpty(sorted, k);
      PermutedMore(Emitted(groups), misc, Held(sorted[..k]), targets);
      if (forceNamed || |targets| > c.lowerLimit) && |targets| <= limit {
        var g := Group(man + "-" + Label(chip), chip, targets, |targets|);
        SoundGroup(g, c);
        EmittedSnoc(groups, g);
        groups := groups + [g];
        piece := [g];
      } else if |targets| > limit {
        var more := EmitChunks(targets, chip, man + "-" + Label(chip), false, c);
        Several(more, targets, man + "-" + Label(chip), false, chip, c);
        EmittedConcat(groups, more);
        groups := groups + more;
        piece := more;
      } else {
        FitBoth(misc, targets, chip, c);
        misc := misc + targets;
      }
      FlatSnoc(pieces, piece);
      LaidNext(pieces, piece, sorted, k, chip, c);
      Unit(Small(sorted[..k], chip, c));
      pieces := pieces + [piece];
    }
    assert sorted[..|sorted|] == sorted;
    ghost var last: seq<Group> := [];
    if misc != [] {
      var more := EmitChunks(misc, chip, "misc-" + Label(chip), true, c);
      Several(more, misc, "misc-" + Label(chip), true, chip, c);
      EmittedConcat(groups, more);
      groups := groups + more;
      last := more;
    } else {
      assert Emitted(groups) + misc == Emitted(groups);
    }
    MiscIs(last, misc, chip, c);
    assert groups == Flat(pieces) + last;
    assert ChipLaid(groups, sorted, pieces, last, chip, c);
    PermutedChain(Emitted(groups), Held(sorted), OfChip(buckets, chip));
  }

  lemma {:induction false} MiscIs(piece: seq<Group>, misc: seq<string>, chip: string, c: Config)
    requires c.Valid() && (misc == [] ==> piece == [])
    requires misc != [] ==> |piece| == |Parts(misc, c.Limit(chip))|
    requires misc != [] && |piece| != 1 ==> IsNumbered(piece, misc, "misc-" + Label(chip), chip, c)
    requires misc != [] && |piece| == 1 ==> piece == [Group("misc-" + Label(chip), chip, misc, |misc|)]
    ensures MiscLaid(piece, misc, chip, c)
  {
    hide Parts, IsNumbered;
  }

  lemma {:induction false} SortedShares(mans: seq<Entry<string>>, buckets: seq<Entry<(string, string)>>,
                                        manufacturers: seq<Entry<string>>, chip: string, c: Config)
    requires DistinctKeys(mans) && NoneEmpty(mans) && Gathered(mans, buckets, chip, c)
    requires SharesMatch(buckets, manufacturers, c)
    ensures Shares(SortByName(mans), manufacturers, chip, c)
  {
    hide SortByName, DistinctKeys, Lookup, InBuckets, Share, NoneEmpty, Ascending;
    SortSorts(mans);
    SortNoneEmpty(mans);
    SortLookup(mans, "");
    forall key
      ensures Lookup(SortByName(mans), key) == Share(manufacturers, chip, key, c)
    {
      SortLookup(mans, key);
      assert InBuckets(buckets, chip, key, c) == Share(manufacturers, chip, key, c);
    }
  }

  lemma {:induction false} ChipStart(sorted: seq<Entry<string>>, chip: string, c: Config)
    requires c.Valid()
    ensures Permuted(Emitted([]) + [], Held(sorted[..0])) && AllFit([], chip, c)
    ensures MansLaid([], sorted[..0], chip, c) && Flat([]) == [] && Small(sorted[..0], chip, c) == []
  {
  }

  lemma {:induction false} EntryNotEmpty<K>(entries: seq<Entry<K>>, i: nat)
    requires i < |entries| && NoneEmpty(entries)
    ensures entries[i].targets != []
  {
  }

  lemma {:induction false} FitBoth(a: seq<string>, b: seq<string>, chip: string, c: Config)
    requires AllFit(a, chip, c) && AllFit(b, chip, c)
    ensures AllFit(a + b, chip, c)
  {
  }

  // ---- All chip families ----

  // Every target sits in a bucket of its own chip family.
  ghost predicate Bucketed(buckets: seq<Entry<(string, string)>>, c: Config) {
    forall i :: 0 <= i < |buckets| ==> OwnChip(buckets[i], c)
  }

  ghost predicate OwnChip(b: Entry<(string, string)>, c: Config) {
    forall k :: 0 <= k < |b.targets| ==> c.Chip(b.targets[k]) == b.key.0
  }

  lemma {:induction false} ExtendBucketed(buckets: seq<Entry<(string, string)>>, key: (string, string), t: string,
                                          c: Config)
    requires Bucketed(buckets, c) && c.Chip(t) == key.0
    ensures Bucketed(Extend(buckets, key, [t]), c)
  {
    if buckets == [] {
    } else {
      if buckets[0].key == key {
        assert OwnChip(buckets[0], c);
        assert OwnChip(Entry(key, buckets[0].targets + [t]), c);
      } else {
        ExtendBucketed(buckets[1..], key, t, c);
      }
    }
  }

  /** Re-buckets the targets by chip family and manufacturer. */
  method FillBuckets(manufacturers: seq<Entry<string>>, c: Config) returns (buckets: seq<Entry<(string, string)>>)
    requires DistinctKeys(manufacturers)
    ensures Permuted(Held(buckets), Held(manufacturers)) && Bucketed(buckets, c) && NoneEmpty(buckets)
    ensures SharesMatch(buckets, manufacturers, c)
  {
    hide Permuted, Extend, Bucketed, Held, NoneEmpty, InBuckets, Share, Filter, Trailing, DistinctKeys;
    buckets := [];
    BucketStart(manufacturers, c);
    for i := 0 to |manufacturers|
      invariant Permuted(Held(buckets), Held(manufacturers[..i])) && Bucketed(buckets, c) && NoneEmpty(buckets)
      invariant SharesMatch(buckets, manufacturers[..i], c)
      invariant forall j :: i <= j < |manufacturers| ==> Unseen(buckets, manufacturers[j].key)
    {
      HeldNext(manufacturers, i);
      var targets := manufacturers[i].targets;
      ghost var man := manufacturers[i].key;
      StartMan(buckets, manufacturers, i, c);
      ghost var before := Held(manufacturers[..i]);
      assert before + targets[..0] == before;
      for k := 0 to |targets|
        invariant Permuted(Held(buckets), before + targets[..k]) && Bucketed(buckets, c) && NoneEmpty(buckets)
        invariant Filled(buckets, manufacturers[..i], man, targets[..k], c)
        invariant forall x :: Trailing(buckets, x, man)
        invariant forall j :: i < j < |manufacturers| ==> Unseen(buckets, manufacturers[j].key)
      {
        var t := targets[k];
        var key := (c.Chip(t), manufacturers[i].key);
        FillNext(buckets, manufacturers, i, targets, k, c);
        ExtendHeld(buckets, key, [t]);
        ExtendBucketed(buckets, key, t, c);
        ExtendNoneEmpty(buckets, key, [t]);
        PermutedSame([t]);
        PermutedBoth(Held(buckets), before + targets[..k], [t], [t]);
        PermutedChain(Held(Extend(buckets, key, [t])), Held(buckets) + [t], before + targets[..k] + [t]);
        assert before + targets[..k] + [t] == before + targets[..k + 1];
        buckets := Extend(buckets, key, [t]);
      }
      assert targets[..|targets|] == targets;
      FilledMan(buckets, manufacturers, i, c);
    }
    assert manufacturers[..|manufacturers|] == manufacturers;
  }

  // The shares of the manufacturers so far, and of the first targets of the next one.
  ghost predicate Filled(buckets: seq<Entry<(string, string)>>, done: seq<Entry<string>>, man: string,
                         targets: seq<string>, c: Config)
  {
    forall chip, key ::
      InBuckets(buckets, chip, key, c)
      == Share(done, chip, key, c) + if KeyOf(chip, man, c) == key then Filter(targets, chip, c) else []
  }

  lemma {:induction false} StartMan(buckets: seq<Entry<(string, string)>>, manufacturers: seq<Entry<string>>, i: nat,
                                    c: Config)
    requires i < |manufacturers| && SharesMatch(buckets, manufacturers[..i], c)
    requires Unseen(buckets, manufacturers[i].key)
    ensures Filled(buckets, manufacturers[..i], manufacturers[i].key, manufacturers[i].targets[..0], c)
    ensures forall x :: Trailing(buckets, x, manufacturers[i].key)
  {
    hide KeyOf;
    forall x
      ensures Trailing(buckets, x, manufacturers[i].key)
    {
      UnseenTrailing(buckets, manufacturers[i].key, x);
    }
  }

  lemma {:induction false} FillNext(buckets: seq<Entry<(string, string)>>, manufacturers: seq<Entry<string>>, i: nat,
                                    targets: seq<string>, k: nat, c: Config)
    requires i < |manufacturers| && k < |targets| && DistinctKeys(manufacturers)
    requires Filled(buckets, manufacturers[..i], manufacturers[i].key, targets[..k], c)
    requires forall x :: Trailing(buckets, x, manufacturers[i].key)
    requires forall j :: i < j < |manufacturers| ==> Unseen(buckets, manufacturers[j].key)
    ensures var man, t := manufacturers[i].key, targets[k];
      var more := Extend(buckets, (c.Chip(t), man), [t]);
      && Filled(more, manufacturers[..i], man, targets[..k + 1], c)
      && (forall x :: Trailing(more, x, man))
      && forall j :: i < j < |manufacturers| ==> Unseen(more, manufacturers[j].key)
  {
    hide KeyOf, InBuckets, Extend, Trailing, DistinctKeys, Unseen, Share;
    var man, t := manufacturers[i].key, targets[k];
    var more := Extend(buckets, (c.Chip(t), man), [t]);
    forall chip, key
      ensures InBuckets(more, chip, key, c)
           == Share(manufacturers[..i], chip, key, c)
              + if KeyOf(chip, man, c) == key then Filter(targets[..k + 1], chip, c) else []
    {
      ExtendInBuckets(buckets, c.Chip(t), man, [t], chip, key, c);
      assert targets[..k + 1][..k] == targets[..k];
    }
    forall x
      ensures Trailing(more, x, man)
    {
      ExtendTrailing(buckets, c.Chip(t), man, [t], x);
    }
    forall j | i < j < |manufacturers|
      ensures Unseen(more, manufacturers[j].key)
    {
      KeysDiffer(manufacturers, i, j);
      ExtendUnseen(buckets, c.Chip(t), man, [t], manufacturers[j].key);
    }
  }

  lemma {:induction false} KeysDiffer(entries: seq<Entry<string>>, i: nat, j: nat)
    requires i < j < |entries| && DistinctKeys(entries)
    ensures entries[i].key != entries[j].key
  {
    if i == 0 {
      assert entries[1..][j - 1] == entries[j];
    } else {
      KeysDiffer(entries[1..], i - 1, j - 1);
    }
  }

  lemma {:induction false} FilledMan(buckets: seq<Entry<(string, string)>>, manufacturers: seq<Entry<string>>, i: nat,
                                     c: Config)
    requires i < |manufacturers|
    requires Filled(buckets, manufacturers[..i], manufacturers[i].key, manufacturers[i].targets, c)
    ensures SharesMatch(buckets, manufacturers[..i + 1], c)
  {
    hide KeyOf, InBuckets, Filter;
    assert manufacturers[..i + 1][..i] == manufacturers[..i];
  }

  lemma {:induction false} BucketStart(manufacturers: seq<Entry<string>>, c: Config)
    ensures Permuted(Held<(string, string)>([]), Held(manufacturers[..0])) && Bucketed([], c)
    ensures SharesMatch([], manufacturers[..0], c)
    ensures NoneEmpty<(string, string)>([])
  {
  }

  function InsertChip(chip: string, chips: seq<string>): seq<string> {
    if chips == [] || Leq(chip, chips[0]) then [chip] + chips else [chips[0]] + InsertChip(chip, chips[1..])
  }

  // The chip families present, sorted, each once.
  function ChipsOf(buckets: seq<Entry<(string, string)>>): seq<string> {
    if buckets == [] then [] else
    var rest, chip := ChipsOf(buckets[..|buckets| - 1]), buckets[|buckets| - 1].key.0;
    if chip in rest then rest else InsertChip(chip, rest)
  }

  ghost predicate Distinct(chips: seq<string>) {
    forall i, j :: 0 <= i < j < |chips| ==> chips[i] != chips[j]
  }

  lemma {:induction false} InsertChipMeans(chip: string, chips: seq<string>)
    requires Distinct(chips) && chip !in chips
    ensures Distinct(InsertChip(chip, chips))
    ensures forall x :: x in InsertChip(chip, chips) <==> x == chip || x in chips
  {
    if chips == [] || Leq(chip, chips[0]) {
    } else {
      InsertChipMeans(chip, chips[1..]);
      assert chips == [chips[0]] + chips[1..];
      assert chips[0] !in chips[1..];
      assert chips[0] !in InsertChip(chip, chips[1..]);
    }
  }

  predicate InNameOrder(chips: seq<string>) {
    |chips| <= 1 || (Leq(chips[0], chips[1]) && InNameOrder(chips[1..]))
  }

  lemma {:induction false} InsertChipSorts(chip: string, chips: seq<string>)
    requires InNameOrder(chips)
    ensures InNameOrder(InsertChip(chip, chips))
    ensures InsertChip(chip, chips)[0] == chip || (chips != [] && InsertChip(chip, chips)[0] == chips[0])
  {
    hide Leq;
    var all := InsertChip(chip, chips);
    if chips == [] || Leq(chip, chips[0]) {
      assert all[1..] == chips;
    } else {
      LeqTotal(chip, chips[0]);
      InsertChipSorts(chip, chips[1..]);
      assert all[1..] == InsertChip(chip, chips[1..]);
    }
  }

  lemma {:induction false} ChipsSorted(buckets: seq<Entry<(string, string)>>)
    ensures InNameOrder(ChipsOf(buckets))
  {
    hide InsertChip, InNameOrder;
    if buckets == [] {
      assert InNameOrder([]) by { NoChips(); }
    } else {
      ChipsSorted(buckets[..|buckets| - 1]);
      InsertChipSorts(buckets[|buckets| - 1].key.0, ChipsOf(buckets[..|buckets| - 1]));
    }
  }

  lemma {:induction false} NoChips()
    ensures InNameOrder([])
  {
  }

  lemma {:induction false} ChipsOfMeans(buckets: seq<Entry<(string, string)>>)
    ensures Distinct(ChipsOf(buckets))
    ensures forall i :: 0 <= i < |buckets| ==> buckets[i].key.0 in ChipsOf(buckets)
    ensures forall chip :: chip in ChipsOf(buckets) ==> !Without(buckets, chip)
  {
    if buckets == [] {
    } else {
      var front, chip := buckets[..|buckets| - 1], buckets[|buckets| - 1].key.0;
      ChipsOfMeans(front);
      if chip !in ChipsOf(front) {
        InsertChipMeans(chip, ChipsOf(front));
      }
      assert forall i :: 0 <= i < |front| ==> front[i] == buckets[i];
      assert buckets[|front|].key.0 == chip;
      forall x | x in ChipsOf(buckets)
        ensures !Without(buckets, x)
      {
        if x != chip {
          var i :| 0 <= i < |front| && front[i].key.0 == x;
          assert buckets[i].key.0 == x;
        }
      }
    }
  }

  // The targets of the chip families that get groups of their own.
  function Covered(buckets: seq<Entry<(string, string)>>, chips: seq<string>): seq<string> {
    if chips == [] then []
    else Covered(buckets, chips[..|chips| - 1]) + OwnGroups(buckets, chips[|chips| - 1])
  }

  function OwnGroups(buckets: seq<Entry<(string, string)>>, chip: string): seq<string> {
    if IsSpecial(chip) then [] else OfChip(buckets, chip)
  }

  function SpecialOf(buckets: seq<Entry<(string, string)>>): seq<string> {
    if buckets == [] then []
    else SpecialOf(buckets[..|buckets| - 1])
         + if IsSpecial(buckets[|buckets| - 1].key.0) then buckets[|buckets| - 1].targets else []
  }

  // What one more bucket adds to the families with groups of their own.
  function Added(b: Entry<(string, string)>, chips: seq<string>): seq<string> {
    if b.key.0 in chips && !IsSpecial(b.key.0) then b.targets else []
  }

  lemma {:induction false} Unit(a: seq<string>)
    ensures a + [] == a
  {
  }

  lemma {:induction false} OwnNext(buckets: seq<Entry<(string, string)>>, b: Entry<(string, string)>, x: string)
    ensures OwnGroups(buckets + [b], x) == OwnGroups(buckets, x) + Added(b, [x])
  {
    assert (buckets + [b])[..|buckets|] == buckets;
  }

  lemma {:induction false} AddedOnce(b: Entry<(string, string)>, front: seq<string>, x: string)
    requires x !in front
    ensures b.key.0 == x ==> Added(b, front) == [] && Added(b, [x]) == Added(b, front + [x])
    ensures b.key.0 != x ==> Added(b, [x]) == [] && Added(b, front) == Added(b, front + [x])
  {
  }

  lemma {:induction false} CoveredNext(buckets: seq<Entry<(string, string)>>, b: Entry<(string, string)>,
                                       chips: seq<string>)
    requires Distinct(chips)
    ensures Permuted(Covered(buckets + [b], chips), Covered(buckets, chips) + Added(b, chips))
  {
    hide Permuted, OwnGroups;
    if chips == [] {
      PermutedSame([]);
      assert [] + Added(b, chips) == [];
    } else {
      var front, x := chips[..|chips| - 1], chips[|chips| - 1];
      CoveredNext(buckets, b, front);
      assert chips == front + [x];
      CoveredLast(buckets, b, front, x);
    }
  }

  lemma {:induction false} CoveredLast(buckets: seq<Entry<(string, string)>>, b: Entry<(string, string)>,
                                       front: seq<string>, x: string)
    requires x !in front
    requires Permuted(Covered(buckets + [b], front), Covered(buckets, front) + Added(b, front))
    ensures Permuted(Covered(buckets + [b], front + [x]), Covered(buckets, front + [x]) + Added(b, front + [x]))
  {
    hide Permuted, OwnGroups, Added;
    var chips := front + [x];
    assert chips[..|front|] == front;
    var was, now, own := Covered(buckets, front), Covered(buckets + [b], front), OwnGroups(buckets, x);
    OwnNext(buckets, b, x);
    AddedOnce(b, front, x);
    if b.key.0 == x {
      Unit(was);
      PermutedBehind(now, was, own, Added(b, chips));
    } else {
      Unit(own);
      PermutedBetween(now, was, own, Added(b, chips));
    }
  }

  lemma {:induction false} CoveredNone(chips: seq<string>)
    ensures Covered([], chips) == []
  {
    if chips == [] {
    } else {
      CoveredNone(chips[..|chips| - 1]);
    }
  }

  // Families with groups of their own and the special ones together hold every bucket.
  lemma {:induction false} Partition(buckets: seq<Entry<(string, string)>>, chips: seq<string>)
    requires Distinct(chips) && forall i :: 0 <= i < |buckets| ==> buckets[i].key.0 in chips
    ensures Permuted(Covered(buckets, chips) + SpecialOf(buckets), Held(buckets))
  {
    hide Permuted, Distinct, Covered, Held;
    if buckets == [] {
      CoveredNone(chips);
      HeldNone();
      PermutedSame([]);
      Unit([]);
    } else {
      var front, b := buckets[..|buckets| - 1], buckets[|buckets| - 1];
      assert buckets == front + [b];
      Partition(front, chips);
      PartitionLast(front, b, chips);
    }
  }

  lemma {:induction false} HeldNone()
    ensures Held<(string, string)>([]) == []
  {
  }

  lemma {:induction false} PartitionLast(front: seq<Entry<(string, string)>>, b: Entry<(string, string)>,
                                         chips: seq<string>)
    requires Distinct(chips) && b.key.0 in chips
    requires Permuted(Covered(front, chips) + SpecialOf(front), Held(front))
    ensures Permuted(Covered(front + [b], chips) + SpecialOf(front + [b]), Held(front + [b]))
  {
    hide Permuted, Distinct, Covered, Held;
    var buckets := front + [b];
    assert buckets[..|front|] == front;
    CoveredNext(front, b, chips);
    HeldNext(buckets, |front|);
    assert buckets[..|front| + 1] == buckets;
    var was, special, now := Covered(front, chips), SpecialOf(front), Covered(buckets, chips);
    PermutedSame(b.targets);
    PermutedBoth(was + special, Held(front), b.targets, b.targets);
    Unit(was);
    Unit(special);
    if IsSpecial(b.key.0) {
      PermutedBehind(now, was, special, b.targets);
    } else {
      PermutedBetween(now, was, special, b.targets);
    }
    PermutedChain(now + SpecialOf(buckets), was + special + b.targets, Held(front) + b.targets);
  }

  lemma {:induction false} ChipFits(buckets: seq<Entry<(string, string)>>, chip: string, c: Config)
    requires Bucketed(buckets, c) && !IsSpecial(chip)
    ensures AllFit(OfChip(buckets, chip), chip, c)
  {
    if buckets == [] {
    } else {
      var front, b := buckets[..|buckets| - 1], buckets[|buckets| - 1];
      ChipFits(front, chip, c);
      assert OwnChip(b, c);
      if b.key.0 == chip {
        FitBoth(OfChip(front, chip), b.targets, chip, c);
      } else {
        assert OfChip(front, chip) + [] == OfChip(front, chip);
      }
    }
  }

  lemma {:induction false} SpecialFits(buckets: seq<Entry<(string, string)>>, c: Config)
    requires Bucketed(buckets, c)
    ensures AllFit(SpecialOf(buckets), "special", c)
  {
    if buckets == [] {
    } else {
      var front, b := buckets[..|buckets| - 1], buckets[|buckets| - 1];
      SpecialFits(front, c);
      assert OwnChip(b, c);
      if IsSpecial(b.key.0) {
        FitBoth(SpecialOf(front), b.targets, "special", c);
      } else {
        assert SpecialOf(front) + [] == SpecialOf(front);
      }
    }
  }

  method GatherSpecial(buckets: seq<Entry<(string, string)>>) returns (targets: seq<string>)
    ensures targets == SpecialOf(buckets)
  {
    targets := [];
    for i := 0 to |buckets|
      invariant targets == SpecialOf(buckets[..i])
    {
      assert buckets[..i + 1][..i] == buckets[..i];
      if IsSpecial(buckets[i].key.0) {
        targets := targets + buckets[i].targets;
      }
    }
    assert buckets[..|buckets|] == buckets;
  }

  // ---- The layout of all families ----

  /** Some target is of the chip family. */
  ghost predicate Present(chip: string, targets: seq<string>, c: Config) {
    exists i :: 0 <= i < |targets| && c.Chip(targets[i]) == chip
  }

  function SpecialTargets(targets: seq<string>, c: Config): seq<string> {
    if targets == [] then []
    else
      var t := targets[|targets| - 1];
      SpecialTargets(targets[..|targets| - 1], c) + if IsSpecial(c.Chip(t)) then [t] else []
  }

  /** The special groups: one of that name, or numbered ones if there are too many targets for it. */
  ghost predicate SpecialLaid(piece: seq<Group>, targets: seq<string>, c: Config)
    requires c.Valid()
  {
    if targets == [] then piece == []
    else if |targets| <= c.Limit("special") then piece == [Group("special", "special", targets, |targets|)]
    else IsNumbered(piece, targets, "special", "special", c)
  }

  /** The groups are those of the chip families present, in name order, each laid out from its manufacturers' shares,
      and behind them the special ones. */
  ghost predicate AllLaid(groups: seq<Group>, manufacturers: seq<Entry<string>>, c: Config)
    requires c.Valid()
  {
    exists chips, families, special, targets ::
      Planned(groups, chips, families, special, targets, manufacturers, c)
  }

  ghost predicate Planned(groups: seq<Group>, chips: seq<string>, families: seq<seq<Group>>, special: seq<Group>,
                          targets: seq<string>, manufacturers: seq<Entry<string>>, c: Config)
    requires c.Valid()
  {
    && groups == Flat(families) + special
    && InNameOrder(chips) && Distinct(chips)
    && (forall chip :: chip in chips <==> Present(chip, Held(manufacturers), c))
    && FamiliesLaid(families, chips, manufacturers, c)
    && multiset(targets) == multiset(SpecialTargets(Held(manufacturers), c)) && SpecialLaid(special, targets, c)
  }

  ghost predicate FamiliesLaid(families: seq<seq<Group>>, chips: seq<string>, manufacturers: seq<Entry<string>>,
                               c: Config)
    requires c.Valid()
  {
    && |families| == |chips|
    && forall i :: 0 <= i < |chips| ==>
         if IsSpecial(chips[i]) then families[i] == [] else FamilyLaid(families[i], manufacturers, chips[i], c)
  }

  lemma {:induction false} SpecialCount(targets: seq<string>, c: Config, t: string)
    ensures multiset(SpecialTargets(targets, c))[t] == if IsSpecial(c.Chip(t)) then multiset(targets)[t] else 0
  {
    if targets == [] {
    } else {
      var n := |targets| - 1;
      SpecialCount(targets[..n], c, t);
      assert targets == targets[..n] + [targets[n]];
    }
  }

  lemma {:induction false} SpecialPermuted(a: seq<string>, b: seq<string>, c: Config)
    requires Permuted(a, b)
    ensures Permuted(SpecialTargets(a, c), SpecialTargets(b, c))
  {
    forall t
      ensures multiset(SpecialTargets(a, c))[t] == multiset(SpecialTargets(b, c))[t]
    {
      SpecialCount(a, c, t);
      SpecialCount(b, c, t);
    }
  }

  ghost function OneIfSpecial(t: string, c: Config): seq<string> {
    if IsSpecial(c.Chip(t)) then [t] else []
  }

  lemma {:induction false} SpecialLast(targets: seq<string>, c: Config)
    requires targets != []
    ensures var n := |targets| - 1;
      SpecialTargets(targets, c) == SpecialTargets(targets[..n], c) + OneIfSpecial(targets[n], c)
  {
  }

  lemma {:induction false} SpecialConcat(a: seq<string>, b: seq<string>, c: Config)
    ensures SpecialTargets(a + b, c) == SpecialTargets(a, c) + SpecialTargets(b, c)
  {
    if b == [] {
      assert a + b == a;
    } else {
      hide SpecialTargets, OneIfSpecial;
      var n := |b| - 1;
      SpecialConcat(a, b[..n], c);
      assert (a + b)[..|a + b| - 1] == a + b[..n];
      SpecialLast(a + b, c);
      SpecialLast(b, c);
      Assoc(SpecialTargets(a, c), SpecialTargets(b[..n], c), OneIfSpecial(b[n], c));
    }
  }

  lemma {:induction false} AllOrNone(targets: seq<string>, chip: string, c: Config)
    requires forall k :: 0 <= k < |targets| ==> c.Chip(targets[k]) == chip
    ensures SpecialTargets(targets, c) == if IsSpecial(chip) then targets else []
  {
    if targets == [] {
    } else {
      var n := |targets| - 1;
      AllOrNone(targets[..n], chip, c);
      assert targets == targets[..n] + [targets[n]];
    }
  }

  /** The special buckets hold the special targets. */
  lemma {:induction false} SpecialBuckets(buckets: seq<Entry<(string, string)>>, c: Config)
    requires Bucketed(buckets, c)
    ensures SpecialOf(buckets) == SpecialTargets(Held(buckets), c)
  {
    hide Held;
    if buckets == [] {
      HeldNone();
    } else {
      var n := |buckets| - 1;
      SpecialBuckets(buckets[..n], c);
      HeldNext(buckets, n);
      assert buckets[..n + 1] == buckets && OwnChip(buckets[n], c);
      SpecialConcat(Held(buckets[..n]), buckets[n].targets, c);
      AllOrNone(buckets[n].targets, buckets[n].key.0, c);
    }
  }

  lemma {:induction false} BucketPresent(buckets: seq<Entry<(string, string)>>, chip: string, c: Config)
    requires Bucketed(buckets, c) && NoneEmpty(buckets)
    ensures !Without(buckets, chip) <==> Present(chip, Held(buckets), c)
  {
    if buckets == [] {
    } else {
      var b, rest := buckets[0], buckets[1..];
      assert OwnChip(b, c) && b.targets != [];
      BucketPresent(rest, chip, c);
      assert buckets == [b] + rest;
      PresentConcat(chip, b.targets, Held(rest), c);
      assert b.key.0 == chip <==> Present(chip, b.targets, c) by {
        assert b.key.0 == chip ==> c.Chip(b.targets[0]) == chip;
      }
      WithoutHead(buckets, chip);
    }
  }

  lemma {:induction false} WithoutHead(buckets: seq<Entry<(string, string)>>, chip: string)
    requires buckets != []
    ensures Without(buckets, chip) <==> buckets[0].key.0 != chip && Without(buckets[1..], chip)
  {
    assert buckets == [buckets[0]] + buckets[1..];
  }

  lemma {:induction false} PresentConcat(chip: string, a: seq<string>, b: seq<string>, c: Config)
    ensures Present(chip, a + b, c) <==> Present(chip, a, c) || Present(chip, b, c)
  {
    if Present(chip, a, c) {
      var i :| 0 <= i < |a| && c.Chip(a[i]) == chip;
      assert (a + b)[i] == a[i];
    }
    if Present(chip, b, c) {
      var i :| 0 <= i < |b| && c.Chip(b[i]) == chip;
      assert (a + b)[|a| + i] == b[i];
    }
  }

  lemma {:induction false} PresentPermuted(chip: string, a: seq<string>, b: seq<string>, c: Config)
    requires Permuted(a, b) && Present(chip, a, c)
    ensures Present(chip, b, c)
  {
    var i :| 0 <= i < |a| && c.Chip(a[i]) == chip;
    assert a[i] in multiset(b);
  }

  /** The chip families of the buckets are those of the given targets. */
  lemma {:induction false} ChipsPresent(buckets: seq<Entry<(string, string)>>, manufacturers: seq<Entry<string>>,
                                        c: Config)
    requires Bucketed(buckets, c) && NoneEmpty(buckets) && Permuted(Held(buckets), Held(manufacturers))
    ensures forall chip :: chip in ChipsOf(buckets) <==> Present(chip, Held(manufacturers), c)
  {
    hide Bucketed, NoneEmpty, Held, ChipsOf, Present, Permuted;
    ChipsOfMeans(buckets);
    forall chip
      ensures chip in ChipsOf(buckets) <==> Present(chip, Held(manufacturers), c)
    {
      BucketPresent(buckets, chip, c);
      if Present(chip, Held(buckets), c) {
        PresentPermuted(chip, Held(buckets), Held(manufacturers), c);
      }
      if Present(chip, Held(manufacturers), c) {
        PermutedBack(Held(buckets), Held(manufacturers));
        PresentPermuted(chip, Held(manufacturers), Held(buckets), c);
      }
    }
  }

  lemma {:induction false} PermutedBack(a: seq<string>, b: seq<string>)
    requires Permuted(a, b)
    ensures Permuted(b, a)
  {
  }

  lemma {:induction false} FamiliesNext(families: seq<seq<Group>>, family: seq<Group>, chips: seq<string>, i: nat,
                                        manufacturers: seq<Entry<string>>, c: Config)
    requires c.Valid() && i < |chips| && FamiliesLaid(families, chips[..i], manufacturers, c)
    requires if IsSpecial(chips[i]) then family == [] else FamilyLaid(family, manufacturers, chips[i], c)
    ensures FamiliesLaid(families + [family], chips[..i + 1], manufacturers, c)
    ensures Flat(families + [family]) == Flat(families) + family
  {
    hide FamilyLaid, Flat;
    FlatSnoc(families, family);
  }

  lemma {:induction false} SpecialIs(piece: seq<Group>, targets: seq<string>, c: Config)
    requires c.Valid() && targets != [] && |piece| == |Parts(targets, c.Limit("special"))|
    requires forall i :: 0 <= i < |piece| ==>
      piece[i] == Part(Parts(targets, c.Limit("special")), i,
                       if |targets| <= c.Limit("special") && |piece| == 1 then "special" else Numbered("special", i),
                       "special")
    ensures SpecialLaid(piece, targets, c)
  {
    Several(piece, targets, "special", |targets| <= c.Limit("special"), "special", c);
    assert |targets| <= c.Limit("special") ==> |Parts(targets, c.Limit("special"))| == 1;
  }

  /** The NuttX allocator: the emitted groups hold exactly the given targets, each as often as it was given;
      every group counts its targets, has at least one and at most four more than its split limit, and holds
      targets of one chip family only (the special and RP2040 ones together). They are laid out family by family and
      manufacturer by manufacturer. */
  method GroupTargets(manufacturers: seq<Entry<string>>, c: Config) returns (groups: seq<Group>)
    requires c.Valid() && DistinctKeys(manufacturers)
    ensures multiset(Emitted(groups)) == multiset(Held(manufacturers)) && AllSound(groups, c)
    ensures AllLaid(groups, manufacturers, c)
  {
    hide Permuted, Emitted, AllFit, Sound, OfChip, Covered, SpecialOf, Held, ChipsOf, Bucketed, NoneEmpty, Parts;
    hide FamiliesLaid, Flat, SharesMatch, FamilyLaid, SpecialLaid, InNameOrder, SpecialTargets, Present, DistinctKeys;
    var buckets := FillBuckets(manufacturers, c);
    var chips := ChipsOf(buckets);
    groups := [];
    ghost var families: seq<seq<Group>> := [];
    GroupStart(buckets, chips, manufacturers, c);
    for i := 0 to |chips|
      invariant Permuted(Emitted(groups), Covered(buckets, chips[..i])) && AllSound(groups, c)
      invariant FamiliesLaid(families, chips[..i], manufacturers, c) && groups == Flat(families)
    {
      CoveredStep(buckets, chips, i);
      if IsSpecial(chips[i]) {
        assert Covered(buckets, chips[..i]) + [] == Covered(buckets, chips[..i]);
        FamiliesNext(families, [], chips, i, manufacturers, c);
        families := families + [[]];
        continue;
      }
      ChipFits(buckets, chips[i], c);
      var more := EmitChip(buckets, chips[i], c, manufacturers);
      EmittedConcat(groups, more);
      PermutedBoth(Emitted(groups), Covered(buckets, chips[..i]), Emitted(more), OfChip(buckets, chips[i]));
      FamiliesNext(families, more, chips, i, manufacturers, c);
      families := families + [more];
      groups := groups + more;
    }
    assert chips[..|chips|] == chips;
    var special := GatherSpecial(buckets);
    SpecialFits(buckets, c);
    PermutedSame(special);
    PermutedBoth(Emitted(groups), Covered(buckets, chips), special, special);
    ghost var last: seq<Group> := [];
    if special != [] {
      var more := EmitChunks(special, "special", "special", |special| <= c.Limit("special"), c);
      SpecialIs(more, special, c);
      EmittedConcat(groups, more);
      groups := groups + more;
      last := more;
    } else {
      assert Emitted(groups) + special == Emitted(groups);
      NoSpecial(c);
    }
    ChipsOfMeans(buckets);
    ChipsSorted(buckets);
    ChipsPresent(buckets, manufacturers, c);
    SpecialBuckets(buckets, c);
    SpecialPermuted(Held(buckets), Held(manufacturers), c);
    PermutedMeans(special, SpecialTargets(Held(manufacturers), c));
    assert groups == Flat(families) + last;
    assert Planned(groups, chips, families, last, special, manufacturers, c);
    Partition(buckets, chips);
    PermutedChain(Emitted(groups), Covered(buckets, chips) + special, Held(buckets));
    PermutedChain(Emitted(groups), Held(buckets), Held(manufacturers));
    PermutedMeans(Emitted(groups), Held(manufacturers));
  }

  lemma {:induction false} NoSpecial(c: Config)
    requires c.Valid()
    ensures SpecialLaid([], [], c)
  {
  }

  lemma {:induction false} GroupStart(buckets: seq<Entry<(string, string)>>, chips: seq<string>,
                                      manufacturers: seq<Entry<string>>, c: Config)
    requires c.Valid()
    ensures Permuted(Emitted([]), Covered(buckets, chips[..0]))
    ensures FamiliesLaid([], chips[..0], manufacturers, c) && Flat([]) == []
  {
  }

  lemma {:induction false} CoveredStep(buckets: seq<Entry<(string, string)>>, chips: seq<string>, i: nat)
    requires i < |chips|
    ensures Covered(buckets, chips[..i + 1]) == Covered(buckets, chips[..i]) + OwnGroups(buckets, chips[i])
  {
    assert chips[..i + 1][..i] == chips[..i];
  }

  lemma {:induction false} PermutedMeans(a: seq<string>, b: seq<string>)
    requires Permuted(a, b)
    ensures multiset(a) == multiset(b)
  {
  }
}

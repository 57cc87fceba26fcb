/** The reverse-range bitmask of a prefix: which bits it has, in which order, and what is printed for it. */
module ReverseRange {

  import opened Basics
  import opened TimerGroups
  import opened ActuatorOutputs
  import opened ActuatorAgreement
  import opened Whitespace
  import ParamText
  import ParamReading
  import ParamRoundTrip
  import ParamTidy
  import Decimal

  // ---- The bits ----

  /** An entry of the dictionary of bits, in the dictionary's order. */
  datatype ChannelBit = ChannelBit(index: int, text: string)

  // A key keeps its place when its value changes, and a new one comes last.
  function Put(bits: seq<ChannelBit>, bit: ChannelBit): seq<ChannelBit> {
    if bits == [] then [bit]
    else if bits[0].index == bit.index then [bit] + bits[1..]
    else [bits[0]] + Put(bits[1..], bit)
  }

  function BitOf(e: Entry, k: int): ChannelBit {
    ChannelBit(e.start + k - 1, e.name + " " + ParamText.PrintInt(k + e.startLabel))
  }

  // The bits, then those of the first k channels of an entry.
  function PutAll(bits: seq<ChannelBit>, e: Entry, k: nat): seq<ChannelBit> {
    if k == 0 then bits else Put(PutAll(bits, e, k - 1), BitOf(e, k - 1))
  }

  function Bits(entries: seq<Entry>): seq<ChannelBit> {
    if entries == [] then []
    else PutAll(Bits(entries[..|entries| - 1]), entries[|entries| - 1], entries[|entries| - 1].count)
  }

  /** One bit for every channel of a prefix, named and numbered like the channel. */
  method CollectChannelBits(entries: seq<Entry>) returns (bits: seq<ChannelBit>)
    ensures bits == Bits(entries)
  {
    hide Put, BitOf;
    bits := [];
    for i := 0 to |entries|
      invariant bits == Bits(entries[..i])
    {
      var e := entries[i];
      ghost var before := bits;
      for k := 0 to e.count
        invariant bits == PutAll(before, e, k)
      {
        bits := Put(bits, BitOf(e, k));
      }
      assert entries[..i + 1][..i] == entries[..i];
    }
    assert entries[..|entries|] == entries;
  }

  function Indices(bits: seq<ChannelBit>): seq<int> {
    if bits == [] then [] else [bits[0].index] + Indices(bits[1..])
  }

  predicate Distinct(bits: seq<ChannelBit>) {
    bits == [] || (bits[0].index !in Indices(bits[1..]) && Distinct(bits[1..]))
  }

  lemma {:induction false} PutMeans(bits: seq<ChannelBit>, bit: ChannelBit, b: int)
    ensures b in Indices(Put(bits, bit)) <==> b in Indices(bits) || b == bit.index
  {
    if bits == [] {
    } else if bits[0].index == bit.index {
      assert Put(bits, bit)[1..] == bits[1..];
    } else {
      PutMeans(bits[1..], bit, b);
      assert Put(bits, bit)[1..] == Put(bits[1..], bit);
    }
  }

  lemma {:induction false} PutDistinct(bits: seq<ChannelBit>, bit: ChannelBit)
    requires Distinct(bits)
    ensures Distinct(Put(bits, bit))
  {
    if bits == [] {
    } else if bits[0].index == bit.index {
      assert Put(bits, bit)[1..] == bits[1..];
    } else {
      PutDistinct(bits[1..], bit);
      PutMeans(bits[1..], bit, bits[0].index);
      assert Put(bits, bit)[1..] == Put(bits[1..], bit);
    }
  }

  lemma {:induction false} PutAllMeans(bits: seq<ChannelBit>, e: Entry, k: nat, b: int)
    requires Distinct(bits)
    ensures Distinct(PutAll(bits, e, k))
    ensures b in Indices(PutAll(bits, e, k)) <==> b in Indices(bits) || b + 1 in Range(e.start, k)
  {
    hide Put, Distinct, Indices;
    if k == 0 {
    } else {
      PutAllMeans(bits, e, k - 1, b);
      PutMeans(PutAll(bits, e, k - 1), BitOf(e, k - 1), b);
      PutDistinct(PutAll(bits, e, k - 1), BitOf(e, k - 1));
    }
  }

  /** No bit occurs twice, and a bit exists exactly for the channel whose number is one more. */
  lemma {:induction false} BitsMatchChannels(entries: seq<Entry>, b: int)
    ensures Distinct(Bits(entries)) && (b in Indices(Bits(entries)) <==> b + 1 in Instances(entries))
  {
    hide PutAll;
    if entries == [] {
    } else {
      var front, e := entries[..|entries| - 1], entries[|entries| - 1];
      BitsMatchChannels(front, b);
      PutAllMeans(Bits(front), e, e.count, b);
    }
  }

  /** The text of a bit. */
  function TextAt(bits: seq<ChannelBit>, b: int): Option<string> {
    if bits == [] then None else if bits[0].index == b then Some(bits[0].text) else TextAt(bits[1..], b)
  }

  // Channel b + 1 as the last entry that has it names it.
  function LastText(entries: seq<Entry>, b: int): Option<string> {
    if entries == [] then None else
    var e := entries[|entries| - 1];
    if e.start <= b + 1 < e.start + e.count
    then Some(e.name + " " + ParamText.PrintInt(e.startLabel + (b + 1 - e.start)))
    else LastText(entries[..|entries| - 1], b)
  }

  lemma {:induction false} PutText(bits: seq<ChannelBit>, bit: ChannelBit, b: int)
    ensures TextAt(Put(bits, bit), b) == if b == bit.index then Some(bit.text) else TextAt(bits, b)
  {
    if bits == [] {
    } else if bits[0].index == bit.index {
      assert Put(bits, bit)[1..] == bits[1..];
    } else {
      PutText(bits[1..], bit, b);
      assert Put(bits, bit)[1..] == Put(bits[1..], bit);
    }
  }

  lemma {:induction false} PutAllText(bits: seq<ChannelBit>, e: Entry, k: nat, b: int)
    ensures TextAt(PutAll(bits, e, k), b)
         == if e.start <= b + 1 < e.start + k
            then Some(e.name + " " + ParamText.PrintInt(e.startLabel + (b + 1 - e.start)))
            else TextAt(bits, b)
  {
    hide Put, TextAt;
    if k == 0 {
    } else {
      PutAllText(bits, e, k - 1, b);
      PutText(PutAll(bits, e, k - 1), BitOf(e, k - 1), b);
    }
  }

  /** The text of a bit is the name and the label number of its channel, by the last group that has the channel. */
  lemma {:induction false} BitTexts(entries: seq<Entry>, b: int)
    ensures TextAt(Bits(entries), b) == LastText(entries, b)
  {
    hide PutAll;
    if entries == [] {
    } else {
      var front, e := entries[..|entries| - 1], entries[|entries| - 1];
      BitTexts(front, b);
      PutAllText(Bits(front), e, e.count, b);
    }
  }

  // ---- Bits in order ----

  // The bits of the first k channels of an entry, one behind the other.
  function Row(e: Entry, k: nat): seq<ChannelBit> { if k == 0 then [] else Row(e, k - 1) + [BitOf(e, k - 1)] }

  function Rows(entries: seq<Entry>): seq<ChannelBit> {
    if entries == [] then []
    else Rows(entries[..|entries| - 1]) + Row(entries[|entries| - 1], entries[|entries| - 1].count)
  }

  predicate Consecutive(bits: seq<ChannelBit>) { forall i :: 0 <= i < |bits| ==> bits[i].index == i }

  lemma {:induction false} PutLast(bits: seq<ChannelBit>, bit: ChannelBit)
    requires forall i :: 0 <= i < |bits| ==> bits[i].index != bit.index
    ensures Put(bits, bit) == bits + [bit]
  {
    if bits == [] {
    } else {
      PutLast(bits[1..], bit);
      assert bits == [bits[0]] + bits[1..];
    }
  }

  lemma {:induction false} PutAllConsecutive(bits: seq<ChannelBit>, e: Entry, k: nat)
    requires Consecutive(bits) && (k > 0 ==> e.start == |bits| + 1)
    ensures |Row(e, k)| == k && PutAll(bits, e, k) == bits + Row(e, k) && Consecutive(bits + Row(e, k))
  {
    hide Put;
    if k == 0 {
    } else {
      PutAllConsecutive(bits, e, k - 1);
      PutLast(bits + Row(e, k - 1), BitOf(e, k - 1));
      assert bits + Row(e, k - 1) + [BitOf(e, k - 1)] == bits + Row(e, k);
    }
  }

  lemma {:induction false} RangeMeans(start: int, count: nat, x: int)
    ensures |Range(start, count)| == count && (x in Range(start, count) <==> start <= x < start + count)
    ensures forall i :: 0 <= i < count ==> Range(start, count)[i] == start + i
  {
    if count == 0 {
    } else {
      RangeMeans(start, count - 1, x);
    }
  }

  lemma {:induction false} RangeSplit(front: seq<int>, start: int, count: nat, n: nat)
    requires front + Range(start, count) == Range(1, n)
    ensures |front| + count == n && front == Range(1, |front|) && (count > 0 ==> start == |front| + 1)
  {
    RangeMeans(1, n, 0);
    RangeMeans(start, count, 0);
    RangeMeans(1, |front|, 0);
    assert forall i :: 0 <= i < |front| ==> front[i] == Range(1, n)[i];
    assert count > 0 ==> Range(start, count)[0] == Range(1, n)[|front|];
  }

  /** Channels 1..N in order give bits 0..N-1 in order, each with the text of its channel. */
  lemma {:induction false} BitsInOrder(entries: seq<Entry>, n: nat)
    requires Instances(entries) == Range(1, n)
    ensures |Bits(entries)| == n && Bits(entries) == Rows(entries) && Consecutive(Bits(entries))
  {
    hide PutAll, Row, Consecutive;
    if entries == [] {
      RangeMeans(1, n, 0);
      assert Consecutive([]) by { NothingConsecutive(); }
    } else {
      var front, e := entries[..|entries| - 1], entries[|entries| - 1];
      RangeSplit(Instances(front), e.start, e.count, n);
      BitsInOrder(front, |Instances(front)|);
      PutAllConsecutive(Bits(front), e, e.count);
    }
  }

  lemma {:induction false} NothingConsecutive()
    ensures Consecutive([])
  {
  }

  // ---- The channels of one prefix ----

  /** The channel numbers that groups add to a prefix. */
  function Numbers(plains: seq<Group>, prefix: string, s: Setting): seq<int> {
    if plains == [] then []
    else
      (if plains[0].Plain? && ProcessPrefix(plains[0].prefix, s.withIo) == Some(prefix)
       then Range(plains[0].start, plains[0].numChannels) else [])
      + Numbers(plains[1..], prefix, s)
  }

  lemma {:induction false} NumbersConcat(a: seq<Group>, b: seq<Group>, prefix: string, s: Setting)
    ensures Numbers(a + b, prefix, s) == Numbers(a, prefix, s) + Numbers(b, prefix, s)
  {
    hide ProcessPrefix, Range;
    if a == [] {
      assert a + b == b;
    } else {
      NumbersConcat(a[1..], b, prefix, s);
      assert (a + b)[1..] == a[1..] + b && (a + b)[0] == a[0];
    }
  }

  lemma {:induction false} CollectNumbers(params: Params, plains: seq<Group>, prefix: string, s: Setting)
    ensures Collect(params, plains, s).Some? ==>
      Created(Collect(params, plains, s).value, OfPrefix(prefix))
      == Created(params, OfPrefix(prefix)) + Numbers(plains, prefix, s)
    decreases |plains|
  {
    hide ProcessPrefix, ProcessName, Range, InstancesAt, Append, AppendAll, AllFit, AllExist, ParamNames;
    if plains == [] {
    } else if plains[0].Plain? {
      var g := plains[0];
      var added := Add(params, g, s);
      if added.Some? {
        var entry := Entry(g.start, g.startLabel, g.numChannels, ProcessName(g.name, g.noPrefix, s).value);
        AppendInstances(params.prefixes, ProcessPrefix(g.prefix, s.withIo).value, entry, prefix);
        CollectNumbers(added.value, plains[1..], prefix, s);
      }
    }
  }

  /** No group of the list has the prefix. */
  predicate Without(groups: seq<Group>, prefix: string, s: Setting) {
    forall i :: 0 <= i < |groups| ==> ProcessPrefix(groups[i].prefix, s.withIo) != Some(prefix)
  }

  lemma {:induction false} NoNumbers(plains: seq<Group>, prefix: string, s: Setting)
    requires Without(plains, prefix, s)
    ensures Numbers(plains, prefix, s) == []
  {
    hide ProcessPrefix;
    if plains == [] {
    } else {
      NoNumbers(plains[1..], prefix, s);
    }
  }

  // Plain groups without the prefix, and generators without it, add no numbers.
  lemma {:induction false} OthersAddNothing(groups: seq<Group>, file: Option<string>, prefix: string, s: Setting)
    requires Without(groups, prefix, s)
    ensures Numbers(PlainOf(groups), prefix, s) == []
    ensures MadeBy(groups, file, s).Some? ==> Numbers(MadeBy(groups, file, s).value, prefix, s) == []
  {
    hide Generated, ProcessPrefix, Range;
    if groups == [] {
    } else if groups[0].Plain? {
      OthersAddNothing(groups[1..], file, prefix, s);
      NumbersConcat([groups[0]], PlainOf(groups[1..]), prefix, s);
      NoNumbers([groups[0]], prefix, s);
    } else {
      var g := groups[0];
      OthersAddNothing(groups[1..], FileOf(g, file), prefix, s);
      assert [] + PlainOf(groups[1..]) == PlainOf(groups[1..]);
      var made, rest := Generated(g, file, s), MadeBy(groups[1..], FileOf(g, file), s);
      if made.Some? && rest.Some? {
        GeneratedInherits(g, file, s);
        PrefixProcessed(g.prefix, s.withIo);
        NoNumbers(made.value, prefix, s);
        NumbersConcat(made.value, rest.value, prefix, s);
      }
    }
  }

  // ---- One generator ----

  lemma {:induction false} RangeConcat(start: int, a: nat, b: nat)
    ensures Range(start, a) + Range(start + a, b) == Range(start, a + b)
  {
    if b == 0 {
      assert Range(start, a) + [] == Range(start, a);
    } else {
      RangeConcat(start, a, b - 1);
    }
  }

  // Consecutive groups cover a range.
  lemma {:induction false} TiledNumbers(groups: seq<OutputGroup>, runs: seq<Run>, prefix: string, names: seq<string>,
                                        board: Board, g: Group, start: nat, s: Setting)
    requires |board.channelTimers| == |board.channelTypes| && 0 < start <= |board.channelTypes| + 1
    requires g.Generator? && ProcessPrefix(prefix, s.withIo) == Some(prefix)
    requires Tiles(groups, runs, prefix, board.timers, g.timerParam, board.channelTimers, board.channelTypes, names,
                   start)
    ensures Numbers(Plains(groups, g.limits, g.functions), prefix, s)
         == Range(start, |board.channelTypes| + 1 - start)
    decreases |groups|
  {
    hide ProcessPrefix, Placed, Configured;
    if groups == [] {
    } else {
      var first, plains := groups[0], Plains(groups, g.limits, g.functions);
      assert plains[1..] == Plains(groups[1..], g.limits, g.functions);
      TiledNumbers(groups[1..], runs[1..], prefix, names, board, g, start + first.numChannels, s);
      RangeConcat(start, first.numChannels, |board.channelTypes| + 1 - start - first.numChannels);
    }
  }

  // Reading a configuration file gives every channel a timer and a type.
  ghost predicate WellRead(s: Setting) {
    forall f :: f in s.files ==> |s.files[f].channelTimers| == |s.files[f].channelTypes|
  }

  lemma {:induction false} GeneratedNumbers(g: Group, file: Option<string>, s: Setting)
    requires g.Generator? && WellRead(s) && Generated(g, file, s).Some?
    ensures var types := s.files[FileOf(g, file).value].channelTypes;
      && types != []
      && Numbers(Generated(g, file, s).value, ProcessPrefix(g.prefix, s.withIo).value, s) == Range(1, |types|)
  {
    hide OutputGroups, Tiles, Runs, ProcessPrefix, ProcessNames, Plains, Numbers, Refused;
    var prefix, names := ProcessPrefix(g.prefix, s.withIo).value, ProcessNames(g.names, g.noPrefix, s).value;
    var board := s.files[FileOf(g, file).value];
    var groups := OutputGroups(board, prefix, names, g.timerParam);
    PrefixProcessed(g.prefix, s.withIo);
    GroupsTile(board, prefix, names, g.timerParam);
    TiledNumbers(groups.value, Runs(board.channelTimers), prefix, names, board, g, 1, s);
  }

  // The configuration file in force behind some groups.
  function FileAfter(groups: seq<Group>, file: Option<string>): Option<string> {
    if groups == [] then file
    else FileAfter(groups[1..], if groups[0].Generator? then FileOf(groups[0], file) else file)
  }

  lemma {:induction false} MadeBySplit(a: seq<Group>, b: seq<Group>, file: Option<string>, s: Setting)
    ensures PlainOf(a + b) == PlainOf(a) + PlainOf(b)
    ensures MadeBy(a + b, file, s).Some? <==> MadeBy(a, file, s).Some? && MadeBy(b, FileAfter(a, file), s).Some?
    ensures MadeBy(a + b, file, s).Some? ==>
      MadeBy(a + b, file, s).value == MadeBy(a, file, s).value + MadeBy(b, FileAfter(a, file), s).value
  {
    hide Generated;
    if a == [] {
      assert a + b == b;
    } else {
      assert (a + b)[1..] == a[1..] + b && (a + b)[0] == a[0];
      MadeBySplit(a[1..], b, if a[0].Generator? then FileOf(a[0], file) else file, s);
    }
  }

  lemma {:induction false} MadeByOne(g: Group, file: Option<string>, s: Setting)
    requires g.Generator?
    ensures PlainOf([g]) == [] && FileAfter([g], file) == FileOf(g, file)
    ensures MadeBy([g], file, s) == Generated(g, file, s)
  {
    hide Generated;
    assert [g][1..] == [];
    var made := Generated(g, file, s);
    assert made.Some? ==> made.value + [] == made.value;
  }

  /** The one generator of a prefix numbers its channels 1..N, whatever groups of other prefixes stand around it. */
  lemma {:induction false} PrefixNumbers(a: seq<Group>, g: Group, b: seq<Group>, file: Option<string>, s: Setting)
    requires g.Generator? && WellRead(s) && Work(a + ([g] + b), file, s).Some?
    requires ProcessPrefix(g.prefix, s.withIo).Some? ==>
      var prefix := ProcessPrefix(g.prefix, s.withIo).value; Without(a, prefix, s) && Without(b, prefix, s)
    ensures var path := FileOf(g, FileAfter(a, file));
      && ProcessPrefix(g.prefix, s.withIo).Some? && path.Some? && path.value in s.files
      && s.files[path.value].channelTypes != []
      && Numbers(Work(a + ([g] + b), file, s).value, ProcessPrefix(g.prefix, s.withIo).value, s)
         == Range(1, |s.files[path.value].channelTypes|)
  {
    hide Work, Numbers, MadeBy, PlainOf, Generated, FileAfter, Without, ProcessPrefix, WellRead, Range;
    var before := FileAfter(a, file);
    WorkInOrder(a + ([g] + b), file, s);
    MadeBySplit(a, [g] + b, file, s);
    MadeBySplit([g], b, before, s);
    MadeByOne(g, before, s);
    GeneratedInherits(g, before, s);
    GeneratedNumbers(g, before, s);
    var prefix := ProcessPrefix(g.prefix, s.withIo).value;
    OthersAddNothing(a, file, prefix, s);
    OthersAddNothing(b, FileOf(g, before), prefix, s);
    FilePresent(g, before, s);
    NumbersOfAll(PlainOf(a), PlainOf(b), MadeBy(a, file, s).value, Generated(g, before, s).value,
                 MadeBy(b, FileOf(g, before), s).value, prefix, s);
  }

  lemma {:induction false} FilePresent(g: Group, file: Option<string>, s: Setting)
    requires g.Generator? && Generated(g, file, s).Some?
    ensures FileOf(g, file).Some? && FileOf(g, file).value in s.files
  {
  }

  lemma {:induction false} NumbersOfAll(p: seq<Group>, q: seq<Group>, a: seq<Group>, made: seq<Group>, b: seq<Group>,
                                        prefix: string, s: Setting)
    requires Numbers(p, prefix, s) == [] && Numbers(q, prefix, s) == []
    requires Numbers(a, prefix, s) == [] && Numbers(b, prefix, s) == []
    ensures Numbers(p + ([] + q) + (a + (made + b)), prefix, s) == Numbers(made, prefix, s)
  {
    hide Numbers;
    NumbersConcat(p + ([] + q), a + (made + b), prefix, s);
    assert [] + q == q;
    NumbersConcat(p, q, prefix, s);
    NumbersConcat(a, made + b, prefix, s);
    NumbersConcat(made, b, prefix, s);
  }

  lemma {:induction false} NoneCreated(prefix: string)
    ensures Created(Params(map[], map[]), OfPrefix(prefix)) == []
  {
  }

  /** In every module, a prefix that belongs to one generator on a board of N channels gets function parameters 1..N
      and the reverse bits 0..N-1, in this order. */
  lemma {:induction false} ReverseBits(a: seq<Group>, g: Group, b: seq<Group>, file: Option<string>, s: Setting)
    requires g.Generator? && WellRead(s)
    requires ProcessPrefix(g.prefix, s.withIo).Some? ==>
      var prefix := ProcessPrefix(g.prefix, s.withIo).value; Without(a, prefix, s) && Without(b, prefix, s)
    ensures var created := CollectAll(Params(map[], map[]), Work(a + ([g] + b), file, s), s);
      created.Some? ==>
        var prefix, path := ProcessPrefix(g.prefix, s.withIo), FileOf(g, FileAfter(a, file));
        && prefix.Some? && path.Some? && path.value in s.files && prefix.value in created.value.prefixes
        && var n, entries := |s.files[path.value].channelTypes|, created.value.prefixes[prefix.value];
        && Instances(entries) == Range(1, n) && n > 0
        && |Bits(entries)| == n && Bits(entries) == Rows(entries) && Consecutive(Bits(entries))
  {
    hide Work, Collect, Numbers, Bits, Rows, Consecutive, ProcessPrefix, Without, WellRead, FileAfter, Range, Instances;
    var none, work := Params(map[], map[]), Work(a + ([g] + b), file, s);
    var created := CollectAll(none, work, s);
    if created.Some? {
      PrefixNumbers(a, g, b, file, s);
      var prefix, n := ProcessPrefix(g.prefix, s.withIo).value,
                       |s.files[FileOf(g, FileAfter(a, file)).value].channelTypes|;
      CollectNumbers(none, work.value, prefix, s);
      NoneCreated(prefix);
      assert [] + Range(1, n) == Range(1, n);
      RangeMeans(1, n, 1);
      BitsInOrder(created.value.prefixes[prefix], n);
    }
  }

  // ---- The definition ----

  function MaskBits(bits: seq<ChannelBit>): (r: seq<ParamText.Bit>)
    requires Consecutive(bits)
    ensures |r| == |bits| && forall i :: 0 <= i < |bits| ==> r[i] == ParamText.Bit(i, bits[i].text)
  {
    seq(|bits|, i requires 0 <= i < |bits| => ParamText.Bit(i, bits[i].text))
  }

  function ShortText(moduleName: string): string { "Reverse Output Range for" + " " + moduleName }

  function FirstLine(): string { "Allows to reverse " + ("the output range " + "for each channel.") }

  function SecondLine(): string { "Note: this is only " + "useful for servos." }

  function LongText(): string { FirstLine() + "\n" + (SecondLine() + "\n") }

  function Definition(moduleName: string, prefix: string, bits: seq<ChannelBit>): ParamText.Definition
    requires Consecutive(bits)
  {
    ParamText.Definition(prefix + "_REV", "Actuator Outputs", ParamText.Bitmask(MaskBits(bits)), ShortText(moduleName),
                         LongText(), "0", map[])
  }

  lemma {:induction false} ParagraphsHead(line: string, rest: string)
    requires '\n' !in line
    ensures ParamRoundTrip.Paragraphs(line + "\n" + rest) == [line] + ParamRoundTrip.Paragraphs(rest)
  {
    var s := line + "\n" + rest;
    if line == "" {
      assert s[1..] == rest;
    } else {
      ParagraphsHead(line[1..], rest);
      assert s[1..] == line[1..] + "\n" + rest;
      assert line == [line[0]] + line[1..];
    }
  }

  lemma {:induction false} StripStart(s: string)
    requires s != "" && !IsSpace(s[0])
    ensures Strip(s) != "" && Strip(s)[0] == s[0] && |Strip(s)| <= |s|
  {
    StripRightStart(s);
  }

  lemma {:induction false} StripRightStart(s: string)
    requires s != "" && !IsSpace(s[0])
    ensures StripRight(s) != "" && StripRight(s)[0] == s[0] && |StripRight(s)| <= |s|
  {
    if !IsSpace(s[|s| - 1]) {
    } else {
      StripRightStart(s[..|s| - 1]);
    }
  }

  // No line break and nothing that could end a comment.
  predicate Tame(s: string) { forall i :: 0 <= i < |s| ==> s[i] != '*' && s[i] != '\n' && s[i] != '\r' }

  lemma {:induction false} TameConcat(a: string, b: string)
    requires Tame(a) && Tame(b)
    ensures Tame(a + b)
  {
  }

  lemma {:induction false} TamePlain(s: string)
    requires Tame(s)
    ensures ParamReading.Plain(s) && '\n' !in s
  {
    ParamReading.NoStarNoEnd(s);
  }

  lemma {:induction false} FirstLineTame()
    ensures Tame(FirstLine())
  {
    TameConcat("the output range ", "for each channel.");
    TameConcat("Allows to reverse ", "the output range " + "for each channel.");
  }

  lemma {:induction false} SecondLineTame()
    ensures Tame(SecondLine())
  {
    TameConcat("Note: this is only ", "useful for servos.");
  }

  lemma {:induction false} LineStarts()
    ensures FirstLine() != "" && FirstLine()[0] == 'A' && SecondLine() != "" && SecondLine()[0] == 'N'
  {
  }

  lemma {:induction false} LongTextOk()
    ensures ParamRoundTrip.LongOk(LongText())
  {
    hide ParamRoundTrip.Paragraphs, ParamReading.Plain, Strip, Tame, FirstLine, SecondLine;
    var a, b := FirstLine(), SecondLine();
    FirstLineTame();
    SecondLineTame();
    LineStarts();
    TamePlain(a);
    TamePlain(b);
    TamePlain("") by { NothingTame(); }
    ParagraphsHead(a, b + "\n");
    ParagraphsHead(b, "");
    assert b + "\n" + "" == b + "\n";
    NoParagraphs();
    StripStart(a);
    StripStart(b);
    NothingStripped();
    assert ParamRoundTrip.Paragraphs(LongText()) == [a, b, ""];
  }

  lemma {:induction false} NothingTame()
    ensures Tame("")
  {
  }

  lemma {:induction false} NoParagraphs()
    ensures ParamRoundTrip.Paragraphs("") == [""]
  {
  }

  lemma {:induction false} NothingStripped()
    ensures Strip("") == ""
  {
  }

  lemma {:induction false} ShortTextOk(moduleName: string)
    requires ParamReading.Plain(moduleName) && |ShortText(moduleName)| <= 150
    ensures ParamRoundTrip.ShortOk(ShortText(moduleName))
  {
    hide Strip, ParamReading.Plain, Tame;
    assert Tame("Reverse Output Range for") by { ShortTextTame(); }
    TamePlain("Reverse Output Range for");
    ParamRoundTrip.PlainBetween("Reverse Output Range for", moduleName);
    ShortTextStarts(moduleName);
    StripStart(ShortText(moduleName));
  }

  lemma {:induction false} ShortTextTame()
    ensures Tame("Reverse Output Range for")
  {
  }

  lemma {:induction false} ShortTextStarts(moduleName: string)
    ensures ShortText(moduleName) != "" && ShortText(moduleName)[0] == 'R'
  {
  }

  // ---- The texts of the bits ----

  predicate TextOk(s: string) { !Blank(s) && ParamReading.Plain(s) }

  lemma {:induction false} PrintedTame(x: int)
    ensures Tame(ParamText.PrintInt(x)) && TextOk(ParamText.PrintInt(x))
  {
    var n: nat := if x >= 0 then x else -x;
    var digits, s := Decimal.Print(n), ParamText.PrintInt(x);
    assert forall i :: 0 <= i < |digits| ==> Decimal.IsDigit(digits[i]);
    TamePlain(s);
    assert !IsSpace(s[0]);
  }

  lemma {:induction false} BitTextOk(e: Entry, k: int)
    requires ParamReading.Plain(e.name)
    ensures TextOk(BitOf(e, k).text)
  {
    hide ParamReading.Plain, Tame, ParamText.PrintInt;
    var number := ParamText.PrintInt(k + e.startLabel);
    PrintedTame(k + e.startLabel);
    ParamRoundTrip.PlainBetween(e.name, number);
    var i :| 0 <= i < |number| && !IsSpace(number[i]);
    assert (e.name + " " + number)[|e.name| + 1 + i] == number[i];
  }

  lemma {:induction false} RowTextsOk(e: Entry, k: nat)
    requires ParamReading.Plain(e.name)
    ensures forall i :: 0 <= i < |Row(e, k)| ==> TextOk(Row(e, k)[i].text)
  {
    hide BitOf, TextOk, ParamReading.Plain;
    if k == 0 {
    } else {
      RowTextsOk(e, k - 1);
      BitTextOk(e, k - 1);
    }
  }

  lemma {:induction false} RowsTextsOk(entries: seq<Entry>)
    requires forall i :: 0 <= i < |entries| ==> ParamReading.Plain(entries[i].name)
    ensures forall i :: 0 <= i < |Rows(entries)| ==> TextOk(Rows(entries)[i].text)
  {
    hide Row, TextOk, ParamReading.Plain;
    if entries == [] {
    } else {
      var front, e := entries[..|entries| - 1], entries[|entries| - 1];
      RowsTextsOk(front);
      RowTextsOk(e, e.count);
    }
  }

  // ---- What is printed ----

  lemma {:induction false} DefinitionOk(moduleName: string, prefix: string, bits: seq<ChannelBit>)
    requires Consecutive(bits) && bits != [] && ParamRoundTrip.NameOk(prefix + "_REV")
    requires ParamReading.Plain(moduleName) && |ShortText(moduleName)| <= 150
    requires forall i :: 0 <= i < |bits| ==> TextOk(bits[i].text)
    ensures ParamRoundTrip.DefinitionOk(Definition(moduleName, prefix, bits))
  {
    hide ParamRoundTrip.ShortOk, ParamRoundTrip.LongOk, ParamRoundTrip.NameOk, ParamReading.Plain, Blank, LongText;
    hide ShortText, Tame;
    ShortTextOk(moduleName);
    LongTextOk();
    assert Tame("Actuator Outputs") by { GroupTame(); }
    TamePlain("Actuator Outputs");
  }

  lemma {:induction false} GroupTame()
    ensures Tame("Actuator Outputs")
  {
  }

  /** The one generator of a prefix gets a reverse-range parameter with the printed maximum 2^N - 1 that is read back,
      and every one of its N bits passes the validator; all that is asked of the names is that they can be printed. */
  lemma {:induction false} ReverseMask(moduleName: string, prefix: string, entries: seq<Entry>, n: nat, i: nat)
    requires Instances(entries) == Range(1, n) && i < n
    requires ParamRoundTrip.NameOk(prefix + "_REV")
    requires ParamReading.Plain(moduleName) && |ShortText(moduleName)| <= 150
    requires forall k :: 0 <= k < |entries| ==> ParamReading.Plain(entries[k].name)
    ensures Consecutive(Bits(entries))
    ensures var d := Definition(moduleName, prefix, Bits(entries));
      && ParamRoundTrip.DefinitionOk(d)
      && ("@max " + ParamText.PrintInt(ParamText.Pow2(n) - 1)) in ParamText.TagLines(d)
      && var p := ParamRoundTrip.Expected(d);
      && "min" in p.fields && "max" in p.fields && i < |p.bitmask|
      && ParamTidy.IntOf(p.bitmask[i].0) == Some(i)
      && ParamTidy.BitCheck(p.fields["min"], p.fields["max"], i) == Some(true)
  {
    hide ParamRoundTrip.DefinitionOk, ParamRoundTrip.Expected, ParamReading.Plain, ParamRoundTrip.NameOk;
    hide Bits, Rows, TextOk, ParamTidy.BitCheck, ParamTidy.IntOf, ParamText.TagLines, ShortText;
    BitsInOrder(entries, n);
    RowsTextsOk(entries);
    var bits := Bits(entries);
    DefinitionOk(moduleName, prefix, bits);
    var d := Definition(moduleName, prefix, bits);
    ParamTidy.BitmaskValidates(d, i);
    MaximumPrinted(d);
  }

  lemma {:induction false} MaximumPrinted(d: ParamText.Definition)
    requires d.kind.Bitmask? && d.kind.bits != []
    requires forall i :: 0 <= i < |d.kind.bits| ==> d.kind.bits[i].index == i
    ensures ("@max " + ParamText.PrintInt(ParamText.Pow2(|d.kind.bits|) - 1)) in ParamText.TagLines(d)
  {
    hide ParamText.PlainTag, ParamText.BitTags, ParamText.ExtraTags, ParamText.PrintInt, ParamText.MaxValue;
    ParamText.FullMask(d.kind.bits);
    var tags := ParamText.KindTags(d.kind);
    assert tags[|tags| - 1] == "@max " + ParamText.PrintInt(ParamText.MaxValue(d.kind.bits));
    assert ParamText.TagLines(d)[|tags|] == tags[|tags| - 1];
  }
}

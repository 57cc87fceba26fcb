/** Output groups from a board's timer configuration: consecutive channels of one timer become a group. */
module TimerGroups {

  import opened Basics
  import Decimal

  // ---- Brackets ----

  function Depth(s: string, open: char, close: char): int {
    if s == "" then 0 else
    var c := s[|s| - 1];
    Depth(s[..|s| - 1], open, close) + (if c == open then 1 else 0) - (if c == close then 1 else 0)
  }

  // A closing bracket at i brings the depth to zero.
  predicate Closes(s: string, open: char, close: char, i: nat)
    requires i < |s|
  {
    s[i] == close && Depth(s[..i + 1], open, close) == 0
  }

  // The text up to c is where the search stops, and o is just behind the first opening bracket.
  ghost predicate Found(s: string, open: char, close: char, o: nat, c: nat) {
    && 0 < o <= c < |s|
    && s[o - 1] == open && open !in s[..o - 1]
    && Closes(s, open, close, c)
    && forall i :: 0 <= i < c ==> !Closes(s, open, close, i)
  }

  method FindMatchingBrackets(open: char, close: char, s: string) returns (r: Option<(nat, nat)>)
    requires open != close
    ensures r.Some? ==> Found(s, open, close, r.value.0, r.value.1)
    ensures r.None? <==> forall i :: 0 <= i < |s| ==> !Closes(s, open, close, i)
  {
    var opening, firstOpen := 0, -1;
    for idx := 0 to |s|
      invariant opening == Depth(s[..idx], open, close)
      invariant firstOpen == -1 ==> open !in s[..idx] && opening <= 0
      invariant firstOpen != -1 ==> 0 <= firstOpen < idx && s[firstOpen] == open && open !in s[..firstOpen]
      invariant forall i :: 0 <= i < idx ==> !Closes(s, open, close, i)
    {
      assert s[..idx + 1][..idx] == s[..idx];
      if s[idx] == open {
        opening := opening + 1;
        if firstOpen == -1 {
          firstOpen := idx;
        }
      }
      if s[idx] == close {
        opening := opening - 1;
        if opening == 0 {
          assert Closes(s, open, close, idx);
          return Some((firstOpen + 1, idx));
        }
      }
    }
    return None;
  }

  /** When no closing bracket comes before the first opening one, the two positions are a matching pair: in
      between the first bracket stays open. */
  lemma {:induction false} BracketsMatch(s: string, open: char, close: char, o: nat, c: nat, i: nat)
    requires open != close && Found(s, open, close, o, c) && close !in s[..o - 1] && o <= i <= c
    ensures Depth(s[..i], open, close) >= 1
    decreases i
  {
    assert s[..i][..i - 1] == s[..i - 1];
    if i == o {
      NoBrackets(s[..o - 1], open, close);
    } else {
      BracketsMatch(s, open, close, o, c, i - 1);
      assert !Closes(s, open, close, i - 1);
    }
  }

  lemma {:induction false} NoBrackets(s: string, open: char, close: char)
    requires open !in s && close !in s
    ensures Depth(s, open, close) == 0
  {
    if s == "" {
    } else {
      NoBrackets(s[..|s| - 1], open, close);
    }
  }

  // ---- Runs ----

  datatype Run = Run(timer: string, count: nat)

  /** Groups equal neighbours. */
  function Runs(channels: seq<string>): seq<Run> {
    if channels == [] then [] else
    var rest := Runs(channels[1..]);
    if rest != [] && rest[0].timer == channels[0] then [Run(channels[0], rest[0].count + 1)] + rest[1..]
    else [Run(channels[0], 1)] + rest
  }

  function Repeat(timer: string, count: nat): seq<string> {
    if count == 0 then [] else [timer] + Repeat(timer, count - 1)
  }

  function Expand(runs: seq<Run>): seq<string> {
    if runs == [] then [] else Repeat(runs[0].timer, runs[0].count) + Expand(runs[1..])
  }

  // No empty run, no two neighbours of one timer.
  predicate Proper(runs: seq<Run>) {
    runs == [] || (
      && runs[0].count > 0
      && (|runs| > 1 ==> runs[0].timer != runs[1].timer)
      && Proper(runs[1..]))
  }

  /** The runs tile the channels. */
  lemma {:induction false} RunsTile(channels: seq<string>)
    ensures Expand(Runs(channels)) == channels && Proper(Runs(channels))
  {
    if channels == [] {
    } else {
      RunsTile(channels[1..]);
      var rest := Runs(channels[1..]);
      assert channels == [channels[0]] + channels[1..];
      if rest != [] && rest[0].timer == channels[0] {
        assert Runs(channels)[1..] == rest[1..];
        assert |rest| > 1 ==> rest[1..][0] == rest[1];
        assert Repeat(channels[0], rest[0].count + 1) + Expand(rest[1..])
            == [channels[0]] + (Repeat(channels[0], rest[0].count) + Expand(rest[1..]));
      } else {
        assert Repeat(channels[0], 1) == [channels[0]];
        assert Runs(channels)[1..] == rest;
      }
    }
  }

  lemma {:induction false} RunsOfRepeat(timer: string, count: nat, rest: seq<string>)
    requires count > 0 && (Runs(rest) != [] ==> Runs(rest)[0].timer != timer)
    ensures Runs(Repeat(timer, count) + rest) == [Run(timer, count)] + Runs(rest)
  {
    var all := Repeat(timer, count) + rest;
    assert all[0] == timer && all[1..] == Repeat(timer, count - 1) + rest;
    if count == 1 {
      assert all[1..] == rest;
    } else {
      RunsOfRepeat(timer, count - 1, rest);
      assert ([Run(timer, count - 1)] + Runs(rest))[1..] == Runs(rest);
    }
  }

  /** They are the only runs that do. */
  lemma {:induction false} RunsUnique(runs: seq<Run>)
    requires Proper(runs)
    ensures Runs(Expand(runs)) == runs
  {
    if runs == [] {
    } else {
      RunsUnique(runs[1..]);
      assert |runs| > 1 ==> runs[1..][0] == runs[1];
      RunsOfRepeat(runs[0].timer, runs[0].count, Expand(runs[1..]));
      assert runs == [runs[0]] + runs[1..];
    }
  }

  // ---- Timer groups ----

  /** A run with the place of its timer among the declared ones, and whether that timer can do DShot. */
  datatype TimerGroup = TimerGroup(index: nat, count: nat, dshot: bool)

  function IndexOf(timers: seq<string>, timer: string): Option<nat> {
    if timers == [] then None
    else if timers[0] == timer then Some(0)
    else
      var rest := IndexOf(timers[1..], timer);
      if rest.None? then None else Some(rest.value + 1)
  }

  /** What is known of every timer: its place and its DShot support; the code raises for an unknown one. */
  datatype Timers = Timers(declared: seq<string>, dshot: map<string, bool>) {
    predicate Knows(timer: string) { timer in declared && timer in dshot }

    function GroupOf(run: Run): Option<TimerGroup> {
      var index := IndexOf(declared, run.timer);
      if index.None? || run.timer !in dshot then None else Some(TimerGroup(index.value, run.count, dshot[run.timer]))
    }
  }

  function TimerGroupsOf(runs: seq<Run>, timers: Timers): Option<seq<TimerGroup>> {
    if runs == [] then Some([])
    else
      var first, rest := timers.GroupOf(runs[0]), TimerGroupsOf(runs[1..], timers);
      if first.None? || rest.None? then None else Some([first.value] + rest.value)
  }

  lemma {:induction false} IndexOfMeans(timers: seq<string>, timer: string)
    ensures IndexOf(timers, timer).Some? <==> timer in timers
    ensures IndexOf(timers, timer).Some? ==>
      IndexOf(timers, timer).value < |timers| && timers[IndexOf(timers, timer).value] == timer
      && timer !in timers[..IndexOf(timers, timer).value]
  {
    if timers == [] {
    } else if timers[0] != timer {
      IndexOfMeans(timers[1..], timer);
      assert timers == [timers[0]] + timers[1..];
      var i := IndexOf(timers[1..], timer);
      assert i.Some? ==> timers[..i.value + 1] == [timers[0]] + timers[1..][..i.value];
    } else {
      assert timers[..0] == [];
    }
  }

  // ---- Output groups ----

  datatype ChannelType = Pwm | Cap

  function TypeIndex(t: ChannelType): nat { if t.Pwm? then 0 else 1 }

  /** One output group; with a timer parameter it names it, and offers a spin direction if the timer can do DShot. */
  datatype OutputGroup = OutputGroup(prefix: string, channelLabel: string, instanceStart: nat,
                                     instanceStartLabel: nat, numChannels: nat, groupLabel: string,
                                     timerParam: Option<string>, spinDirection: bool)

  function GroupLabel(name: string, first: nat, count: nat): string {
    name + " " + Decimal.Print(first) + if count > 1 then "-" + Decimal.Print(first + count - 1) else ""
  }

  // A Python slice of the types.
  function Types(types: seq<ChannelType>, start: nat, count: nat): seq<ChannelType> {
    var from := if start <= |types| then start else |types|;
    var to := if start + count <= |types| then start + count else |types|;
    types[from..to]
  }

  predicate Uniform(types: seq<ChannelType>) { forall i :: 0 <= i < |types| ==> types[i] == types[0] }

  // The label number each type continues with.
  datatype Labels = Labels(pwm: nat, cap: nat) {
    function At(t: ChannelType): nat { if t.Pwm? then pwm else cap }

    function Advance(t: ChannelType, count: nat): Labels {
      if t.Pwm? then this.(pwm := pwm + count) else this.(cap := cap + count)
    }
  }

  // The type a group of channels has and its name; None where the code raises.
  function TypeOf(types: seq<ChannelType>, names: seq<string>): Option<ChannelType> {
    if types == [] || !Uniform(types) || |names| <= TypeIndex(types[0]) then None else Some(types[0])
  }

  function TimerParam(prefix: string, g: TimerGroup, config: bool): Option<string> {
    if config then Some(prefix + "_TIM" + Decimal.Print(g.index)) else None
  }

  function MakeGroup(prefix: string, name: string, start: nat, first: nat, g: TimerGroup, config: bool): OutputGroup {
    OutputGroup(prefix, name, start, first, g.count, GroupLabel(name, first, g.count), TimerParam(prefix, g, config),
                config && g.dshot)
  }

  function Layout(timerGroups: seq<TimerGroup>, types: seq<ChannelType>, prefix: string, names: seq<string>,
                  config: bool, start: nat, next: Labels): Option<seq<OutputGroup>>
    requires start > 0
    decreases |timerGroups|
  {
    if timerGroups == [] then Some([]) else
    var g := timerGroups[0];
    var t := TypeOf(Types(types, start - 1, g.count), names);
    if t.None? then None else
    var rest := Layout(timerGroups[1..], types, prefix, names, config, start + g.count, next.Advance(t.value, g.count));
    if rest.None? then None else
    Some([MakeGroup(prefix, names[TypeIndex(t.value)], start, next.At(t.value), g, config)] + rest.value)
  }

  /** Lays out the groups one after the other, each type with its own label numbers. */
  method GetOutputGroups(timerGroups: seq<TimerGroup>, types: seq<ChannelType>, prefix: string, names: seq<string>,
                         config: bool)
    returns (r: Option<seq<OutputGroup>>)
    ensures r == Layout(timerGroups, types, prefix, names, config, 1, Labels(1, 1))
  {
    hide TypeOf, MakeGroup, Types, After;
    AfterLaws([], Layout(timerGroups, types, prefix, names, config, 1, Labels(1, 1)));
    assert timerGroups[0..] == timerGroups;
    var instanceStart, next := 1, Labels(1, 1);
    var groups := [];
    for i := 0 to |timerGroups|
      invariant instanceStart > 0
      invariant Layout(timerGroups, types, prefix, names, config, 1, Labels(1, 1))
             == After(groups, Layout(timerGroups[i..], types, prefix, names, config, instanceStart, next))
    {
      assert timerGroups[i..][1..] == timerGroups[i + 1..];
      var g := timerGroups[i];
      var t := TypeOf(Types(types, instanceStart - 1, g.count), names);
      AfterLaws(groups, None);
      if t.None? {
        return None;
      }
      TypeNamed(Types(types, instanceStart - 1, g.count), names);
      var group := MakeGroup(prefix, names[TypeIndex(t.value)], instanceStart, next.At(t.value), g, config);
      AfterOne(groups, group,
               Layout(timerGroups[i + 1..], types, prefix, names, config, instanceStart + g.count,
                      next.Advance(t.value, g.count)));
      groups := groups + [group];
      instanceStart := instanceStart + g.count;
      next := next.Advance(t.value, g.count);
    }
    AfterLaws(groups, Some([]));
    return Some(groups);
  }

  // Groups already made, then the rest of the layout.
  function After(groups: seq<OutputGroup>, rest: Option<seq<OutputGroup>>): Option<seq<OutputGroup>> {
    if rest.None? then None else Some(groups + rest.value)
  }

  lemma {:induction false} AfterLaws(groups: seq<OutputGroup>, rest: Option<seq<OutputGroup>>)
    ensures After([], rest) == rest && After(groups, None) == None && After(groups, Some([])) == Some(groups)
  {
    assert rest.Some? ==> [] + rest.value == rest.value;
    assert groups + [] == groups;
  }

  lemma {:induction false} AfterOne(groups: seq<OutputGroup>, g: OutputGroup, rest: Option<seq<OutputGroup>>)
    ensures After(groups, if rest.None? then None else Some([g] + rest.value)) == After(groups + [g], rest)
  {
    assert rest.Some? ==> groups + ([g] + rest.value) == groups + [g] + rest.value;
  }

  lemma {:induction false} TypeNamed(types: seq<ChannelType>, names: seq<string>)
    ensures TypeOf(types, names).Some? ==> TypeIndex(TypeOf(types, names).value) < |names|
  {
  }

  // ---- What the groups are ----

  function Count(types: seq<ChannelType>, t: ChannelType): nat {
    if types == [] then 0 else Count(types[..|types| - 1], t) + if types[|types| - 1] == t then 1 else 0
  }

  // Channel c is in group g: it has the group's timer and name, and its label number counts the channels of its type.
  ghost predicate Placed(g: OutputGroup, timer: string, c: nat, channels: seq<string>, types: seq<ChannelType>,
                         names: seq<string>)
    requires c < |channels| == |types|
  {
    && channels[c] == timer
    && TypeIndex(types[c]) < |names| && g.channelLabel == names[TypeIndex(types[c])]
    && g.instanceStartLabel + (c + 1 - g.instanceStart) == Count(types[..c], types[c]) + 1
  }

  // The group carries the parameter of its timer, numbered by the place of the timer's first declaration.
  ghost predicate Configured(g: OutputGroup, run: Run, prefix: string, timers: Timers, config: bool) {
    run.timer in timers.declared && run.timer in timers.dshot
    && (g.spinDirection <==> config && timers.dshot[run.timer])
    && if config then
         exists i: nat :: i < |timers.declared| && timers.declared[i] == run.timer && run.timer !in timers.declared[..i]
                          && g.timerParam == Some(prefix + "_TIM" + Decimal.Print(i))
       else g.timerParam == None
  }

  // The group's label is its name with the label number of its only channel, or of its first and its last one.
  ghost predicate Labelled(g: OutputGroup) {
    var first := g.channelLabel + " " + Decimal.Print(g.instanceStartLabel);
    if g.numChannels < 2 then g.groupLabel == first
    else g.groupLabel == first + "-" + Decimal.Print(g.instanceStartLabel + g.numChannels - 1)
  }

  // From channel number start on the groups tile the channels.
  ghost predicate Tiles(groups: seq<OutputGroup>, runs: seq<Run>, prefix: string, timers: Timers, config: bool,
                        channels: seq<string>, types: seq<ChannelType>, names: seq<string>, start: nat)
    requires |channels| == |types|
    decreases |groups|
  {
    if groups == [] then runs == [] && start == |types| + 1
    else
      var g := groups[0];
      && runs != [] && g.instanceStart == start > 0 && g.numChannels == runs[0].count > 0
      && g.prefix == prefix && Configured(g, runs[0], prefix, timers, config) && Labelled(g)
      && start + g.numChannels <= |types| + 1
      && (forall c :: start - 1 <= c < start - 1 + g.numChannels ==>
            Placed(g, runs[0].timer, c, channels, types, names))
      && Tiles(groups[1..], runs[1..], prefix, timers, config, channels, types, names, start + g.numChannels)
  }

  lemma {:induction false} CountRun(types: seq<ChannelType>, begin: nat, end: nat, t: ChannelType)
    requires begin <= end <= |types| && forall i :: begin <= i < end ==> types[i] == t
    ensures Count(types[..end], t) == Count(types[..begin], t) + (end - begin)
    ensures forall u :: u != t ==> Count(types[..end], u) == Count(types[..begin], u)
    decreases end
  {
    if begin >= end {
    } else {
      assert types[..end][..end - 1] == types[..end - 1];
      CountRun(types, begin, end - 1, t);
    }
  }

  lemma {:induction false} RepeatAt(timer: string, count: nat, rest: seq<string>, k: nat)
    requires k < count
    ensures |Repeat(timer, count)| == count && (Repeat(timer, count) + rest)[k] == timer
  {
    if count <= 1 {
    } else {
      RepeatAt(timer, count - 1, rest, if k > 0 then k - 1 else 0);
    }
  }

  // The label numbers continue where the channels of each type left off.
  predicate Continues(next: Labels, types: seq<ChannelType>) {
    next.pwm == Count(types, Pwm) + 1 && next.cap == Count(types, Cap) + 1
  }

  // The first run is timers[start - 1 .. start - 1 + count].
  lemma {:induction false} FirstRun(runs: seq<Run>, timers: seq<string>, start: nat)
    requires 0 < start <= |timers| + 1 && Expand(runs) == timers[start - 1..] && runs != [] && Proper(runs)
    ensures start + runs[0].count <= |timers| + 1
    ensures forall c :: start - 1 <= c < start - 1 + runs[0].count ==> timers[c] == runs[0].timer
    ensures Expand(runs[1..]) == timers[start + runs[0].count - 1..] && Proper(runs[1..]) && runs[0].count > 0
  {
    var run, all := runs[0], timers[start - 1..];
    RepeatAt(run.timer, run.count, Expand(runs[1..]), 0);
    assert all[run.count..] == Expand(runs[1..]);
    forall c | start - 1 <= c < start - 1 + run.count
      ensures timers[c] == run.timer
    {
      RepeatAt(run.timer, run.count, Expand(runs[1..]), c + 1 - start);
      assert timers[c] == all[c + 1 - start];
    }
  }

  lemma {:induction false} MadeConfigured(run: Run, t: TimerGroup, name: string, prefix: string, timers: Timers,
                                          config: bool, start: nat, first: nat)
    requires run.count > 0 && timers.GroupOf(run) == Some(t)
    ensures var g := MakeGroup(prefix, name, start, first, t, config);
      Configured(g, run, prefix, timers, config) && Labelled(g)
  {
    IndexOfMeans(timers.declared, run.timer);
  }

  lemma {:induction false} RunType(types: seq<ChannelType>, start: nat, count: nat, names: seq<string>)
    requires 0 < start && 0 < count && start + count <= |types| + 1
    requires TypeOf(Types(types, start - 1, count), names).Some?
    ensures var u := TypeOf(Types(types, start - 1, count), names).value;
      TypeIndex(u) < |names| && forall c :: start - 1 <= c < start - 1 + count ==> types[c] == u
  {
    var ts := Types(types, start - 1, count);
    assert forall c :: start - 1 <= c < start - 1 + count ==> types[c] == ts[c + 1 - start];
  }

  lemma {:induction false} PlacesRun(run: Run, t: TimerGroup, channels: seq<string>, types: seq<ChannelType>,
                                     prefix: string, names: seq<string>, timers: Timers, config: bool, start: nat,
                                     next: Labels)
    requires |channels| == |types| && 0 < start && run.count > 0 && start + run.count <= |types| + 1
    requires timers.GroupOf(run) == Some(t)
    requires forall c :: start - 1 <= c < start - 1 + run.count ==> channels[c] == run.timer
    requires Continues(next, types[..start - 1]) && TypeOf(Types(types, start - 1, run.count), names).Some?
    ensures var u := TypeOf(Types(types, start - 1, run.count), names).value;
      var g := MakeGroup(prefix, names[TypeIndex(u)], start, next.At(u), t, config);
      && Continues(next.Advance(u, run.count), types[..start + run.count - 1])
      && g.prefix == prefix && Configured(g, run, prefix, timers, config) && Labelled(g)
      && forall c :: start - 1 <= c < start - 1 + run.count ==> Placed(g, run.timer, c, channels, types, names)
  {
    hide GroupLabel, TimerParam, Configured, Labelled, TypeOf, Types, Count;
    RunType(types, start, run.count, names);
    var u := TypeOf(Types(types, start - 1, run.count), names).value;
    MadeConfigured(run, t, names[TypeIndex(u)], prefix, timers, config, start, next.At(u));
    CountRun(types, start - 1, start - 1 + run.count, u);
    forall c | start - 1 <= c < start - 1 + run.count
      ensures Placed(MakeGroup(prefix, names[TypeIndex(u)], start, next.At(u), t, config), run.timer, c,
                     channels, types, names)
    {
      CountRun(types, start - 1, c, u);
    }
  }

  lemma {:induction false} LayoutTiles(runs: seq<Run>, timerGroups: seq<TimerGroup>, channels: seq<string>,
                                       types: seq<ChannelType>, prefix: string, names: seq<string>, timers: Timers,
                                       config: bool, start: nat, next: Labels)
    requires |channels| == |types| && 0 < start <= |types| + 1 && TimerGroupsOf(runs, timers) == Some(timerGroups)
    requires Proper(runs) && Expand(runs) == channels[start - 1..] && Continues(next, types[..start - 1])
    ensures var r := Layout(timerGroups, types, prefix, names, config, start, next);
      r.Some? ==> Tiles(r.value, runs, prefix, timers, config, channels, types, names, start)
    decreases |runs|
  {
    hide TypeOf, Types, Placed, Continues, Count, Proper, GroupLabel, Configured, Labelled;
    if runs == [] {
      assert |channels[start - 1..]| == 0;
    } else {
      hide Expand;
      FirstRun(runs, channels, start);
      var g := timerGroups[0];
      var t := TypeOf(Types(types, start - 1, g.count), names);
      assert timerGroups[1..] == TimerGroupsOf(runs[1..], timers).value;
      if t.Some? {
        TypeNamed(Types(types, start - 1, g.count), names);
        PlacesRun(runs[0], g, channels, types, prefix, names, timers, config, start, next);
        LayoutTiles(runs[1..], timerGroups[1..], channels, types, prefix, names, timers, config, start + g.count,
                    next.Advance(t.value, g.count));
      }
    }
  }

  /** A run mixes types, or has a type without a name. */
  ghost predicate Refused(runs: seq<Run>, types: seq<ChannelType>, names: seq<string>, start: nat)
    requires start > 0
    decreases |runs|
  {
    runs != [] && (
      || TypeOf(Types(types, start - 1, runs[0].count), names).None?
      || Refused(runs[1..], types, names, start + runs[0].count))
  }

  lemma {:induction false} LayoutRefuses(runs: seq<Run>, timerGroups: seq<TimerGroup>, types: seq<ChannelType>,
                                         prefix: string, names: seq<string>, timers: Timers, config: bool, start: nat,
                                         next: Labels)
    requires start > 0 && TimerGroupsOf(runs, timers) == Some(timerGroups)
    ensures Layout(timerGroups, types, prefix, names, config, start, next).None? <==> Refused(runs, types, names, start)
    decreases |runs|
  {
    hide TypeOf, Types, MakeGroup;
    if runs == [] {
    } else {
      var g := timerGroups[0];
      var t := TypeOf(Types(types, start - 1, g.count), names);
      assert timerGroups[1..] == TimerGroupsOf(runs[1..], timers).value;
      if t.Some? {
        TypeNamed(Types(types, start - 1, g.count), names);
        LayoutRefuses(runs[1..], timerGroups[1..], types, prefix, names, timers, config, start + g.count,
                      next.Advance(t.value, g.count));
      }
    }
  }

  // ---- Boards ----

  /** What reading a timer configuration file gives. */
  datatype Board = Board(timers: Timers, channelTimers: seq<string>, channelTypes: seq<ChannelType>)

  /** The output groups of a board; None where the code raises. */
  function OutputGroups(board: Board, prefix: string, names: seq<string>, config: bool): Option<seq<OutputGroup>> {
    if board.channelTimers == [] then None else
    var timerGroups := TimerGroupsOf(Runs(board.channelTimers), board.timers);
    if timerGroups.None? then None
    else Layout(timerGroups.value, board.channelTypes, prefix, names, config, 1, Labels(1, 1))
  }

  predicate AllKnown(channels: seq<string>, timers: Timers) {
    forall i :: 0 <= i < |channels| ==> timers.Knows(channels[i])
  }

  predicate RunsKnown(runs: seq<Run>, timers: Timers) {
    forall i :: 0 <= i < |runs| ==> timers.Knows(runs[i].timer)
  }

  lemma {:induction false} KnownHead(channels: seq<string>, runs: seq<Run>, timers: Timers)
    ensures channels != [] ==>
      (AllKnown(channels, timers) <==> timers.Knows(channels[0]) && AllKnown(channels[1..], timers))
    ensures runs != [] ==>
      (RunsKnown(runs, timers) <==> timers.Knows(runs[0].timer) && RunsKnown(runs[1..], timers))
  {
    assert channels != [] ==> channels == [channels[0]] + channels[1..];
    assert runs != [] ==> runs == [runs[0]] + runs[1..];
  }

  /** The groups exist exactly if every run's timer is known. */
  lemma {:induction false} TimersKnown(runs: seq<Run>, timers: Timers)
    ensures TimerGroupsOf(runs, timers).Some? <==> RunsKnown(runs, timers)
  {
    if runs == [] {
    } else {
      hide RunsKnown;
      TimersKnown(runs[1..], timers);
      IndexOfMeans(timers.declared, runs[0].timer);
      KnownHead([], runs, timers);
    }
  }

  lemma {:induction false} RunTimers(channels: seq<string>, timers: Timers)
    ensures RunsKnown(Runs(channels), timers) <==> AllKnown(channels, timers)
  {
    if channels == [] {
    } else {
      hide AllKnown, RunsKnown;
      var rest, all := Runs(channels[1..]), Runs(channels);
      RunTimers(channels[1..], timers);
      KnownHead(channels, all, timers);
      KnownHead(channels, rest, timers);
      assert all[1..] == if rest != [] && rest[0].timer == channels[0] then rest[1..] else rest;
    }
  }

  /** For every board the groups tile 1..N: each group has one timer, known and numbered in its timer parameter, one
      type, and the numbers of its first and its last channel in its label; neighbours have different timers, and the
      labels of each type count 1, 2, 3, ... in channel order. There are no groups exactly when there is no channel, a
      channel's timer is unknown, or some timer run mixes types or has a type without a name. */
  lemma {:induction false} GroupsTile(board: Board, prefix: string, names: seq<string>, config: bool)
    requires |board.channelTimers| == |board.channelTypes|
    ensures var runs, r := Runs(board.channelTimers), OutputGroups(board, prefix, names, config);
      && Proper(runs) && Expand(runs) == board.channelTimers
      && (r.None? <==> board.channelTimers == [] || !AllKnown(board.channelTimers, board.timers)
                       || Refused(runs, board.channelTypes, names, 1))
      && (r.Some? ==> Tiles(r.value, runs, prefix, board.timers, config, board.channelTimers, board.channelTypes,
                            names, 1))
  {
    hide Layout, Tiles, Refused, Runs, Expand, Proper, TimerGroupsOf;
    var channels, types := board.channelTimers, board.channelTypes;
    RunsTile(channels);
    RunTimers(channels, board.timers);
    TimersKnown(Runs(channels), board.timers);
    assert channels[0..] == channels && types[..0] == [];
    var timerGroups := TimerGroupsOf(Runs(channels), board.timers);
    if timerGroups.Some? {
      LayoutTiles(Runs(channels), timerGroups.value, channels, types, prefix, names, board.timers, config, 1,
                  Labels(1, 1));
      LayoutRefuses(Runs(channels), timerGroups.value, types, prefix, names, board.timers, config, 1, Labels(1, 1));
    }
  }
}

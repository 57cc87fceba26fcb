/** The parameters that one generator creates and the channels that the other lists are the same. */
module ActuatorAgreement {

  import opened Basics
  import opened TimerGroups
  import opened ActuatorOutputs

  // ---- The order in which the worklist meets plain groups ----

  function PlainOf(groups: seq<Group>): seq<Group> {
    if groups == [] then [] else (if groups[0].Plain? then [groups[0]] else []) + PlainOf(groups[1..])
  }

  // What all generators add, each with the file in force when it is met.
  function MadeBy(groups: seq<Group>, file: Option<string>, s: Setting): Option<seq<Group>> {
    if groups == [] then Some([])
    else if groups[0].Plain? then MadeBy(groups[1..], file, s)
    else
      var made, rest := Generated(groups[0], file, s), MadeBy(groups[1..], FileOf(groups[0], file), s);
      if made.None? || rest.None? then None else Some(made.value + rest.value)
  }

  lemma {:induction false} OnlyPlain(groups: seq<Group>, file: Option<string>, s: Setting)
    requires Generators(groups) == 0
    ensures PlainOf(groups) == groups && MadeBy(groups, file, s) == Some([])
  {
    if groups == [] {
    } else {
      OnlyPlain(groups[1..], file, s);
    }
  }

  lemma {:induction false} MadeByConcat(a: seq<Group>, b: seq<Group>, file: Option<string>, s: Setting)
    requires Generators(b) == 0
    ensures PlainOf(a + b) == PlainOf(a) + b && MadeBy(a + b, file, s) == MadeBy(a, file, s)
  {
    hide Generated;
    if a == [] {
      assert a + b == b;
      OnlyPlain(b, file, s);
    } else {
      var rest := a[1..];
      assert (a + b)[1..] == rest + b && (a + b)[0] == a[0];
      MadeByConcat(rest, b, if a[0].Generator? then FileOf(a[0], file) else file, s);
      var one := if a[0].Plain? then [a[0]] else [];
      assert one + (PlainOf(rest) + b) == one + PlainOf(rest) + b;
    }
  }

  // Plain groups, then what the generators made.
  function InOrder(groups: seq<Group>, file: Option<string>, s: Setting): Option<seq<Group>> {
    var made := MadeBy(groups, file, s);
    if made.None? then None else Some(PlainOf(groups) + made.value)
  }

  /** The self-extending walk visits the given plain groups first and then, generator by generator, the groups
      made from the timer configuration. */
  lemma {:induction false} WorkInOrder(groups: seq<Group>, file: Option<string>, s: Setting)
    ensures Work(groups, file, s) == InOrder(groups, file, s)
    decreases Generators(groups), |groups|
  {
    hide Generated;
    if groups == [] {
      assert PlainOf(groups) + [] == [];
    } else {
      var g, rest := groups[0], groups[1..];
      if g.Plain? {
        WorkInOrder(rest, file, s);
        var made := MadeBy(rest, file, s);
        assert made.Some? ==> [g] + (PlainOf(rest) + made.value) == [g] + PlainOf(rest) + made.value;
      } else {
        var made := Generated(g, file, s);
        if made.Some? {
          GeneratedShrinks(g, file, s, rest);
          GeneratorsConcat(rest, made.value);
          WorkInOrder(rest + made.value, FileOf(g, file), s);
          MadeByConcat(rest, made.value, FileOf(g, file), s);
          var more := MadeBy(rest, FileOf(g, file), s);
          assert more.Some? ==> PlainOf(rest) + made.value + more.value == PlainOf(rest) + (made.value + more.value);
          assert [] + PlainOf(rest) == PlainOf(rest);
        }
      }
    }
  }

  // ---- The two scripts meet the same groups, up to names ----

  /** The settings of the two scripts for one board and module. */
  ghost predicate Paired(p: Setting, m: Setting) {
    && p.files == m.files && p.withIo == m.withIo
    && p.naming.Parameters? && m.naming.Metadata? && !HasVariable(p.naming.moduleName)
  }

  predicate Nameless(g: Group, s: Setting)
    requires g.Plain?
  {
    ProcessName(g.name, g.noPrefix, s).None?
  }

  // Plain groups alike up to their names, or one and the same generator.
  ghost predicate Alike(g: Group, h: Group, p: Setting, m: Setting) {
    if g.Generator? then g == h
    else
      && h.Plain? && h == g.(name := h.name, noPrefix := h.noPrefix)
      && (Nameless(g, p) <==> Nameless(h, m))
  }

  ghost predicate AllAlike(a: seq<Group>, b: seq<Group>, p: Setting, m: Setting) {
    |a| == |b| && forall i :: 0 <= i < |a| ==> Alike(a[i], b[i], p, m)
  }

  lemma {:induction false} NoVariable(a: string, b: string)
    requires !HasVariable(a) && !HasVariable(b)
    ensures !HasVariable(a + " " + b)
  {
    var s := a + " " + b;
    if a == "" {
      assert s[1..] == b;
    } else {
      assert s[1..] == a[1..] + " " + b;
      NoVariable(a[1..], b);
      if |a| == 1 {
        assert s[1] == ' ';
      } else {
        assert s[1] == a[1];
      }
    }
  }

  lemma {:induction false} FixedNames()
    ensures !HasVariable("PWM Capture") && !HasVariable("PWM Aux") && !HasVariable("PWM Main")
    ensures !HasVariable("CAP") && !HasVariable("AUX") && !HasVariable("MAIN")
  {
    hide HasVariable;
    NoVariableIn("PWM Capture");
    NoVariableIn("PWM Aux");
    NoVariableIn("PWM Main");
    NoVariableIn("CAP");
    NoVariableIn("AUX");
    NoVariableIn("MAIN");
  }

  lemma {:induction false} NoVariableIn(s: string)
    requires '$' !in s
    ensures !HasVariable(s)
  {
    if |s| < 2 {
    } else {
      NoVariableIn(s[1..]);
    }
  }

  // A processed name holds no variable, and both scripts refuse the same names.
  lemma {:induction false} NameProcessed(name: string, noPrefix: bool, p: Setting, m: Setting)
    requires Paired(p, m)
    ensures ProcessName(name, noPrefix, p).None? <==> ProcessName(name, noPrefix, m).None?
    ensures ProcessName(name, noPrefix, p).Some? ==> !HasVariable(ProcessName(name, noPrefix, p).value)
    ensures ProcessName(name, noPrefix, m).Some? ==> !HasVariable(ProcessName(name, noPrefix, m).value)
  {
    hide HasVariable;
    FixedNames();
    if !HasVariable(name) {
      NoVariable(p.naming.moduleName, name);
    }
  }

  ghost predicate Clean(names: seq<string>) { forall i :: 0 <= i < |names| ==> !HasVariable(names[i]) }

  lemma {:induction false} NamesProcessed(names: seq<string>, noPrefix: bool, p: Setting, m: Setting)
    requires Paired(p, m)
    ensures ProcessNames(names, noPrefix, p).None? <==> ProcessNames(names, noPrefix, m).None?
    ensures ProcessNames(names, noPrefix, p).Some? ==>
      var a, b := ProcessNames(names, noPrefix, p).value, ProcessNames(names, noPrefix, m).value;
      |a| == |b| && Clean(a) && Clean(b)
  {
    hide ProcessName;
    if names == [] {
    } else {
      NameProcessed(names[0], noPrefix, p, m);
      NamesProcessed(names[1..], noPrefix, p, m);
    }
  }

  lemma {:induction false} Renamed(g: OutputGroup, h: OutputGroup, limits: map<string, Limits>,
                                   functions: seq<string>, p: Setting, m: Setting)
    requires !HasVariable(g.channelLabel) && !HasVariable(h.channelLabel)
    requires g.prefix == h.prefix && g.instanceStart == h.instanceStart
    requires g.instanceStartLabel == h.instanceStartLabel && g.numChannels == h.numChannels
    ensures Alike(Plains([g], limits, functions)[0], Plains([h], limits, functions)[0], p, m)
  {
    NotAVariable(g.channelLabel);
    NotAVariable(h.channelLabel);
  }

  lemma {:induction false} NotAVariable(name: string)
    requires !HasVariable(name)
    ensures name != "${PWM_MAIN_OR_AUX_CAP}" && name != "${PWM_MAIN_OR_AUX}"
  {
  }

  lemma {:induction false} LayoutAlike(timerGroups: seq<TimerGroup>, types: seq<ChannelType>, prefix: string,
                                       a: seq<string>, b: seq<string>, g: Group, start: nat, next: Labels,
                                       p: Setting, m: Setting)
    requires start > 0 && |a| == |b| && Clean(a) && Clean(b) && g.Generator?
    ensures var l, k := Layout(timerGroups, types, prefix, a, g.timerParam, start, next),
                        Layout(timerGroups, types, prefix, b, g.timerParam, start, next);
      && (l.None? <==> k.None?)
      && (l.Some? ==> AllAlike(Plains(l.value, g.limits, g.functions), Plains(k.value, g.limits, g.functions), p, m))
    decreases |timerGroups|
  {
    hide Alike, GroupLabel, TypeOf, Types, Plains, TimerParam;
    if timerGroups == [] {
      NoPlains(g, p, m);
    } else {
      var first := timerGroups[0];
      var t := TypeOf(Types(types, start - 1, first.count), a);
      SameType(Types(types, start - 1, first.count), a, b);
      if t.Some? {
        LayoutAlike(timerGroups[1..], types, prefix, a, b, g, start + first.count,
                    next.Advance(t.value, first.count), p, m);
        var i := TypeIndex(t.value);
        var x := MakeGroup(prefix, a[i], start, next.At(t.value), first, g.timerParam);
        var y := MakeGroup(prefix, b[i], start, next.At(t.value), first, g.timerParam);
        Renamed(x, y, g.limits, g.functions, p, m);
        PlainsCons(x, g.limits, g.functions);
        PlainsCons(y, g.limits, g.functions);
      }
    }
  }

  lemma {:induction false} NoPlains(g: Group, p: Setting, m: Setting)
    ensures AllAlike(Plains([], g.limits, g.functions), Plains([], g.limits, g.functions), p, m)
  {
  }

  lemma {:induction false} SameType(types: seq<ChannelType>, a: seq<string>, b: seq<string>)
    requires |a| == |b|
    ensures TypeOf(types, a) == TypeOf(types, b)
    ensures TypeOf(types, a).Some? ==> TypeIndex(TypeOf(types, a).value) < |a|
  {
  }

  lemma {:induction false} PlainsCons(g: OutputGroup, limits: map<string, Limits>, functions: seq<string>)
    ensures forall rest ::
      Plains([g] + rest, limits, functions) == [Plains([g], limits, functions)[0]] + Plains(rest, limits, functions)
  {
    forall rest
      ensures
        Plains([g] + rest, limits, functions) == [Plains([g], limits, functions)[0]] + Plains(rest, limits, functions)
    {
      assert ([g] + rest)[1..] == rest;
    }
  }

  lemma {:induction false} GeneratedAlike(g: Group, file: Option<string>, p: Setting, m: Setting)
    requires g.Generator? && Paired(p, m)
    ensures Generated(g, file, p).None? <==> Generated(g, file, m).None?
    ensures Generated(g, file, p).Some? ==>
      AllAlike(Generated(g, file, p).value, Generated(g, file, m).value, p, m)
  {
    hide Layout, AllAlike, Clean, ProcessPrefix, ProcessNames, TimerGroupsOf, Runs, Plains;
    NamesProcessed(g.names, g.noPrefix, p, m);
    var prefix, a, b := ProcessPrefix(g.prefix, p.withIo), ProcessNames(g.names, g.noPrefix, p),
                        ProcessNames(g.names, g.noPrefix, m);
    var path := FileOf(g, file);
    if prefix.Some? && a.Some? && path.Some? && path.value in p.files {
      var board := p.files[path.value];
      var timerGroups := TimerGroupsOf(Runs(board.channelTimers), board.timers);
      if timerGroups.Some? {
        LayoutAlike(timerGroups.value, board.channelTypes, prefix.value, a.value, b.value, g, 1, Labels(1, 1), p, m);
      }
    }
  }

  /** Both scripts meet the same plain groups, in the same order, up to their names; or both raise. */
  lemma {:induction false} WorkAlike(a: seq<Group>, b: seq<Group>, file: Option<string>, p: Setting, m: Setting)
    requires Paired(p, m) && AllAlike(a, b, p, m)
    ensures Work(a, file, p).None? <==> Work(b, file, m).None?
    ensures Work(a, file, p).Some? ==> AllAlike(Work(a, file, p).value, Work(b, file, m).value, p, m)
    decreases Generators(a), |a|
  {
    hide Generated, Paired, Nameless;
    if a == [] {
    } else {
      assert Alike(a[0], b[0], p, m);
      if a[0].Plain? {
        WorkAlike(a[1..], b[1..], file, p, m);
      } else {
        GeneratedAlike(a[0], file, p, m);
        var made, same := Generated(a[0], file, p), Generated(a[0], file, m);
        if made.Some? {
          GeneratedShrinks(a[0], file, p, a[1..]);
          WorkAlike(a[1..] + made.value, b[1..] + same.value, FileOf(a[0], file), p, m);
        }
      }
    }
  }

  lemma {:induction false} WorkIsPlain(a: seq<Group>, file: Option<string>, s: Setting)
    ensures Work(a, file, s).Some? ==>
      forall i :: 0 <= i < |Work(a, file, s).value| ==> Work(a, file, s).value[i].Plain?
    decreases Generators(a), |a|
  {
    hide Generated;
    if a == [] {
    } else {
      if a[0].Plain? {
        WorkIsPlain(a[1..], file, s);
      } else {
        var made := Generated(a[0], file, s);
        if made.Some? {
          GeneratedShrinks(a[0], file, s, a[1..]);
          WorkIsPlain(a[1..] + made.value, FileOf(a[0], file), s);
        }
      }
    }
  }

  // ---- Indices ----

  function Range(start: int, count: nat): seq<int> {
    if count == 0 then [] else Range(start, count - 1) + [start + count - 1]
  }

  /** The instance numbers of all entries. */
  function Instances(entries: seq<Entry>): seq<int> {
    if entries == [] then []
    else Instances(entries[..|entries| - 1]) + Range(entries[|entries| - 1].start, entries[|entries| - 1].count)
  }

  function ParamIndices(channels: seq<Channel>): seq<int> {
    if channels == [] then [] else ParamIndices(channels[..|channels| - 1]) + [channels[|channels| - 1].paramIndex]
  }

  /** What to ask both scripts for: the channels of a prefix, or those that have a parameter. */
  datatype Query = OfPrefix(text: string) | OfParam(text: string)

  /** The instance numbers that the parameter script has created. */
  function Created(params: Params, q: Query): seq<int> {
    var m := if q.OfPrefix? then params.prefixes else params.all;
    InstancesAt(m, q.text)
  }

  function EntriesAt(m: map<string, seq<Entry>>, key: string): seq<Entry> { if key in m then m[key] else [] }

  function InstancesAt(m: map<string, seq<Entry>>, key: string): seq<int> { Instances(EntriesAt(m, key)) }

  predicate Answers(subgroup: Subgroup, q: Query) {
    if q.OfPrefix? then subgroup.prefix == q.text else q.text in subgroup.params
  }

  /** The parameter indices of the channels that the metadata script has listed. */
  function Listed(subgroups: seq<Subgroup>, q: Query): seq<int> {
    if subgroups == [] then []
    else
      var last := subgroups[|subgroups| - 1];
      Listed(subgroups[..|subgroups| - 1], q) + if Answers(last, q) then ParamIndices(last.channels) else []
  }

  lemma {:induction false} IndicesNext(channels: seq<Channel>, last: Channel)
    ensures ParamIndices(channels + [last]) == ParamIndices(channels) + [last.paramIndex]
  {
    assert (channels + [last])[..|channels|] == channels;
  }

  lemma {:induction false} ChannelsRange(name: string, startLabel: int, start: int, count: nat)
    ensures ParamIndices(Channels(name, startLabel, start, count)) == Range(start, count)
  {
    if count == 0 {
    } else {
      hide ParamIndices;
      ChannelsRange(name, startLabel, start, count - 1);
      IndicesNext(Channels(name, startLabel, start, count - 1),
                  Channel(name, startLabel + count - 1, start + count - 1));
    }
  }

  lemma {:induction false} ListedNext(subgroups: seq<Subgroup>, last: Subgroup, q: Query)
    ensures Listed(subgroups + [last], q)
         == Listed(subgroups, q) + if Answers(last, q) then ParamIndices(last.channels) else []
  {
    assert (subgroups + [last])[..|subgroups|] == subgroups;
  }

  lemma {:induction false} AppendEntries(m: map<string, seq<Entry>>, mine: string, entry: Entry, key: string)
    ensures EntriesAt(Append(m, mine, entry), key) == EntriesAt(m, key) + if mine == key then [entry] else []
  {
  }

  lemma {:induction false} InstancesNext(entries: seq<Entry>, last: Entry)
    ensures Instances(entries + [last]) == Instances(entries) + Range(last.start, last.count)
  {
    assert (entries + [last])[..|entries|] == entries;
  }

  lemma {:induction false} AppendInstances(m: map<string, seq<Entry>>, mine: string, entry: Entry, key: string)
    ensures InstancesAt(Append(m, mine, entry), key)
         == InstancesAt(m, key) + if mine == key then Range(entry.start, entry.count) else []
  {
    hide Instances, EntriesAt, Append;
    AppendEntries(m, mine, entry, key);
    InstancesNext(EntriesAt(m, key), entry);
    assert EntriesAt(m, key) + [] == EntriesAt(m, key);
  }

  // No two parameters of a group have the same name.
  lemma {:induction false} NamesDiffer(prefix: string, limits: map<string, Limits>, n: nat, suffix: string)
    requires n <= |StandardParams()| && suffix != "FUNC"
    requires forall i :: 0 <= i < n ==> StandardParams()[i].suffix != suffix
    ensures ParamName(prefix, suffix) !in ParamNames(prefix, limits, n)
  {
    hide ParamName, StandardParams;
    if n == 0 {
      NamesInjective(prefix, suffix, "FUNC");
    } else {
      NamesDiffer(prefix, limits, n - 1, suffix);
      NamesInjective(prefix, suffix, StandardParams()[n - 1].suffix);
    }
  }

  lemma {:induction false} NamesInjective(prefix: string, a: string, b: string)
    requires a != b
    ensures ParamName(prefix, a) != ParamName(prefix, b)
  {
    var x, y := ParamName(prefix, a), ParamName(prefix, b);
    assert x[|prefix| + 1..|x| - 4] == a;
    assert y[|prefix| + 1..|y| - 4] == b;
  }

  // Each parameter of a group gets one entry.
  lemma {:induction false} AppendAllEntries(m: map<string, seq<Entry>>, prefix: string, limits: map<string, Limits>,
                                            n: nat, entry: Entry, key: string)
    requires n <= |StandardParams()|
    ensures var names := ParamNames(prefix, limits, n);
      EntriesAt(AppendAll(m, names, entry), key) == EntriesAt(m, key) + if key in names then [entry] else []
  {
    hide Append, EntriesAt, ParamName;
    if n == 0 {
      AppendNext(m, [], ParamName(prefix, "FUNC"), entry);
      assert [] + [ParamName(prefix, "FUNC")] == [ParamName(prefix, "FUNC")];
      AppendEntries(m, ParamName(prefix, "FUNC"), entry, key);
    } else {
      var next, names := StandardParams()[n - 1], ParamNames(prefix, limits, n - 1);
      AppendAllEntries(m, prefix, limits, n - 1, entry, key);
      if next.key in limits {
        var name := ParamName(prefix, next.suffix);
        NamesDiffer(prefix, limits, n - 1, next.suffix);
        AppendNext(m, names, name, entry);
        AppendEntries(AppendAll(m, names, entry), name, entry, key);
        AppendedOnce(EntriesAt(m, key), names, name, key, [entry]);
      } else {
        assert names + [] == names;
      }
    }
  }

  lemma {:induction false} AppendedOnce(before: seq<Entry>, names: seq<string>, name: string, key: string,
                                        more: seq<Entry>)
    requires name !in names
    ensures before + (if key in names then more else []) + (if name == key then more else [])
         == before + if key in names + [name] then more else []
  {
  }

  lemma {:induction false} AppendAllInstances(m: map<string, seq<Entry>>, prefix: string, limits: map<string, Limits>,
                                              n: nat, entry: Entry, key: string)
    requires n <= |StandardParams()|
    ensures var names := ParamNames(prefix, limits, n);
      InstancesAt(AppendAll(m, names, entry), key)
      == InstancesAt(m, key) + if key in names then Range(entry.start, entry.count) else []
  {
    hide Instances, EntriesAt, AppendAll, ParamNames;
    AppendAllEntries(m, prefix, limits, n, entry, key);
    InstancesNext(EntriesAt(m, key), entry);
    assert EntriesAt(m, key) + [] == EntriesAt(m, key);
  }

  // ---- What the parameter script demands ----

  /** The prefix leaves room for the suffix, the limits fit, and the function groups exist. */
  predicate Acceptable(g: Group, s: Setting) {
    && (ProcessPrefix(g.prefix, s.withIo).Some? ==> |ProcessPrefix(g.prefix, s.withIo).value| <= 9)
    && AllFit(g.limits, |StandardParams()|) && AllExist(g.functions, s)
  }

  predicate AllAcceptable(groups: seq<Group>, s: Setting) {
    forall i :: 0 <= i < |groups| ==> Acceptable(groups[i], s)
  }

  lemma {:induction false} AcceptableConcat(a: seq<Group>, b: seq<Group>, s: Setting)
    ensures AllAcceptable(a + b, s) <==> AllAcceptable(a, s) && AllAcceptable(b, s)
  {
    hide Acceptable;
    var all := a + b;
    assert forall i :: 0 <= i < |a| ==> a[i] == all[i];
    assert forall i :: 0 <= i < |b| ==> b[i] == all[|a| + i];
  }

  lemma {:induction false} AcceptableHead(groups: seq<Group>, s: Setting)
    requires groups != []
    ensures AllAcceptable(groups, s) <==> Acceptable(groups[0], s) && AllAcceptable(groups[1..], s)
  {
    hide Acceptable;
    assert groups == [groups[0]] + groups[1..];
    AcceptableConcat([groups[0]], groups[1..], s);
    assert AllAcceptable([groups[0]], s) <==> Acceptable([groups[0]][0], s);
  }

  lemma {:induction false} PrefixProcessed(prefix: string, withIo: bool)
    requires ProcessPrefix(prefix, withIo).Some?
    ensures ProcessPrefix(ProcessPrefix(prefix, withIo).value, withIo) == ProcessPrefix(prefix, withIo)
  {
    hide HasVariable;
    NoVariableIn("PWM_AUX");
    NoVariableIn("PWM_MAIN");
  }

  /** The groups of a layout have its prefix. */
  lemma {:induction false} LayoutPrefix(timerGroups: seq<TimerGroup>, types: seq<ChannelType>, prefix: string,
                                        names: seq<string>, g: Group, start: nat, next: Labels)
    requires start > 0 && g.Generator?
    ensures var r := Layout(timerGroups, types, prefix, names, g.timerParam, start, next);
      r.Some? ==>
        var plains := Plains(r.value, g.limits, g.functions);
        && |plains| == |timerGroups|
        && forall i :: 0 <= i < |plains| ==>
             plains[i].Plain? && plains[i].prefix == prefix && plains[i].limits == g.limits
             && plains[i].functions == g.functions
    decreases |timerGroups|
  {
    hide TypeOf, Types, GroupLabel, TimerParam;
    if timerGroups == [] {
    } else {
      var t := TypeOf(Types(types, start - 1, timerGroups[0].count), names);
      if t.Some? {
        TypeNamed(Types(types, start - 1, timerGroups[0].count), names);
        LayoutPrefix(timerGroups[1..], types, prefix, names, g, start + timerGroups[0].count,
                     next.Advance(t.value, timerGroups[0].count));
      }
    }
  }

  lemma {:induction false} GroupCount(runs: seq<Run>, timers: Timers)
    ensures TimerGroupsOf(runs, timers).Some? ==> |TimerGroupsOf(runs, timers).value| == |runs|
  {
    if runs == [] {
    } else {
      GroupCount(runs[1..], timers);
    }
  }

  /** A generator makes at least one group, with its own prefix, limits and functions. */
  lemma {:induction false} GeneratedInherits(g: Group, file: Option<string>, s: Setting)
    requires g.Generator? && Generated(g, file, s).Some?
    ensures var made := Generated(g, file, s).value;
      && ProcessPrefix(g.prefix, s.withIo).Some? && made != []
      && forall i :: 0 <= i < |made| ==>
           made[i].Plain? && made[i].prefix == ProcessPrefix(g.prefix, s.withIo).value && made[i].limits == g.limits
           && made[i].functions == g.functions
  {
    hide Layout, TimerGroupsOf, ProcessPrefix, ProcessNames, Plains;
    var prefix, names := ProcessPrefix(g.prefix, s.withIo).value, ProcessNames(g.names, g.noPrefix, s).value;
    var board := s.files[FileOf(g, file).value];
    var timerGroups := TimerGroupsOf(Runs(board.channelTimers), board.timers).value;
    GroupCount(Runs(board.channelTimers), board.timers);
    LayoutPrefix(timerGroups, board.channelTypes, prefix, names, g, 1, Labels(1, 1));
  }

  lemma {:induction false} GeneratedAcceptable(g: Group, file: Option<string>, s: Setting)
    requires g.Generator? && Generated(g, file, s).Some?
    ensures AllAcceptable(Generated(g, file, s).value, s) <==> Acceptable(g, s)
  {
    hide Generated, ProcessPrefix, AllFit, AllExist;
    GeneratedInherits(g, file, s);
    PrefixProcessed(g.prefix, s.withIo);
    var made := Generated(g, file, s).value;
    assert Acceptable(made[0], s) <==> Acceptable(g, s);
  }

  /** What the worklist meets is acceptable exactly if the given groups are. */
  lemma {:induction false} WorkAcceptable(groups: seq<Group>, file: Option<string>, s: Setting)
    requires Work(groups, file, s).Some?
    ensures AllAcceptable(Work(groups, file, s).value, s) <==> AllAcceptable(groups, s)
    decreases Generators(groups), |groups|
  {
    hide Generated, Acceptable, AllAcceptable;
    if groups == [] {
    } else {
      var g, rest := groups[0], groups[1..];
      AcceptableHead(groups, s);
      if g.Plain? {
        WorkAcceptable(rest, file, s);
        var work, after := Work(groups, file, s).value, Work(rest, file, s).value;
        assert work[0] == g && work[1..] == after;
        AcceptableHead(work, s);
      } else {
        var made := Generated(g, file, s).value;
        GeneratedShrinks(g, file, s, rest);
        WorkAcceptable(rest + made, FileOf(g, file), s);
        AcceptableConcat(rest, made, s);
        GeneratedAcceptable(g, file, s);
      }
    }
  }

  // ---- The scripts agree ----

  // One group adds the same numbers on both sides.
  lemma {:induction false} StepAgrees(params: Params, subgroups: seq<Subgroup>, g: Group, h: Group, p: Setting,
                                      m: Setting, q: Query)
    requires Paired(p, m) && g.Plain? && Alike(g, h, p, m) && Created(params, q) == Listed(subgroups, q)
    ensures Add(params, g, p).Some? <==> Describe(h, m).Some? && Acceptable(g, p)
    ensures Add(params, g, p).Some? ==>
      Created(Add(params, g, p).value, q) == Listed(subgroups + [Describe(h, m).value], q)
  {
    hide ProcessPrefix, ProcessName, Listed, AllFit, AllExist, InstancesAt, Append, AppendAll, ParamNames;
    if Add(params, g, p).Some? {
      var mine := ProcessPrefix(g.prefix, p.withIo).value;
      var entry := Entry(g.start, g.startLabel, g.numChannels, ProcessName(g.name, g.noPrefix, p).value);
      ChannelsRange(ProcessName(h.name, h.noPrefix, m).value, h.startLabel, h.start, h.numChannels);
      ListedNext(subgroups, Describe(h, m).value, q);
      if q.OfPrefix? {
        AppendInstances(params.prefixes, mine, entry, q.text);
      } else {
        AppendAllInstances(params.all, mine, g.limits, |StandardParams()|, entry, q.text);
      }
    }
  }

  lemma {:induction false} FoldAgrees(params: Params, subgroups: seq<Subgroup>, a: seq<Group>, b: seq<Group>,
                                      p: Setting, m: Setting, q: Query)
    requires Paired(p, m) && AllAlike(a, b, p, m) && forall i :: 0 <= i < |a| ==> a[i].Plain?
    requires Created(params, q) == Listed(subgroups, q)
    ensures Collect(params, a, p).Some? <==> Subgroups(subgroups, b, m).Some? && AllAcceptable(a, p)
    ensures Collect(params, a, p).Some? ==>
      Created(Collect(params, a, p).value, q) == Listed(Subgroups(subgroups, b, m).value, q)
    decreases |a|
  {
    hide Paired, Add, Describe, Created, Listed, Alike, Acceptable, AllAcceptable;
    if a == [] {
      assert AllAcceptable([], p) by { NoneUnacceptable(p); }
    } else {
      BothPlain(a[0], b[0], p, m);
      StepAgrees(params, subgroups, a[0], b[0], p, m, q);
      AcceptableHead(a, p);
      if Add(params, a[0], p).Some? {
        FoldAgrees(Add(params, a[0], p).value, subgroups + [Describe(b[0], m).value], a[1..], b[1..], p, m, q);
      }
    }
  }

  lemma {:induction false} NoneUnacceptable(s: Setting)
    ensures AllAcceptable([], s)
  {
  }

  lemma {:induction false} BothPlain(g: Group, h: Group, p: Setting, m: Setting)
    requires Alike(g, h, p, m) && g.Plain?
    ensures h.Plain?
  {
  }

  lemma {:induction false} SameGroups(groups: seq<Group>, p: Setting, m: Setting)
    requires Paired(p, m)
    ensures AllAlike(groups, groups, p, m)
  {
    hide ProcessName;
    forall i | 0 <= i < |groups|
      ensures Alike(groups[i], groups[i], p, m)
    {
      if groups[i].Plain? {
        NameProcessed(groups[i].name, groups[i].noPrefix, p, m);
      }
    }
  }

  /** For every module and board the parameter script succeeds exactly when the metadata script does and every given
      group is acceptable; then, for every prefix and for every parameter name, the instance numbers that the one
      creates are the parameter indices of the channels that the other lists, in the same order. */
  lemma {:induction false} GeneratorsAgree(groups: seq<Group>, file: Option<string>, p: Setting, m: Setting, q: Query)
    requires Paired(p, m)
    ensures var created, listed := CollectAll(Params(map[], map[]), Work(groups, file, p), p),
                                   AllSubgroups([], Work(groups, file, m), m);
      && (created.Some? <==> listed.Some? && AllAcceptable(groups, p))
      && (created.Some? ==> Created(created.value, q) == Listed(listed.value, q))
  {
    hide Work, Collect, Subgroups, AllAcceptable;
    SameGroups(groups, p, m);
    WorkAlike(groups, groups, file, p, m);
    WorkIsPlain(groups, file, p);
    if Work(groups, file, p).Some? {
      WorkAcceptable(groups, file, p);
      FoldAgrees(Params(map[], map[]), [], Work(groups, file, p).value, Work(groups, file, m).value, p, m, q);
    }
  }

  /** The metadata script alone takes a module whose minimum is negative. */
  lemma {:induction false} OnlyMetadata(p: Setting, m: Setting)
    requires Paired(p, m)
    ensures var groups := [Plain("PWM", "PWM", true, map["min" := Limits(-1, 9)], [], 1, 1, 8)];
      && AllSubgroups([], Work(groups, None, m), m).Some?
      && CollectAll(Params(map[], map[]), Work(groups, None, p), p).None?
  {
    hide CollectAll;
    var g := Plain("PWM", "PWM", true, map["min" := Limits(-1, 9)], [], 1, 1, 8);
    var one := [g];
    assert one[1..] == [] && Work(one[1..], None, m) == Some([]) && [g] + [] == one;
    assert Work(one, None, m) == Some(one);
    NoVariableIn("PWM");
    assert Describe(g, m).Some?;
    GeneratorsAgree([g], None, p, m, OfPrefix("PWM"));
    assert !Fits(StandardParams()[1].key, g.limits);
    assert !Acceptable([g][0], p);
  }
}

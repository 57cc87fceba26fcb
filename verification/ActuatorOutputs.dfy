/** The two generators that walk a module's output groups: one creates the actuator parameters, the other the
    actuator metadata. Both extend the list they are walking. */
module ActuatorOutputs {

  import opened Basics
  import opened TimerGroups
  import Decimal

  // ---- Configuration ----

  /** The least and the largest value of a standard parameter. */
  datatype Limits = Limits(min: int, max: int)

  /** A group of outputs; limits holds its standard parameters, functions its extra function groups. */
  datatype Group =
    | Generator(kind: string, prefix: string, names: seq<string>, noPrefix: bool, limits: map<string, Limits>,
                functions: seq<string>, timerParam: bool, file: Option<string>)
    | Plain(prefix: string, name: string, noPrefix: bool, limits: map<string, Limits>, functions: seq<string>,
            start: int, startLabel: int, numChannels: nat)

  // Which script runs: the parameter generator puts the module name in front of channel names.
  datatype Naming = Parameters(moduleName: string) | Metadata

  // The files that can be read, the kind of board, the function groups that exist, the script.
  datatype Setting = Setting(files: map<string, Board>, withIo: bool, functionGroups: set<string>, naming: Naming)

  predicate HasVariable(s: string) {
    |s| >= 2 && ((s[0] == '$' && s[1] == '{') || HasVariable(s[1..]))
  }

  function ProcessPrefix(prefix: string, withIo: bool): Option<string> {
    if prefix == "${PWM_MAIN_OR_AUX}" then Some(if withIo then "PWM_AUX" else "PWM_MAIN")
    else if HasVariable(prefix) then None else Some(prefix)
  }

  function ProcessName(name: string, noPrefix: bool, s: Setting): Option<string> {
    match s.naming
    case Parameters(moduleName) =>
      if name == "${PWM_MAIN_OR_AUX_CAP}" then Some("PWM Capture")
      else if name == "${PWM_MAIN_OR_AUX}" then Some(if s.withIo then "PWM Aux" else "PWM Main")
      else if HasVariable(name) then None
      else if noPrefix then Some(name) else Some(moduleName + " " + name)
    case Metadata =>
      if name == "${PWM_MAIN_OR_AUX_CAP}" then Some("CAP")
      else if name == "${PWM_MAIN_OR_AUX}" then Some(if s.withIo then "AUX" else "MAIN")
      else if HasVariable(name) then None else Some(name)
  }

  function ProcessNames(names: seq<string>, noPrefix: bool, s: Setting): Option<seq<string>> {
    if names == [] then Some([]) else
    var first, rest := ProcessName(names[0], noPrefix, s), ProcessNames(names[1..], noPrefix, s);
    if first.None? || rest.None? then None else Some([first.value] + rest.value)
  }

  // ---- What a generator group adds ----

  function Plains(groups: seq<OutputGroup>, limits: map<string, Limits>, functions: seq<string>): seq<Group> {
    if groups == [] then [] else
    var g := groups[0];
    [Plain(g.prefix, g.channelLabel, true, limits, functions, g.instanceStart, g.instanceStartLabel, g.numChannels)]
    + Plains(groups[1..], limits, functions)
  }

  // A file named once stays in use for later generators.
  function FileOf(g: Group, file: Option<string>): Option<string>
    requires g.Generator?
  {
    if g.file.Some? then g.file else file
  }

  // None where the code raises.
  function Generated(g: Group, file: Option<string>, s: Setting): Option<seq<Group>>
    requires g.Generator?
  {
    var prefix, names, path := ProcessPrefix(g.prefix, s.withIo), ProcessNames(g.names, g.noPrefix, s), FileOf(g, file);
    if g.kind != "pwm" || prefix.None? || names.None? || path.None? || path.value !in s.files then None else
    var groups := OutputGroups(s.files[path.value], prefix.value, names.value, g.timerParam);
    if groups.None? then None else Some(Plains(groups.value, g.limits, g.functions))
  }

  method Generate(g: Group, file: Option<string>, s: Setting) returns (r: Option<seq<Group>>)
    requires g.Generator?
    ensures r == Generated(g, file, s)
  {
    if g.kind != "pwm" {
      return None;
    }
    var prefix, names, path := ProcessPrefix(g.prefix, s.withIo), ProcessNames(g.names, g.noPrefix, s), FileOf(g, file);
    if prefix.None? || names.None? || path.None? || path.value !in s.files {
      return None;
    }
    var board := s.files[path.value];
    if board.channelTimers == [] {
      return None;
    }
    var timerGroups := TimerGroupsOf(Runs(board.channelTimers), board.timers);
    if timerGroups.None? {
      return None;
    }
    var groups := GetOutputGroups(timerGroups.value, board.channelTypes, prefix.value, names.value, g.timerParam);
    return if groups.None? then None else Some(Plains(groups.value, g.limits, g.functions));
  }

  // ---- The worklist ----

  function Generators(groups: seq<Group>): nat {
    if groups == [] then 0 else (if groups[0].Generator? then 1 else 0) + Generators(groups[1..])
  }

  lemma {:induction false} GeneratorsConcat(a: seq<Group>, b: seq<Group>)
    ensures Generators(a + b) == Generators(a) + Generators(b)
  {
    if a == [] {
      assert a + b == b;
    } else {
      GeneratorsConcat(a[1..], b);
      assert (a + b)[1..] == a[1..] + b;
    }
  }

  lemma {:induction false} PlainsAreNot(groups: seq<OutputGroup>, limits: map<string, Limits>, functions: seq<string>)
    ensures Generators(Plains(groups, limits, functions)) == 0
  {
    if groups == [] {
    } else {
      PlainsAreNot(groups[1..], limits, functions);
      assert Plains(groups, limits, functions)[1..] == Plains(groups[1..], limits, functions);
    }
  }

  // Appending what a generator made leaves one generator less.
  lemma {:induction false} GeneratedShrinks(g: Group, file: Option<string>, s: Setting, rest: seq<Group>)
    requires g.Generator? && Generated(g, file, s).Some?
    ensures Generators(rest + Generated(g, file, s).value) == Generators(rest)
  {
    hide OutputGroups, ProcessPrefix, ProcessNames;
    var prefix, names, path := ProcessPrefix(g.prefix, s.withIo), ProcessNames(g.names, g.noPrefix, s), FileOf(g, file);
    var groups := OutputGroups(s.files[path.value], prefix.value, names.value, g.timerParam);
    PlainsAreNot(groups.value, g.limits, g.functions);
    GeneratorsConcat(rest, Plains(groups.value, g.limits, g.functions));
  }

  // The plain groups in the order the worklist meets them.
  function Work(queue: seq<Group>, file: Option<string>, s: Setting): Option<seq<Group>>
    decreases Generators(queue), |queue|
  {
    if queue == [] then Some([]) else
    var g, rest := queue[0], queue[1..];
    if g.Plain? then
      var after := Work(rest, file, s);
      if after.None? then None else Some([g] + after.value)
    else
      var made := Generated(g, file, s);
      if made.None? then None else
      GeneratedShrinks(g, file, s, rest);
      Work(rest + made.value, FileOf(g, file), s)
  }

  // ---- Parameters of a group ----

  datatype Standard = Standard(key: string, suffix: string)

  /** The standard parameters in the order both scripts go through them. */
  function StandardParams(): seq<Standard> {
    [Standard("disarmed", "DIS"), Standard("min", "MIN"), Standard("center", "CENT"), Standard("max", "MAX"),
     Standard("failsafe", "FAIL")]
  }

  function ParamName(prefix: string, suffix: string): string { prefix + "_" + suffix + "${i}" }

  /** The function parameter, and those of the first n standard parameters that the group has. */
  function ParamNames(prefix: string, limits: map<string, Limits>, n: nat): seq<string>
    requires n <= |StandardParams()|
  {
    if n == 0 then [ParamName(prefix, "FUNC")]
    else
      var next := StandardParams()[n - 1];
      ParamNames(prefix, limits, n - 1) + if next.key in limits then [ParamName(prefix, next.suffix)] else []
  }

  // The values fit an unsigned 16-bit integer.
  predicate Fits(key: string, limits: map<string, Limits>) {
    key in limits ==> limits[key].min >= 0 && limits[key].max < 0x1_0000
  }

  predicate AllFit(limits: map<string, Limits>, n: nat)
    requires n <= |StandardParams()|
  {
    forall i :: 0 <= i < n ==> Fits(StandardParams()[i].key, limits)
  }

  predicate AllExist(functions: seq<string>, s: Setting) {
    "common" in s.functionGroups && forall i :: 0 <= i < |functions| ==> functions[i] in s.functionGroups
  }

  // ---- The parameter generator ----

  /** Parameter instances start .. start + count - 1, labelled from startLabel on. */
  datatype Entry = Entry(start: int, startLabel: int, count: nat, name: string)

  /** The definitions by parameter name, and the groups of channels by prefix. */
  datatype Params = Params(all: map<string, seq<Entry>>, prefixes: map<string, seq<Entry>>)

  function Append(m: map<string, seq<Entry>>, key: string, entry: Entry): map<string, seq<Entry>> {
    m[key := (if key in m then m[key] else []) + [entry]]
  }

  function AppendAll(m: map<string, seq<Entry>>, keys: seq<string>, entry: Entry): map<string, seq<Entry>> {
    if keys == [] then m else Append(AppendAll(m, keys[..|keys| - 1], entry), keys[|keys| - 1], entry)
  }

  lemma {:induction false} AppendNext(m: map<string, seq<Entry>>, keys: seq<string>, key: string, entry: Entry)
    ensures AppendAll(m, keys + [key], entry) == Append(AppendAll(m, keys, entry), key, entry)
  {
    assert (keys + [key])[..|keys|] == keys;
  }

  /** What a group adds; None where the script raises. */
  function Add(params: Params, g: Group, s: Setting): Option<Params>
    requires g.Plain?
  {
    var prefix, name := ProcessPrefix(g.prefix, s.withIo), ProcessName(g.name, g.noPrefix, s);
    if prefix.None? || name.None? || |prefix.value| > 9 || !AllExist(g.functions, s)
       || !AllFit(g.limits, |StandardParams()|)
    then None else
    var entry := Entry(g.start, g.startLabel, g.numChannels, name.value);
    Some(Params(AppendAll(params.all, ParamNames(prefix.value, g.limits, |StandardParams()|), entry),
                Append(params.prefixes, prefix.value, entry)))
  }

  method AddGroup(params: Params, g: Group, s: Setting) returns (r: Option<Params>)
    requires g.Plain?
    ensures r == Add(params, g, s)
  {
    hide ProcessPrefix, ProcessName, ParamName, Append, Fits;
    var prefix, name := ProcessPrefix(g.prefix, s.withIo), ProcessName(g.name, g.noPrefix, s);
    if prefix.None? || name.None? || |prefix.value| > 9 || "common" !in s.functionGroups {
      return None;
    }
    for i := 0 to |g.functions|
      invariant AllExist(g.functions[..i], s)
    {
      if g.functions[i] !in s.functionGroups {
        return None;
      }
    }
    assert g.functions[..|g.functions|] == g.functions;
    var entry := Entry(g.start, g.startLabel, g.numChannels, name.value);
    AppendNext(params.all, [], ParamName(prefix.value, "FUNC"), entry);
    var all := Append(params.all, ParamName(prefix.value, "FUNC"), entry);
    var standard := StandardParams();
    for i := 0 to |standard|
      invariant AllFit(g.limits, i)
      invariant all == AppendAll(params.all, ParamNames(prefix.value, g.limits, i), entry)
    {
      if standard[i].key in g.limits {
        if !Fits(standard[i].key, g.limits) {
          return None;
        }
        var paramName := ParamName(prefix.value, standard[i].suffix);
        AppendNext(params.all, ParamNames(prefix.value, g.limits, i), paramName, entry);
        all := Append(all, paramName, entry);
      } else {
        FitsWithout(standard[i].key, g.limits);
        assert ParamNames(prefix.value, g.limits, i) + [] == ParamNames(prefix.value, g.limits, i);
      }
    }
    return Some(Params(all, Append(params.prefixes, prefix.value, entry)));
  }

  lemma {:induction false} FitsWithout(key: string, limits: map<string, Limits>)
    requires key !in limits
    ensures Fits(key, limits)
  {
  }

  function Collect(params: Params, plains: seq<Group>, s: Setting): Option<Params>
    decreases |plains|
  {
    if plains == [] then Some(params)
    else if !plains[0].Plain? then None
    else
      var added := Add(params, plains[0], s);
      if added.None? then None else Collect(added.value, plains[1..], s)
  }

  function CollectAll(params: Params, plains: Option<seq<Group>>, s: Setting): Option<Params> {
    if plains.None? then None else Collect(params, plains.value, s)
  }

  lemma {:induction false} CollectOne(params: Params, g: Group, rest: Option<seq<Group>>, s: Setting)
    requires g.Plain?
    ensures CollectAll(params, if rest.None? then None else Some([g] + rest.value), s)
         == if Add(params, g, s).None? then None else CollectAll(Add(params, g, s).value, rest, s)
  {
    hide Add;
    assert rest.Some? ==> ([g] + rest.value)[1..] == rest.value;
  }

  /** The worklist of the parameter generator. It ends because a step takes away a generator, or leaves the
      generators and takes away a group. */
  method GetActuatorOutputParams(outputGroups: seq<Group>, timerConfigFile: Option<string>, s: Setting)
    returns (r: Option<Params>)
    ensures r == CollectAll(Params(map[], map[]), Work(outputGroups, timerConfigFile, s), s)
  {
    hide Generated, Add, CollectAll;
    var queue, file, groupIdx := outputGroups, timerConfigFile, 0;
    var params := Params(map[], map[]);
    assert queue[0..] == queue;
    while groupIdx < |queue|
      invariant groupIdx <= |queue|
      invariant CollectAll(params, Work(queue[groupIdx..], file, s), s)
             == CollectAll(Params(map[], map[]), Work(outputGroups, timerConfigFile, s), s)
      decreases Generators(queue[groupIdx..]), |queue| - groupIdx
    {
      var g := queue[groupIdx];
      ghost var rest := queue[groupIdx + 1..];
      assert queue[groupIdx..][1..] == rest;
      groupIdx := groupIdx + 1;
      if g.Generator? {
        var made := Generate(g, file, s);
        NothingCollected(params, s);
        if made.None? {
          return None;
        }
        GeneratedShrinks(g, file, s, rest);
        file := FileOf(g, file);
        queue := queue + made.value;
        assert queue[groupIdx..] == rest + made.value;
        continue;
      }
      CollectOne(params, g, Work(rest, file, s), s);
      var added := AddGroup(params, g, s);
      if added.None? {
        return None;
      }
      params := added.value;
    }
    NothingLeft(params, s);
    return Some(params);
  }

  lemma {:induction false} NothingCollected(params: Params, s: Setting)
    ensures CollectAll(params, None, s) == None
  {
  }

  lemma {:induction false} NothingLeft(params: Params, s: Setting)
    ensures CollectAll(params, Some([]), s) == Some(params)
  {
  }

  // ---- The metadata generator ----

  datatype Channel = Channel(name: string, number: int, paramIndex: int)

  /** The channels of a group, and the names of the parameters that each of them has. */
  datatype Subgroup = Subgroup(prefix: string, channels: seq<Channel>, params: seq<string>)

  function Channels(name: string, startLabel: int, start: int, count: nat): seq<Channel> {
    if count == 0 then []
    else Channels(name, startLabel, start, count - 1) + [Channel(name, startLabel + count - 1, start + count - 1)]
  }

  function Describe(g: Group, s: Setting): Option<Subgroup>
    requires g.Plain?
  {
    var prefix, name := ProcessPrefix(g.prefix, s.withIo), ProcessName(g.name, g.noPrefix, s);
    if prefix.None? || name.None? then None
    else Some(Subgroup(prefix.value, Channels(name.value, g.startLabel, g.start, g.numChannels),
                       ParamNames(prefix.value, g.limits, |StandardParams()|)))
  }

  function Subgroups(done: seq<Subgroup>, plains: seq<Group>, s: Setting): Option<seq<Subgroup>>
    decreases |plains|
  {
    if plains == [] then Some(done)
    else if !plains[0].Plain? then None
    else
      var subgroup := Describe(plains[0], s);
      if subgroup.None? then None else Subgroups(done + [subgroup.value], plains[1..], s)
  }

  function AllSubgroups(done: seq<Subgroup>, plains: Option<seq<Group>>, s: Setting): Option<seq<Subgroup>> {
    if plains.None? then None else Subgroups(done, plains.value, s)
  }

  lemma {:induction false} SubgroupsOne(done: seq<Subgroup>, g: Group, rest: Option<seq<Group>>, s: Setting)
    requires g.Plain?
    ensures AllSubgroups(done, if rest.None? then None else Some([g] + rest.value), s)
         == if Describe(g, s).None? then None else AllSubgroups(done + [Describe(g, s).value], rest, s)
  {
    assert rest.Some? ==> ([g] + rest.value)[1..] == rest.value;
  }

  lemma {:induction false} NoSubgroups(done: seq<Subgroup>, s: Setting)
    ensures AllSubgroups(done, None, s) == None && AllSubgroups(done, Some([]), s) == Some(done)
  {
  }

  /** The worklist of the metadata generator. */
  method GetActuatorOutput(outputGroups: seq<Group>, timerConfigFile: Option<string>, s: Setting)
    returns (r: Option<seq<Subgroup>>)
    ensures r == AllSubgroups([], Work(outputGroups, timerConfigFile, s), s)
  {
    hide Generated, Describe, AllSubgroups;
    var queue, file, groupIdx := outputGroups, timerConfigFile, 0;
    var subgroups := [];
    assert queue[0..] == queue;
    while groupIdx < |queue|
      invariant groupIdx <= |queue|
      invariant AllSubgroups(subgroups, Work(queue[groupIdx..], file, s), s)
             == AllSubgroups([], Work(outputGroups, timerConfigFile, s), s)
      decreases Generators(queue[groupIdx..]), |queue| - groupIdx
    {
      var g := queue[groupIdx];
      ghost var rest := queue[groupIdx + 1..];
      assert queue[groupIdx..][1..] == rest;
      groupIdx := groupIdx + 1;
      NoSubgroups(subgroups, s);
      if g.Generator? {
        var made := Generate(g, file, s);
        if made.None? {
          return None;
        }
        GeneratedShrinks(g, file, s, rest);
        file := FileOf(g, file);
        queue := queue + made.value;
        assert queue[groupIdx..] == rest + made.value;
        continue;
      }
      SubgroupsOne(subgroups, g, Work(rest, file, s), s);
      var subgroup := ListChannels(g, s);
      if subgroup.None? {
        return None;
      }
      subgroups := subgroups + [subgroup.value];
    }
    NoSubgroups(subgroups, s);
    return Some(subgroups);
  }

  method ListChannels(g: Group, s: Setting) returns (r: Option<Subgroup>)
    requires g.Plain?
    ensures r == Describe(g, s)
  {
    hide ProcessPrefix, ProcessName, ParamName;
    var prefix, name := ProcessPrefix(g.prefix, s.withIo), ProcessName(g.name, g.noPrefix, s);
    if prefix.None? || name.None? {
      return None;
    }
    var channels := [];
    for channel := 0 to g.numChannels
      invariant channels == Channels(name.value, g.startLabel, g.start, channel)
    {
      channels := channels + [Channel(name.value, channel + g.startLabel, channel + g.start)];
    }
    var standard, params := StandardParams(), [ParamName(prefix.value, "FUNC")];
    for i := 0 to |standard|
      invariant params == ParamNames(prefix.value, g.limits, i)
    {
      if standard[i].key in g.limits {
        params := params + [ParamName(prefix.value, standard[i].suffix)];
      }
    }
    return Some(Subgroup(prefix.value, channels, params));
  }
}

/** The names that the two generators give to parameters and channels, written out. */
module ActuatorNames {

  import opened Basics
  import opened ActuatorOutputs
  import opened ActuatorAgreement

  // ---- Variables ----

  ghost predicate OpensVariable(s: string) { exists i :: 0 <= i < |s| - 1 && s[i] == '$' && s[i + 1] == '{' }

  lemma {:induction false} VariableMeans(s: string)
    ensures HasVariable(s) <==> OpensVariable(s)
  {
    if |s| < 2 {
    } else {
      VariableMeans(s[1..]);
      var rest := s[1..];
      if OpensVariable(rest) {
        var i :| 0 <= i < |rest| - 1 && rest[i] == '$' && rest[i + 1] == '{';
        assert s[i + 1] == '$' && s[i + 1 + 1] == '{';
      }
      if OpensVariable(s) && !(s[0] == '$' && s[1] == '{') {
        var i :| 0 <= i < |s| - 1 && s[i] == '$' && s[i + 1] == '{';
        assert rest[i - 1] == '$' && rest[i - 1 + 1] == '{';
      }
    }
  }

  /** A board with an I/O processor has its own outputs on AUX; any other variable is refused. */
  lemma {:induction false} PrefixMeans(prefix: string)
    ensures ProcessPrefix("${PWM_MAIN_OR_AUX}", true) == Some("PWM_AUX")
    ensures ProcessPrefix("${PWM_MAIN_OR_AUX}", false) == Some("PWM_MAIN")
    ensures prefix != "${PWM_MAIN_OR_AUX}" ==>
      forall withIo :: ProcessPrefix(prefix, withIo) == if OpensVariable(prefix) then None else Some(prefix)
  {
    VariableMeans(prefix);
  }

  /** The same for channel names; the parameter generator alone puts the module name in front of plain ones. */
  lemma {:induction false} NameMeans(name: string, noPrefix: bool, s: Setting)
    ensures var main, params := ProcessName("${PWM_MAIN_OR_AUX}", noPrefix, s), s.naming.Parameters?;
      main == Some(if params then if s.withIo then "PWM Aux" else "PWM Main" else if s.withIo then "AUX" else "MAIN")
    ensures ProcessName("${PWM_MAIN_OR_AUX_CAP}", noPrefix, s)
         == Some(if s.naming.Parameters? then "PWM Capture" else "CAP")
    ensures name != "${PWM_MAIN_OR_AUX}" && name != "${PWM_MAIN_OR_AUX_CAP}" ==>
      ProcessName(name, noPrefix, s)
      == if OpensVariable(name) then None
         else if s.naming.Metadata? || noPrefix then Some(name) else Some(s.naming.moduleName + " " + name)
  {
    VariableMeans(name);
    assert |"${PWM_MAIN_OR_AUX}"| != |"${PWM_MAIN_OR_AUX_CAP}"|;
  }

  // ---- Parameters ----

  /** The parameters of a group with the given standard parameters. */
  ghost predicate IsParam(name: string, prefix: string, limits: map<string, Limits>) {
    || name == prefix + "_FUNC${i}"
    || (name == prefix + "_DIS${i}" && "disarmed" in limits)
    || (name == prefix + "_MIN${i}" && "min" in limits)
    || (name == prefix + "_CENT${i}" && "center" in limits)
    || (name == prefix + "_MAX${i}" && "max" in limits)
    || (name == prefix + "_FAIL${i}" && "failsafe" in limits)
  }

  lemma {:induction false} Spelled(prefix: string, suffix: string)
    ensures ParamName(prefix, suffix) == prefix + ("_" + suffix + "${i}")
  {
  }

  lemma {:induction false} NextName(prefix: string, limits: map<string, Limits>, n: nat, name: string)
    requires n < |StandardParams()|
    ensures name in ParamNames(prefix, limits, n + 1)
       <==> name in ParamNames(prefix, limits, n)
            || (StandardParams()[n].key in limits && name == ParamName(prefix, StandardParams()[n].suffix))
  {
    hide ParamName;
  }

  lemma {:induction false} ParamNamesMean(prefix: string, limits: map<string, Limits>, name: string)
    ensures |StandardParams()| == 5 && (name in ParamNames(prefix, limits, 5) <==> IsParam(name, prefix, limits))
  {
    assert name in ParamNames(prefix, limits, 0) <==> name == ParamName(prefix, "FUNC");
    NextName(prefix, limits, 0, name);
    NextName(prefix, limits, 1, name);
    NextName(prefix, limits, 2, name);
    NextName(prefix, limits, 3, name);
    NextName(prefix, limits, 4, name);
    hide ParamName, ParamNames;
    Spelled(prefix, "FUNC");
    Spelled(prefix, "DIS");
    Spelled(prefix, "MIN");
    Spelled(prefix, "CENT");
    Spelled(prefix, "MAX");
    Spelled(prefix, "FAIL");
    assert "_" + "FUNC" + "${i}" == "_FUNC${i}" && "_" + "DIS" + "${i}" == "_DIS${i}";
    assert "_" + "MIN" + "${i}" == "_MIN${i}" && "_" + "CENT" + "${i}" == "_CENT${i}";
    assert "_" + "MAX" + "${i}" == "_MAX${i}" && "_" + "FAIL" + "${i}" == "_FAIL${i}";
  }

  /** The entry a group adds to one of its parameters. */
  ghost function EntryOf(g: Group, s: Setting): Entry
    requires g.Plain? && ProcessName(g.name, g.noPrefix, s).Some?
  {
    Entry(g.start, g.startLabel, g.numChannels, ProcessName(g.name, g.noPrefix, s).value)
  }

  /** The group has the parameter. */
  ghost predicate Has(g: Group, name: string, s: Setting) {
    && g.Plain? && ProcessPrefix(g.prefix, s.withIo).Some? && ProcessName(g.name, g.noPrefix, s).Some?
    && IsParam(name, ProcessPrefix(g.prefix, s.withIo).value, g.limits)
  }

  /** One entry per group that has the parameter, in the order of the groups. */
  ghost function EntriesOf(plains: seq<Group>, name: string, s: Setting): seq<Entry> {
    if plains == [] then []
    else (if Has(plains[0], name, s) then [EntryOf(plains[0], s)] else []) + EntriesOf(plains[1..], name, s)
  }

  lemma {:induction false} AddEntries(params: Params, g: Group, name: string, s: Setting)
    requires g.Plain? && Add(params, g, s).Some?
    ensures EntriesAt(Add(params, g, s).value.all, name)
         == EntriesAt(params.all, name) + if Has(g, name, s) then [EntryOf(g, s)] else []
  {
    hide ProcessPrefix, ProcessName, AllFit, AllExist, AppendAll, Append, ParamNames, IsParam, EntriesAt;
    var prefix := ProcessPrefix(g.prefix, s.withIo).value;
    ParamNamesMean(prefix, g.limits, name);
    AppendAllEntries(params.all, prefix, g.limits, 5, EntryOf(g, s), name);
  }

  /** Under every name the parameter generator has collected exactly the entries of the groups that have it. */
  lemma {:induction false} CollectEntries(params: Params, plains: seq<Group>, name: string, s: Setting)
    requires Collect(params, plains, s).Some?
    ensures EntriesAt(Collect(params, plains, s).value.all, name)
         == EntriesAt(params.all, name) + EntriesOf(plains, name, s)
    decreases |plains|
  {
    hide Add, Has, EntryOf, EntriesAt;
    if plains == [] {
    } else {
      AddEntries(params, plains[0], name, s);
      CollectEntries(Add(params, plains[0], s).value, plains[1..], name, s);
    }
  }

  // ---- Channels ----

  /** The metadata generator numbers the channels of a group from its two start numbers on. */
  lemma {:induction false} ChannelsMean(name: string, startLabel: int, start: int, count: nat)
    ensures var channels := Channels(name, startLabel, start, count);
      && |channels| == count
      && forall k :: 0 <= k < count ==> channels[k] == Channel(name, startLabel + k, start + k)
  {
    if count == 0 {
    } else {
      ChannelsMean(name, startLabel, start, count - 1);
    }
  }

  /** What the metadata generator says of a group: its prefix, its channels, and no parameter but those it has. */
  lemma {:induction false} DescribeMeans(g: Group, s: Setting, name: string)
    requires g.Plain? && Describe(g, s).Some?
    ensures var sub := Describe(g, s).value;
      && Some(sub.prefix) == ProcessPrefix(g.prefix, s.withIo)
      && |sub.channels| == g.numChannels && (name in sub.params <==> Has(g, name, s))
      && forall k :: 0 <= k < |sub.channels| ==>
           sub.channels[k] == Channel(ProcessName(g.name, g.noPrefix, s).value, g.startLabel + k, g.start + k)
  {
    hide ProcessPrefix, ProcessName, ParamNames, IsParam;
    ParamNamesMean(ProcessPrefix(g.prefix, s.withIo).value, g.limits, name);
    ChannelsMean(ProcessName(g.name, g.noPrefix, s).value, g.startLabel, g.start, g.numChannels);
  }
}

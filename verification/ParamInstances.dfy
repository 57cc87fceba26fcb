/** The printer of parameter sections: one text per instance, with the instance number filled in for `${i}`. */
module ParamInstances {

  import opened Basics
  import opened Whitespace
  import opened ParamText
  import opened ParamParser
  import opened ParamReading
  import opened ParamRoundTrip
  import Decimal

  // ---- Filling in a number ----

  predicate StartsVariable(s: string) { |s| >= 4 && s[0] == '$' && s[1] == '{' && s[2] == 'i' && s[3] == '}' }

  /** The text with every `${i}` replaced. */
  function Fill(s: string, r: string): string {
    if s == "" then ""
    else if StartsVariable(s) then r + Fill(s[4..], r)
    else [s[0]] + Fill(s[1..], r)
  }

  // A text that cannot go on a variable.
  predicate Apart(b: string) { b == "" || (b[0] != '{' && b[0] != 'i' && b[0] != '}') }

  lemma {:induction false} VariableInside(a: string, b: string)
    requires a != "" && Apart(b)
    ensures StartsVariable(a + b) == StartsVariable(a)
  {
    var s := a + b;
    if |a| < 4 && b != "" {
      assert s[|a|] == b[0];
    }
  }

  lemma {:induction false} FillStep(s: string, r: string)
    requires s != ""
    ensures StartsVariable(s) ==> Fill(s, r) == r + Fill(s[4..], r)
    ensures !StartsVariable(s) ==> Fill(s, r) == [s[0]] + Fill(s[1..], r)
  {
  }

  lemma {:induction false} FillConcat(a: string, b: string, r: string)
    requires Apart(b)
    ensures Fill(a + b, r) == Fill(a, r) + Fill(b, r)
    decreases |a|
  {
    var s := a + b;
    if a == "" {
      assert s == b;
    } else {
      VariableInside(a, b);
      var k, head := if StartsVariable(a) then 4 else 1, if StartsVariable(a) then r else [a[0]];
      FillConcat(a[k..], b, r);
      FillStep(a, r);
      FillStep(s, r);
      hide Fill, StartsVariable;
      assert s[k..] == a[k..] + b && s[0] == a[0];
      Assoc(head, Fill(a[k..], r), Fill(b, r));
    }
  }

  lemma {:induction false} FillLiteral(a: string, b: string, r: string)
    requires '$' !in a
    ensures Fill(a + b, r) == a + Fill(b, r)
  {
    if a == "" {
      assert a + b == b;
    } else {
      FillLiteral(a[1..], b, r);
      assert (a + b)[1..] == a[1..] + b && a[0] in a;
    }
  }

  lemma {:induction false} FillNothing(a: string, r: string)
    requires '$' !in a
    ensures Fill(a, r) == a
  {
    FillLiteral(a, "", r);
    assert a + "" == a;
  }

  lemma {:induction false} FillLine(s: string, rest: string, r: string)
    ensures Fill(Line(s, rest), r) == Line(Fill(s, r), Fill(rest, r))
  {
    hide Fill;
    assert Line(s, rest) == s + ("\n" + rest) && ("\n" + rest)[0] == '\n';
    FillConcat(s, "\n" + rest, r);
    FillLiteral("\n", rest, r);
    assert Fill(s, r) + ("\n" + Fill(rest, r)) == Fill(s, r) + "\n" + Fill(rest, r);
  }

  // Text between two pieces that cannot be part of a variable.
  lemma {:induction false} FillBetween(a: string, sep: string, b: string, r: string)
    requires sep != "" && '$' !in sep && Apart(sep)
    ensures Fill(a + sep + b, r) == Fill(a, r) + sep + Fill(b, r)
  {
    hide Fill;
    assert a + sep + b == a + (sep + b) && (sep + b)[0] == sep[0];
    FillConcat(a, sep + b, r);
    FillLiteral(sep, b, r);
    assert Fill(a, r) + (sep + Fill(b, r)) == Fill(a, r) + sep + Fill(b, r);
  }

  lemma {:induction false} FillIndent(s: string, r: string)
    requires '\n' !in r
    ensures Fill(Indent(s), r) == Indent(Fill(s, r))
    decreases |s|
  {
    if s == "" {
    } else if StartsVariable(s) {
      FillIndent(s[4..], r);
      IndentVariable(s);
      IndentPlain(r, Fill(s[4..], r));
    } else {
      FillIndent(s[1..], r);
      if s[0] == '\n' {
        FillLiteral("\n * ", Indent(s[1..]), r);
        assert Fill(s, r)[1..] == Fill(s[1..], r);
      } else {
        StillNoVariable(s);
        assert Indent(s)[1..] == Indent(s[1..]);
        assert Fill(s, r)[1..] == Fill(s[1..], r);
      }
    }
  }

  lemma {:induction false} IndentPlain(a: string, b: string)
    requires '\n' !in a
    ensures Indent(a + b) == a + Indent(b)
  {
    if a == "" {
      assert a + b == b;
    } else {
      IndentPlain(a[1..], b);
      assert (a + b)[1..] == a[1..] + b && a[0] in a;
    }
  }

  lemma {:induction false} IndentVariable(s: string)
    requires StartsVariable(s)
    ensures StartsVariable(Indent(s)) && Indent(s)[4..] == Indent(s[4..])
  {
    assert s == "${i}" + s[4..];
    IndentPlain("${i}", s[4..]);
  }

  // Indenting does not make a variable.
  lemma {:induction false} StillNoVariable(s: string)
    requires s != "" && !StartsVariable(s) && s[0] != '\n'
    ensures Indent(s) != "" && Indent(s)[0] == s[0] && !StartsVariable(Indent(s))
  {
    var t := Indent(s);
    if StartsVariable(t) {
      NoBreakBefore(s, 4);
    }
  }

  // Where the indented text has no break among its first characters, neither has the text.
  lemma {:induction false} NoBreakBefore(s: string, n: nat)
    requires n <= |Indent(s)| && forall i :: 0 <= i < n ==> Indent(s)[i] != '\n'
    ensures n <= |s| && Indent(s)[..n] == s[..n]
  {
    if n == 0 {
    } else {
      assert Indent(s)[0] != '\n';
      assert Indent(s)[1..] == Indent(s[1..]);
      NoBreakBefore(s[1..], n - 1);
      assert Indent(s)[..n] == [s[0]] + Indent(s[1..])[..n - 1];
    }
  }

  // ---- Filling in a definition ----

  function FillValue(v: Value, r: string): Value { Value(Fill(v.key, r), v.number, Fill(v.text, r)) }

  function FillValues(values: seq<Value>, r: string): seq<Value> {
    if values == [] then [] else FillValues(values[..|values| - 1], r) + [FillValue(values[|values| - 1], r)]
  }

  function FillBits(bits: seq<Bit>, r: string): seq<Bit> {
    if bits == [] then []
    else FillBits(bits[..|bits| - 1], r) + [Bit(bits[|bits| - 1].index, Fill(bits[|bits| - 1].text, r))]
  }

  function FillKind(kind: Kind, r: string): Kind {
    match kind
    case Enum(values) => Enum(FillValues(values, r))
    case Float(values) => Float(FillValues(values, r))
    case Bitmask(bits) => Bitmask(FillBits(bits, r))
    case _ => kind
  }

  function FillTags(tags: map<string, string>, r: string): map<string, string> {
    map tag | tag in tags :: Fill(tags[tag], r)
  }

  /** The definition with every `${i}` in its texts replaced. */
  function FillDefinition(d: Definition, r: string): Definition {
    Definition(Fill(d.name, r), Fill(d.group, r), FillKind(d.kind, r), Fill(d.short, r), Fill(d.long, r),
               Fill(d.default, r), FillTags(d.tags, r))
  }

  function FillAll(lines: seq<string>, r: string): seq<string> {
    if lines == [] then [] else FillAll(lines[..|lines| - 1], r) + [Fill(lines[|lines| - 1], r)]
  }

  lemma {:induction false} FillAllConcat(a: seq<string>, b: seq<string>, r: string)
    ensures FillAll(a + b, r) == FillAll(a, r) + FillAll(b, r)
  {
    hide Fill;
    if b == [] {
      assert a + b == a;
    } else {
      FillAllConcat(a, b[..|b| - 1], r);
      assert (a + b)[..|a + b| - 1] == a + b[..|b| - 1];
    }
  }

  lemma {:induction false} FillAllOne(x: string, r: string)
    ensures FillAll([x], r) == [Fill(x, r)]
  {
    assert [x][..0] == [];
  }

  lemma {:induction false} FillJoin(lines: seq<string>, r: string)
    requires lines != []
    ensures |FillAll(lines, r)| == |lines| && Fill(JoinTags(lines), r) == JoinTags(FillAll(lines, r))
  {
    hide Fill;
    if |lines| == 1 {
      assert lines[..0] == [];
    } else {
      var front, last := lines[..|lines| - 1], lines[|lines| - 1];
      FillJoin(front, r);
      assert FillAll(lines, r)[..|front|] == FillAll(front, r);
      FillBetween(JoinTags(front), "\n * ", last, r);
    }
  }

  lemma {:induction false} FillTag(w: string, x: string, r: string)
    requires '$' !in w
    ensures Fill(PlainTag(w, x), r) == PlainTag(w, Fill(x, r))
  {
    hide Fill;
    FillLiteral("@" + w + " ", x, r);
  }

  lemma {:induction false} FillValueTag(v: Value, r: string)
    ensures Fill(ValueTag(v), r) == ValueTag(FillValue(v, r))
  {
    hide Fill, PlainTag, ValueTag;
    ValueTagIs(v);
    ValueTagIs(FillValue(v, r));
    FillTag("value", v.key + " " + v.text, r);
    FillBetween(v.key, " ", v.text, r);
  }

  lemma {:induction false} FillBitTag(b: Bit, r: string)
    ensures Fill(BitTag(b), r) == BitTag(Bit(b.index, Fill(b.text, r)))
  {
    hide Fill, PlainTag, BitTag;
    BitTagIs(b);
    BitTagIs(Bit(b.index, Fill(b.text, r)));
    var key := Decimal.Print(b.index);
    FillTag("bit", key + " " + b.text, r);
    FillBetween(key, " ", b.text, r);
    DigitsNoDollar(b.index);
    FillNothing(key, r);
  }

  lemma {:induction false} DigitsNoDollar(n: nat)
    ensures '$' !in Decimal.Print(n) && '\n' !in Decimal.Print(n)
  {
    var s := Decimal.Print(n);
    assert forall i :: 0 <= i < |s| ==> Decimal.IsDigit(s[i]);
  }

  lemma {:induction false} FillValueTags(values: seq<Value>, r: string)
    ensures FillAll(ValueTags(values), r) == ValueTags(FillValues(values, r))
  {
    hide Fill, ValueTag, FillValue;
    if values == [] {
    } else {
      var front, v := values[..|values| - 1], values[|values| - 1];
      FillValueTags(front, r);
      FillValueTag(v, r);
      assert ValueTags(values)[..|ValueTags(front)|] == ValueTags(front);
      assert FillValues(values, r)[..|FillValues(front, r)|] == FillValues(front, r);
    }
  }

  lemma {:induction false} FillBitTags(bits: seq<Bit>, r: string)
    ensures FillAll(BitTags(bits), r) == BitTags(FillBits(bits, r))
  {
    hide Fill, BitTag;
    if bits == [] {
    } else {
      var front, b := bits[..|bits| - 1], bits[|bits| - 1];
      FillBitTags(front, r);
      FillBitTag(b, r);
      assert BitTags(bits)[..|BitTags(front)|] == BitTags(front);
      assert FillBits(bits, r)[..|FillBits(front, r)|] == FillBits(front, r);
    }
  }

  lemma {:induction false} FillMaxBit(bits: seq<Bit>, r: string)
    ensures MaxBit(FillBits(bits, r)) == MaxBit(bits)
  {
    hide Fill, MaxBit;
    if bits == [] {
      assert FillBits(bits, r) == bits;
    } else {
      var front, b := bits[..|bits| - 1], bits[|bits| - 1];
      FillMaxBit(front, r);
      MaxBitSnoc(front, b);
      MaxBitSnoc(FillBits(front, r), Bit(b.index, Fill(b.text, r)));
      assert bits == front + [b];
    }
  }

  lemma {:induction false} MaxBitSnoc(bits: seq<Bit>, b: Bit)
    ensures MaxBit(bits + [b]) == if b.index > MaxBit(bits) then b.index else MaxBit(bits)
  {
    if bits == [] {
      assert (bits + [b])[1..] == [];
    } else {
      MaxBitSnoc(bits[1..], b);
      assert (bits + [b])[1..] == bits[1..] + [b];
    }
  }

  // Sorting looks at the numbers only.
  lemma {:induction false} FillValuesCons(v: Value, values: seq<Value>, r: string)
    ensures FillValues([v] + values, r) == [FillValue(v, r)] + FillValues(values, r)
  {
    hide Fill, FillValue;
    if values == [] {
      assert [v] + values == [v] && [v][..0] == [];
    } else {
      FillValuesCons(v, values[..|values| - 1], r);
      assert ([v] + values)[..|values|] == [v] + values[..|values| - 1];
    }
  }

  lemma {:induction false} FillInsert(v: Value, sorted: seq<Value>, r: string)
    ensures FillValues(InsertValue(v, sorted), r) == InsertValue(FillValue(v, r), FillValues(sorted, r))
  {
    hide FillValue, FillValues;
    NumberKept(v, r);
    if sorted == [] {
      FillNoValues(r);
      FillValuesCons(v, [], r);
    } else {
      var first, rest := sorted[0], sorted[1..];
      assert sorted == [first] + rest;
      NumberKept(first, r);
      FillValuesCons(first, rest, r);
      var filled := FillValues(sorted, r);
      assert filled[0] == FillValue(first, r) && filled[1..] == FillValues(rest, r);
      if v.number <= first.number {
        FillValuesCons(v, sorted, r);
      } else {
        FillInsert(v, rest, r);
        FillValuesCons(first, InsertValue(v, rest), r);
      }
    }
  }

  lemma {:induction false} NumberKept(v: Value, r: string)
    ensures FillValue(v, r).number == v.number
  {
  }

  lemma {:induction false} FillNoValues(r: string)
    ensures FillValues([], r) == []
  {
  }

  lemma {:induction false} FillSort(values: seq<Value>, r: string)
    ensures FillValues(SortByNumber(values), r) == SortByNumber(FillValues(values, r))
  {
    hide FillValue, FillValues, InsertValue;
    if values == [] {
      FillNoValues(r);
    } else {
      var v, rest := values[0], values[1..];
      assert values == [v] + rest;
      FillSort(rest, r);
      FillInsert(v, SortByNumber(rest), r);
      FillValuesCons(v, rest, r);
      var filled := FillValues(values, r);
      assert filled[0] == FillValue(v, r) && filled[1..] == FillValues(rest, r);
    }
  }

  lemma {:induction false} FillLimits(bits: seq<Bit>, r: string)
    ensures FillAll(["@min 0", "@max " + PrintInt(MaxValue(bits))], r) == ["@min 0", "@max " + PrintInt(MaxValue(bits))]
  {
    hide Fill, FillAll;
    Pow2Grows(0, MaxBit(bits) + 1);
    var max := "@max " + PrintInt(MaxValue(bits));
    DigitsNoDollar(MaxValue(bits));
    FillNothing("@min 0", r);
    FillNothing(max, r);
    FillAllOne("@min 0", r);
    FillAllOne(max, r);
    FillAllConcat(["@min 0"], [max], r);
    assert ["@min 0"] + [max] == ["@min 0", max];
  }

  lemma {:induction false} FillKindTags(kind: Kind, r: string)
    ensures FillAll(KindTags(kind), r) == KindTags(FillKind(kind, r))
  {
    hide Fill, FillAll, ValueTags, BitTags, SortByNumber, FillValues, FillBits, PrintInt, MaxBit, Pow2;
    match kind
    case Enum(values) =>
      FillValueTags(SortByNumber(values), r);
      FillSort(values, r);
    case Float(values) =>
      FillValueTags(SortByNumber(values), r);
      FillSort(values, r);
    case Bitmask(bits) =>
      FillBitTags(bits, r);
      FillMaxBit(bits, r);
      FillLimits(bits, r);
      FillAllConcat(BitTags(bits), ["@min 0", "@max " + PrintInt(MaxValue(bits))], r);
    case Boolean =>
      FillNothing("@boolean", r);
      FillAllOne("@boolean", r);
    case Int32 =>
      FillAllNone(r);
  }

  lemma {:induction false} FillAllNone(r: string)
    ensures FillAll([], r) == []
  {
  }

  lemma {:induction false} FillExtraTags(tags: map<string, string>, order: seq<string>, r: string)
    requires forall i :: 0 <= i < |order| ==> '$' !in order[i]
    ensures FillAll(ExtraTags(tags, order), r) == ExtraTags(FillTags(tags, r), order)
  {
    hide Fill, PlainTag;
    if order == [] {
    } else {
      var front, tag := order[..|order| - 1], order[|order| - 1];
      FillExtraTags(tags, front, r);
      if tag in tags {
        FillTag(tag, tags[tag], r);
        assert ExtraTags(tags, order)[..|ExtraTags(tags, front)|] == ExtraTags(tags, front);
      } else {
        assert ExtraTags(tags, order) == ExtraTags(tags, front);
      }
    }
  }

  lemma {:induction false} FillTagLines(d: Definition, r: string)
    ensures FillAll(TagLines(d), r) == TagLines(FillDefinition(d, r))
  {
    hide Fill, FillAll, KindTags, FillKind, ExtraTags, FillTags, PlainTag;
    FillTag("group", d.group, r);
    FillAllOne(PlainTag("group", d.group), r);
    FillKindTags(d.kind, r);
    FillExtraTags(d.tags, TagOrder(), r);
    FillAllConcat([PlainTag("group", d.group)], KindTags(d.kind), r);
    FillAllConcat([PlainTag("group", d.group)] + KindTags(d.kind), ExtraTags(d.tags, TagOrder()), r);
  }

  lemma {:induction false} FillDefine(d: Definition, r: string)
    ensures Fill(Define(d), r) == Define(FillDefinition(d, r))
  {
    hide Fill;
    var head, tail := "PARAM_DEFINE_" + TypeName(d.kind) + "(", d.default + ");";
    assert Define(d) == head + (d.name + ", " + tail);
    FillLiteral(head, d.name + ", " + tail, r);
    FillBetween(d.name, ", ", tail, r);
    FillConcat(d.default, ");", r);
    FillNothing(");", r);
    var name, default := Fill(d.name, r), Fill(d.default, r);
    assert head + (name + ", " + (default + ");")) == head + name + ", " + default + ");";
  }

  lemma {:induction false} FillPrefixed(x: string, r: string)
    ensures Fill(" * " + x, r) == " * " + Fill(x, r)
  {
    FillLiteral(" * ", x, r);
  }

  /** Replacing in the printed text is replacing in the definition. */
  lemma {:induction false} FillText(d: Definition, r: string)
    requires '\n' !in r
    ensures Fill(Text(d), r) == Text(FillDefinition(d, r))
  {
    hide Fill, Line, Indent, JoinTags, TagLines, Define, FillKind, FillTags;
    var tags, define := JoinTags(TagLines(d)), Define(d);
    var t8 := Line(define, "");
    var t7 := Line(" */", t8);
    var t6 := Line(" * " + tags, t7);
    var t5 := Line(" *", t6);
    var t4 := Line(" * " + Indent(d.long), t5);
    var t3 := Line(" *", t4);
    var t2 := Line(" * " + Indent(d.short), t3);
    var t1 := Line("/**", t2);
    FillLine(define, "", r);
    FillLine(" */", t8, r);
    FillLine(" * " + tags, t7, r);
    FillLine(" *", t6, r);
    FillLine(" * " + Indent(d.long), t5, r);
    FillLine(" *", t4, r);
    FillLine(" * " + Indent(d.short), t3, r);
    FillLine("/**", t2, r);
    FillLine("", t1, r);
    FillFixed(r);
    FillPieces(d, r);
  }

  lemma {:induction false} FillFixed(r: string)
    ensures Fill("", r) == "" && Fill("/**", r) == "/**" && Fill(" *", r) == " *" && Fill(" */", r) == " */"
  {
    FillNothing("/**", r);
    FillNothing(" *", r);
    FillNothing(" */", r);
  }

  lemma {:induction false} FillPieces(d: Definition, r: string)
    requires '\n' !in r
    ensures Fill(" * " + Indent(d.short), r) == " * " + Indent(Fill(d.short, r))
    ensures Fill(" * " + Indent(d.long), r) == " * " + Indent(Fill(d.long, r))
    ensures Fill(" * " + JoinTags(TagLines(d)), r) == " * " + JoinTags(TagLines(FillDefinition(d, r)))
    ensures Fill(Define(d), r) == Define(FillDefinition(d, r))
  {
    hide Fill, Indent, JoinTags, Define, FillAll, FillKind, FillTags;
    FillPrefixed(Indent(d.short), r);
    FillIndent(d.short, r);
    FillPrefixed(Indent(d.long), r);
    FillIndent(d.long, r);
    FillPrefixed(JoinTags(TagLines(d)), r);
    FillJoin(TagLines(d), r);
    FillTagLines(d, r);
    FillDefine(d, r);
  }

  // ---- Instances ----

  /** A parameter of a section: its texts with `${i}` in them, its instances, and its default values if there is
      one per instance. */
  datatype Spec = Spec(definition: Definition, requiresEthernet: bool, numInstances: int, start: int,
                       startLabel: int, defaults: Option<seq<string>>)

  // The default value and the instance number are in, the label number not yet.
  function Begun(p: Spec, i: nat): Definition
    requires p.defaults.Some? ==> i < |p.defaults.value|
  {
    p.definition.(name := Fill(p.definition.name, PrintInt(i + p.start)),
                  default := if p.defaults.Some? then p.defaults.value[i] else p.definition.default)
  }

  /** The definition of instance i. */
  function Instance(p: Spec, i: nat): Definition
    requires p.defaults.Some? ==> i < |p.defaults.value|
  {
    FillDefinition(Begun(p, i), PrintInt(i + p.startLabel))
  }

  function Instances(p: Spec, n: nat): seq<Definition>
    requires p.defaults.Some? ==> n <= |p.defaults.value|
  {
    if n == 0 then [] else Instances(p, n - 1) + [Instance(p, n - 1)]
  }

  // The code raises for a bitmask without bits and for a list of default values of the wrong length.
  predicate Accepted(p: Spec) {
    Printable(p.definition) && (p.defaults.Some? && p.numInstances > 0 ==> |p.defaults.value| == p.numInstances)
  }

  predicate Skipped(p: Spec, ethernet: bool) { p.requiresEthernet && !ethernet }

  predicate AllAccepted(specs: seq<Spec>, ethernet: bool) {
    forall i :: 0 <= i < |specs| ==> Skipped(specs[i], ethernet) || Accepted(specs[i])
  }

  function InstancesOf(p: Spec): seq<Definition>
    requires Accepted(p)
  {
    if p.numInstances <= 0 then [] else Instances(p, p.numInstances)
  }

  /** All definitions of a section, instance by instance. */
  function Definitions(specs: seq<Spec>, ethernet: bool): seq<Definition>
    requires AllAccepted(specs, ethernet)
  {
    if specs == [] then []
    else
      var p := specs[|specs| - 1];
      Definitions(specs[..|specs| - 1], ethernet) + if Skipped(p, ethernet) then [] else InstancesOf(p)
  }

  /** A text is filled in variable by variable. */
  lemma {:induction false} FillVariable(a: string, b: string, r: string)
    requires '$' !in a
    ensures Fill(a + ("${i}" + b), r) == a + (r + Fill(b, r)) && Fill(a, r) == a
  {
    FillNothing(a, r);
    FillLiteral(a, "${i}" + b, r);
    assert ("${i}" + b)[4..] == b && StartsVariable("${i}" + b);
  }

  /** Instance i has the i-th default value if there are several, and all its texts have the label number in them. */
  lemma {:induction false} InstanceMeans(p: Spec, i: nat)
    requires p.defaults.Some? ==> i < |p.defaults.value|
    ensures var d, made, r := p.definition, Instance(p, i), PrintInt(p.startLabel + i);
      && made.short == Fill(d.short, r) && made.long == Fill(d.long, r) && made.group == Fill(d.group, r)
      && made.name == Fill(Fill(d.name, PrintInt(p.start + i)), r)
      && made.default == Fill(if p.defaults.Some? then p.defaults.value[i] else d.default, r)
      && made.tags.Keys == d.tags.Keys && forall tag <- d.tags :: made.tags[tag] == Fill(d.tags[tag], r)
  {
    hide Fill;
  }

  /** The instances are numbered from 0 on. */
  lemma {:induction false} InstancesAt(p: Spec, n: nat)
    requires p.defaults.Some? ==> n <= |p.defaults.value|
    ensures |Instances(p, n)| == n && forall i: nat | i < n :: Instances(p, n)[i] == Instance(p, i)
  {
    hide Instance;
    if n == 0 {
    } else {
      InstancesAt(p, n - 1);
    }
  }

  /** The definitions of a section are those of its parameters in order, all instances of one before the next. */
  lemma {:induction false} SectionInOrder(specs: seq<Spec>, ethernet: bool, k: nat)
    requires AllAccepted(specs, ethernet) && k < |specs|
    ensures AllAccepted(specs[..k], ethernet) && AllAccepted(specs[k + 1..], ethernet)
    ensures Definitions(specs, ethernet)
         == Definitions(specs[..k], ethernet)
            + ((if Skipped(specs[k], ethernet) then [] else InstancesOf(specs[k]))
               + Definitions(specs[k + 1..], ethernet))
  {
    hide InstancesOf, Accepted, Skipped;
    var n := |specs| - 1;
    assert Skipped(specs[k], ethernet) || Accepted(specs[k]);
    var one := if Skipped(specs[k], ethernet) then [] else InstancesOf(specs[k]);
    if k == n {
      assert one + [] == one && specs[k + 1..] == [];
    } else {
      var front, last, rest := specs[..n], specs[n], specs[k + 1..];
      assert Skipped(last, ethernet) || Accepted(last);
      assert AllAccepted(rest, ethernet);
      assert front[..k] == specs[..k] && rest[..|rest| - 1] == front[k + 1..] && rest[|rest| - 1] == last;
      DefinitionsLast(specs, ethernet);
      DefinitionsLast(rest, ethernet);
      hide Definitions, AllAccepted;
      SectionInOrder(front, ethernet, k);
      var before, middle := Definitions(specs[..k], ethernet), Definitions(front[k + 1..], ethernet);
      Reassociated(before, one, middle, if Skipped(last, ethernet) then [] else InstancesOf(last));
    }
  }

  lemma {:induction false} DefinitionsLast(specs: seq<Spec>, ethernet: bool)
    requires AllAccepted(specs, ethernet) && specs != []
    ensures var front, p := specs[..|specs| - 1], specs[|specs| - 1];
      && AllAccepted(front, ethernet) && (Skipped(p, ethernet) || Accepted(p))
      && Definitions(specs, ethernet)
         == Definitions(front, ethernet) + if Skipped(p, ethernet) then [] else InstancesOf(p)
  {
  }

  lemma {:induction false} Reassociated(a: seq<Definition>, b: seq<Definition>, c: seq<Definition>, d: seq<Definition>)
    ensures a + (b + c) + d == a + (b + (c + d))
  {
  }

  /** A parameter named after its instance, such as an output function, gets the instance numbers
      start, start + 1, ... in its name. */
  lemma {:induction false} InstanceName(p: Spec, stem: string, i: nat)
    requires (p.defaults.Some? ==> i < |p.defaults.value|) && p.definition.name == stem + "${i}" && '$' !in stem
    ensures Instance(p, i).name == stem + PrintInt(i + p.start)
  {
    var number := PrintInt(i + p.start);
    FillLiteral(stem, "${i}", number);
    assert "${i}"[4..] == "" && Fill("${i}", number) == number + "" == number;
    NumberHasNoBreak(i + p.start);
    FillNothing(stem + number, PrintInt(i + p.startLabel));
  }

  // ---- The printer ----

  lemma {:induction false} TextConcat(a: seq<Definition>, b: seq<Definition>)
    ensures TextOfAll(a + b) == TextOfAll(a) + TextOfAll(b)
  {
    hide Text;
    if b == [] {
      assert a + b == a && TextOfAll(a) + "" == TextOfAll(a);
    } else {
      var front, d := b[..|b| - 1], b[|b| - 1];
      TextConcat(a, front);
      assert (a + b)[..|a + b| - 1] == a + front;
      Assoc(TextOfAll(a), TextOfAll(front), Text(d));
    }
  }

  lemma {:induction false} NumberHasNoBreak(x: int)
    ensures '\n' !in PrintInt(x) && '$' !in PrintInt(x)
  {
    DigitsNoDollar(if x >= 0 then x else -x);
  }

  // The tags are those of the whole definition for every instance.
  lemma {:induction false} InstanceText(p: Spec, i: nat, tags: string)
    requires (p.defaults.Some? ==> i < |p.defaults.value|) && tags == JoinTags(TagLines(p.definition))
    ensures Fill(Template(p.definition.short, p.definition.long, tags, Define(Begun(p, i)), ""),
                 PrintInt(i + p.startLabel))
         == Text(Instance(p, i))
  {
    hide Fill, Template, JoinTags, Define, FillDefinition, PrintInt;
    NumberHasNoBreak(i + p.startLabel);
    assert TagLines(Begun(p, i)) == TagLines(p.definition);
    FillText(Begun(p, i), PrintInt(i + p.startLabel));
  }

  method PrintInstances(p: Spec, tags: string) returns (ret: Option<string>)
    requires tags == JoinTags(TagLines(p.definition)) && Printable(p.definition)
    ensures ret == if Accepted(p) then Some(TextOfAll(InstancesOf(p))) else None
  {
    hide Fill, Template, JoinTags, Define, FillDefinition, Text, PrintInt, TagLines, Begun;
    var text := "";
    var i := 0;
    while i < p.numInstances
      invariant i > 0 ==> i <= p.numInstances && Accepted(p)
      invariant p.defaults.Some? ==> i <= |p.defaults.value|
      invariant text == TextOfAll(Instances(p, i))
    {
      if p.defaults.Some? && |p.defaults.value| != p.numInstances {
        return None;
      }
      InstanceText(p, i, tags);
      text := text + Fill(Template(p.definition.short, p.definition.long, tags, Define(Begun(p, i)), ""),
                          PrintInt(i + p.startLabel));
      ghost var before := Instances(p, i);
      assert (before + [Instance(p, i)])[..|before|] == before;
      i := i + 1;
    }
    return Some(text);
  }

  /** The printer of a parameter section. */
  method PrintParameters(specs: seq<Spec>, ethernet: bool) returns (ret: Option<string>)
    ensures ret == if AllAccepted(specs, ethernet) then Some(TextOfAll(Definitions(specs, ethernet))) else None
  {
    hide JoinTags, TagLines, TextOfAll, InstancesOf, Printable;
    var text := "";
    NoText();
    for i := 0 to |specs|
      invariant AllAccepted(specs[..i], ethernet) && text == TextOfAll(Definitions(specs[..i], ethernet))
    {
      var p := specs[i];
      assert specs[..i + 1][..i] == specs[..i] && specs[..i + 1][i] == p;
      ghost var before := Definitions(specs[..i], ethernet);
      if p.requiresEthernet && !ethernet {
        assert before + [] == before;
        continue;
      }
      var tags := PrintTags(p.definition);
      if tags.None? {
        return None;
      }
      var one := PrintInstances(p, tags.value);
      if one.None? {
        return None;
      }
      TextConcat(before, InstancesOf(p));
      text := text + one.value;
    }
    assert specs[..|specs|] == specs;
    return Some(text);
  }

  lemma {:induction false} NoText()
    ensures TextOfAll([]) == ""
  {
  }

  /** Printer and parser together: what is parsed are the instances, group by group and in order. */
  method PrintAndParse(specs: seq<Spec>, ethernet: bool) returns (groups: map<string, seq<Parameter>>)
    requires AllAccepted(specs, ethernet)
    requires forall i :: 0 <= i < |Definitions(specs, ethernet)| ==> DefinitionOk(Definitions(specs, ethernet)[i])
    ensures groups == Grouped(map[], Definitions(specs, ethernet))
  {
    hide Grouped, TextOfAll, Parsed, DefinitionOk, Definitions;
    var text := PrintParameters(specs, ethernet);
    var parser := new SourceParser();
    var end := parser.Parse(text.value);
    ghost var last := PrintParse(map[], Definitions(specs, ethernet));
    return parser.paramGroups;
  }
}

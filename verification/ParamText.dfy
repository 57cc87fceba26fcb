/** Parameter definitions and the C doc-comment text they are printed as. */
module ParamText {

  import opened Basics
  import Decimal

  // ---- Definitions ----

  /** A named value of an enumeration: its key as printed, the number the key stands for, and its description. */
  datatype Value = Value(key: string, number: real, text: string)

  datatype Bit = Bit(index: nat, text: string)

  datatype Kind = Enum(values: seq<Value>) | Bitmask(bits: seq<Bit>) | Boolean | Int32 | Float(values: seq<Value>)

  /** One parameter after its instance number was filled in; tags holds the optional tags as printed. */
  datatype Definition = Definition(name: string, group: string, kind: Kind, short: string, long: string,
                                   default: string, tags: map<string, string>)

  function TypeName(kind: Kind): string { if kind.Float? then "FLOAT" else "INT32" }

  // The optional tags in the order they are printed.
  function TagOrder(): seq<string> {
    ["decimal", "increment", "category", "volatile", "min", "max", "unit", "reboot_required"]
  }

  // ---- Sorting by number ----

  function InsertValue(v: Value, sorted: seq<Value>): seq<Value> {
    if sorted == [] || v.number <= sorted[0].number then [v] + sorted else [sorted[0]] + InsertValue(v, sorted[1..])
  }

  function SortByNumber(values: seq<Value>): seq<Value> {
    if values == [] then [] else InsertValue(values[0], SortByNumber(values[1..]))
  }

  predicate Ascending(values: seq<Value>) {
    |values| <= 1 || (values[0].number <= values[1].number && Ascending(values[1..]))
  }

  lemma {:induction false} InsertAscends(v: Value, sorted: seq<Value>)
    requires Ascending(sorted)
    ensures Ascending(InsertValue(v, sorted))
    ensures InsertValue(v, sorted)[0] == v || (sorted != [] && InsertValue(v, sorted)[0] == sorted[0])
  {
    if sorted == [] || v.number <= sorted[0].number {
      assert ([v] + sorted)[1..] == sorted;
    } else {
      InsertAscends(v, sorted[1..]);
      assert InsertValue(v, sorted)[1..] == InsertValue(v, sorted[1..]);
    }
  }

  lemma {:induction false} InsertKeeps(v: Value, sorted: seq<Value>)
    ensures multiset(InsertValue(v, sorted)) == multiset([v] + sorted)
  {
    if sorted == [] || v.number <= sorted[0].number {
    } else {
      InsertKeeps(v, sorted[1..]);
      assert sorted == [sorted[0]] + sorted[1..];
    }
  }

  /** The printed order is by number, and no value is added or lost. */
  lemma {:induction false} SortSorts(values: seq<Value>)
    ensures Ascending(SortByNumber(values)) && multiset(SortByNumber(values)) == multiset(values)
  {
    if values == [] {
    } else {
      SortSorts(values[1..]);
      InsertAscends(values[0], SortByNumber(values[1..]));
      InsertKeeps(values[0], SortByNumber(values[1..]));
      assert values == [values[0]] + values[1..];
    }
  }

  // ---- Bits ----

  function MaxBit(bits: seq<Bit>): nat {
    if bits == [] then 0 else
    var rest := MaxBit(bits[1..]);
    if bits[0].index > rest then bits[0].index else rest
  }

  function Pow2(n: nat): nat { if n == 0 then 1 else 2 * Pow2(n - 1) }

  function MaxValue(bits: seq<Bit>): int { Pow2(MaxBit(bits) + 1) - 1 }

  lemma {:induction false} Pow2Grows(a: nat, b: nat)
    requires a <= b
    ensures 0 < Pow2(a) <= Pow2(b)
  {
    if a < b {
      Pow2Grows(a, b - 1);
    } else if a > 0 {
      Pow2Grows(a - 1, b - 1);
    }
  }

  lemma {:induction false} MaxBitBounds(bits: seq<Bit>)
    ensures forall i :: 0 <= i < |bits| ==> bits[i].index <= MaxBit(bits)
    ensures bits != [] ==> exists i :: 0 <= i < |bits| && bits[i].index == MaxBit(bits)
  {
    if bits == [] {
    } else {
      MaxBitBounds(bits[1..]);
      assert forall i :: 0 < i < |bits| ==> bits[i] == bits[1..][i - 1];
      if bits[0].index <= MaxBit(bits[1..]) && |bits| > 1 {
        var i :| 0 <= i < |bits[1..]| && bits[1..][i].index == MaxBit(bits[1..]);
        assert bits[i + 1].index == MaxBit(bits);
      } else {
        assert bits[0].index == MaxBit(bits);
      }
    }
  }

  /** The printed minimum 0 and maximum pass the validator's check of every bit. */
  lemma {:induction false} BitsInRange(bits: seq<Bit>, i: nat)
    requires i < |bits|
    ensures 0 <= Pow2(bits[i].index) <= MaxValue(bits)
  {
    MaxBitBounds(bits);
    Pow2Grows(bits[i].index, MaxBit(bits));
  }

  /** With bits 0..N-1 the printed maximum is 2^N - 1. */
  lemma {:induction false} FullMask(bits: seq<Bit>)
    requires bits != [] && forall i :: 0 <= i < |bits| ==> bits[i].index == i
    ensures MaxValue(bits) == Pow2(|bits|) - 1
  {
    MaxBitBounds(bits);
    assert bits[|bits| - 1].index == |bits| - 1;
  }

  // ---- Tags ----

  function ValueTag(v: Value): string { "@value " + v.key + " " + v.text }

  function ValueTags(values: seq<Value>): seq<string> {
    if values == [] then [] else ValueTags(values[..|values| - 1]) + [ValueTag(values[|values| - 1])]
  }

  function BitTag(b: Bit): string { "@bit " + Decimal.Print(b.index) + " " + b.text }

  function BitTags(bits: seq<Bit>): seq<string> {
    if bits == [] then [] else BitTags(bits[..|bits| - 1]) + [BitTag(bits[|bits| - 1])]
  }

  function KindTags(kind: Kind): seq<string> {
    match kind
    case Enum(values) => ValueTags(SortByNumber(values))
    case Bitmask(bits) => BitTags(bits) + ["@min 0", "@max " + PrintInt(MaxValue(bits))]
    case Boolean => ["@boolean"]
    case Int32 => []
    case Float(values) => ValueTags(SortByNumber(values))
  }

  function PrintInt(x: int): string { if x >= 0 then Decimal.Print(x) else "-" + Decimal.Print(-x) }

  function PlainTag(tag: string, text: string): string { "@" + tag + " " + text }

  function ExtraTags(tags: map<string, string>, order: seq<string>): seq<string> {
    if order == [] then []
    else
      var tag := order[|order| - 1];
      ExtraTags(tags, order[..|order| - 1]) + if tag in tags then [PlainTag(tag, tags[tag])] else []
  }

  function TagLines(d: Definition): seq<string> {
    [PlainTag("group", d.group)] + KindTags(d.kind) + ExtraTags(d.tags, TagOrder())
  }

  function IfThere(tags: map<string, string>, tag: string): seq<string> {
    if tag in tags then ["@" + tag + " " + tags[tag]] else []
  }

  lemma {:induction false} NextTag(tags: map<string, string>, order: seq<string>, tag: string)
    ensures ExtraTags(tags, order + [tag]) == ExtraTags(tags, order) + IfThere(tags, tag)
  {
    assert (order + [tag])[..|order|] == order;
  }

  /** The tags come after those of the kind, in a fixed order. */
  lemma {:induction false} TagsInOrder(d: Definition)
    ensures TagLines(d) == ["@group " + d.group] + KindTags(d.kind)
      + (IfThere(d.tags, "decimal") + IfThere(d.tags, "increment") + IfThere(d.tags, "category")
         + IfThere(d.tags, "volatile") + IfThere(d.tags, "min") + IfThere(d.tags, "max") + IfThere(d.tags, "unit")
         + IfThere(d.tags, "reboot_required"))
  {
    assert PlainTag("group", d.group) == "@group " + d.group;
    assert ExtraTags(d.tags, []) == [];
    hide KindTags, PlainTag, IfThere, ExtraTags;
    var order := TagOrder();
    assert order[..1] == order[..0] + ["decimal"] && order[..2] == order[..1] + ["increment"];
    assert order[..3] == order[..2] + ["category"] && order[..4] == order[..3] + ["volatile"];
    assert order[..5] == order[..4] + ["min"] && order[..6] == order[..5] + ["max"];
    assert order[..7] == order[..6] + ["unit"] && order[..8] == order[..7] + ["reboot_required"];
    NextTag(d.tags, order[..0], "decimal");
    NextTag(d.tags, order[..1], "increment");
    NextTag(d.tags, order[..2], "category");
    NextTag(d.tags, order[..3], "volatile");
    NextTag(d.tags, order[..4], "min");
    NextTag(d.tags, order[..5], "max");
    NextTag(d.tags, order[..6], "unit");
    NextTag(d.tags, order[..7], "reboot_required");
    assert order[..0] == [] && order[..8] == order && [] + IfThere(d.tags, "decimal") == IfThere(d.tags, "decimal");
  }

  // ---- The text ----

  function Indent(s: string): string {
    if s == "" then "" else (if s[0] == '\n' then "\n * " else [s[0]]) + Indent(s[1..])
  }

  function JoinTags(tags: seq<string>): string {
    if tags == [] then ""
    else if |tags| == 1 then tags[0]
    else JoinTags(tags[..|tags| - 1]) + "\n * " + tags[|tags| - 1]
  }

  function Define(d: Definition): string {
    "PARAM_DEFINE_" + TypeName(d.kind) + "(" + d.name + ", " + d.default + ");"
  }

  function Line(s: string, rest: string): string { s + "\n" + rest }

  // The printed text of a definition, with what comes after it.
  function Template(short: string, long: string, tags: string, define: string, rest: string): string {
    Line("",
    Line("/**",
    Line(" * " + Indent(short),
    Line(" *",
    Line(" * " + Indent(long),
    Line(" *",
    Line(" * " + tags,
    Line(" */",
    Line(define, rest)))))))))
  }

  function Text(d: Definition): string { Template(d.short, d.long, JoinTags(TagLines(d)), Define(d), "") }

  function TextOfAll(ds: seq<Definition>): string {
    if ds == [] then "" else TextOfAll(ds[..|ds| - 1]) + Text(ds[|ds| - 1])
  }

  // A bitmask without bits has no largest one, and the printer raises.
  predicate Printable(d: Definition) { d.kind.Bitmask? ==> d.kind.bits != [] }

  method PrintTags(d: Definition) returns (tags: Option<string>)
    ensures tags == if Printable(d) then Some(JoinTags(TagLines(d))) else None
  {
    hide JoinTags, KindTags, PlainTag;
    var group := PlainTag("group", d.group);
    JoinOne(group);
    if d.kind.Bitmask? && d.kind.bits == [] {
      return None;
    }
    ghost var done;
    var text;
    text, done := AddKind(group, [group], d.kind);
    var order := TagOrder();
    ghost var base := done;
    for i := 0 to |order|
      invariant done == base + ExtraTags(d.tags, order[..i]) && done != []
      invariant text == JoinTags(done)
    {
      assert order[..i + 1][..i] == order[..i];
      if order[i] in d.tags {
        var tag := PlainTag(order[i], d.tags[order[i]]);
        JoinNext(done, tag);
        done := done + [tag];
        text := text + "\n * " + tag;
      }
    }
    assert order[..|order|] == order;
    return Some(text);
  }

  // The tags that come with the kind.
  method AddKind(before: string, ghost tags: seq<string>, kind: Kind) returns (text: string, ghost done: seq<string>)
    requires tags != [] && before == JoinTags(tags)
    ensures done == tags + KindTags(kind) && text == JoinTags(done)
  {
    hide JoinTags, ValueTags, BitTags, PrintInt;
    text, done := before, tags;
    match kind {
      case Enum(values) =>
        text, done := AddValues(text, done, values);
      case Bitmask(bits) =>
        text, done := AddBits(text, done, bits);
        JoinNext(done, "@min 0");
        done := done + ["@min 0"];
        text := text + "\n * " + "@min 0";
        var max := "@max " + PrintInt(MaxValue(bits));
        JoinNext(done, max);
        done := done + [max];
        text := text + "\n * " + max;
      case Boolean =>
        JoinNext(done, "@boolean");
        done := done + ["@boolean"];
        text := text + "\n * " + "@boolean";
      case Int32 =>
      case Float(values) =>
        text, done := AddValues(text, done, values);
    }
  }

  method AddValues(before: string, ghost tags: seq<string>, values: seq<Value>)
    returns (text: string, ghost done: seq<string>)
    requires tags != [] && before == JoinTags(tags)
    ensures done == tags + ValueTags(SortByNumber(values)) && text == JoinTags(done)
  {
    hide JoinTags;
    var sorted := SortByNumber(values);
    text, done := before, tags;
    for i := 0 to |sorted|
      invariant done == tags + ValueTags(sorted[..i]) && text == JoinTags(done)
    {
      assert sorted[..i + 1][..i] == sorted[..i];
      JoinNext(done, ValueTag(sorted[i]));
      done := done + [ValueTag(sorted[i])];
      text := text + "\n * " + ValueTag(sorted[i]);
    }
    assert sorted[..|sorted|] == sorted;
  }

  method AddBits(before: string, ghost tags: seq<string>, bits: seq<Bit>)
    returns (text: string, ghost done: seq<string>)
    requires tags != [] && before == JoinTags(tags)
    ensures done == tags + BitTags(bits) && text == JoinTags(done)
  {
    hide JoinTags;
    text, done := before, tags;
    for i := 0 to |bits|
      invariant done == tags + BitTags(bits[..i]) && text == JoinTags(done)
    {
      assert bits[..i + 1][..i] == bits[..i];
      JoinNext(done, BitTag(bits[i]));
      done := done + [BitTag(bits[i])];
      text := text + "\n * " + BitTag(bits[i]);
    }
    assert bits[..|bits|] == bits;
  }

  lemma {:induction false} JoinOne(tag: string)
    ensures JoinTags([tag]) == tag
  {
  }

  lemma {:induction false} JoinNext(tags: seq<string>, tag: string)
    requires tags != []
    ensures JoinTags(tags + [tag]) == JoinTags(tags) + "\n * " + tag
  {
    assert (tags + [tag])[..|tags|] == tags;
  }
}

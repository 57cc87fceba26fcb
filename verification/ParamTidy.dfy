/** Which parameter definitions come back from the parser exactly as they were printed. */
module ParamTidy {

  import opened Basics
  import opened Whitespace
  import opened ParamText
  import opened ParamParser
  import opened ParamReading
  import opened ParamRoundTrip
  import Decimal

  // ---- The long text ----

  function JoinLines(lines: seq<string>): string {
    if lines == [] then ""
    else if |lines| == 1 then lines[0]
    else JoinLines(lines[..|lines| - 1]) + "\n" + lines[|lines| - 1]
  }

  lemma {:induction false} JoinLinesHead(a: string, rest: seq<string>)
    requires rest != []
    ensures JoinLines([a] + rest) == a + "\n" + JoinLines(rest)
  {
    var all, n := [a] + rest, |rest|;
    if n == 1 {
      assert all[..1] == [a];
    } else {
      JoinLinesHead(a, rest[..n - 1]);
      assert all[..n] == [a] + rest[..n - 1];
      assert a + "\n" + JoinLines(rest[..n - 1]) + "\n" + rest[n - 1]
          == a + "\n" + (JoinLines(rest[..n - 1]) + "\n" + rest[n - 1]);
    }
  }

  lemma {:induction false} JoinLinesPrefix(c: char, rest: seq<string>)
    requires rest != []
    ensures JoinLines([[c] + rest[0]] + rest[1..]) == [c] + JoinLines(rest)
  {
    if |rest| == 1 {
      assert rest == [rest[0]] && [[c] + rest[0]] + rest[1..] == [[c] + rest[0]];
    } else {
      hide JoinLines;
      var more := JoinLines(rest[1..]);
      assert rest == [rest[0]] + rest[1..];
      JoinLinesHead(rest[0], rest[1..]);
      JoinLinesHead([c] + rest[0], rest[1..]);
      Assoc4([c], rest[0], "\n", more);
    }
  }

  lemma {:induction false} ParagraphsJoin(s: string)
    ensures JoinLines(Paragraphs(s)) == s
  {
    if s == "" {
    } else {
      hide JoinLines;
      ParagraphsJoin(s[1..]);
      var rest := Paragraphs(s[1..]);
      assert s == [s[0]] + s[1..];
      if s[0] == '\n' {
        JoinLinesHead("", rest);
        assert "" + "\n" == [s[0]];
      } else {
        JoinLinesPrefix(s[0], rest);
      }
    }
  }

  lemma {:induction false} ParagraphsAreLines(s: string)
    ensures forall i :: 0 <= i < |Paragraphs(s)| ==> '\n' !in Paragraphs(s)[i]
  {
    if s == "" {
    } else {
      ParagraphsAreLines(s[1..]);
    }
  }

  predicate TidyLines(lines: seq<string>) {
    lines != [] && (forall i :: 0 <= i < |lines| ==> Trimmed(lines[i])) && lines[0] != ""
  }

  lemma {:induction false} LongFoldTidy(lines: seq<string>)
    requires TidyLines(lines)
    ensures LongFold(lines) == Some(JoinLines(lines))
  {
    hide Strip, Trimmed;
    var n := |lines| - 1;
    StripTrimmed(lines[n]);
    if n == 0 {
    } else {
      LongFoldTidy(lines[..n]);
    }
  }

  // An empty long text, or trimmed lines of which the first and the last are not empty.
  predicate TidyLong(long: string) {
    long == "" || (TidyLines(Paragraphs(long)) && Paragraphs(long)[|Paragraphs(long)| - 1] != "")
  }

  lemma {:induction false} LongBack(long: string)
    requires TidyLong(long)
    ensures long == "" ==> LongRead(long) == None
    ensures long != "" ==> LongRead(long).Some? && DropNewlines(LongRead(long).value) == long
  {
    var lines := Paragraphs(long);
    assert (lines + [""])[..|lines|] == lines;
    StripTrimmed("");
    if long == "" {
      assert lines[..0] == [] && LongFold(lines) == None;
    } else {
      LongFoldTidy(lines);
      ParagraphsJoin(long);
      ParagraphsAreLines(long);
      LastChar(lines);
      assert long + "\n" + "" == long + "\n" && (long + "\n")[..|long|] == long;
    }
  }

  lemma {:induction false} LastChar(lines: seq<string>)
    requires lines != [] && lines[|lines| - 1] != ""
    ensures JoinLines(lines) != ""
    ensures JoinLines(lines)[|JoinLines(lines)| - 1] == lines[|lines| - 1][|lines[|lines| - 1]| - 1]
  {
  }

  // The long text is stored unchanged.
  predicate LongUnchanged(long: string) {
    var read := LongRead(long);
    if long == "" then read.None? else read.Some? && DropNewlines(read.value) == long
  }

  lemma {:induction false} DropNewlinesShrinks(s: string)
    ensures |DropNewlines(s)| <= |s| && (|DropNewlines(s)| == |s| ==> DropNewlines(s) == s)
  {
    if s == "" || s[|s| - 1] != '\n' {
    } else {
      DropNewlinesShrinks(s[..|s| - 1]);
    }
  }

  // The collected text is not longer than the lines, and shorter if any line is not trimmed or the first is blank.
  lemma {:induction false} FoldLength(lines: seq<string>)
    requires lines != [] && LongFold(lines).Some?
    ensures |LongFold(lines).value| <= |JoinLines(lines)|
    ensures |LongFold(lines).value| == |JoinLines(lines)| ==> TidyLines(lines)
  {
    hide Strip, Trimmed;
    var n := |lines| - 1;
    StripShrinks(lines[n]);
    StripSame(lines[n]);
    if n == 0 {
      assert lines[..0] == [];
    } else if LongFold(lines[..n]).Some? {
      FoldLength(lines[..n]);
    }
  }

  /** The long text comes back unchanged exactly if it is tidy. */
  lemma {:induction false} LongExact(long: string)
    ensures LongUnchanged(long) <==> TidyLong(long)
  {
    if TidyLong(long) {
      LongBack(long);
    } else if LongUnchanged(long) {
      var lines := Paragraphs(long);
      var fold := LongFold(lines);
      assert (lines + [""])[..|lines|] == lines;
      StripTrimmed("");
      ParagraphsJoin(long);
      assert fold.Some? && LongRead(long).value == fold.value + "\n" + "" == fold.value + "\n";
      assert (fold.value + "\n")[..|fold.value|] == fold.value;
      DropNewlinesShrinks(fold.value);
      FoldLength(lines);
      LastLine(lines);
    }
  }

  lemma {:induction false} LastLine(lines: seq<string>)
    requires lines != [] && DropNewlines(JoinLines(lines)) == JoinLines(lines)
    ensures |lines| > 1 ==> lines[|lines| - 1] != ""
  {
    if |lines| > 1 && lines[|lines| - 1] == "" {
      var s := JoinLines(lines[..|lines| - 1]) + "\n";
      assert JoinLines(lines) == s + "" == s;
      DropNewlinesShrinks(s[..|s| - 1]);
    }
  }

  // ---- The short text ----

  lemma {:induction false} DropDotsShrinks(s: string)
    ensures |DropDots(s)| <= |s| && (|DropDots(s)| == |s| ==> DropDots(s) == s)
  {
    if s == "" || s[|s| - 1] != '.' {
    } else {
      DropDotsShrinks(s[..|s| - 1]);
    }
  }

  lemma {:induction false} ShortExact(s: string)
    ensures DropDots(Strip(s)) == s <==> Trimmed(s) && DropDots(s) == s
  {
    hide Strip, Trimmed, DropDots;
    StripShrinks(s);
    StripSame(s);
    DropDotsShrinks(Strip(s));
  }

  // ---- Tags ----

  lemma {:induction false} ExtraMapAt(tags: map<string, string>, extra: map<string, string>, order: seq<string>,
                                      tag: string)
    requires tag in order && tag in extra
    ensures tag in ExtraMap(tags, extra, order) && ExtraMap(tags, extra, order)[tag] == Strip(extra[tag])
  {
    hide Strip;
    if order[|order| - 1] == tag {
    } else {
      ExtraMapAt(tags, extra, order[..|order| - 1], tag);
    }
  }

  lemma {:induction false} ExtraMapKeeps(tags: map<string, string>, extra: map<string, string>, order: seq<string>,
                                         tag: string)
    requires tag !in extra || tag !in order
    ensures tag in ExtraMap(tags, extra, order) <==> tag in tags
    ensures tag in tags ==> ExtraMap(tags, extra, order)[tag] == tags[tag]
  {
    hide Strip;
    if order == [] {
    } else {
      ExtraMapKeeps(tags, extra, order[..|order| - 1], tag);
    }
  }

  // The text of a tag, by hand: the optional tag, or what the kind implies.
  function TagValue(d: Definition, tag: string): Option<string> {
    if tag in d.tags && tag in TagOrder() then Some(d.tags[tag])
    else if tag == "group" then Some(d.group)
    else if d.kind.Bitmask? && tag == "min" then Some("0")
    else if d.kind.Bitmask? && tag == "max" then Some(PrintInt(MaxValue(d.kind.bits)))
    else if d.kind.Boolean? && tag == "boolean" then Some("")
    else None
  }

  lemma {:induction false} KindTexts(d: Definition)
    ensures Strip("0") == "0" && Strip("") == ""
    ensures d.kind.Bitmask? ==> Strip(PrintInt(MaxValue(d.kind.bits))) == PrintInt(MaxValue(d.kind.bits))
  {
    hide Strip, PrintInt, MaxValue;
    StripTrimmed("");
    MaxIsTrimmed([]);
    if d.kind.Bitmask? {
      MaxIsTrimmed(d.kind.bits);
    }
  }

  /** For every definition the parser has exactly these tags, with their texts stripped. */
  lemma {:induction false} TagsParsed(d: Definition, tag: string)
    ensures tag in ExpectedTags(d) <==> TagValue(d, tag).Some?
    ensures tag in ExpectedTags(d) ==> ExpectedTags(d)[tag] == Strip(TagValue(d, tag).value)
  {
    hide Strip, ExtraMap, PrintInt, TagOrder, MaxValue;
    var base := KindMap(map["group" := Strip(d.group)], d.kind);
    KindTexts(d);
    if tag in d.tags && tag in TagOrder() {
      ExtraMapAt(base, d.tags, TagOrder(), tag);
    } else {
      ExtraMapKeeps(base, d.tags, TagOrder(), tag);
      OrderOmits();
    }
  }

  lemma {:induction false} FieldsAt(name: string, c: Comment, tag: string)
    requires "short_desc" !in c.tags && "long_desc" !in c.tags
    ensures "short_desc" in Fields(name, c) && Fields(name, c)["short_desc"] == ShortText(name, c)
    ensures "long_desc" in Fields(name, c) <==> c.long.Some?
    ensures c.long.Some? ==> Fields(name, c)["long_desc"] == DropNewlines(c.long.value)
    ensures FieldTag(tag) && tag != "short_desc" && tag != "long_desc" ==>
      && (tag in Fields(name, c) <==> tag in c.tags)
      && (tag in c.tags ==> Fields(name, c)[tag] == c.tags[tag])
  {
    hide ShortText, DropNewlines;
  }

  lemma {:induction false} NoPairs(kind: Kind)
    ensures !kind.Bitmask? ==> KindBits(kind) == []
    ensures !kind.Enum? && !kind.Float? ==> KindValues(kind) == []
  {
  }

  /** What every definition keeps: name, type, flags and the set of its fields. */
  lemma {:induction false} AlwaysBack(d: Definition, tag: string)
    ensures var p := Expected(d);
      && p.name == d.name && p.kind == (if d.kind.Float? then "FLOAT" else "INT32")
      && (p.volatile <==> "volatile" in d.tags) && (p.boolean <==> d.kind.Boolean?)
      && (!d.kind.Bitmask? ==> p.bitmask == []) && (!d.kind.Enum? && !d.kind.Float? ==> p.enum == [])
      && ("category" !in d.tags ==> p.category == "")
      && "short_desc" in p.fields
      && (FieldTag(tag) && tag != "short_desc" && tag != "long_desc" ==>
            && (tag in p.fields <==> TagValue(d, tag).Some?)
            && (tag in p.fields ==> p.fields[tag] == Strip(TagValue(d, tag).value)))
  {
    hide Strip, ExpectedTags, LongRead, DropDots, DropNewlines, CutType, PrintInt;
    hide KindValues, KindBits, MaxValue, TagOrder, Fields, FieldTag;
    NoPairs(d.kind);
    OrderOmits();
    TagsParsed(d, "category");
    TagsParsed(d, tag);
    TagsParsed(d, "volatile");
    TagsParsed(d, "boolean");
    TagsParsed(d, "short_desc");
    TagsParsed(d, "long_desc");
    FieldsAt(d.name, ExpectedComment(d), tag);
  }

  // ---- Enumeration values and bits ----

  /** Keys and descriptions as the definition has them. */
  function PlainPairs(values: seq<Value>): seq<(string, string)> {
    if values == [] then []
    else PlainPairs(values[..|values| - 1]) + [(values[|values| - 1].key, values[|values| - 1].text)]
  }

  function PlainBitPairs(bits: seq<Bit>): seq<(string, string)> {
    if bits == [] then []
    else PlainBitPairs(bits[..|bits| - 1]) + [(Decimal.Print(bits[|bits| - 1].index), bits[|bits| - 1].text)]
  }

  predicate NoBlankEnds(values: seq<Value>) {
    forall i :: 0 <= i < |values| ==> StripRight(values[i].text) == values[i].text
  }

  lemma {:induction false} EndsSnoc(values: seq<Value>)
    requires values != []
    ensures var n := |values| - 1;
      NoBlankEnds(values) <==> NoBlankEnds(values[..n]) && StripRight(values[n].text) == values[n].text
  {
    hide StripRight;
    assert values == values[..|values| - 1] + [values[|values| - 1]];
  }

  lemma {:induction false} PairsExact(values: seq<Value>)
    ensures ValuePairs(values) == PlainPairs(values) <==> NoBlankEnds(values)
    ensures |ValuePairs(values)| == |PlainPairs(values)| == |values|
  {
    hide StripRight, NoBlankEnds;
    if values == [] {
      assert NoBlankEnds(values) by { NothingEnds(); }
    } else {
      var n := |values| - 1;
      PairsExact(values[..n]);
      EndsSnoc(values);
      LastPair(ValuePairs(values[..n]), (values[n].key, StripRight(values[n].text)),
               PlainPairs(values[..n]), (values[n].key, values[n].text));
    }
  }

  lemma {:induction false} NothingEnds()
    ensures NoBlankEnds([])
  {
  }

  lemma {:induction false} LastPair(a: seq<(string, string)>, x: (string, string), b: seq<(string, string)>,
                                    y: (string, string))
    requires |a| == |b|
    ensures a + [x] == b + [y] <==> a == b && x == y
  {
    assert (a + [x])[..|a|] == a && (b + [y])[..|a|] == b && (a + [x])[|a|] == x && (b + [y])[|a|] == y;
  }

  lemma {:induction false} BitPairsExact(bits: seq<Bit>)
    ensures BitPairs(bits) == PlainBitPairs(bits)
       <==> forall i :: 0 <= i < |bits| ==> StripRight(bits[i].text) == bits[i].text
    ensures |BitPairs(bits)| == |PlainBitPairs(bits)| == |bits|
  {
    hide StripRight;
    if bits == [] {
    } else {
      var n := |bits| - 1;
      BitPairsExact(bits[..n]);
      LastPair(BitPairs(bits[..n]), (Decimal.Print(bits[n].index), StripRight(bits[n].text)),
               PlainBitPairs(bits[..n]), (Decimal.Print(bits[n].index), bits[n].text));
    }
  }

  lemma {:induction false} SortedEnds(values: seq<Value>)
    ensures NoBlankEnds(SortByNumber(values)) <==> NoBlankEnds(values)
  {
    hide StripRight;
    var sorted := SortByNumber(values);
    SortSorts(values);
    forall i | 0 <= i < |values|
      ensures values[i] in sorted
    {
      assert values[i] in multiset(sorted);
    }
    forall i | 0 <= i < |sorted|
      ensures sorted[i] in values
    {
      assert sorted[i] in multiset(values);
    }
  }

  // ---- Definitions ----

  predicate TidyKind(kind: Kind) {
    match kind
    case Enum(values) => NoBlankEnds(values)
    case Float(values) => NoBlankEnds(values)
    case Bitmask(bits) => forall i :: 0 <= i < |bits| ==> StripRight(bits[i].text) == bits[i].text
    case _ => true
  }

  // A tag whose text is kept; of the volatile tag only the presence is.
  predicate Carried(d: Definition, tag: string) { tag in d.tags && tag in TagOrder() && tag != "volatile" }

  /** Nothing in the definition that the parser normalises: texts trimmed, descriptions of values without blanks at
      the end, no dots after the short text, no type letters after the default value. */
  ghost predicate Tidy(d: Definition) {
    && Trimmed(d.group) && Trimmed(d.short) && DropDots(d.short) == d.short && TidyLong(d.long)
    && CutType(d.default) == d.default && TidyKind(d.kind)
    && forall tag :: Carried(d, tag) ==> Trimmed(d.tags[tag])
  }

  predicate PairsBack(kind: Kind, p: Parameter) {
    && (kind.Enum? || kind.Float? ==> p.enum == PlainPairs(SortByNumber(kind.values)))
    && (kind.Bitmask? ==> p.bitmask == PlainBitPairs(kind.bits))
  }

  /** The parameter and its group say what the definition says. */
  ghost predicate ComesBack(d: Definition) {
    var p := Expected(d);
    && Strip(d.group) == d.group && p.default == d.default
    && "short_desc" in p.fields && p.fields["short_desc"] == d.short
    && (if d.long == "" then "long_desc" !in p.fields
        else "long_desc" in p.fields && p.fields["long_desc"] == d.long)
    && (forall tag :: Carried(d, tag) && tag != "category" ==> tag in p.fields && p.fields[tag] == d.tags[tag])
    && ("category" in d.tags ==> p.category == d.tags["category"])
    && PairsBack(d.kind, p)
  }

  lemma {:induction false} PairsBackExactly(d: Definition)
    ensures PairsBack(d.kind, Expected(d)) <==> TidyKind(d.kind)
  {
    hide Strip, StripRight, ExpectedTags, LongRead, Fields, CutType, ValuePairs, BitPairs, PlainPairs, PlainBitPairs;
    hide NoBlankEnds;
    match d.kind
    case Enum(values) =>
      PairsExact(SortByNumber(values));
      SortedEnds(values);
    case Float(values) =>
      PairsExact(SortByNumber(values));
      SortedEnds(values);
    case Bitmask(bits) => BitPairsExact(bits);
    case Boolean =>
    case Int32 =>
  }

  lemma {:induction false} TagBackExactly(d: Definition, tag: string)
    requires Carried(d, tag)
    ensures tag != "category" ==>
      tag in Expected(d).fields && (Expected(d).fields[tag] == d.tags[tag] <==> Trimmed(d.tags[tag]))
    ensures tag == "category" ==> (Expected(d).category == d.tags[tag] <==> Trimmed(d.tags[tag]))
  {
    hide Strip, Trimmed, ExpectedTags, LongRead, DropDots, DropNewlines, CutType, PrintInt, Fields;
    hide KindValues, KindBits, MaxValue;
    AlwaysBack(d, tag);
    TagsParsed(d, tag);
    StripSame(d.tags[tag]);
  }

  lemma {:induction false} TextsBackExactly(d: Definition)
    ensures var fields := Expected(d).fields;
      && "short_desc" in fields
      && (fields["short_desc"] == d.short <==> Trimmed(d.short) && DropDots(d.short) == d.short)
      && ((if d.long == "" then "long_desc" !in fields else "long_desc" in fields && fields["long_desc"] == d.long)
          <==> TidyLong(d.long))
  {
    hide Strip, Trimmed, ExpectedTags, LongRead, DropDots, DropNewlines, CutType, Fields, TidyLong, KindValues;
    hide KindBits, TagOrder;
    OrderOmits();
    TagsParsed(d, "short_desc");
    TagsParsed(d, "long_desc");
    FieldsAt(d.name, ExpectedComment(d), "");
    ShortExact(d.short);
    LongExact(d.long);
  }

  /** A definition comes back as it was exactly if it is tidy. */
  lemma {:induction false} ComesBackExactly(d: Definition)
    ensures ComesBack(d) <==> Tidy(d)
  {
    hide Strip, Trimmed, Fields, DropDots, TidyLong, TidyKind, PairsBack, ExpectedComment, Carried;
    CategoryCarried(d);
    StripSame(d.group);
    TextsBackExactly(d);
    PairsBackExactly(d);
    forall tag | Carried(d, tag)
      ensures tag != "category" ==>
        tag in Expected(d).fields && (Expected(d).fields[tag] == d.tags[tag] <==> Trimmed(d.tags[tag]))
      ensures tag == "category" ==> (Expected(d).category == d.tags[tag] <==> Trimmed(d.tags[tag]))
    {
      TagBackExactly(d, tag);
    }
  }

  lemma {:induction false} CategoryCarried(d: Definition)
    ensures "category" in d.tags <==> Carried(d, "category")
    ensures forall tag :: Carried(d, tag) ==> tag in d.tags
  {
  }

  /** A short text with a dot at its end does not come back. */
  lemma {:induction false} DotDropped()
    ensures var d := Definition("A", "Group", Int32, "Text.", "", "0", map[]); DefinitionOk(d) && !ComesBack(d)
  {
    hide ComesBack, ShortOk, LongOk, Plain, TidyLong, TidyKind;
    var d := Definition("A", "Group", Int32, "Text.", "", "0", map[]);
    assert "Text."[..4] == "Text" && DropDots("Text.") == DropDots("Text");
    ComesBackExactly(d);
    DotOk();
  }

  lemma {:induction false} DotOk()
    ensures ShortOk("Text.") && LongOk("") && Plain("Group")
  {
    hide Strip, HasEnd;
    NoStarNoEnd("Text.");
    NoStarNoEnd("Group");
    NoStarNoEnd("");
    StripTrimmed("Text.");
    StripTrimmed("");
    assert "Text."[0] == 'T' && !IsSpace('T');
  }

  /** A description with blanks in front, on the other hand, does. */
  lemma {:induction false} LeadingBlankKept()
    ensures SplitOnce(Strip("1" + " " + " x")) == Some(("1", " x"))
  {
    assert StripRight(" x") == " x";
    assert " x"[1] == 'x';
    EntryRead("1", " x");
  }

  // ---- The validator ----

  // Python's `int` of a text: a sign and digits.
  function IntOf(s: string): Option<int> {
    var t := if s != "" && (s[0] == '-' || s[0] == '+') then s[1..] else s;
    if t == "" || !Decimal.AllDigits(t) then None
    else
      var n: int := Decimal.Parse(t);
      Some(if s[0] == '-' then -n else n)
  }

  // The range check of one bit; None where a conversion raises.
  function BitCheck(min: string, max: string, bit: nat): Option<bool> {
    if IntOf(min).None? then None
    else if IntOf(min).value > Pow2(bit) then Some(false)
    else if IntOf(max).None? then None
    else Some(Pow2(bit) <= IntOf(max).value)
  }

  lemma {:induction false} IntOfPrint(n: nat)
    ensures IntOf(Decimal.Print(n)) == Some(n)
  {
    Decimal.ParsePrint(n);
    assert Decimal.IsDigit(Decimal.Print(n)[0]);
  }

  /** Every bit of a printed bitmask passes the validator's check, and has a description, exactly as far as limits
      written by hand allow it; the limits that the printer adds always do. */
  lemma {:induction false} BitmaskValidates(d: Definition, i: nat)
    requires DefinitionOk(d) && d.kind.Bitmask? && i < |d.kind.bits|
    ensures var p := Expected(d);
      && "min" in p.fields && "max" in p.fields && i < |p.bitmask| && p.bitmask[i].1 != ""
      && IntOf(p.bitmask[i].0) == Some(d.kind.bits[i].index)
      && (BitCheck(p.fields["min"], p.fields["max"], d.kind.bits[i].index) == Some(true)
          <==> HandLimitsAllow(d, d.kind.bits[i].index))
  {
    hide Expected, Strip, Blank, NameOk, DefaultOk, ShortOk, LongOk, CutType, DropDots, Pow2;
    var bits := d.kind.bits;
    AlwaysBack(d, "min");
    AlwaysBack(d, "max");
    KindTexts(d);
    BitmaskEntry(d, i);
    BitsInRange(bits, i);
    Pow2Grows(0, MaxBit(bits) + 1);
    IntOfPrint(MaxValue(bits));
    IntOfPrint(0);
    IntOfPrint(bits[i].index);
  }

  /** The limits given in the definition, if any, admit the bit. */
  predicate HandLimitsAllow(d: Definition, bit: nat) {
    && ("min" in d.tags ==> var min := IntOf(Strip(d.tags["min"])); min.Some? && min.value <= Pow2(bit))
    && ("max" in d.tags ==> var max := IntOf(Strip(d.tags["max"])); max.Some? && Pow2(bit) <= max.value)
  }

  lemma {:induction false} BitmaskEntry(d: Definition, i: nat)
    requires DefinitionOk(d) && d.kind.Bitmask? && i < |d.kind.bits|
    ensures i < |Expected(d).bitmask| && Expected(d).bitmask[i].0 == Decimal.Print(d.kind.bits[i].index)
    ensures Expected(d).bitmask[i].1 != ""
  {
    hide Strip, StripRight, Blank, Fields, CutType, ExpectedTags, LongRead;
    BitPairsAt(d.kind.bits);
    StripBlank(d.kind.bits[i].text);
  }
}

/** Printing parameter definitions and parsing the text gives the definitions back. */
module ParamRoundTrip {

  import opened Basics
  import opened Whitespace
  import opened ParamText
  import opened ParamParser
  import opened ParamReading
  import Decimal

  // ---- The long description ----

  /** The lines of a text. */
  function Paragraphs(s: string): (r: seq<string>)
    ensures r != []
  {
    if s == "" then [""] else
    var rest := Paragraphs(s[1..]);
    if s[0] == '\n' then [""] + rest else [[s[0]] + rest[0]] + rest[1..]
  }

  lemma {:induction false} JoinHead(a: string, rest: seq<string>)
    requires rest != []
    ensures JoinTags([a] + rest) == a + "\n * " + JoinTags(rest)
  {
    var all, n := [a] + rest, |rest|;
    if n == 1 {
      assert all[..1] == [a];
    } else {
      JoinHead(a, rest[..n - 1]);
      assert all[..n] == [a] + rest[..n - 1];
      assert a + "\n * " + JoinTags(rest[..n - 1]) + "\n * " + rest[n - 1]
          == a + "\n * " + (JoinTags(rest[..n - 1]) + "\n * " + rest[n - 1]);
    }
  }

  lemma {:induction false} Assoc4(a: string, b: string, c: string, d: string)
    ensures a + b + c + d == a + (b + c + d)
  {
  }

  lemma {:induction false} JoinPrefix(c: char, rest: seq<string>)
    requires rest != []
    ensures JoinTags([[c] + rest[0]] + rest[1..]) == [c] + JoinTags(rest)
  {
    if |rest| == 1 {
      assert rest == [rest[0]] && [[c] + rest[0]] + rest[1..] == [[c] + rest[0]];
    } else {
      hide JoinTags;
      var more := JoinTags(rest[1..]);
      assert rest == [rest[0]] + rest[1..];
      JoinHead(rest[0], rest[1..]);
      JoinHead([c] + rest[0], rest[1..]);
      Assoc4([c], rest[0], "\n * ", more);
    }
  }

  // Putting the comment prefix after every line break joins the lines like tags.
  lemma {:induction false} IndentJoins(s: string)
    ensures Indent(s) == JoinTags(Paragraphs(s))
  {
    if s == "" {
    } else {
      hide JoinTags;
      IndentJoins(s[1..]);
      var rest := Paragraphs(s[1..]);
      if s[0] == '\n' {
        JoinHead("", rest);
        assert "" + "\n * " == "\n * ";
      } else {
        JoinPrefix(s[0], rest);
      }
    }
  }

  // The long description after the given lines: blank lines before the first text are dropped.
  function LongFold(lines: seq<string>): Option<string> {
    if lines == [] then None else
    var before, content := LongFold(lines[..|lines| - 1]), Strip(lines[|lines| - 1]);
    if before.None? then (if content == "" then None else Some(content))
    else Some(before.value + "\n" + content)
  }

  predicate NoTags(lines: seq<string>) { forall i :: 0 <= i < |lines| ==> !IsTag(Strip(lines[i])) }

  function LongState(c: Comment, long: Option<string>, groups: map<string, seq<Parameter>>): Machine {
    Running(if long.None? then WaitLong else WaitLongEnd, c.(long := long), groups)
  }

  lemma {:induction false} LongStep(c: Comment, long: Option<string>, groups: map<string, seq<Parameter>>, x: string)
    requires !IsTag(Strip(x))
    ensures Content(LongState(c, long, groups), x)
         == LongState(c, if long.None? then (if Strip(x) == "" then None else Some(Strip(x)))
                         else Some(long.value + "\n" + Strip(x)), groups)
  {
    hide Strip, IsTag;
    assert long.Some? ==> long.value + "\n" + "" == long.value + "\n";
  }

  lemma {:induction false} ReadLong(c: Comment, groups: map<string, seq<Parameter>>, lines: seq<string>)
    requires c.long == None && NoTags(lines)
    ensures Contents(Running(WaitLong, c, groups), lines) == LongState(c, LongFold(lines), groups)
  {
    hide Strip, Content, IsTag;
    if lines == [] {
    } else {
      var front, x := lines[..|lines| - 1], lines[|lines| - 1];
      ReadLong(c, groups, front);
      LongStep(c, LongFold(front), groups, x);
    }
  }

  // ---- The definition line ----

  predicate NameChars(s: string) { forall i :: 0 <= i < |s| ==> IsUpper(s[i]) || '0' <= s[i] <= '9' }

  predicate NameOk(s: string) { StartsName(s) && NameChars(s) }

  predicate DefaultOk(s: string) {
    s != "" && !IsSpace(s[0]) && OneLine(s) && forall i :: 0 <= i < |s| ==> IsDefaultChar(s[i])
  }

  lemma {:induction false} NameCountExact(s: string, t: string)
    requires NameChars(s) && (t == "" || !(IsUpper(t[0]) || '0' <= t[0] <= '9'))
    ensures NameCount(s + t) == |s|
  {
    if s == "" {
      assert s + t == t;
    } else {
      NameCountExact(s[1..], t);
      assert (s + t)[1..] == s[1..] + t && (s + t)[0] == s[0];
    }
  }

  lemma {:induction false} DefaultCountExact(s: string, t: string)
    requires (forall i :: 0 <= i < |s| ==> IsDefaultChar(s[i])) && (t == "" || !IsDefaultChar(t[0]))
    ensures DefaultCount(s + t) == |s|
  {
    if s == "" {
      assert s + t == t;
    } else {
      DefaultCountExact(s[1..], t);
      assert (s + t)[1..] == s[1..] + t && (s + t)[0] == s[0];
    }
  }

  lemma {:induction false} AfterAt(c: char, t: string)
    requires !IsSpace(c)
    ensures After([c] + t, c) == Some(t)
  {
    assert ([c] + t)[1..] == t;
  }

  lemma {:induction false} DefaultMatched(default: string)
    requires DefaultOk(default)
    ensures MatchDefault(", " + default + ");") == Some(default)
  {
    var tail := default + ");";
    assert ", " + default + ");" == [','] + (" " + tail);
    AfterAt(',', " " + tail);
    assert (" " + tail)[1..] == tail && tail[0] == default[0];
    assert StripLeft(" " + tail) == StripLeft(tail) == tail;
    DefaultCountExact(default, ");");
    assert tail[..|default|] == default && tail[|default|..] == ");";
    assert ");" == [')'] + ";" && ";" == [';'] + "";
    AfterAt(')', ";");
    AfterAt(';', "");
  }

  lemma {:induction false} NameMatched(kind: string, name: string, default: string)
    requires NameOk(name) && DefaultOk(default)
    ensures MatchName(kind, name + ", " + default + ");") == Some(Match(kind, name, default))
  {
    hide MatchDefault, DefaultOk;
    var tail := ", " + default + ");";
    var s := name + tail;
    assert name + ", " + default + ");" == s && s[0] == name[0] && tail[0] == ',';
    NameCountExact(name, tail);
    assert s[..|name|] == name && s[|name|..] == tail;
    DefaultMatched(default);
  }

  lemma {:induction false} DefineMatched(d: Definition)
    requires NameOk(d.name) && DefaultOk(d.default)
    ensures MatchDefine(Define(d)) == Some(Match(TypeName(d.kind), d.name, d.default))
  {
    assert NameOk(TypeName(d.kind));
    hide MatchName, MatchDefine, DefaultOk, NameOk;
    var kind, tail := TypeName(d.kind), d.name + ", " + d.default + ");";
    var s := kind + ("(" + tail);
    assert Define(d) == "PARAM_DEFINE_" + s;
    KindMatched(kind, tail);
    NameMatched(kind, d.name, d.default);
  }

  lemma {:induction false} KindMatched(kind: string, tail: string)
    requires NameOk(kind)
    ensures MatchDefine("PARAM_DEFINE_" + (kind + ("(" + tail))) == MatchName(kind, tail)
  {
    hide MatchName, NameCount, After;
    var s := kind + ("(" + tail);
    var line := "PARAM_DEFINE_" + s;
    assert line[13..] == s && s[0] == kind[0] && ("(" + tail)[0] == '(';
    NameCountExact(kind, "(" + tail);
    assert s[..|kind|] == kind && s[|kind|..] == "(" + tail;
    AfterAt('(', tail);
  }

  // ---- Well-formed definitions ----

  predicate LongOk(long: string) { AllPlain(Paragraphs(long)) && NoTags(Paragraphs(long)) }

  predicate ShortOk(short: string) {
    Plain(short) && !Blank(short) && !IsTag(Strip(short)) && |Strip(short)| <= 150
  }

  /** Texts stay on their lines and do not close the comment or look like a tag; the short text is one line of at
      most 150 characters; enumeration keys and bits are distinct and described; name and default value are as
      the parser's pattern wants them. */
  predicate DefinitionOk(d: Definition) {
    && NameOk(d.name) && DefaultOk(d.default) && ShortOk(d.short) && LongOk(d.long) && Plain(d.group)
    && KindOk(d.kind)
    && forall tag :: tag in d.tags && tag in TagOrder() ==> Plain(d.tags[tag])
  }

  lemma {:induction false} NoEndBetween(a: string, b: string)
    requires !HasEnd(a) && !HasEnd(b)
    ensures !HasEnd(a + " " + b)
  {
    var s := a + " " + b;
    if a == "" {
      assert s[1..] == b;
    } else {
      assert s[1..] == a[1..] + " " + b;
      NoEndBetween(a[1..], b);
      if |a| == 1 {
        assert s[1] == ' ';
      } else {
        assert s[1] == a[1];
      }
    }
  }

  lemma {:induction false} PlainBetween(a: string, b: string)
    requires Plain(a) && Plain(b)
    ensures Plain(a + " " + b)
  {
    NoEndBetween(a, b);
  }

  lemma {:induction false} WordPlain(w: string)
    requires AllWord(w)
    ensures Plain("@" + w)
  {
    forall i | 0 <= i < |"@" + w|
      ensures ("@" + w)[i] != '*' && !IsBreak(("@" + w)[i])
    {
      assert i > 0 ==> IsWord(w[i - 1]);
    }
    NoStarNoEnd("@" + w);
  }

  lemma {:induction false} TagPlain(w: string, x: string)
    requires AllWord(w) && Plain(x)
    ensures Plain(PlainTag(w, x))
  {
    hide Plain;
    WordPlain(w);
    PlainBetween("@" + w, x);
  }

  lemma {:induction false} ValueTagsPlain(values: seq<Value>)
    requires ValuesOk(values)
    ensures AllPlain(ValueTags(values))
  {
    hide Plain, PlainTag, ValueTag;
    if values == [] {
    } else {
      var v := values[|values| - 1];
      ValueTagsPlain(values[..|values| - 1]);
      assert ValueOk(v);
      PlainBetween(v.key, v.text);
      WordsAreWords();
      TagPlain("value", v.key + " " + v.text);
      ValueTagIs(v);
    }
  }

  lemma {:induction false} BitTagsPlain(bits: seq<Bit>)
    requires BitsOk(bits)
    ensures AllPlain(BitTags(bits))
  {
    hide Plain, PlainTag, BitTag;
    if bits == [] {
    } else {
      var b := bits[|bits| - 1];
      BitTagsPlain(bits[..|bits| - 1]);
      DigitsAreNotSpace(b.index);
      PlainBetween(Decimal.Print(b.index), b.text);
      WordsAreWords();
      TagPlain("bit", Decimal.Print(b.index) + " " + b.text);
      BitTagIs(b);
    }
  }

  lemma {:induction false} LimitsPlain(bits: seq<Bit>)
    ensures Plain("@min 0") && Plain("@max " + PrintInt(MaxValue(bits)))
  {
    hide Plain, PlainTag, AllWord;
    Pow2Grows(0, MaxBit(bits) + 1);
    DigitsAreNotSpace(MaxValue(bits));
    DigitsAreNotSpace(0);
    assert Decimal.Print(0) == "0";
    LimitWords(PrintInt(MaxValue(bits)));
    TagPlain("min", "0");
    TagPlain("max", PrintInt(MaxValue(bits)));
  }

  lemma {:induction false} KindTagsPlain(kind: Kind)
    requires KindOk(kind)
    ensures AllPlain(KindTags(kind))
  {
    hide Plain, ValuesOk, BitsOk, ValueTags, BitTags, PrintInt, MaxValue;
    match kind
    case Enum(values) =>
      SortOk(values);
      ValueTagsPlain(SortByNumber(values));
    case Float(values) =>
      SortOk(values);
      ValueTagsPlain(SortByNumber(values));
    case Bitmask(bits) =>
      BitTagsPlain(bits);
      LimitsPlain(bits);
    case Boolean =>
      WordsAreWords();
      WordPlain("boolean");
      assert "@" + "boolean" == "@boolean";
    case Int32 =>
  }

  lemma {:induction false} ExtraTagsPlain(tags: map<string, string>, order: seq<string>)
    requires forall i :: 0 <= i < |order| ==> AllWord(order[i]) && (order[i] in tags ==> Plain(tags[order[i]]))
    ensures AllPlain(ExtraTags(tags, order))
  {
    hide Plain, PlainTag, AllWord;
    if order == [] {
    } else {
      ExtraTagsPlain(tags, order[..|order| - 1]);
      var tag := order[|order| - 1];
      if tag in tags {
        TagPlain(tag, tags[tag]);
      }
    }
  }

  lemma {:induction false} TagLinesPlain(d: Definition)
    requires DefinitionOk(d)
    ensures AllPlain(TagLines(d)) && TagLines(d) != []
  {
    hide Plain, PlainTag, AllWord, KindTags, ExtraTags, KindOk, NameOk, DefaultOk, ShortOk, LongOk;
    WordsAreWords();
    TagPlain("group", d.group);
    KindTagsPlain(d.kind);
    ExtraTagsPlain(d.tags, TagOrder());
  }

  // ---- Reading one definition ----

  lemma {:induction false} StripSymbols()
    ensures Strip("") == "" && Strip("/**") == "/**" && Strip(" *") == Strip(" * ") && Strip(" */") == "*/"
  {
    StripTrimmed("");
    StripTrimmed("/**");
    StripStar("");
    assert " * " + "" == " * " && " " + "" == " ";
    assert StripRight(" ") == StripRight(" "[..0]) == "";
    assert " *"[1..] == "*" && StripLeft(" *") == StripLeft("*") == "*";
    assert " */"[1..] == "*/" && StripLeft(" */") == StripLeft("*/") == "*/";
  }

  lemma {:induction false} FeedOpen(m: Machine, rest: string)
    requires m.Running?
    ensures Feed(m, Line("", Line("/**", rest))) == Feed(Running(WaitShort, FRESH, m.groups), rest)
  {
    hide Feed, Strip;
    StripSymbols();
    FeedLine(m, "", Line("/**", rest));
    FeedLine(m, "/**", rest);
  }

  // A comment line with nothing on it.
  lemma {:induction false} FeedEmpty(m: Machine, rest: string)
    requires m.Running? && InComment(m.state)
    ensures Feed(m, Line(" *", rest)) == Feed(Content(m, ""), rest)
  {
    hide Feed, Strip, Step, Content;
    StripSymbols();
    FeedLine(m, " *", rest);
    PrintedLine(m, "");
    assert " * " + "" == " * ";
  }

  lemma {:induction false} FeedLines(m: Machine, lines: seq<string>, rest: string)
    requires lines != [] && AllPlain(lines) && m.Running? && InComment(m.state)
    ensures Feed(m, Line(" * " + JoinTags(lines), rest)) == Feed(Contents(m, lines), rest)
  {
    hide Feed, Contents;
    FeedBlock(m, lines, rest);
  }

  lemma {:induction false} IndentOneLine(s: string)
    requires OneLine(s)
    ensures Indent(s) == s && Paragraphs(s) == [s]
  {
    if s == "" {
    } else {
      IndentOneLine(s[1..]);
      assert s == [s[0]] + s[1..] && !IsBreak(s[0]);
    }
  }

  lemma {:induction false} FeedShort(groups: map<string, seq<Parameter>>, short: string, rest: string)
    requires ShortOk(short)
    ensures Feed(Running(WaitShort, FRESH, groups), Line(" * " + Indent(short), Line(" *", rest)))
         == Feed(Running(WaitLong, FRESH.(short := Some(Strip(short))), groups), rest)
  {
    hide Feed, Strip, IsTag, Indent;
    var m := Running(WaitShort, FRESH, groups);
    IndentOneLine(short);
    FeedContent(m, short, Line(" *", rest));
    NotBlankStrips(short);
    var next := Running(WaitShortEnd, FRESH.(short := Some(Strip(short))), groups);
    assert Content(m, short) == next;
    FeedEmpty(next, rest);
    StripSymbols();
  }

  lemma {:induction false} NotBlankStrips(s: string)
    requires !Blank(s)
    ensures Strip(s) != ""
  {
    StripEitherOrder(s);
    StripRightPrefix(s);
    var t := StripRight(s);
    StripBlank(s);
    StripRightEnds(s);
    NotAllStripped(t);
  }

  lemma {:induction false} StripRightEnds(s: string)
    ensures StripRight(s) != "" ==> !IsSpace(StripRight(s)[|StripRight(s)| - 1])
  {
    if s == "" || !IsSpace(s[|s| - 1]) {
    } else {
      StripRightEnds(s[..|s| - 1]);
    }
  }

  lemma {:induction false} NotAllStripped(t: string)
    requires t != "" && !IsSpace(t[|t| - 1])
    ensures StripLeft(t) != ""
  {
    if !IsSpace(t[0]) {
    } else {
      NotAllStripped(t[1..]);
    }
  }

  // What the parser makes of the long text and the empty line after it.
  function LongRead(long: string): Option<string> { LongFold(Paragraphs(long) + [""]) }

  lemma {:induction false} FeedLong(c: Comment, groups: map<string, seq<Parameter>>, long: string, rest: string)
    requires c.long == None && LongOk(long)
    ensures Feed(Running(WaitLong, c, groups), Line(" * " + Indent(long), Line(" *", rest)))
         == Feed(LongState(c, LongRead(long), groups), rest)
  {
    hide Feed, Strip, IsTag, Indent, Content, Paragraphs, Plain, LongFold;
    var m, lines := Running(WaitLong, c, groups), Paragraphs(long);
    IndentJoins(long);
    FeedLines(m, lines, Line(" *", rest));
    ReadLong(c, groups, lines);
    FeedEmpty(LongState(c, LongFold(lines), groups), rest);
    EmptyIsNoTag();
    ReadLong(c, groups, lines + [""]);
    ContentsConcat(m, lines, [""]);
    ContentsOne(Contents(m, lines), "");
  }

  lemma {:induction false} EmptyIsNoTag()
    ensures !IsTag(Strip(""))
  {
    StripSymbols();
  }

  lemma {:induction false} FeedEnd(m: Machine, rest: string)
    requires m.Running? && InComment(m.state)
    ensures Feed(m, Line(" */", rest)) == Feed(m.(state := Processed), rest)
  {
    hide Feed, Strip;
    StripSymbols();
    FeedLine(m, " */", rest);
    assert "*/"[..0] == "";
  }

  /** The parameter a definition stands for. */
  function Expected(d: Definition): Parameter {
    MakeParameter(Match(TypeName(d.kind), d.name, d.default), ExpectedComment(d))
  }

  function ExpectedComment(d: Definition): Comment {
    Comment(Some(Strip(d.short)), LongRead(d.long), ExpectedTags(d), KindValues(d.kind), KindBits(d.kind), "")
  }

  // The keys of the tags, and the group among them.
  lemma {:induction false} ExtraMapKeys(tags: map<string, string>, extra: map<string, string>, order: seq<string>)
    ensures forall tag :: tag in ExtraMap(tags, extra, order) <==> tag in tags || (tag in extra && tag in order)
    ensures forall tag :: tag in tags && tag !in order ==> ExtraMap(tags, extra, order)[tag] == tags[tag]
  {
    if order == [] {
    } else {
      var front := order[..|order| - 1];
      ExtraMapKeys(tags, extra, front);
      assert order == front + [order[|order| - 1]];
    }
  }

  lemma {:induction false} TagsKnown(d: Definition)
    ensures KnownTags(ExpectedComment(d)) && GroupOf(ExpectedComment(d)) == Strip(d.group)
  {
    hide Strip, ExtraMap, PrintInt, KindMap, ValidTag, TagOrder;
    ExtraMapKeys(KindMap(map["group" := Strip(d.group)], d.kind), d.tags, TagOrder());
    KindMapKeys(Strip(d.group), d.kind);
    OrderValid();
    OrderOmits();
  }

  lemma {:induction false} KindMapKeys(group: string, kind: Kind)
    ensures var tags := KindMap(map["group" := group], kind);
      "group" in tags && tags["group"] == group && forall tag :: tag in tags ==> ValidTag(tag)
  {
    hide PrintInt;
  }

  lemma {:induction false} OrderOmits()
    ensures "group" !in TagOrder() && "boolean" !in TagOrder()
    ensures "short_desc" !in TagOrder() && "long_desc" !in TagOrder()
    ensures "volatile" in TagOrder() && "category" in TagOrder()
  {
  }

  lemma {:induction false} OrderValid()
    ensures forall tag :: tag in TagOrder() ==> ValidTag(tag)
  {
  }

  lemma {:induction false} ShortAccepted(d: Definition)
    requires ShortOk(d.short)
    ensures !BadShort(ExpectedComment(d))
  {
    StripEitherOrder(d.short);
    StripRightPrefix(d.short);
    StripLeftSuffix(StripRight(d.short));
    var s := StripRight(d.short);
    var k := |s| - |StripLeft(s)|;
    assert forall i :: 0 <= i < |StripLeft(s)| ==> StripLeft(s)[i] == d.short[k + i];
  }

  lemma {:induction false} StripLeftSuffix(s: string)
    ensures |StripLeft(s)| <= |s| && StripLeft(s) == s[|s| - |StripLeft(s)|..]
  {
    if s == "" || !IsSpace(s[0]) {
    } else {
      StripLeftSuffix(s[1..]);
    }
  }

  lemma {:induction false} DefineStripped(d: Definition)
    requires DefaultOk(d.default) && NameOk(d.name)
    ensures Strip(Define(d)) == Define(d) != "" && !StartsComment(Define(d)) && OneLine(Define(d))
  {
    var s := Define(d);
    assert s[0] == 'P' && s[|s| - 1] == ';';
    StripTrimmed(s);
    OneLineParts("PARAM_DEFINE_" + TypeName(d.kind) + "(", d.name, d.default);
  }

  lemma {:induction false} OneLineParts(head: string, name: string, default: string)
    requires OneLine(head) && NameChars(name) && OneLine(default)
    ensures OneLine(head + name + ", " + default + ");")
  {
    assert OneLine(name);
    OneLineBoth(head, name);
    OneLineBoth(head + name, ", ");
    OneLineBoth(head + name + ", ", default);
    OneLineBoth(head + name + ", " + default, ");");
  }

  lemma {:induction false} OneLineBoth(a: string, b: string)
    requires OneLine(a) && OneLine(b)
    ensures OneLine(a + b)
  {
  }

  lemma {:induction false} FeedDefine(m: Machine, d: Definition, rest: string)
    requires DefinitionOk(d) && m.Running? && m.state == Processed
    requires m.comment == ExpectedComment(d).(current := m.comment.current)
    ensures Feed(m, Line(Define(d), rest))
         == Feed(Running(Outside, m.comment, Store(m.groups, Strip(d.group), Expected(d))), rest)
  {
    hide Feed, Strip, MatchDefine, StartsComment, ShortOk, LongOk, KindOk, NameOk, DefaultOk, Define, OneLine;
    hide KindValues, KindBits, LongRead, ExpectedTags, Fields, CutType, Store;
    DefineStripped(d);
    FeedLine(m, Define(d), rest);
    DefineMatched(d);
    TagsKnown(d);
    ShortAccepted(d);
    SameButCurrent(d, m.comment);
  }

  // The current tag plays no role for the parameter.
  lemma {:induction false} SameButCurrent(d: Definition, c: Comment)
    requires c == ExpectedComment(d).(current := c.current)
    ensures BadShort(c) == BadShort(ExpectedComment(d)) && KnownTags(c) == KnownTags(ExpectedComment(d))
    ensures GroupOf(c) == GroupOf(ExpectedComment(d))
    ensures MakeParameter(Match(TypeName(d.kind), d.name, d.default), c) == Expected(d)
  {
    hide Strip, LongRead, ExpectedTags, KindValues, KindBits, DropDots, DropNewlines;
  }

  lemma {:induction false} FeedTags(c: Comment, long: Option<string>, groups: map<string, seq<Parameter>>,
                                    d: Definition, rest: string)
    returns (current: string)
    requires DefinitionOk(d) && c == FRESH.(short := Some(Strip(d.short))) && long == LongRead(d.long)
    ensures Feed(LongState(c, long, groups), Line(" * " + JoinTags(TagLines(d)), Line(" */", rest)))
         == Feed(Running(Processed, ExpectedComment(d).(current := current), groups), rest)
  {
    hide Feed, Strip, TagLines, JoinTags, ShortOk, LongOk, KindOk, NameOk, DefaultOk, LongRead, Contents, AllPlain;
    hide KindValues, KindBits, ExpectedTags;
    var m := LongState(c, long, groups);
    TagLinesPlain(d);
    FeedLines(m, TagLines(d), Line(" */", rest));
    ReadTags(m, d);
    var read := Contents(m, TagLines(d));
    FeedEnd(read, rest);
    current := read.comment.current;
  }

  /** One printed definition is read as its parameter, added to its group. */
  lemma {:induction false} FeedDefinition(m: Machine, d: Definition, rest: string) returns (c: Comment)
    requires DefinitionOk(d) && m.Running?
    ensures Feed(m, Template(d.short, d.long, JoinTags(TagLines(d)), Define(d), rest))
         == Feed(Running(Outside, c, Store(m.groups, Strip(d.group), Expected(d))), rest)
  {
    hide Feed, Strip, Line, TagLines, JoinTags, Define, ShortOk, LongOk, KindOk, NameOk, DefaultOk, Expected, Indent;
    hide LongRead, KindValues, KindBits, ExpectedTags, Store;
    var tags, define := JoinTags(TagLines(d)), Define(d);
    var afterTags := Line(" */", Line(define, rest));
    var afterLong := Line(" * " + tags, afterTags);
    var afterShort := Line(" * " + Indent(d.long), Line(" *", afterLong));
    var short := FRESH.(short := Some(Strip(d.short)));
    FeedOpen(m, Line(" * " + Indent(d.short), Line(" *", afterShort)));
    FeedShort(m.groups, d.short, afterShort);
    FeedLong(short, m.groups, d.long, afterLong);
    var current := FeedTags(short, LongRead(d.long), m.groups, d, Line(define, rest));
    c := ExpectedComment(d).(current := current);
    FeedDefine(Running(Processed, c, m.groups), d, rest);
  }

  // ---- Any list of definitions ----

  /** Every definition's parameter, in its group, in order. */
  function Grouped(groups: map<string, seq<Parameter>>, ds: seq<Definition>): map<string, seq<Parameter>> {
    if ds == [] then groups
    else
      var d := ds[|ds| - 1];
      Store(Grouped(groups, ds[..|ds| - 1]), Strip(d.group), Expected(d))
  }

  lemma {:induction false} LineThen(s: string, t: string, rest: string)
    ensures Line(s, t) + rest == Line(s, t + rest)
  {
  }

  lemma {:induction false} TextThen(d: Definition, rest: string)
    ensures Text(d) + rest == Template(d.short, d.long, JoinTags(TagLines(d)), Define(d), rest)
  {
    hide Line, Indent, JoinTags, TagLines, Define;
    var tags, define := JoinTags(TagLines(d)), Define(d);
    var t8 := Line(define, "");
    var t7 := Line(" */", t8);
    var t6 := Line(" * " + tags, t7);
    var t5 := Line(" *", t6);
    var t4 := Line(" * " + Indent(d.long), t5);
    var t3 := Line(" *", t4);
    var t2 := Line(" * " + Indent(d.short), t3);
    var t1 := Line("/**", t2);
    LineThen(define, "", rest);
    assert "" + rest == rest;
    LineThen(" */", t8, rest);
    LineThen(" * " + tags, t7, rest);
    LineThen(" *", t6, rest);
    LineThen(" * " + Indent(d.long), t5, rest);
    LineThen(" *", t4, rest);
    LineThen(" * " + Indent(d.short), t3, rest);
    LineThen("/**", t2, rest);
    LineThen("", t1, rest);
  }

  lemma {:induction false} FeedAll(c: Comment, groups: map<string, seq<Parameter>>, ds: seq<Definition>, rest: string)
    returns (last: Comment)
    requires forall i :: 0 <= i < |ds| ==> DefinitionOk(ds[i])
    ensures Feed(Running(Outside, c, groups), TextOfAll(ds) + rest)
         == Feed(Running(Outside, last, Grouped(groups, ds)), rest)
  {
    hide Feed, Text, DefinitionOk, Store, Expected, Strip;
    if ds == [] {
      assert TextOfAll(ds) + rest == rest;
      last := c;
    } else {
      var front, d := ds[..|ds| - 1], ds[|ds| - 1];
      Assoc(TextOfAll(front), Text(d), rest);
      TextThen(d, rest);
      var before := FeedAll(c, groups, front, Text(d) + rest);
      last := FeedDefinition(Running(Outside, before, Grouped(groups, front)), d, rest);
    }
  }

  lemma {:induction false} Assoc(a: string, b: string, c: string)
    ensures a + b + c == a + (b + c)
  {
  }

  /** Parsing the printed text of any list of well-formed definitions gives their parameters, group by group and
      in order, whatever was parsed before. */
  lemma {:induction false} PrintParse(groups: map<string, seq<Parameter>>, ds: seq<Definition>) returns (last: Comment)
    requires forall i :: 0 <= i < |ds| ==> DefinitionOk(ds[i])
    ensures Parsed(TextOfAll(ds), groups) == Running(Outside, last, Grouped(groups, ds))
  {
    hide DefinitionOk, Grouped, TextOfAll, Step;
    last := FeedAll(FRESH, groups, ds, "");
    assert TextOfAll(ds) + "" == TextOfAll(ds);
    NothingToFeed(Running(Outside, last, Grouped(groups, ds)));
  }

  lemma {:induction false} NothingToFeed(m: Machine)
    ensures Feed(m, "") == m
  {
    assert SplitLines("") == [""] && [""][1..] == [] && Strip("") == "";
  }

  // ---- What comes back ----

  /** The parameters of one group, in order. */
  function InGroup(ds: seq<Definition>, group: string): seq<Parameter> {
    if ds == [] then []
    else
      var d := ds[|ds| - 1];
      InGroup(ds[..|ds| - 1], group) + if Strip(d.group) == group then [Expected(d)] else []
  }

  lemma {:induction false} GroupedMeans(ds: seq<Definition>, group: string)
    ensures group in Grouped(map[], ds) <==> InGroup(ds, group) != []
    ensures group in Grouped(map[], ds) ==> Grouped(map[], ds)[group] == InGroup(ds, group)
  {
    hide Strip, Expected;
    if ds == [] {
    } else {
      GroupedMeans(ds[..|ds| - 1], group);
      assert InGroup(ds[..|ds| - 1], group) + [] == InGroup(ds[..|ds| - 1], group);
    }
  }
}

/** How the parser reads printed comment lines: their content, and the tags of a definition. */
module ParamReading {

  import opened Basics
  import opened Whitespace
  import opened ParamText
  import opened ParamParser
  import Decimal

  // ---- Feeding text to the parser ----

  function Feed(m: Machine, text: string): Machine { Run(m, SplitLines(text)) }

  predicate OneLine(s: string) { forall i :: 0 <= i < |s| ==> !IsBreak(s[i]) }

  lemma {:induction false} FirstBreakAt(line: string, rest: string)
    requires OneLine(line)
    ensures FirstBreak(line + "\n" + rest) == |line|
  {
    var s := line + "\n" + rest;
    if line == "" {
    } else {
      FirstBreakAt(line[1..], rest);
      assert s[1..] == line[1..] + "\n" + rest && s[0] == line[0];
    }
  }

  // Empty lines are ignored, so a run of breaks is one break.
  lemma {:induction false} FeedSkips(m: Machine, text: string)
    ensures Feed(m, SkipBreaks(text)) == Feed(m, text)
  {
    if text != "" && IsBreak(text[0]) {
      assert text[..0] == "" && text[1..] == text[0 + 1..];
      assert SplitLines(text)[1..] == SplitLines(SkipBreaks(text[1..]));
      assert Strip("") == "";
    }
  }

  /** The parser takes the text line by line. */
  lemma {:induction false} FeedLine(m: Machine, line: string, rest: string)
    requires OneLine(line)
    ensures Feed(m, line + "\n" + rest) == Feed(Step(m, Strip(line)), rest)
  {
    hide Step, Strip;
    var s := line + "\n" + rest;
    FirstBreakAt(line, rest);
    assert s[..|line|] == line && s[|line| + 1..] == rest;
    assert SplitLines(s)[1..] == SplitLines(SkipBreaks(rest));
    FeedSkips(Step(m, Strip(line)), rest);
  }

  // ---- Comment lines ----

  lemma {:induction false} NoEndPrefix(s: string, k: nat)
    requires !HasEnd(s) && k <= |s|
    ensures !HasEnd(s[..k])
  {
    if k < 2 {
    } else {
      NoEndPrefix(s[1..], k - 1);
      assert s[..k][1..] == s[1..][..k - 1];
    }
  }

  lemma {:induction false} NoEndStar(x: string)
    requires !HasEnd(x)
    ensures !HasEnd("* " + x) && !HasEnd("*")
  {
    assert ("* " + x)[1..] == " " + x && (" " + x)[1..] == x;
  }

  lemma {:induction false} StripStar(x: string)
    ensures Strip(" * " + x) == "*" + StripRight(" " + x)
  {
    var s := " * " + x;
    assert s[0] == ' ' && IsSpace(' ') && s[1..] == "*" + (" " + x);
    assert StripLeft(s) == StripLeft(s[1..]) == s[1..];
    StripRightBehind("*", " " + x);
  }

  // The content of a printed comment line is the stripped text.
  lemma {:induction false} PrintedContent(x: string)
    requires !HasEnd(x)
    ensures var line := Strip(" * " + x);
      line != "" && !StartsComment(line) && CommentEnd(line) == None && CommentContent(line) == Some(Strip(x))
  {
    StripStar(x);
    var line := "*" + StripRight(" " + x);
    StripRightPrefix(" " + x);
    NoEndStar(x);
    assert "* " + x == "*" + (" " + x);
    assert line == ("* " + x)[..|line|];
    NoEndPrefix("* " + x, |line|);
    assert line[1..] == StripRight(" " + x);
    StripEitherOrder(" " + x);
    assert (" " + x)[1..] == x;
  }

  // A comment line with its content, once a line can have failed.
  function Content(m: Machine, x: string): Machine { if m.Running? then StepContent(m, Strip(x)) else m }

  lemma {:induction false} PrintedLine(m: Machine, x: string)
    requires !HasEnd(x) && (m.Running? ==> InComment(m.state))
    ensures Step(m, Strip(" * " + x)) == Content(m, x)
  {
    hide StepContent, Strip, CommentEnd, CommentContent, StartsComment;
    PrintedContent(x);
  }

  lemma {:induction false} ContentStays(m: Machine, x: string)
    requires m.Running? ==> InComment(m.state)
    ensures Content(m, x).Running? ==> InComment(Content(m, x).state)
  {
    hide IsTag, TagName, TagText, SplitOnce, Put;
  }

  function Contents(m: Machine, lines: seq<string>): Machine {
    if lines == [] then m else Content(Contents(m, lines[..|lines| - 1]), lines[|lines| - 1])
  }

  lemma {:induction false} ContentsStay(m: Machine, lines: seq<string>)
    requires m.Running? ==> InComment(m.state)
    ensures Contents(m, lines).Running? ==> InComment(Contents(m, lines).state)
  {
    hide Content;
    if lines == [] {
    } else {
      ContentsStay(m, lines[..|lines| - 1]);
      ContentStays(Contents(m, lines[..|lines| - 1]), lines[|lines| - 1]);
    }
  }

  // Text that can stand on a comment line.
  predicate Plain(s: string) { OneLine(s) && !HasEnd(s) }

  predicate AllPlain(lines: seq<string>) { forall i :: 0 <= i < |lines| ==> Plain(lines[i]) }

  lemma {:induction false} FeedContent(m: Machine, x: string, rest: string)
    requires Plain(x) && (m.Running? ==> InComment(m.state))
    ensures Feed(m, " * " + x + "\n" + rest) == Feed(Content(m, x), rest)
  {
    hide Feed, Content, Step, Strip;
    FeedLine(m, " * " + x, rest);
    PrintedLine(m, x);
  }

  /** A block of comment lines is read line by line. */
  lemma {:induction false} FeedBlock(m: Machine, lines: seq<string>, rest: string)
    requires lines != [] && AllPlain(lines) && (m.Running? ==> InComment(m.state))
    ensures Feed(m, " * " + JoinTags(lines) + "\n" + rest) == Feed(Contents(m, lines), rest)
    decreases |lines|
  {
    hide Feed, Content, Plain;
    if |lines| == 1 {
      assert lines[..0] == [];
      FeedContent(m, lines[0], rest);
    } else {
      var front, last := lines[..|lines| - 1], lines[|lines| - 1];
      var more := " * " + last + "\n" + rest;
      Regroup(JoinTags(front), last, rest);
      FeedBlock(m, front, more);
      ContentsStay(m, front);
      FeedContent(Contents(m, front), last, rest);
    }
  }

  lemma {:induction false} Regroup(front: string, last: string, rest: string)
    ensures " * " + (front + "\n * " + last) + "\n" + rest == " * " + front + "\n" + (" * " + last + "\n" + rest)
  {
    assert "\n * " == "\n" + " * ";
  }

  // ---- Tags ----

  predicate AllWord(w: string) { forall i :: 0 <= i < |w| ==> IsWord(w[i]) }

  lemma {:induction false} WordCountExact(w: string, t: string)
    requires AllWord(w) && (t == "" || !IsWord(t[0]))
    ensures WordCount(w + t) == |w|
  {
    if w == "" {
      assert w + t == t;
    } else {
      WordCountExact(w[1..], t);
      assert (w + t)[1..] == w[1..] + t && IsWord(w[0]);
    }
  }

  // A tag line is read as its name and its stripped text.
  lemma {:induction false} TagRead(w: string, x: string)
    requires AllWord(w) && w != "" && IsLetter(w[0])
    ensures var content := Strip(PlainTag(w, x));
      IsTag(content) && TagName(content) == w && TagText(content) == Strip(x)
  {
    var head, tail := "@" + w, StripRight(" " + x);
    assert PlainTag(w, x) == head + (" " + x);
    assert IsWord(w[|w| - 1]) && head[|head| - 1] == w[|w| - 1];
    StripRightBehind(head, " " + x);
    var content := head + tail;
    assert Strip(PlainTag(w, x)) == content;
    StripRightPrefix(" " + x);
    WordCountExact(w, tail);
    assert content[1..] == w + tail;
    StripEitherOrder(" " + x);
    assert (" " + x)[1..] == x;
  }

  /** After the group tag: what the tags have filled in so far. */
  predicate Reading(m: Machine, short: Option<string>, long: Option<string>, tags: map<string, string>,
                    values: seq<(string, string)>, bits: seq<(string, string)>, groups: map<string, seq<Parameter>>)
  {
    && m.Running? && m.state == WaitTagEnd && m.groups == groups
    && m.comment == Comment(short, long, tags, values, bits, m.comment.current)
  }

  lemma {:induction false} ReadTag(m: Machine, w: string, x: string)
    requires m.Running? && AllWord(w) && w != "" && IsLetter(w[0]) && w != "value" && w != "bit"
    ensures var c := m.comment;
      Reading(Content(m, PlainTag(w, x)), c.short, c.long, c.tags[w := Strip(x)], c.values, c.bits, m.groups)
  {
    hide Strip, IsTag, TagName, TagText, PlainTag, AllWord, IsLetter;
    TagRead(w, x);
    TagNotEmpty(Strip(PlainTag(w, x)));
  }

  lemma {:induction false} TagNotEmpty(content: string)
    ensures IsTag(content) ==> content != ""
  {
  }

  predicate NoSpace(s: string) { forall i :: 0 <= i < |s| ==> !IsSpace(s[i]) }

  lemma {:induction false} FirstSpaceAt(key: string, t: string)
    requires NoSpace(key)
    ensures FirstSpace(key + " " + t) == |key|
  {
    var s := key + " " + t;
    if key == "" {
    } else {
      FirstSpaceAt(key[1..], t);
      assert s[1..] == key[1..] + " " + t && s[0] == key[0] && IsSpace(' ');
    }
  }

  lemma {:induction false} EntryStripped(key: string, text: string)
    requires key != "" && NoSpace(key) && !Blank(text)
    ensures Strip(key + " " + text) == key + " " + StripRight(text)
  {
    hide StripRight;
    StripBlank(text);
    StripRightCons(' ', text);
    var tail := StripRight(" " + text);
    assert tail == " " + StripRight(text);
    assert !IsSpace(key[0]) && !IsSpace(key[|key| - 1]);
    StripRightBehind(key, " " + text);
    assert key + " " + text == key + (" " + text);
    assert StripLeft(key + " " + text) == key + " " + text;
    assert key + tail == key + " " + StripRight(text);
  }

  // A key and a description that is not blank come apart at the first space.
  lemma {:induction false} EntryRead(key: string, text: string)
    requires key != "" && NoSpace(key) && !Blank(text)
    ensures SplitOnce(Strip(key + " " + text)) == Some((key, StripRight(text)))
  {
    hide Strip, StripRight, Blank;
    EntryStripped(key, text);
    FirstSpaceAt(key, StripRight(text));
    var t := key + " " + StripRight(text);
    assert t[..|key|] == key && t[|key| + 1..] == StripRight(text);
  }

  lemma {:induction false} ReadEntry(m: Machine, w: string, key: string, text: string)
    requires m.Running? && (w == "value" || w == "bit") && key != "" && NoSpace(key) && !Blank(text)
    ensures var c := m.comment;
      Reading(Content(m, PlainTag(w, key + " " + text)), c.short, c.long, c.tags,
              if w == "value" then Put(c.values, key, StripRight(text)) else c.values,
              if w == "bit" then Put(c.bits, key, StripRight(text)) else c.bits, m.groups)
  {
    hide Strip, StripRight, IsTag, TagName, TagText, PlainTag, AllWord, IsLetter, SplitOnce, Put;
    WordsAreWords();
    TagRead(w, key + " " + text);
    TagNotEmpty(Strip(PlainTag(w, key + " " + text)));
    EntryRead(key, text);
  }

  lemma {:induction false} WordsAreWords()
    ensures AllWord("value") && IsLetter("value"[0]) && AllWord("bit") && IsLetter("bit"[0])
    ensures AllWord("group") && IsLetter("group"[0]) && AllWord("boolean") && IsLetter("boolean"[0])
    ensures forall i :: 0 <= i < |TagOrder()| ==>
      TagOrder()[i] != "" && AllWord(TagOrder()[i]) && IsLetter(TagOrder()[i][0])
  {
  }

  // ---- All tags of a definition ----

  lemma {:induction false} ContentsConcat(m: Machine, a: seq<string>, b: seq<string>)
    ensures Contents(m, a + b) == Contents(Contents(m, a), b)
  {
    hide Content;
    if b == [] {
      assert a + b == a;
    } else {
      ContentsConcat(m, a, b[..|b| - 1]);
      assert (a + b)[..|a + b| - 1] == a + b[..|b| - 1];
    }
  }

  lemma {:induction false} ContentsOne(m: Machine, x: string)
    ensures Contents(m, [x]) == Content(m, x)
  {
    assert [x][..0] == [];
  }

  function ValuePairs(values: seq<Value>): seq<(string, string)> {
    if values == [] then []
    else ValuePairs(values[..|values| - 1]) + [(values[|values| - 1].key, StripRight(values[|values| - 1].text))]
  }

  function BitPairs(bits: seq<Bit>): seq<(string, string)> {
    if bits == [] then []
    else BitPairs(bits[..|bits| - 1]) + [(Decimal.Print(bits[|bits| - 1].index), StripRight(bits[|bits| - 1].text))]
  }

  predicate ValueOk(v: Value) { v.key != "" && NoSpace(v.key) && Plain(v.key) && !Blank(v.text) && Plain(v.text) }

  predicate ValuesOk(values: seq<Value>) {
    && (forall i :: 0 <= i < |values| ==> ValueOk(values[i]))
    && forall i, j :: 0 <= i < j < |values| ==> values[i].key != values[j].key
  }

  predicate BitsOk(bits: seq<Bit>) {
    && (forall i :: 0 <= i < |bits| ==> !Blank(bits[i].text) && Plain(bits[i].text))
    && forall i, j :: 0 <= i < j < |bits| ==> bits[i].index != bits[j].index
  }

  lemma {:induction false} PutNew(entries: seq<(string, string)>, key: string, value: string)
    requires forall i :: 0 <= i < |entries| ==> entries[i].0 != key
    ensures Put(entries, key, value) == entries + [(key, value)]
  {
    if entries == [] {
    } else {
      PutNew(entries[1..], key, value);
      assert entries == [entries[0]] + entries[1..];
    }
  }

  lemma {:induction false} ValuePairsAt(values: seq<Value>)
    ensures |ValuePairs(values)| == |values|
    ensures forall i :: 0 <= i < |values| ==> ValuePairs(values)[i] == (values[i].key, StripRight(values[i].text))
  {
    if values == [] {
    } else {
      ValuePairsAt(values[..|values| - 1]);
    }
  }

  lemma {:induction false} BitPairsAt(bits: seq<Bit>)
    ensures |BitPairs(bits)| == |bits|
    ensures forall i :: 0 <= i < |bits| ==>
      BitPairs(bits)[i] == (Decimal.Print(bits[i].index), StripRight(bits[i].text))
  {
    hide StripRight, Decimal.Print;
    if bits == [] {
    } else {
      BitPairsAt(bits[..|bits| - 1]);
    }
  }

  lemma {:induction false} ValueTagIs(v: Value)
    ensures ValueTag(v) == PlainTag("value", v.key + " " + v.text)
  {
    assert "@value " == "@" + "value" + " ";
    assert "@value " + (v.key + " " + v.text) == "@value " + v.key + " " + v.text;
  }

  lemma {:induction false} BitTagIs(b: Bit)
    ensures BitTag(b) == PlainTag("bit", Decimal.Print(b.index) + " " + b.text)
  {
    var key := Decimal.Print(b.index);
    assert "@bit " == "@" + "bit" + " ";
    assert "@bit " + (key + " " + b.text) == "@bit " + key + " " + b.text;
  }

  lemma {:induction false} ReadValues(m: Machine, values: seq<Value>, short: Option<string>, long: Option<string>,
                                      tags: map<string, string>, groups: map<string, seq<Parameter>>)
    requires Reading(m, short, long, tags, [], [], groups) && ValuesOk(values)
    ensures Reading(Contents(m, ValueTags(values)), short, long, tags, ValuePairs(values), [], groups)
  {
    hide Content, PlainTag, ValueTag, NoSpace, Blank, Plain, StripRight, Put;
    if values == [] {
    } else {
      var front, v := values[..|values| - 1], values[|values| - 1];
      ReadValues(m, front, short, long, tags, groups);
      var before := Contents(m, ValueTags(front));
      assert ValueTags(values)[..|ValueTags(front)|] == ValueTags(front);
      assert ValueOk(v);
      ValueTagIs(v);
      ReadEntry(before, "value", v.key, v.text);
      ValuePairsAt(front);
      assert forall i :: 0 <= i < |front| ==> front[i] == values[i];
      PutNew(ValuePairs(front), v.key, StripRight(v.text));
    }
  }

  lemma {:induction false} DigitsAreNotSpace(n: nat)
    ensures NoSpace(Decimal.Print(n)) && Plain(Decimal.Print(n))
  {
    var s := Decimal.Print(n);
    forall i | 0 <= i < |s|
      ensures !IsSpace(s[i]) && !IsBreak(s[i]) && s[i] != '*'
    {
      assert Decimal.IsDigit(s[i]);
    }
    NoStarNoEnd(s);
  }

  lemma {:induction false} NoStarNoEnd(s: string)
    requires forall i :: 0 <= i < |s| ==> s[i] != '*'
    ensures !HasEnd(s)
  {
    if |s| < 2 {
    } else {
      NoStarNoEnd(s[1..]);
    }
  }

  lemma {:induction false} ReadBits(m: Machine, bits: seq<Bit>, short: Option<string>, long: Option<string>,
                                    tags: map<string, string>, groups: map<string, seq<Parameter>>)
    requires Reading(m, short, long, tags, [], [], groups) && BitsOk(bits)
    ensures Reading(Contents(m, BitTags(bits)), short, long, tags, [], BitPairs(bits), groups)
  {
    hide Content, PlainTag, BitTag, NoSpace, Blank, Plain, StripRight, Put;
    if bits == [] {
    } else {
      var front, b := bits[..|bits| - 1], bits[|bits| - 1];
      ReadBits(m, front, short, long, tags, groups);
      var before, key := Contents(m, BitTags(front)), Decimal.Print(b.index);
      assert BitTags(bits)[..|BitTags(front)|] == BitTags(front);
      BitTagIs(b);
      DigitsAreNotSpace(b.index);
      ReadEntry(before, "bit", key, b.text);
      BitPairsAt(front);
      forall i | 0 <= i < |front|
        ensures BitPairs(front)[i].0 != key
      {
        assert front[i] == bits[i];
        if Decimal.Print(front[i].index) == key {
          Decimal.PrintInjective(front[i].index, b.index);
        }
      }
      PutNew(BitPairs(front), key, StripRight(b.text));
    }
  }

  // The tags a kind adds to the dictionary.
  function KindMap(tags: map<string, string>, kind: Kind): map<string, string> {
    match kind
    case Bitmask(bits) => tags["min" := "0"]["max" := PrintInt(MaxValue(bits))]
    case Boolean => tags["boolean" := ""]
    case _ => tags
  }

  function KindValues(kind: Kind): seq<(string, string)> {
    if kind.Enum? || kind.Float? then ValuePairs(SortByNumber(kind.values)) else []
  }

  function KindBits(kind: Kind): seq<(string, string)> { if kind.Bitmask? then BitPairs(kind.bits) else [] }

  predicate KindOk(kind: Kind) {
    match kind
    case Enum(values) => ValuesOk(values)
    case Float(values) => ValuesOk(values)
    case Bitmask(bits) => bits != [] && BitsOk(bits)
    case _ => true
  }

  predicate Fresh(key: string, values: seq<Value>) { forall i :: 0 <= i < |values| ==> values[i].key != key }

  lemma {:induction false} InsertFresh(key: string, v: Value, sorted: seq<Value>)
    requires Fresh(key, sorted) && v.key != key
    ensures Fresh(key, InsertValue(v, sorted))
  {
    if sorted == [] || v.number <= sorted[0].number {
    } else {
      InsertFresh(key, v, sorted[1..]);
    }
  }

  lemma {:induction false} InsertOk(v: Value, sorted: seq<Value>)
    requires ValueOk(v) && Fresh(v.key, sorted) && ValuesOk(sorted)
    ensures ValuesOk(InsertValue(v, sorted))
  {
    hide ValueOk;
    if sorted == [] || v.number <= sorted[0].number {
    } else {
      InsertOk(v, sorted[1..]);
      InsertFresh(sorted[0].key, v, sorted[1..]);
    }
  }

  lemma {:induction false} SortFresh(key: string, values: seq<Value>)
    requires Fresh(key, values)
    ensures Fresh(key, SortByNumber(values))
  {
    if values == [] {
    } else {
      SortFresh(key, values[1..]);
      InsertFresh(key, values[0], SortByNumber(values[1..]));
    }
  }

  lemma {:induction false} SortOk(values: seq<Value>)
    requires ValuesOk(values)
    ensures ValuesOk(SortByNumber(values))
  {
    hide ValueOk;
    if values == [] {
    } else {
      SortOk(values[1..]);
      SortFresh(values[0].key, values[1..]);
      InsertOk(values[0], SortByNumber(values[1..]));
    }
  }

  lemma {:induction false} MaxIsTrimmed(bits: seq<Bit>)
    ensures Strip(PrintInt(MaxValue(bits))) == PrintInt(MaxValue(bits)) && Strip("0") == "0"
  {
    Pow2Grows(0, MaxBit(bits) + 1);
    DigitsAreNotSpace(MaxValue(bits));
    StripTrimmed(PrintInt(MaxValue(bits)));
    StripTrimmed("0");
  }

  lemma {:induction false} BooleanTag(m: Machine)
    ensures Content(m, "@boolean") == Content(m, PlainTag("boolean", ""))
  {
    hide StepContent;
    assert PlainTag("boolean", "") == "@boolean" + " ";
    StripRightBehind("@boolean", " ");
    assert " "[..0] == "" && StripRight(" ") == StripRight("") == "";
    assert "@boolean" + "" == "@boolean";
  }

  lemma {:induction false} ReadKind(m: Machine, kind: Kind, short: Option<string>, long: Option<string>,
                                    tags: map<string, string>, groups: map<string, seq<Parameter>>)
    requires Reading(m, short, long, tags, [], [], groups) && KindOk(kind)
    ensures Reading(Contents(m, KindTags(kind)), short, long, KindMap(tags, kind), KindValues(kind), KindBits(kind),
                    groups)
  {
    hide Content, PlainTag, ValuesOk, BitsOk, ValueTags, BitTags, ValuePairs, BitPairs, PrintInt, Strip, Contents;
    WordsAreWords();
    match kind
    case Enum(values) =>
      SortOk(values);
      ReadValues(m, SortByNumber(values), short, long, tags, groups);
    case Float(values) =>
      SortOk(values);
      ReadValues(m, SortByNumber(values), short, long, tags, groups);
    case Bitmask(bits) =>
      ReadBits(m, bits, short, long, tags, groups);
      ReadLimits(Contents(m, BitTags(bits)), bits, short, long, tags, groups);
      ContentsConcat(m, BitTags(bits), ["@min 0", "@max " + PrintInt(MaxValue(bits))]);
    case Boolean =>
      BooleanTag(m);
      ContentsOne(m, "@boolean");
      ReadTag(m, "boolean", "");
      assert Strip("") == "" by { StripTrimmed(""); }
    case Int32 =>
      NoContents(m);
  }

  lemma {:induction false} NoContents(m: Machine)
    ensures Contents(m, []) == m
  {
  }

  lemma {:induction false} ReadLimits(m: Machine, bits: seq<Bit>, short: Option<string>, long: Option<string>,
                                      tags: map<string, string>, groups: map<string, seq<Parameter>>)
    requires Reading(m, short, long, tags, [], BitPairs(bits), groups)
    ensures Reading(Contents(m, ["@min 0", "@max " + PrintInt(MaxValue(bits))]), short, long,
                    tags["min" := "0"]["max" := PrintInt(MaxValue(bits))], [], BitPairs(bits), groups)
  {
    hide Content, BitPairs, PrintInt, Strip, MaxValue, PlainTag, Contents;
    var max := PrintInt(MaxValue(bits));
    MaxIsTrimmed(bits);
    LimitWords(max);
    ReadTag(m, "min", "0");
    var next := Content(m, "@min 0");
    ReadTag(next, "max", max);
    ContentsOne(m, "@min 0");
    ContentsOne(next, "@max " + max);
    ContentsConcat(m, ["@min 0"], ["@max " + max]);
    assert ["@min 0"] + ["@max " + max] == ["@min 0", "@max " + max];
  }

  lemma {:induction false} LimitWords(max: string)
    ensures AllWord("min") && IsLetter("min"[0]) && AllWord("max") && IsLetter("max"[0])
    ensures PlainTag("min", "0") == "@min 0" && PlainTag("max", max) == "@max " + max
  {
    assert "@max " == "@" + "max" + " ";
  }

  // The optional tags override what the kind put in.
  function ExtraMap(tags: map<string, string>, extra: map<string, string>, order: seq<string>): map<string, string> {
    if order == [] then tags
    else
      var rest, tag := ExtraMap(tags, extra, order[..|order| - 1]), order[|order| - 1];
      if tag in extra then rest[tag := Strip(extra[tag])] else rest
  }

  lemma {:induction false} ReadExtra(m: Machine, extra: map<string, string>, order: seq<string>,
                                     short: Option<string>, long: Option<string>, tags: map<string, string>,
                                     values: seq<(string, string)>, bits: seq<(string, string)>,
                                     groups: map<string, seq<Parameter>>)
    requires Reading(m, short, long, tags, values, bits, groups)
    requires forall i :: 0 <= i < |order| ==>
      order[i] != "" && AllWord(order[i]) && IsLetter(order[i][0]) && order[i] != "value" && order[i] != "bit"
    ensures Reading(Contents(m, ExtraTags(extra, order)), short, long, ExtraMap(tags, extra, order), values, bits,
                    groups)
  {
    hide Content, PlainTag, Strip, AllWord, IsLetter;
    if order == [] {
    } else {
      var front, tag := order[..|order| - 1], order[|order| - 1];
      ReadExtra(m, extra, front, short, long, tags, values, bits, groups);
      if tag in extra {
        ReadTag(Contents(m, ExtraTags(extra, front)), tag, extra[tag]);
        assert ExtraTags(extra, order)[..|ExtraTags(extra, front)|] == ExtraTags(extra, front);
      } else {
        assert ExtraTags(extra, order) == ExtraTags(extra, front);
      }
    }
  }

  function ExpectedTags(d: Definition): map<string, string> {
    ExtraMap(KindMap(map["group" := Strip(d.group)], d.kind), d.tags, TagOrder())
  }

  /** All tag lines of a definition. */
  lemma {:induction false} ReadTags(m: Machine, d: Definition)
    requires m.Running? && m.comment.tags == map[] && m.comment.values == [] && m.comment.bits == []
    requires KindOk(d.kind)
    ensures Reading(Contents(m, TagLines(d)), m.comment.short, m.comment.long, ExpectedTags(d), KindValues(d.kind),
                    KindBits(d.kind), m.groups)
  {
    hide Content, Contents, PlainTag, Strip, KindOk, KindTags, KindMap, KindValues, KindBits, ExtraTags, ExtraMap;
    hide AllWord, IsLetter;
    var group, kind, extra := [PlainTag("group", d.group)], KindTags(d.kind), ExtraTags(d.tags, TagOrder());
    var short, long := m.comment.short, m.comment.long;
    WordsAreWords();
    ReadTag(m, "group", d.group);
    ContentsOne(m, PlainTag("group", d.group));
    var one := Contents(m, group);
    ReadKind(one, d.kind, short, long, map["group" := Strip(d.group)], m.groups);
    var two := Contents(one, kind);
    ReadExtra(two, d.tags, TagOrder(), short, long, KindMap(map["group" := Strip(d.group)], d.kind),
              KindValues(d.kind), KindBits(d.kind), m.groups);
    ContentsConcat(m, group, kind);
    ContentsConcat(m, group + kind, extra);
  }
}

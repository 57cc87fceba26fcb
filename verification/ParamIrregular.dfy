/** What the parser makes of text that the printer does not write: definitions without a comment of their own, comments
    that break off, texts it refuses, and every spelling of a definition line. */
module ParamIrregular {

  import opened Basics
  import opened Whitespace
  import opened ParamText
  import opened ParamParser
  import opened ParamReading
  import opened ParamRoundTrip

  // ---- What is cut off ----

  lemma {:induction false} StripLeftMeans(s: string)
    ensures var k := |s| - |StripLeft(s)|;
      && 0 <= k && Blank(s[..k]) && s == s[..k] + StripLeft(s)
      && (StripLeft(s) != "" ==> !IsSpace(StripLeft(s)[0]))
  {
    hide IsSpace, Blank;
    if s == "" || !IsSpace(s[0]) {
      NothingBlank();
      assert s == "" + s && s[..0] == "";
    } else {
      StripLeftMeans(s[1..]);
      var k := |s| - |StripLeft(s)|;
      var front := s[1..][..k - 1];
      BlankCons(s[0], front);
      Assoc([s[0]], front, StripLeft(s));
      assert s == [s[0]] + s[1..] && s[..k] == [s[0]] + front;
    }
  }

  lemma {:induction false} NothingBlank()
    ensures Blank("")
  {
  }

  lemma {:induction false} BlankCons(c: char, w: string)
    requires IsSpace(c) && Blank(w)
    ensures Blank([c] + w)
  {
    hide IsSpace;
  }

  lemma {:induction false} StripRightMeans(s: string)
    ensures var k := |StripRight(s)|;
      && k <= |s| && Blank(s[k..]) && s == StripRight(s) + s[k..]
      && (StripRight(s) != "" ==> !IsSpace(StripRight(s)[k - 1]))
  {
    hide IsSpace;
    if s == "" || !IsSpace(s[|s| - 1]) {
      assert s == s + "" && s[|s|..] == "";
    } else {
      var n := |s| - 1;
      StripRightMeans(s[..n]);
      var k := |StripRight(s)|;
      assert s == s[..n] + [s[n]] && s[k..] == s[..n][k..] + [s[n]];
    }
  }

  /** Stripping takes exactly the blanks off both ends. */
  lemma {:induction false} StripMeans(s: string) returns (a: string, b: string)
    ensures s == a + Strip(s) + b && Blank(a) && Blank(b) && Trimmed(Strip(s))
  {
    hide StripLeft, StripRight, IsSpace, Blank;
    StripLeftMeans(s);
    StripRightMeans(StripLeft(s));
    var t := StripLeft(s);
    var r := StripRight(t);
    a, b := s[..|s| - |t|], t[|r|..];
    Assoc(a, r, b);
    assert r != "" ==> r[0] == (r + b)[0] == t[0];
  }

  /** All dots at the end are removed and nothing else. */
  lemma {:induction false} DropDotsMeans(s: string)
    ensures DropDots(s) <= s && (DropDots(s) == "" || DropDots(s)[|DropDots(s)| - 1] != '.')
    ensures forall i :: |DropDots(s)| <= i < |s| ==> s[i] == '.'
  {
    if s == "" || s[|s| - 1] != '.' {
    } else {
      DropDotsMeans(s[..|s| - 1]);
    }
  }

  /** So are all line breaks at the end of a long text. */
  lemma {:induction false} DropNewlinesMeans(s: string)
    ensures DropNewlines(s) <= s && (DropNewlines(s) == "" || DropNewlines(s)[|DropNewlines(s)| - 1] != '\n')
    ensures forall i :: |DropNewlines(s)| <= i < |s| ==> s[i] == '\n'
  {
    if s == "" || s[|s| - 1] != '\n' {
    } else {
      DropNewlinesMeans(s[..|s| - 1]);
    }
  }

  lemma {:induction false} DropLowerMeans(s: string)
    ensures DropLower(s) <= s && (DropLower(s) == "" || !('a' <= DropLower(s)[|DropLower(s)| - 1] <= 'z'))
    ensures forall i :: |DropLower(s)| <= i < |s| ==> 'a' <= s[i] <= 'z'
  {
    if s == "" || !('a' <= s[|s| - 1] <= 'z') {
    } else {
      DropLowerMeans(s[..|s| - 1]);
    }
  }

  /** The default value looks like a number. */
  predicate NumberLike(s: string) {
    || (s != "" && ('0' <= s[0] <= '9' || s[0] == '.'))
    || (|s| >= 2 && s[0] == '-' && ('0' <= s[1] <= '9' || s[1] == '.'))
  }

  /** A number loses the small letters at its end, and another default value stays as it is. */
  lemma {:induction false} CutTypeMeans(s: string)
    ensures !NumberLike(s) ==> CutType(s) == s
    ensures NumberLike(s) ==>
      && CutType(s) <= s && (forall i :: |CutType(s)| <= i < |s| ==> 'a' <= s[i] <= 'z')
      && CutType(s) != "" && !('a' <= CutType(s)[|CutType(s)| - 1] <= 'z')
  {
    DropLowerMeans(s);
  }

  // ---- Definition lines ----

  /** A definition line in any spelling: blanks may stand before each of the four signs and before the default value. */
  ghost predicate DefineLine(line: string, f: Match, blanks: seq<string>, tail: string) {
    && |blanks| == 5 && (forall i :: 0 <= i < 5 ==> Blank(blanks[i])) && (blanks[3] == "" || blanks[3][0] == ' ')
    && NameOk(f.kind) && NameOk(f.name)
    && f.default != "" && !IsSpace(f.default[0]) && (forall i :: 0 <= i < |f.default| ==> f.default[i] !in " ,)")
    && line == "PARAM_DEFINE_" + (f.kind + (blanks[0] + ("(" + (f.name + (blanks[1] + ("," + (blanks[2]
               + (f.default + (blanks[3] + (")" + (blanks[4] + (";" + tail))))))))))))
  }

  lemma {:induction false} StripLeftBlank(w: string, t: string)
    requires Blank(w) && (t == "" || !IsSpace(t[0]))
    ensures StripLeft(w + t) == t
  {
    if w == "" {
      assert w + t == t;
    } else {
      StripLeftBlank(w[1..], t);
      assert (w + t)[1..] == w[1..] + t;
    }
  }

  lemma {:induction false} AfterBlank(w: string, c: char, t: string)
    requires Blank(w) && !IsSpace(c)
    ensures After(w + ([c] + t), c) == Some(t)
  {
    StripLeftBlank(w, [c] + t);
    assert ([c] + t)[1..] == t;
  }

  lemma {:induction false} AfterMeans(s: string, c: char)
    ensures After(s, c).Some? ==>
      var k := |s| - |StripLeft(s)|; 0 <= k && Blank(s[..k]) && s == s[..k] + ([c] + After(s, c).value)
  {
    StripLeftMeans(s);
    var t := StripLeft(s);
    assert t != "" ==> t == [t[0]] + t[1..];
  }

  // The end of the line: comma, default value, parenthesis, semicolon.
  ghost predicate DefaultEnd(s: string, default: string, w1: string, w2: string, w3: string, w4: string, tail: string) {
    && Blank(w1) && Blank(w2) && Blank(w3) && Blank(w4) && (w3 == "" || w3[0] == ' ')
    && default != "" && !IsSpace(default[0]) && (forall i :: 0 <= i < |default| ==> default[i] !in " ,)")
    && s == w1 + ("," + (w2 + (default + (w3 + (")" + (w4 + (";" + tail)))))))
  }

  lemma {:induction false} EndMatched(s: string, default: string, w1: string, w2: string, w3: string, w4: string,
                                      tail: string)
    requires DefaultEnd(s, default, w1, w2, w3, w4, tail)
    ensures MatchDefault(s) == Some(default)
  {
    hide StripLeft, DefaultCount, IsSpace;
    NotSpaces();
    var closing := w4 + (";" + tail);
    var close := w3 + (")" + closing);
    var value := default + close;
    AfterBlank(w1, ',', w2 + value);
    assert value[0] == default[0];
    StripLeftBlank(w2, value);
    assert close[0] == if w3 == "" then ')' else ' ';
    assert forall i :: 0 <= i < |default| ==> IsDefaultChar(default[i]);
    DefaultCountExact(default, close);
    assert value[..|default|] == default && value[|default|..] == close;
    AfterBlank(w3, ')', closing);
    AfterBlank(w4, ';', tail);
  }

  lemma {:induction false} NotSpaces()
    ensures !IsSpace('(') && !IsSpace(',') && !IsSpace(')') && !IsSpace(';') && IsSpace(' ')
  {
  }

  lemma {:induction false} DefaultCountMeans(s: string)
    ensures forall i :: 0 <= i < DefaultCount(s) ==> IsDefaultChar(s[i])
    ensures DefaultCount(s) < |s| ==> !IsDefaultChar(s[DefaultCount(s)])
  {
    if s == "" || !IsDefaultChar(s[0]) {
    } else {
      DefaultCountMeans(s[1..]);
      assert forall i :: 0 < i < DefaultCount(s) ==> s[i] == s[1..][i - 1];
    }
  }

  lemma {:induction false} Assembled(s: string, rest: string, t: string, close: string, default: string, w1: string,
                                     w2: string, w3: string, w4: string, tail: string)
    requires s == w1 + ("," + rest) && rest == w2 + t && t == default + close
    requires close == w3 + (")" + (w4 + (";" + tail)))
    requires Blank(w1) && Blank(w2) && Blank(w3) && Blank(w4) && (w3 == "" || w3[0] == ' ')
    requires default != "" && !IsSpace(default[0]) && forall i :: 0 <= i < |default| ==> default[i] !in " ,)"
    ensures DefaultEnd(s, default, w1, w2, w3, w4, tail)
  {
    hide Blank, IsSpace;
  }

  lemma {:induction false} ValueShape(rest: string) returns (w: string, default: string, close: string)
    requires DefaultCount(StripLeft(rest)) > 0
    ensures var t, n := StripLeft(rest), DefaultCount(StripLeft(rest));
      && n <= |t| && default == t[..n] && close == t[n..] && rest == w + t && t == default + close && Blank(w)
      && default != "" && !IsSpace(default[0]) && (forall i :: 0 <= i < |default| ==> default[i] !in " ,)")
      && (close != "" ==> !IsDefaultChar(close[0]))
  {
    hide StripLeft, DefaultCount, IsSpace, Blank, IsDefaultChar;
    StripLeftMeans(rest);
    var t := StripLeft(rest);
    w := rest[..|rest| - |t|];
    var n := DefaultCount(t);
    DefaultCountMeans(t);
    default, close := t[..n], t[n..];
    assert default[0] == t[0];
    DefaultChars(default);
  }

  lemma {:induction false} EndShape(s: string)
    returns (w1: string, w2: string, w3: string, w4: string, tail: string)
    requires MatchDefault(s).Some?
    ensures DefaultEnd(s, MatchDefault(s).value, w1, w2, w3, w4, tail)
  {
    hide StripLeft, DefaultCount, IsSpace, Blank, IsDefaultChar, After, DefaultEnd;
    AfterMeans(s, ',');
    w1 := s[..|s| - |StripLeft(s)|];
    var rest := After(s, ',').value;
    var default, close;
    w2, default, close := ValueShape(rest);
    w3, w4, tail := CloseShape(close);
    Assembled(s, rest, StripLeft(rest), close, default, w1, w2, w3, w4, tail);
  }

  lemma {:induction false} CloseShape(close: string) returns (w3: string, w4: string, tail: string)
    requires close != "" ==> !IsDefaultChar(close[0])
    requires After(close, ')').Some? && After(After(close, ')').value, ';').Some?
    ensures close == w3 + (")" + (w4 + (";" + tail))) && Blank(w3) && Blank(w4) && (w3 == "" || w3[0] == ' ')
  {
    hide StripLeft, IsSpace, Blank, IsDefaultChar, After;
    AfterMeans(close, ')');
    w3 := close[..|close| - |StripLeft(close)|];
    var closing := After(close, ')').value;
    AfterMeans(closing, ';');
    w4, tail := closing[..|closing| - |StripLeft(closing)|], After(closing, ';').value;
    BlankDefault(w3, close);
  }

  // A blank that ends the default value is a space.
  lemma {:induction false} BlankDefault(w: string, close: string)
    requires Blank(w) && w <= close && (close != "" ==> !IsDefaultChar(close[0]))
    ensures w == "" || w[0] == ' '
  {
  }

  lemma {:induction false} DefaultChars(s: string)
    requires forall i :: 0 <= i < |s| ==> IsDefaultChar(s[i])
    ensures forall i :: 0 <= i < |s| ==> s[i] !in " ,)"
  {
  }

  lemma {:induction false} NameCountMeans(s: string)
    ensures NameChars(s[..NameCount(s)])
    ensures NameCount(s) < |s| ==> !(IsUpper(s[NameCount(s)]) || '0' <= s[NameCount(s)] <= '9')
  {
    if s == "" || !(IsUpper(s[0]) || '0' <= s[0] <= '9') {
    } else {
      NameCountMeans(s[1..]);
      var n := NameCount(s);
      assert forall i :: 0 < i < n ==> s[..n][i] == s[1..][..n - 1][i - 1];
    }
  }

  // A sign, or a blank before it, ends a name.
  lemma {:induction false} SignEndsName(w: string, c: char, t: string)
    requires Blank(w) && (c == '(' || c == ',')
    ensures var s := w + ([c] + t); s != "" && !(IsUpper(s[0]) || '0' <= s[0] <= '9')
  {
  }

  lemma {:induction false} NameSpelled(kind: string, name: string, w: string, end: string, default: string)
    requires NameOk(name) && Blank(w) && MatchDefault(w + ("," + end)) == Some(default)
    ensures MatchName(kind, name + (w + ("," + end))) == Some(Match(kind, name, default))
  {
    hide MatchDefault, NameCount, Blank;
    var rest := w + ("," + end);
    var s := name + rest;
    assert rest == w + ([','] + end) by { assert "," + end == [','] + end; }
    SignEndsName(w, ',', end);
    NameCountExact(name, rest);
    assert s[0] == name[0] && s[..|name|] == name && s[|name|..] == rest;
  }

  lemma {:induction false} KindSpelled(kind: string, w: string, tail: string)
    requires NameOk(kind) && Blank(w)
    ensures MatchDefine("PARAM_DEFINE_" + (kind + (w + ("(" + tail)))) == MatchName(kind, tail)
  {
    hide MatchName, NameCount, After, Blank;
    var rest := w + ("(" + tail);
    var s := kind + rest;
    var line := "PARAM_DEFINE_" + s;
    assert rest == w + (['('] + tail) by { assert "(" + tail == ['('] + tail; }
    assert line[13..] == s && s[0] == kind[0];
    SignEndsName(w, '(', tail);
    NameCountExact(kind, rest);
    assert s[..|kind|] == kind && s[|kind|..] == rest;
    NotSpaces();
    AfterBlank(w, '(', tail);
  }

  /** Every spelling is matched, with its type, name and default value. */
  lemma {:induction false} DefineSpelled(line: string, f: Match, blanks: seq<string>, tail: string)
    requires DefineLine(line, f, blanks, tail)
    ensures MatchDefine(line) == Some(f)
  {
    hide MatchDefine, MatchName, MatchDefault, NameOk, Blank;
    var end := blanks[2] + (f.default + (blanks[3] + (")" + (blanks[4] + (";" + tail)))));
    EndMatched(blanks[1] + ("," + end), f.default, blanks[1], blanks[2], blanks[3], blanks[4], tail);
    NameSpelled(f.kind, f.name, blanks[1], end, f.default);
    KindSpelled(f.kind, blanks[0], f.name + (blanks[1] + ("," + end)));
  }

  lemma {:induction false} NameShape(kind: string, s: string)
    requires MatchName(kind, s).Some?
    ensures var f := MatchName(kind, s).value;
      && f.kind == kind && NameOk(f.name) && |f.name| <= |s| && s == f.name + s[|f.name|..]
      && MatchDefault(s[|f.name|..]) == Some(f.default)
  {
    hide MatchDefault;
    NameCountMeans(s);
    var n := NameCount(s);
    assert s == s[..n] + s[n..];
  }

  lemma {:induction false} KindShape(line: string)
    requires MatchDefine(line).Some?
    ensures 13 <= |line| && line == "PARAM_DEFINE_" + line[13..]
    ensures var s, kind := line[13..], MatchDefine(line).value.kind;
      && |kind| <= |s| && NameOk(kind) && s == kind + s[|kind|..]
      && After(s[|kind|..], '(').Some? && MatchName(kind, After(s[|kind|..], '(').value) == MatchDefine(line)
  {
    hide MatchDefault, After;
    var s := line[13..];
    var n := NameCount(s);
    NameCountMeans(s);
    assert s == s[..n] + s[n..] && line[..13] == "PARAM_DEFINE_" && line == line[..13] + s;
    NameShape(s[..n], After(s[n..], '(').value);
  }

  /** And only such lines are. */
  lemma {:induction false} DefineShape(line: string) returns (blanks: seq<string>, tail: string)
    requires MatchDefine(line).Some?
    ensures DefineLine(line, MatchDefine(line).value, blanks, tail)
  {
    hide MatchDefine, MatchName, MatchDefault, NameOk, Blank, After, StripLeft;
    KindShape(line);
    var f, s := MatchDefine(line).value, line[13..];
    var open := s[|f.kind|..];
    AfterMeans(open, '(');
    var w0, inner := open[..|open| - |StripLeft(open)|], After(open, '(').value;
    NameShape(f.kind, inner);
    var w1, w2, w3, w4;
    w1, w2, w3, w4, tail := EndShape(inner[|f.name|..]);
    blanks := [w0, w1, w2, w3, w4];
    assert ['('] + inner == "(" + inner;
  }

  // ---- Definitions without a comment ----

  /** A parameter of which only its definition line is known. */
  function Bare(f: Match): Parameter {
    Parameter(f.name, f.kind, CutType(f.default), map["short_desc" := f.name], "", [], [], false, false)
  }

  function AddedTo(groups: map<string, seq<Parameter>>, group: string, p: Parameter): map<string, seq<Parameter>> {
    groups[group := if group in groups then groups[group] + [p] else [p]]
  }

  /** Outside a comment and with none just finished, a definition line adds a bare parameter to the miscellaneous group,
      whatever comment was read before. */
  lemma {:induction false} BareDefinition(m: Machine, line: string)
    requires m.Running? && m.state == Outside && MatchDefine(line).Some?
    ensures Step(m, line)
         == m.(groups := AddedTo(m.groups, "Miscellaneous", Bare(MatchDefine(line).value)))
  {
    hide MatchName, MakeParameter, GroupOf, BadShort, KnownTags, Store, Bare, AddedTo, MatchDefine;
    DefineStarts(line);
    var f := MatchDefine(line).value;
    FreshFields(f);
    StoreAdds(m.groups, "Miscellaneous", Bare(f));
  }

  lemma {:induction false} DefineStarts(line: string)
    requires MatchDefine(line).Some?
    ensures line != "" && !StartsComment(line)
  {
    hide MatchName;
    assert line[0] == 'P';
  }

  lemma {:induction false} StoreAdds(groups: map<string, seq<Parameter>>, group: string, p: Parameter)
    ensures Store(groups, group, p) == AddedTo(groups, group, p)
  {
    assert [] + [p] == [p];
  }

  lemma {:induction false} FreshFields(f: Match)
    ensures MakeParameter(f, FRESH) == Bare(f) && GroupOf(FRESH) == "Miscellaneous"
    ensures !BadShort(FRESH) && KnownTags(FRESH)
  {
    hide CutType;
    assert Fields(f.name, FRESH) == map["short_desc" := f.name];
  }

  /** A bare definition behind any printed definitions. */
  lemma {:induction false} BareBehindPrinted(groups: map<string, seq<Parameter>>, ds: seq<Definition>, line: string)
    requires forall i :: 0 <= i < |ds| ==> DefinitionOk(ds[i])
    requires OneLine(line) && MatchDefine(Strip(line)).Some?
    ensures var end := Parsed(TextOfAll(ds) + (line + "\n"), groups);
      && end.Running?
      && end.groups == AddedTo(Grouped(groups, ds), "Miscellaneous", Bare(MatchDefine(Strip(line)).value))
  {
    hide Feed, DefinitionOk, Grouped, TextOfAll, Step, MatchDefine, OneLine, Strip, Bare;
    assert line + "\n" == line + "\n" + "";
    var last := FeedAll(FRESH, groups, ds, line + "\n");
    var m := Running(Outside, last, Grouped(groups, ds));
    FeedLine(m, line, "");
    BareDefinition(m, Strip(line));
    NothingToFeed(Step(m, Strip(line)));
    ParsedIsFed(TextOfAll(ds) + (line + "\n"), groups);
  }

  lemma {:induction false} ParsedIsFed(text: string, groups: map<string, seq<Parameter>>)
    ensures Parsed(text, groups) == Feed(Running(Outside, FRESH, groups), text)
  {
  }

  // ---- Comments that are not used ----

  // The printed comment of a definition, and what comes behind it instead of its definition line.
  function CommentOf(d: Definition, rest: string): string {
    Line("", Line("/**", Line(" * " + Indent(d.short), Line(" *", Line(" * " + Indent(d.long), Line(" *",
    Line(" * " + JoinTags(TagLines(d)), Line(" */", rest))))))))
  }

  lemma {:induction false} FeedComment(m: Machine, d: Definition, rest: string) returns (c: Comment)
    requires DefinitionOk(d) && m.Running?
    ensures Feed(m, CommentOf(d, rest)) == Feed(Running(Processed, c, m.groups), rest)
  {
    hide Feed, Strip, Line, TagLines, JoinTags, ShortOk, LongOk, KindOk, NameOk, DefaultOk, Indent;
    hide LongRead, KindValues, KindBits, ExpectedTags;
    var afterTags := Line(" */", rest);
    var afterLong := Line(" * " + JoinTags(TagLines(d)), afterTags);
    var afterShort := Line(" * " + Indent(d.long), Line(" *", afterLong));
    var short := FRESH.(short := Some(Strip(d.short)));
    FeedOpen(m, Line(" * " + Indent(d.short), Line(" *", afterShort)));
    FeedShort(m.groups, d.short, afterShort);
    FeedLong(short, m.groups, d.long, afterLong);
    var current := FeedTags(short, LongRead(d.long), m.groups, d, rest);
    c := ExpectedComment(d).(current := current);
  }

  /** A line that is neither blank nor a comment nor a definition. */
  predicate Other(line: string) {
    OneLine(line) && Strip(line) != "" && !StartsComment(Strip(line)) && MatchDefine(Strip(line)).None?
  }

  /** A comment that another line separates from a definition is lost: the definition is a bare one. */
  lemma {:induction false} DetachedComment(groups: map<string, seq<Parameter>>, d: Definition, other: string,
                                           line: string)
    requires DefinitionOk(d) && Other(other) && OneLine(line) && MatchDefine(Strip(line)).Some?
    ensures var end := Parsed(CommentOf(d, Line(other, line + "\n")), groups);
      end.Running? && end.groups == AddedTo(groups, "Miscellaneous", Bare(MatchDefine(Strip(line)).value))
  {
    hide Feed, DefinitionOk, CommentOf, MatchDefine, OneLine, Strip, Bare, StartsComment;
    var m := Running(Outside, FRESH, groups);
    var c := FeedComment(m, d, Line(other, line + "\n"));
    var processed := Running(Processed, c, groups);
    FeedLine(processed, other, line + "\n");
    assert line + "\n" == line + "\n" + "";
    var outside := Running(Outside, c, groups);
    assert Step(processed, Strip(other)) == outside;
    FeedLine(outside, line, "");
    BareDefinition(outside, Strip(line));
    NothingToFeed(Step(outside, Strip(line)));
    ParsedIsFed(CommentOf(d, Line(other, line + "\n")), groups);
  }

  /** A comment start begins anew, whatever went before. */
  lemma {:induction false} CommentStarts(m: Machine, line: string)
    requires m.Running? && "/**" <= line
    ensures Step(m, line) == Running(WaitShort, Comment(None, None, map[], [], [], ""), m.groups)
  {
  }

  /** A line without a star breaks a comment off. */
  lemma {:induction false} StarlessLine(m: Machine, line: string)
    requires m.Running? && m.state != Outside && m.state != Processed
    requires line != "" && line[0] != '*' && !("/**" <= line) && !HasEnd(line)
    ensures Step(m, line) == m.(state := Outside)
  {
  }

  lemma {:induction false} FirstEndAt(x: string, rest: string)
    requires !HasEnd(x + "*")
    ensures HasEnd(x + ("*/" + rest)) && FirstEnd(x + ("*/" + rest)) == |x|
  {
    var s := x + ("*/" + rest);
    if x == "" {
      assert s[0] == '*' && s[1] == '/';
    } else {
      assert (x + "*")[1..] == x[1..] + "*";
      FirstEndAt(x[1..], rest);
      assert s[1..] == x[1..] + ("*/" + rest) && s[0] == x[0] && (x + "*")[0] == x[0];
      assert s[1] == (x + "*")[1];
    }
  }

  /** The end of a comment may stand behind its last text, which is read like any other; what follows is ignored. */
  lemma {:induction false} EndBehindText(m: Machine, x: string, rest: string)
    requires m.Running? && m.state != Outside && m.state != Processed
    requires !HasEnd("*" + x + "*")
    ensures var read, end := StepContent(m, StripLeft(StripRight(x))), "*" + x + "*/" + rest;
      Step(m, end) == if read.Running? then read.(state := Processed) else read
  {
    hide StepContent, StripLeft;
    var text := "*" + x;
    var line := "*" + x + "*/" + rest;
    assert line == text + ("*/" + rest);
    FirstEndAt(text, rest);
    assert line[..|text|] == text && !StartsComment(line);
    StripRightBehind("*", x);
    assert ("*" + StripRight(x))[1..] == StripRight(x);
  }

  // ---- Text lines ----

  /** What a text line changes: the first is the short text, further ones continue it, and likewise for the long text
      behind an empty line and for the text of a tag. */
  lemma {:induction false} TextLine(m: Machine, x: string)
    requires m.Running? && x != "" && !IsTag(x)
    ensures var c, after := m.comment, StepContent(m, x);
      && (m.state == WaitShort ==> after == m.(state := WaitShortEnd, comment := c.(short := Some(x))))
      && (m.state == WaitShortEnd && c.short.Some? ==>
            after == m.(comment := c.(short := Some(c.short.value + "\n" + x))))
      && (m.state == WaitLong ==> after == m.(state := WaitLongEnd, comment := c.(long := Some(x))))
      && (m.state == WaitLongEnd && c.long.Some? ==>
            after == m.(comment := c.(long := Some(c.long.value + "\n" + x))))
      && (m.state == WaitTagEnd && c.current in c.tags ==>
            after == m.(comment := c.(tags := c.tags[c.current := c.tags[c.current] + "\n" + x])))
      && (m.state == WaitTagEnd && c.current !in c.tags ==> after == Raised(m.groups))
  {
  }

  /** A value or a bit without a description is refused. */
  lemma {:induction false} Undescribed(m: Machine, w: string, key: string)
    requires m.Running? && m.state != Outside && m.state != Processed && (w == "value" || w == "bit")
    requires NoSpace(key) && Plain(key)
    ensures Step(m, Strip(" * " + PlainTag(w, key))) == Raised(m.groups)
  {
    hide Strip, StepText, StepEmpty, PlainTag, IsTag, TagName, TagText, Step, AllWord, IsLetter;
    WordsAreWords();
    TagPlain(w, key);
    PrintedLine(m, PlainTag(w, key));
    TagRead(w, key);
    TagNotEmpty(Strip(PlainTag(w, key)));
    KeyAlone(key);
  }

  lemma {:induction false} KeyAlone(key: string)
    requires NoSpace(key)
    ensures SplitOnce(Strip(key)) == None
  {
    StripTrimmed(key);
    NoFirstSpace(key);
  }

  lemma {:induction false} NoFirstSpace(s: string)
    requires NoSpace(s)
    ensures FirstSpace(s) == |s|
  {
    if s == "" {
    } else {
      assert IsSpace(' ');
      NoFirstSpace(s[1..]);
    }
  }

  // ---- Definitions behind a comment ----

  const KNOWN_TAGS := {"group", "board", "min", "max", "unit", "decimal", "increment", "reboot_required", "value",
                       "boolean", "bit", "category", "volatile"}

  // The tags that become fields.
  ghost predicate Kept(tag: string, c: Comment) {
    tag in c.tags && tag !in {"group", "volatile", "category", "boolean"}
  }

  /** The parameter has what the comment says. */
  ghost predicate Documented(p: Parameter, f: Match, c: Comment) {
    && p.name == f.name && p.kind == f.kind && p.default == CutType(f.default)
    && "short_desc" in p.fields && p.fields["short_desc"] == (if c.short.Some? then DropDots(c.short.value) else f.name)
    && ("long_desc" in p.fields <==> c.long.Some?)
    && (c.long.Some? ==> p.fields["long_desc"] == DropNewlines(c.long.value))
    && (forall tag :: tag in p.fields && tag != "short_desc" && tag != "long_desc" <==> Kept(tag, c))
    && (forall tag :: Kept(tag, c) ==> p.fields[tag] == c.tags[tag])
    && p.category == (if "category" in c.tags then c.tags["category"] else "")
    && p.enum == c.values && p.bitmask == c.bits
    && (p.volatile <==> "volatile" in c.tags) && (p.boolean <==> "boolean" in c.tags)
  }

  /** Right behind a comment a definition line raises for a short text of several lines or of more than 150 characters,
      is refused for an unknown tag, and otherwise adds the documented parameter to the group of the comment. */
  lemma {:induction false} DocumentedDefinition(m: Machine, line: string) returns (p: Parameter)
    requires m.Running? && m.state == Processed && MatchDefine(line).Some?
    ensures var c, after := m.comment, Step(m, line);
      if c.short.Some? && ('\n' in c.short.value || |c.short.value| > 150) then after == Raised(m.groups)
      else if !(c.tags.Keys <= KNOWN_TAGS) then after == Refused(m.groups)
      else
        && Documented(p, MatchDefine(line).value, c)
        && after == Running(Outside, c, AddedTo(m.groups, if "group" in c.tags then c.tags["group"]
                                                          else "Miscellaneous", p))
  {
    hide MatchDefine, Store, AddedTo, CutType, DropDots, DropNewlines, Documented, MakeParameter, KnownTags, ValidTag;
    DefineStarts(line);
    p := MakeParameter(MatchDefine(line).value, m.comment);
    TagSets(m.comment);
    StoreAdds(m.groups, GroupOf(m.comment), p);
    if m.comment.tags.Keys <= KNOWN_TAGS {
      MadeDocumented(MatchDefine(line).value, m.comment);
    }
  }

  lemma {:induction false} TagSets(c: Comment)
    ensures KnownTags(c) <==> c.tags.Keys <= KNOWN_TAGS
  {
    forall tag
      ensures ValidTag(tag) <==> tag in KNOWN_TAGS
    {
    }
  }

  lemma {:induction false} MadeDocumented(f: Match, c: Comment)
    requires c.tags.Keys <= KNOWN_TAGS
    ensures Documented(MakeParameter(f, c), f, c)
  {
    hide CutType, DropDots, DropNewlines, Fields;
    FieldsMean(f.name, c);
  }

  lemma {:induction false} FieldsMean(name: string, c: Comment)
    requires c.tags.Keys <= KNOWN_TAGS
    ensures var fields := Fields(name, c);
      && "short_desc" in fields
      && fields["short_desc"] == (if c.short.Some? then DropDots(c.short.value) else name)
      && ("long_desc" in fields <==> c.long.Some?)
      && (c.long.Some? ==> fields["long_desc"] == DropNewlines(c.long.value))
      && (forall tag :: tag in fields && tag != "short_desc" && tag != "long_desc" <==> Kept(tag, c))
      && (forall tag :: Kept(tag, c) ==> tag in fields && fields[tag] == c.tags[tag])
  {
    hide DropDots, DropNewlines, FieldTag;
    TagsKept(c);
    var kept := map tag | tag in c.tags && FieldTag(tag) :: c.tags[tag];
    assert "short_desc" !in kept && "long_desc" !in kept;
  }

  lemma {:induction false} TagsKept(c: Comment)
    requires c.tags.Keys <= KNOWN_TAGS
    ensures forall tag :: tag in c.tags && FieldTag(tag) <==> Kept(tag, c)
    ensures "short_desc" !in c.tags && "long_desc" !in c.tags
  {
    assert "short_desc" !in KNOWN_TAGS && "long_desc" !in KNOWN_TAGS;
  }
}

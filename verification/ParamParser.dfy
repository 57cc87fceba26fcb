/** The line-by-line parser of C doc-comment parameters. */
module ParamParser {

  import opened Basics
  import opened Whitespace
  import opened ParamText

  // ---- Lines ----

  predicate IsBreak(c: char) { c == '\n' || c == '\r' }

  function FirstBreak(s: string): (n: nat)
    ensures n <= |s|
  {
    if s == "" || IsBreak(s[0]) then 0 else 1 + FirstBreak(s[1..])
  }

  function SkipBreaks(s: string): (r: string)
    ensures |r| <= |s|
  {
    if s != "" && IsBreak(s[0]) then SkipBreaks(s[1..]) else s
  }

  /** Splits at every run of line breaks. */
  function SplitLines(s: string): seq<string>
    decreases |s|
  {
    var n := FirstBreak(s);
    if n == |s| then [s] else [s[..n]] + SplitLines(SkipBreaks(s[n + 1..]))
  }

  // ---- The patterns ----

  predicate StartsComment(line: string) { |line| >= 3 && line[0] == '/' && line[1] == '*' && line[2] == '*' }

  predicate HasEnd(s: string) { |s| >= 2 && ((s[0] == '*' && s[1] == '/') || HasEnd(s[1..])) }

  function FirstEnd(s: string): (n: nat)
    requires HasEnd(s)
    ensures n <= |s|
  {
    if s[0] == '*' && s[1] == '/' then 0 else 1 + FirstEnd(s[1..])
  }

  // What stands before the end of the comment.
  function CommentEnd(line: string): Option<string> {
    if HasEnd(line) then Some(StripRight(line[..FirstEnd(line)])) else None
  }

  function CommentContent(line: string): Option<string> {
    if line != "" && line[0] == '*' then Some(StripLeft(line[1..])) else None
  }

  predicate IsLetter(c: char) { 'a' <= c <= 'z' || 'A' <= c <= 'Z' }

  predicate IsWord(c: char) { IsLetter(c) || '0' <= c <= '9' || c == '_' }

  function WordCount(s: string): (n: nat)
    ensures n <= |s|
  {
    if s != "" && IsWord(s[0]) then 1 + WordCount(s[1..]) else 0
  }

  predicate IsTag(content: string) { |content| >= 2 && content[0] == '@' && IsLetter(content[1]) }

  function TagName(content: string): string
    requires IsTag(content)
  {
    content[1..][..WordCount(content[1..])]
  }

  function TagText(content: string): string
    requires IsTag(content)
  {
    StripLeft(content[1..][WordCount(content[1..])..])
  }

  function FirstSpace(s: string): (n: nat)
    ensures n <= |s|
  {
    if s == "" || s[0] == ' ' then 0 else 1 + FirstSpace(s[1..])
  }

  // The text before and after the first space.
  function SplitOnce(s: string): Option<(string, string)> {
    var n := FirstSpace(s);
    if n == |s| then None else Some((s[..n], s[n + 1..]))
  }

  predicate IsUpper(c: char) { 'A' <= c <= 'Z' || c == '_' }

  function NameCount(s: string): (n: nat)
    ensures n <= |s|
  {
    if s != "" && (IsUpper(s[0]) || '0' <= s[0] <= '9') then 1 + NameCount(s[1..]) else 0
  }

  predicate StartsName(s: string) { s != "" && IsUpper(s[0]) }

  predicate IsDefaultChar(c: char) { c != ' ' && c != ',' && c != ')' }

  function DefaultCount(s: string): (n: nat)
    ensures n <= |s|
  {
    if s != "" && IsDefaultChar(s[0]) then 1 + DefaultCount(s[1..]) else 0
  }

  // What follows a character, blanks before it allowed.
  function After(s: string, c: char): Option<string> {
    var t := StripLeft(s);
    if t != "" && t[0] == c then Some(t[1..]) else None
  }

  datatype Match = Match(kind: string, name: string, default: string)

  // The end of a definition: a comma, the default value, the closing parenthesis and the semicolon.
  function MatchDefault(s: string): Option<string> {
    var rest := After(s, ',');
    if rest.None? then None else
    var t := StripLeft(rest.value);
    var n := DefaultCount(t);
    if n == 0 then None else
    var closed := After(t[n..], ')');
    if closed.None? || After(closed.value, ';').None? then None else Some(t[..n])
  }

  function MatchName(kind: string, s: string): Option<Match> {
    if !StartsName(s) then None else
    var n := NameCount(s);
    var default := MatchDefault(s[n..]);
    if default.None? then None else Some(Match(kind, s[..n], default.value))
  }

  function MatchDefine(line: string): Option<Match> {
    if !("PARAM_DEFINE_" <= line) || !StartsName(line[13..]) then None else
    var s := line[13..];
    var n := NameCount(s);
    var rest := After(s[n..], '(');
    if rest.None? then None else MatchName(s[..n], rest.value)
  }

  predicate StartsNumber(s: string) {
    var t := if s != "" && s[0] == '-' then s[1..] else s;
    t != "" && ('0' <= t[0] <= '9' || t[0] == '.')
  }

  function DropLower(s: string): string {
    if s != "" && 'a' <= s[|s| - 1] <= 'z' then DropLower(s[..|s| - 1]) else s
  }

  // Removes the type letters from the end of a number.
  function CutType(s: string): string { if StartsNumber(s) then DropLower(s) else s }

  function DropDots(s: string): string {
    if s != "" && s[|s| - 1] == '.' then DropDots(s[..|s| - 1]) else s
  }

  function DropNewlines(s: string): string {
    if s != "" && s[|s| - 1] == '\n' then DropNewlines(s[..|s| - 1]) else s
  }

  // ---- What is parsed ----

  datatype Parameter = Parameter(name: string, kind: string, default: string, fields: map<string, string>,
                                 category: string, enum: seq<(string, string)>, bitmask: seq<(string, string)>,
                                 volatile: bool, boolean: bool)

  datatype State = Outside | WaitShort | WaitShortEnd | WaitLong | WaitLongEnd | WaitTagEnd | Processed

  datatype Comment = Comment(short: Option<string>, long: Option<string>, tags: map<string, string>,
                             values: seq<(string, string)>, bits: seq<(string, string)>, current: string)

  const FRESH := Comment(None, None, map[], [], [], "")

  /** The parser between two lines; it can also have raised, or refused an unknown tag. */
  datatype Machine =
    | Running(state: State, comment: Comment, groups: map<string, seq<Parameter>>)
    | Refused(groups: map<string, seq<Parameter>>)
    | Raised(groups: map<string, seq<Parameter>>)

  // Sets a key of an ordered dictionary.
  function Put(entries: seq<(string, string)>, key: string, value: string): seq<(string, string)> {
    if entries == [] then [(key, value)]
    else if entries[0].0 == key then [(key, value)] + entries[1..]
    else [entries[0]] + Put(entries[1..], key, value)
  }

  predicate ValidTag(tag: string) {
    tag in ["group", "board", "min", "max", "unit", "decimal", "increment", "reboot_required", "value", "boolean",
            "bit", "category", "volatile"]
  }

  predicate FieldTag(tag: string) { tag !in ["group", "volatile", "category", "boolean"] }

  function ShortText(name: string, c: Comment): string { if c.short.None? then name else DropDots(c.short.value) }

  function Fields(name: string, c: Comment): map<string, string> {
    map["short_desc" := ShortText(name, c)]
    + (if c.long.None? then map[] else map["long_desc" := DropNewlines(c.long.value)])
    + map tag | tag in c.tags && FieldTag(tag) :: c.tags[tag]
  }

  function MakeParameter(m: Match, c: Comment): Parameter {
    Parameter(m.name, m.kind, CutType(m.default), Fields(m.name, c),
              if "category" in c.tags then c.tags["category"] else "", c.values, c.bits,
              "volatile" in c.tags, "boolean" in c.tags)
  }

  function GroupOf(c: Comment): string { if "group" in c.tags then c.tags["group"] else "Miscellaneous" }

  function Store(groups: map<string, seq<Parameter>>, group: string, p: Parameter): map<string, seq<Parameter>> {
    groups[group := (if group in groups then groups[group] else []) + [p]]
  }

  // The code raises for such a short description.
  predicate BadShort(c: Comment) { c.short.Some? && ('\n' in c.short.value || |c.short.value| > 150) }

  predicate KnownTags(c: Comment) { forall tag :: tag in c.tags ==> ValidTag(tag) }

  // ---- One line ----

  function StepTag(m: Machine, tag: string, text: string): Machine
    requires m.Running?
  {
    var c := m.comment.(current := tag);
    if tag == "value" || tag == "bit" then
      var entry := SplitOnce(text);
      if entry.None? then Raised(m.groups)
      else if tag == "value" then
        m.(state := WaitTagEnd, comment := c.(values := Put(c.values, entry.value.0, entry.value.1)))
      else
        m.(state := WaitTagEnd, comment := c.(bits := Put(c.bits, entry.value.0, entry.value.1)))
    else m.(state := WaitTagEnd, comment := c.(tags := c.tags[tag := text]))
  }

  function StepText(m: Machine, content: string): Machine
    requires m.Running?
  {
    var c := m.comment;
    match m.state
    case WaitShort => m.(state := WaitShortEnd, comment := c.(short := Some(content)))
    case WaitShortEnd =>
      if c.short.None? then Raised(m.groups)
      else m.(comment := c.(short := Some(c.short.value + "\n" + content)))
    case WaitLong => m.(state := WaitLongEnd, comment := c.(long := Some(content)))
    case WaitLongEnd =>
      if c.long.None? then Raised(m.groups) else m.(comment := c.(long := Some(c.long.value + "\n" + content)))
    case WaitTagEnd =>
      if c.current !in c.tags then Raised(m.groups)
      else m.(comment := c.(tags := c.tags[c.current := c.tags[c.current] + "\n" + content]))
    case _ => Raised(m.groups)
  }

  function StepEmpty(m: Machine): Machine
    requires m.Running?
  {
    if m.state == WaitShortEnd then m.(state := WaitLong)
    else if m.state == WaitLongEnd && m.comment.long.Some? then
      m.(comment := m.comment.(long := Some(m.comment.long.value + "\n")))
    else m
  }

  function StepContent(m: Machine, content: string): Machine
    requires m.Running?
  {
    if content == "" then StepEmpty(m)
    else if IsTag(content) then StepTag(m, TagName(content), TagText(content))
    else StepText(m, content)
  }

  function StepComment(m: Machine, line: string): Machine
    requires m.Running?
  {
    var end := CommentEnd(line);
    var content := CommentContent(if end.Some? then end.value else line);
    var after :=
      if content.Some? then StepContent(m, content.value)
      else if end.None? then m.(state := Outside)
      else m;
    if after.Running? && end.Some? then after.(state := Processed) else after
  }

  function StepOutside(m: Machine, line: string): Machine
    requires m.Running?
  {
    var found := MatchDefine(line);
    if found.None? then m.(state := Outside)
    else
      var c := if m.state == Processed then m.comment else FRESH;
      if BadShort(c) then Raised(m.groups)
      else if !KnownTags(c) then Refused(m.groups)
      else m.(state := Outside, groups := Store(m.groups, GroupOf(c), MakeParameter(found.value, c)))
  }

  predicate InComment(s: State) { s != Outside && s != Processed }

  function Step(m: Machine, line: string): Machine {
    if !m.Running? || line == "" then m
    else if StartsComment(line) then Running(WaitShort, FRESH, m.groups)
    else if InComment(m.state) then StepComment(m, line)
    else StepOutside(m, line)
  }

  function Run(m: Machine, lines: seq<string>): Machine
    decreases |lines|
  {
    if lines == [] then m else Run(Step(m, Strip(lines[0])), lines[1..])
  }

  function Parsed(contents: string, groups: map<string, seq<Parameter>>): Machine {
    Run(Running(Outside, FRESH, groups), SplitLines(contents))
  }

  // ---- The parser ----

  class SourceParser {
    var paramGroups: map<string, seq<Parameter>>

    constructor ()
      ensures paramGroups == map[]
    {
      paramGroups := map[];
    }

    /** Adds the parameters found in the contents to the groups. */
    method Parse(contents: string) returns (end: Machine)
      modifies this
      ensures end.groups == paramGroups
      ensures end == Parsed(contents, old(paramGroups))
    {
      hide Strip, StepTag, StepText, StepEmpty, MatchDefine, MakeParameter, CommentEnd, CommentContent, SplitLines;
      hide Store, IsTag, BadShort, KnownTags;
      var state, comment := Outside, FRESH;
      var lines := SplitLines(contents);
      assert lines[0..] == lines;
      for i := 0 to |lines|
        invariant Run(Running(state, comment, paramGroups), lines[i..]) == Parsed(contents, old(paramGroups))
      {
        assert lines[i..][1..] == lines[i + 1..];
        ghost var before := Running(state, comment, paramGroups);
        var line := Strip(lines[i]);
        if line == "" {
          continue;
        }
        if StartsComment(line) {
          state, comment := WaitShort, FRESH;
        } else if InComment(state) {
          var next := ReadComment(state, comment, paramGroups, line);
          if !next.Running? {
            RunStopped(next, lines[i + 1..]);
            return next;
          }
          state, comment := next.state, next.comment;
        } else {
          var found := MatchDefine(line);
          if found.Some? {
            var c := if state == Processed then comment else FRESH;
            if BadShort(c) {
              RunStopped(Raised(paramGroups), lines[i + 1..]);
              return Raised(paramGroups);
            }
            if !KnownTags(c) {
              RunStopped(Refused(paramGroups), lines[i + 1..]);
              return Refused(paramGroups);
            }
            paramGroups := Store(paramGroups, GroupOf(c), MakeParameter(found.value, c));
          }
          state := Outside;
        }
        assert Step(before, line) == Running(state, comment, paramGroups);
      }
      return Running(state, comment, paramGroups);
    }
  }

  // A line inside a comment.
  method ReadComment(state: State, comment: Comment, groups: map<string, seq<Parameter>>, line: string)
    returns (next: Machine)
    ensures next == StepComment(Running(state, comment, groups), line)
    ensures next.groups == groups
  {
    var text, last := line, false;
    var end := CommentEnd(line);
    if end.Some? {
      text, last := end.value, true;
    }
    next := Running(state, comment, groups);
    var content := CommentContent(text);
    if content.Some? {
      if content.value == "" {
        next := StepEmpty(next);
      } else if IsTag(content.value) {
        next := StepTag(next, TagName(content.value), TagText(content.value));
      } else {
        next := StepText(next, content.value);
      }
    } else if !last {
      next := next.(state := Outside);
    }
    if last && next.Running? {
      next := next.(state := Processed);
    }
  }

  lemma {:induction false} RunStopped(m: Machine, lines: seq<string>)
    requires !m.Running?
    ensures Run(m, lines) == m
  {
    if lines == [] {
    } else {
      RunStopped(m, lines[1..]);
    }
  }
}

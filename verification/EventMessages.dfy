/** Event messages: numbered placeholders and how they move when arguments are put in front. */
module EventMessages {

  import opened Basics
  import opened Decimal

  // ---- The rewriting ----

  // How many digits the text starts with.
  function DigitCount(s: string): nat {
    if s != "" && IsDigit(s[0]) then 1 + DigitCount(s[1..]) else 0
  }

  lemma {:induction false} DigitCountMeans(s: string)
    ensures DigitCount(s) <= |s| && AllDigits(s[..DigitCount(s)])
    ensures DigitCount(s) < |s| ==> !IsDigit(s[DigitCount(s)])
  {
    if s == "" || !IsDigit(s[0]) {
    } else {
      DigitCountMeans(s[1..]);
      assert s[..DigitCount(s)] == [s[0]] + s[1..][..DigitCount(s[1..])];
    }
  }

  function LeadingNumber(s: string): nat {
    DigitCountMeans(s);
    Parse(s[..DigitCount(s)])
  }

  /** The message with every placeholder number after an unescaped brace raised by the offset. */
  function Shift(s: string, offset: nat): string {
    if s == "" then ""
    else if s[0] == '\\' then if |s| == 1 then s else s[..2] + Shift(s[2..], offset)
    else if s[0] == '{' && DigitCount(s[1..]) > 0 then
      DigitCountMeans(s[1..]);
      "{" + Print(LeadingNumber(s[1..]) + offset) + Shift(s[1..][DigitCount(s[1..])..], offset)
    else [s[0]] + Shift(s[1..], offset)
  }

  // Where the index stands when it has stepped over the end of the text.
  function Bound(i: nat, s: string): nat { if i <= |s| then i else |s| }

  // Up to the index the text is final, then come digits just written and the part of the message still to do.
  ghost predicate Shifting(message: string, offset: nat, msg: string, i: nat, written: string, todo: string) {
    && msg[Bound(i, msg)..] == written + todo && AllDigits(written)
    && msg[..Bound(i, msg)] + written + Shift(todo, offset) == Shift(message, offset)
  }

  // The text with the n digits after position i replaced by a number.
  function Renumbered(msg: string, i: nat, n: nat, number: nat): string
    requires i + 1 + n <= |msg|
  {
    msg[..i + 1] + Print(number) + msg[i + 1 + n..]
  }

  /** The in-place rewriting. The text grows while the index moves; what shrinks is the part of the message not
      yet looked at, then the digits just written. */
  method ShiftPrintedArguments(message: string, offset: nat) returns (msg: string)
    ensures msg == Shift(message, offset)
  {
    hide Shift, Shifting, Renumbered, AllDigits;
    msg := message;
    var i := 0;
    ghost var written, todo := "", message;
    ShiftStart(message, offset);
    while i < |msg|
      invariant Shifting(message, offset, msg, i, written, todo)
      decreases |todo|, |written|
    {
      if msg[i] == '\\' {
        EscapeStep(message, offset, msg, i, written, todo);
        written, todo := "", todo[Bound(2, todo)..];
        i := i + 2;
        continue;
      }
      var n := if msg[i] == '{' then DigitCount(msg[i + 1..]) else 0;
      if n > 0 {
        DigitCountMeans(msg[i + 1..]);
        NumberStep(message, offset, msg, i, written, todo);
        written, todo := Print(LeadingNumber(msg[i + 1..]) + offset), todo[1..][n..];
        msg := Renumbered(msg, i, n, LeadingNumber(msg[i + 1..]) + offset);
      } else {
        PlainStep(message, offset, msg, i, written, todo);
        if written != "" {
          written := written[1..];
        } else {
          todo := todo[1..];
        }
      }
      i := i + 1;
    }
    ShiftEnd(message, offset, msg, i, written, todo);
  }

  lemma {:induction false} ShiftStart(message: string, offset: nat)
    ensures Shifting(message, offset, message, 0, "", message)
  {
    assert message[..0] + "" + Shift(message, offset) == Shift(message, offset);
  }

  lemma {:induction false} ShiftEnd(message: string, offset: nat, msg: string, i: nat, written: string, todo: string)
    requires Shifting(message, offset, msg, i, written, todo) && i >= |msg|
    ensures msg == Shift(message, offset)
  {
    assert |written + todo| == 0;
    assert msg[..|msg|] + "" + "" == msg;
  }

  // At anything but a digit there are no digits left to step over.
  lemma {:induction false} NothingWritten(message: string, offset: nat, msg: string, i: nat, written: string,
                                          todo: string)
    requires Shifting(message, offset, msg, i, written, todo) && i < |msg| && !IsDigit(msg[i])
    ensures written == "" && todo == msg[i..] && msg[..i] + Shift(todo, offset) == Shift(message, offset)
  {
    assert msg[i] == (written + todo)[0];
    assert msg[..i] + "" == msg[..i];
  }

  lemma {:induction false} EscapeStep(message: string, offset: nat, msg: string, i: nat, written: string, todo: string)
    requires Shifting(message, offset, msg, i, written, todo) && i < |msg| && msg[i] == '\\'
    ensures todo != "" && Shifting(message, offset, msg, i + 2, "", todo[Bound(2, todo)..])
  {
    hide Shift, Shifting;
    NothingWritten(message, offset, msg, i, written, todo);
    ShiftEscape(todo, offset);
    var k := Bound(2, todo);
    EscapeParts(msg, i, k);
    Assoc(msg[..i], todo[..k], Shift(todo[k..], offset));
    ShiftingFrom(message, offset, msg, i + 2, todo[k..]);
  }

  lemma {:induction false} ShiftingFrom(message: string, offset: nat, msg: string, i: nat, todo: string)
    requires msg[Bound(i, msg)..] == todo && msg[..Bound(i, msg)] + Shift(todo, offset) == Shift(message, offset)
    ensures Shifting(message, offset, msg, i, "", todo)
  {
    hide Shift;
    assert "" + todo == todo && msg[..Bound(i, msg)] + "" == msg[..Bound(i, msg)];
  }

  lemma {:induction false} Assoc(a: string, b: string, c: string)
    ensures a + b + c == a + (b + c)
  {
  }

  lemma {:induction false} EscapeParts(msg: string, i: nat, k: nat)
    requires i + k <= |msg|
    ensures msg[..i + k] == msg[..i] + msg[i..][..k] && msg[i + k..] == msg[i..][k..]
  {
  }

  lemma {:induction false} ShiftEscape(s: string, offset: nat)
    requires s != "" && s[0] == '\\'
    ensures Shift(s, offset) == s[..Bound(2, s)] + Shift(s[Bound(2, s)..], offset)
  {
    assert |s| == 1 ==> s[..1] == s && s[1..] == "";
  }

  lemma {:induction false} NumberStep(message: string, offset: nat, msg: string, i: nat, written: string, todo: string)
    requires Shifting(message, offset, msg, i, written, todo) && i < |msg| && msg[i] == '{'
    requires DigitCount(msg[i + 1..]) > 0
    ensures todo != "" && todo[1..] == msg[i + 1..] && 0 < DigitCount(todo[1..]) <= |todo[1..]|
    ensures var n, number := DigitCount(todo[1..]), LeadingNumber(todo[1..]) + offset;
            Shifting(message, offset, Renumbered(msg, i, n, number), i + 1, Print(number), todo[1..][n..])
  {
    NothingWritten(message, offset, msg, i, written, todo);
    DigitCountMeans(msg[i + 1..]);
    assert todo[1..] == msg[i + 1..];
    ShiftNumber(todo, offset);
    hide Shift, DigitCount, Print, LeadingNumber, Renumbered, AllDigits;
    var n, number := DigitCount(todo[1..]), LeadingNumber(todo[1..]) + offset;
    var rest := todo[1..][n..];
    RenumberedParts(msg, i, n, number);
    NumberFits(msg[..i], Print(number), Shift(rest, offset));
  }

  lemma {:induction false} RenumberedParts(msg: string, i: nat, n: nat, number: nat)
    requires i + 1 + n <= |msg| && msg[i] == '{'
    ensures var after := Renumbered(msg, i, n, number);
      && |after| > i && after[..i + 1] == msg[..i] + "{" && after[i + 1..] == Print(number) + msg[i + 1..][n..]
      && AllDigits(Print(number))
  {
    hide Print;
    assert msg[i + 1..][n..] == msg[i + 1 + n..];
  }

  lemma {:induction false} ShiftNumber(s: string, offset: nat)
    requires s != "" && s[0] == '{' && 0 < DigitCount(s[1..]) <= |s[1..]|
    ensures Shift(s, offset)
         == "{" + Print(LeadingNumber(s[1..]) + offset) + Shift(s[1..][DigitCount(s[1..])..], offset)
  {
  }

  lemma {:induction false} NumberFits(done: string, number: string, rest: string)
    ensures done + "{" + number + rest == done + ("{" + number + rest)
  {
  }

  lemma {:induction false} PlainStep(message: string, offset: nat, msg: string, i: nat, written: string, todo: string)
    requires Shifting(message, offset, msg, i, written, todo) && i < |msg| && msg[i] != '\\'
    requires !(msg[i] == '{' && DigitCount(msg[i + 1..]) > 0)
    ensures written != "" ==> Shifting(message, offset, msg, i + 1, written[1..], todo)
    ensures written == "" ==> todo != "" && Shifting(message, offset, msg, i + 1, "", todo[1..])
  {
    assert msg[..i + 1] == msg[..i] + [msg[i]] && msg[i + 1..] == (written + todo)[1..];
    assert msg[i] == (written + todo)[0];
    if written == "" {
      assert todo == msg[i..];
      assert msg[..i + 1] + "" + Shift(todo[1..], offset) == msg[..i] + "" + Shift(todo, offset);
    } else {
      assert msg[..i + 1] + written[1..] == msg[..i] + written;
    }
  }

  // ---- What it means ----

  datatype Token = Escape(text: string) | Placeholder(number: nat) | Other(c: char)

  function Tokens(s: string): seq<Token> {
    if s == "" then []
    else if s[0] == '\\' then if |s| == 1 then [Escape(s)] else [Escape(s[..2])] + Tokens(s[2..])
    else if s[0] == '{' && DigitCount(s[1..]) > 0 then
      DigitCountMeans(s[1..]);
      [Placeholder(LeadingNumber(s[1..]))] + Tokens(s[1..][DigitCount(s[1..])..])
    else [Other(s[0])] + Tokens(s[1..])
  }

  function Write(t: Token): string {
    match t
    case Escape(text) => text
    case Placeholder(n) => "{" + Print(n)
    case Other(c) => [c]
  }

  function Text(tokens: seq<Token>): string {
    if tokens == [] then "" else Write(tokens[0]) + Text(tokens[1..])
  }

  function Raise(t: Token, offset: nat): Token {
    if t.Placeholder? then Placeholder(t.number + offset) else t
  }

  function RaiseAll(tokens: seq<Token>, offset: nat): seq<Token> {
    if tokens == [] then [] else [Raise(tokens[0], offset)] + RaiseAll(tokens[1..], offset)
  }

  /** Shifting writes the message's tokens back with every placeholder raised and every other token untouched. */
  lemma {:induction false} ShiftWrites(s: string, offset: nat)
    ensures Shift(s, offset) == Text(RaiseAll(Tokens(s), offset))
    decreases |s|
  {
    if s == "" {
    } else if s[0] == '\\' && |s| == 1 {
      assert RaiseAll(Tokens(s), offset) == Tokens(s) && Tokens(s)[1..] == [];
    } else {
      var rest := Rest(s);
      ShiftWrites(rest, offset);
      var t := Tokens(s)[0];
      assert Tokens(s) == [t] + Tokens(rest);
      var raised := RaiseAll(Tokens(s), offset);
      assert raised[0] == Raise(t, offset) && raised[1..] == RaiseAll(Tokens(rest), offset);
    }
  }

  // What follows the first token.
  function Rest(s: string): string
    requires s != ""
    ensures |Rest(s)| < |s|
  {
    if s[0] == '\\' then s[Bound(2, s)..]
    else if s[0] == '{' then DigitCountMeans(s[1..]); s[1..][DigitCount(s[1..])..]
    else s[1..]
  }

  lemma {:induction false} DigitCountExact(d: string, s: string)
    requires AllDigits(d) && (s == "" || !IsDigit(s[0]))
    ensures DigitCount(d + s) == |d|
  {
    if d == "" {
      assert d + s == s;
    } else {
      DigitCountExact(d[1..], s);
      assert (d + s)[1..] == d[1..] + s && IsDigit(d[0]);
    }
  }

  lemma {:induction false} ShiftStarts(s: string, offset: nat)
    ensures s == "" ==> Shift(s, offset) == ""
    ensures s != "" ==> Shift(s, offset) != "" && Shift(s, offset)[0] == s[0]
  {
  }

  lemma {:induction false} PlaceholderRead(n: nat, s: string)
    requires s == "" || !IsDigit(s[0])
    ensures Tokens("{" + Print(n) + s) == [Placeholder(n)] + Tokens(s)
  {
    hide Print, Parse, AllDigits, DigitCount;
    var d := Print(n);
    var t := "{" + d + s;
    DigitCountExact(d, s);
    ParsePrint(n);
    assert t[1..] == d + s && (d + s)[..|d|] == d && (d + s)[|d|..] == s;
  }

  lemma {:induction false} RaiseCons(t: Token, rest: seq<Token>, offset: nat)
    ensures RaiseAll([t] + rest, offset) == [Raise(t, offset)] + RaiseAll(rest, offset)
  {
    assert ([t] + rest)[1..] == rest;
  }

  lemma {:induction false} EscapeRead(escape: string, rest: string)
    requires |escape| == 2 && escape[0] == '\\'
    ensures Tokens(escape + rest) == [Escape(escape)] + Tokens(rest)
  {
    assert (escape + rest)[..2] == escape && (escape + rest)[2..] == rest;
  }

  // A character that does not start a placeholder, before the shifting and after it.
  lemma {:induction false} OtherRead(c: char, rest: string, offset: nat)
    requires c != '\\' && !(c == '{' && DigitCount(rest) > 0)
    ensures Tokens([c] + rest) == [Other(c)] + Tokens(rest)
    ensures Tokens([c] + Shift(rest, offset)) == [Other(c)] + Tokens(Shift(rest, offset))
  {
    assert ([c] + rest)[1..] == rest && ([c] + Shift(rest, offset))[1..] == Shift(rest, offset);
    ShiftStarts(rest, offset);
  }

  lemma {:induction false} EscapeReads(s: string, offset: nat)
    requires |s| >= 2 && s[0] == '\\' && Tokens(Shift(s[2..], offset)) == RaiseAll(Tokens(s[2..]), offset)
    ensures Tokens(Shift(s, offset)) == RaiseAll(Tokens(s), offset)
  {
    hide Tokens, Shift, RaiseAll;
    ShiftEscape(s, offset);
    EscapeRead(s[..2], s[2..]);
    EscapeRead(s[..2], Shift(s[2..], offset));
    assert s[..2] + s[2..] == s;
    RaiseCons(Escape(s[..2]), Tokens(s[2..]), offset);
  }

  lemma {:induction false} NumberReads(s: string, offset: nat)
    requires s != "" && s[0] == '{' && 0 < DigitCount(s[1..]) <= |s[1..]|
    requires var rest := s[1..][DigitCount(s[1..])..]; Tokens(Shift(rest, offset)) == RaiseAll(Tokens(rest), offset)
    ensures Tokens(Shift(s, offset)) == RaiseAll(Tokens(s), offset)
  {
    hide Tokens, Shift, RaiseAll, LeadingNumber, DigitCount, Print;
    DigitCountMeans(s[1..]);
    var number, rest := LeadingNumber(s[1..]), s[1..][DigitCount(s[1..])..];
    ShiftStarts(rest, offset);
    ShiftNumber(s, offset);
    NumberRead(s);
    PlaceholderRead(number + offset, Shift(rest, offset));
    RaiseCons(Placeholder(number), Tokens(rest), offset);
  }

  lemma {:induction false} NumberRead(s: string)
    requires s != "" && s[0] == '{' && 0 < DigitCount(s[1..]) <= |s[1..]|
    ensures Tokens(s) == [Placeholder(LeadingNumber(s[1..]))] + Tokens(s[1..][DigitCount(s[1..])..])
  {
  }

  lemma {:induction false} OtherReads(s: string, offset: nat)
    requires s != "" && s[0] != '\\' && !(s[0] == '{' && DigitCount(s[1..]) > 0)
    requires Tokens(Shift(s[1..], offset)) == RaiseAll(Tokens(s[1..]), offset)
    ensures Tokens(Shift(s, offset)) == RaiseAll(Tokens(s), offset)
  {
    assert Shift(s, offset) == [s[0]] + Shift(s[1..], offset);
    hide Tokens, Shift, RaiseAll;
    assert [s[0]] + s[1..] == s;
    OtherRead(s[0], s[1..], offset);
    RaiseCons(Other(s[0]), Tokens(s[1..]), offset);
  }

  lemma {:induction false} LastEscape(s: string, offset: nat)
    requires s == "\\"
    ensures Tokens(Shift(s, offset)) == RaiseAll(Tokens(s), offset)
  {
    assert [Escape(s)][1..] == [];
  }

  /** Read again, the shifted message has the same tokens with every placeholder raised exactly once. */
  lemma {:induction false} ShiftReads(s: string, offset: nat)
    ensures Tokens(Shift(s, offset)) == RaiseAll(Tokens(s), offset)
    decreases |s|
  {
    if s == "" {
    } else {
      hide Tokens, Shift, RaiseAll;
      if s[0] == '\\' && |s| == 1 {
        LastEscape(s, offset);
      } else if s[0] == '\\' {
        ShiftReads(s[2..], offset);
        EscapeReads(s, offset);
      } else if s[0] == '{' && DigitCount(s[1..]) > 0 {
        DigitCountMeans(s[1..]);
        ShiftReads(s[1..][DigitCount(s[1..])..], offset);
        NumberReads(s, offset);
      } else {
        ShiftReads(s[1..], offset);
        OtherReads(s, offset);
      }
    }
  }

  lemma {:induction false} RaiseTwice(tokens: seq<Token>, a: nat, b: nat)
    ensures RaiseAll(RaiseAll(tokens, a), b) == RaiseAll(tokens, a + b)
  {
    if tokens == [] {
    } else {
      RaiseTwice(tokens[1..], a, b);
      assert RaiseAll(tokens, a)[1..] == RaiseAll(tokens[1..], a);
    }
  }

  /** Shifting by a and then by b is shifting by their sum. */
  lemma {:induction false} ShiftTwice(s: string, a: nat, b: nat)
    ensures Shift(Shift(s, a), b) == Shift(s, a + b)
  {
    hide Shift, Tokens, RaiseAll, Text;
    ShiftWrites(Shift(s, a), b);
    ShiftReads(s, a);
    RaiseTwice(Tokens(s), a, b);
    ShiftWrites(s, a + b);
  }

  // ---- Shifting by nothing ----

  /** No placeholder number is written with a zero in front of other digits. */
  predicate PlainNumbers(s: string) {
    if s == "" then true
    else if s[0] == '\\' then |s| == 1 || PlainNumbers(s[2..])
    else if s[0] == '{' && DigitCount(s[1..]) > 0 then
      DigitCountMeans(s[1..]);
      Canonical(s[1..][..DigitCount(s[1..])]) && PlainNumbers(s[1..][DigitCount(s[1..])..])
    else PlainNumbers(s[1..])
  }

  lemma {:induction false} SameParts(a: string, b: string, c: string, d: string)
    requires |a| <= |c| && |b| <= |d|
    ensures |a + b| <= |c + d| && (a + b == c + d <==> a == c && b == d)
  {
    if a + b == c + d {
      assert a == (a + b)[..|a|] && c == (c + d)[..|c|] && b == (a + b)[|a|..] && d == (c + d)[|c|..];
    }
  }

  lemma {:induction false} NumberKept(s: string)
    requires s != "" && s[0] == '{' && 0 < DigitCount(s[1..]) <= |s[1..]|
    requires var rest := s[1..][DigitCount(s[1..])..];
      |Shift(rest, 0)| <= |rest| && (Shift(rest, 0) == rest <==> PlainNumbers(rest))
    ensures |Shift(s, 0)| <= |s| && (Shift(s, 0) == s <==> PlainNumbers(s))
  {
    var n := DigitCount(s[1..]);
    DigitCountMeans(s[1..]);
    var digits, rest := s[1..][..n], s[1..][n..];
    assert PlainNumbers(s) <==> Canonical(digits) && PlainNumbers(rest);
    ShiftNumber(s, 0);
    hide Shift, PlainNumbers, DigitCount, Print, Canonical;
    PrintParse(digits);
    PrintNotLonger(digits);
    SameParts(Print(Parse(digits)), Shift(rest, 0), digits, rest);
    Assoc("{", Print(Parse(digits)), Shift(rest, 0));
    assert s == "{" + (digits + rest);
    SameParts("{", Print(Parse(digits)) + Shift(rest, 0), "{", digits + rest);
  }

  /** Shifting by nothing leaves the message alone exactly if no placeholder has a leading zero. */
  lemma {:induction false} ShiftByZero(s: string)
    ensures |Shift(s, 0)| <= |s| && (Shift(s, 0) == s <==> PlainNumbers(s))
    decreases |s|
  {
    if s == "" {
    } else if s[0] == '\\' && |s| == 1 {
    } else if s[0] == '\\' {
      ShiftByZero(s[2..]);
      assert s == s[..2] + s[2..];
      SameParts(s[..2], Shift(s[2..], 0), s[..2], s[2..]);
    } else if s[0] == '{' && DigitCount(s[1..]) > 0 {
      DigitCountMeans(s[1..]);
      ShiftByZero(s[1..][DigitCount(s[1..])..]);
      NumberKept(s);
    } else {
      ShiftByZero(s[1..]);
      assert s == [s[0]] + s[1..];
      SameParts([s[0]], Shift(s[1..], 0), [s[0]], s[1..]);
    }
  }

  /** The digits 007 do not survive. */
  lemma {:induction false} LeadingZerosDropped()
    ensures Shift("{007", 0) == "{7"
  {
    var s := "{007";
    assert s[1..] == "007" && "007"[1..] == "07" && "07"[1..] == "7" && "7"[1..] == "";
    assert DigitCount("007") == 3 && "007"[..3] == "007" && "007"[3..] == "";
    assert "007"[..2] == "00" && "00"[..1] == "0" && "0"[..0] == "";
    assert Parse("00") == 0 && Parse("007") == 7;
    assert Print(7) == "7";
    assert "{" + "7" + "" == "{7";
  }

  // ---- Events ----

  datatype Argument = Argument(kind: string, name: string)

  function Shifted(text: Option<string>, offset: nat): Option<string> {
    if text.None? then None else Some(Shift(text.value, offset))
  }

  /** The argument each placeholder stands for, when numbers count from base. */
  function Referred(tokens: seq<Token>, arguments: seq<Argument>, base: nat): seq<Argument>
    requires InRange(tokens, base, |arguments|)
  {
    if tokens == [] then []
    else (if tokens[0].Placeholder? then [arguments[tokens[0].number - base]] else [])
         + Referred(tokens[1..], arguments, base)
  }

  predicate InRange(tokens: seq<Token>, base: nat, count: nat) {
    tokens == [] || (
      && (tokens[0].Placeholder? ==> base <= tokens[0].number < base + count)
      && InRange(tokens[1..], base, count))
  }

  lemma {:induction false} SameArgument(tokens: seq<Token>, front: seq<Argument>, arguments: seq<Argument>, base: nat)
    requires tokens != [] && InRange(tokens, base, |arguments|)
    requires InRange(RaiseAll(tokens[1..], |front|), base, |front + arguments|)
    requires Referred(RaiseAll(tokens[1..], |front|), front + arguments, base) == Referred(tokens[1..], arguments, base)
    ensures InRange(RaiseAll(tokens, |front|), base, |front + arguments|)
    ensures Referred(RaiseAll(tokens, |front|), front + arguments, base) == Referred(tokens, arguments, base)
  {
    hide InRange, Referred, RaiseAll;
    var t, rest := tokens[0], RaiseAll(tokens[1..], |front|);
    FirstInRange(tokens, |front|, arguments, base);
    ReferredCons(t, tokens[1..], arguments, base);
    ReferredCons(Raise(t, |front|), rest, front + arguments, base);
    assert t.Placeholder? ==> (front + arguments)[t.number + |front| - base] == arguments[t.number - base];
  }

  lemma {:induction false} FirstInRange(tokens: seq<Token>, offset: nat, arguments: seq<Argument>, base: nat)
    requires tokens != [] && InRange(tokens, base, |arguments|)
    ensures tokens == [tokens[0]] + tokens[1..] && InRange(tokens[1..], base, |arguments|)
    ensures tokens[0].Placeholder? ==> base <= tokens[0].number < base + |arguments|
    ensures RaiseAll(tokens, offset) == [Raise(tokens[0], offset)] + RaiseAll(tokens[1..], offset)
  {
  }

  lemma {:induction false} ReferredCons(t: Token, rest: seq<Token>, arguments: seq<Argument>, base: nat)
    requires InRange(rest, base, |arguments|)
    requires t.Placeholder? ==> base <= t.number < base + |arguments|
    ensures InRange([t] + rest, base, |arguments|)
    ensures Referred([t] + rest, arguments, base)
         == (if t.Placeholder? then [arguments[t.number - base]] else []) + Referred(rest, arguments, base)
  {
    assert ([t] + rest)[1..] == rest;
  }

  /** Putting arguments in front and raising the placeholders by their count leaves every placeholder standing
      for the argument it stood for. */
  lemma {:induction false} SameArguments(tokens: seq<Token>, front: seq<Argument>, arguments: seq<Argument>, base: nat)
    requires InRange(tokens, base, |arguments|)
    ensures InRange(RaiseAll(tokens, |front|), base, |front + arguments|)
    ensures Referred(RaiseAll(tokens, |front|), front + arguments, base) == Referred(tokens, arguments, base)
  {
    if tokens == [] {
    } else {
      SameArguments(tokens[1..], front, arguments, base);
      hide InRange, Referred, RaiseAll;
      SameArgument(tokens, front, arguments, base);
    }
  }

  class Event {
    var message: Option<string>
    var description: Option<string>
    var arguments: seq<Argument>

    constructor ()
      ensures message == None && description == None && arguments == []
    {
      message, description, arguments := None, None, [];
    }

    /** Puts arguments in front; the texts keep referring to the arguments they referred to. */
    method PrependArguments(front: seq<Argument>)
      modifies this
      ensures arguments == front + old(arguments)
      ensures message == Shifted(old(message), |front|) && description == Shifted(old(description), |front|)
      ensures old(message).Some? ==> forall base: nat ::
                InRange(Tokens(old(message).value), base, |old(arguments)|) ==>
                  && InRange(Tokens(message.value), base, |arguments|)
                  && Referred(Tokens(message.value), arguments, base)
                  == Referred(Tokens(old(message).value), old(arguments), base)
    {
      hide Shift, Tokens, RaiseAll, InRange, Referred;
      arguments := front + arguments;
      var numAdded := |front|;
      if message.Some? {
        var shifted := ShiftPrintedArguments(message.value, numAdded);
        message := Some(shifted);
      }
      if description.Some? {
        var shifted := ShiftPrintedArguments(description.value, numAdded);
        description := Some(shifted);
      }
      if old(message).Some? {
        ShiftReads(old(message).value, numAdded);
        forall base: nat | InRange(Tokens(old(message).value), base, |old(arguments)|)
          ensures InRange(Tokens(message.value), base, |arguments|)
          ensures Referred(Tokens(message.value), arguments, base)
               == Referred(Tokens(old(message).value), old(arguments), base)
        {
          SameArguments(Tokens(old(message).value), front, old(arguments), base);
        }
      }
    }

    /** Two calls in a row are one call with both lists. */
    method PrependTwice(front: seq<Argument>, newer: seq<Argument>)
      modifies this
      ensures arguments == newer + front + old(arguments)
      ensures message == Shifted(old(message), |newer + front|)
      ensures description == Shifted(old(description), |newer + front|)
    {
      hide Shift, Tokens, RaiseAll, InRange, Referred;
      PrependArguments(front);
      PrependArguments(newer);
      if old(message).Some? {
        ShiftTwice(old(message).value, |front|, |newer|);
      }
      if old(description).Some? {
        ShiftTwice(old(description).value, |front|, |newer|);
      }
    }
  }
}

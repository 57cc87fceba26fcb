/** Splitting the arguments of an event call at its top-level commas. */
module EventArguments {

  import opened Whitespace

  function StripAll(pieces: seq<string>): seq<string> {
    if pieces == [] then [] else [Strip(pieces[0])] + StripAll(pieces[1..])
  }

  // ---- The split ----

  datatype Mode = Mode(bracket: int, inString: bool, prev: char)

  // Also the mode after every cut. No string is open, so the previous character plays no role.
  const START := Mode(0, false, ',')

  function Next(m: Mode, c: char): Mode {
    var inString := if m.inString then !(c == '"' && m.prev != '\\') else c == '"';
    if inString then Mode(m.bracket, true, c)
    else Mode(m.bracket + (if c in "{([" then 1 else 0) - (if c in "})]" then 1 else 0), false, c)
  }

  predicate Cuts(m: Mode, c: char) { !m.inString && m.bracket == 0 && c == ',' }

  // The pieces of the rest of the text, the first one starting with what was read since the last cut.
  function Pieces(m: Mode, s: string, current: string): (r: seq<string>)
    ensures r != []
    decreases |s|
  {
    if s == "" then [current] else
    var next := Next(m, s[0]);
    if Cuts(next, s[0]) then [current] + Pieces(next, s[1..], "") else Pieces(next, s[1..], current + [s[0]])
  }

  function Split(s: string): seq<string> { StripAll(Pieces(START, s, "")) }

  method ParseArguments(args: string) returns (argsSplit: seq<string>)
    ensures argsSplit == Split(args)
  {
    hide Strip, StripAll;
    argsSplit := [];
    StripNone();
    assert args[0..] == args && args[0..0] == "";
    var start, bracket, inString := 0, 0, false;
    ghost var mode, cut := START, [];
    for i := 0 to |args|
      invariant start <= i && (inString ==> i > 0)
      invariant mode == Mode(bracket, inString, if i == 0 then ',' else args[i - 1])
      invariant argsSplit == StripAll(cut)
      invariant cut + Pieces(mode, args[i..], args[start..i]) == Pieces(START, args, "")
    {
      PiecesStep(mode, args, start, i);
      mode := Next(mode, args[i]);
      if inString && args[i] == '"' && args[i - 1] != '\\' {
        inString := false;
      } else if !inString && args[i] == '"' {
        inString := true;
      }
      if inString {
        continue;
      }
      if args[i] in "{([" {
        bracket := bracket + 1;
      }
      if args[i] in "})]" {
        bracket := bracket - 1;
      }
      if bracket == 0 && args[i] == ',' {
        StripSnoc(cut, args[start..i]);
        Assoc(cut, [args[start..i]], Pieces(mode, args[i + 1..], ""));
        cut := cut + [args[start..i]];
        argsSplit := argsSplit + [Strip(args[start..i])];
        start := i + 1;
      }
    }
    StripSnoc(cut, args[start..]);
    assert args[|args|..] == "" && args[start..|args|] == args[start..];
    argsSplit := argsSplit + [Strip(args[start..])];
  }

  lemma {:induction false} PiecesStep(m: Mode, args: string, start: nat, i: nat)
    requires start <= i < |args|
    ensures Pieces(m, args[i..], args[start..i])
         == if Cuts(Next(m, args[i]), args[i])
            then [args[start..i]] + Pieces(Next(m, args[i]), args[i + 1..], args[i + 1..i + 1])
            else Pieces(Next(m, args[i]), args[i + 1..], args[start..i + 1])
  {
    assert args[i..][1..] == args[i + 1..];
    assert args[start..i] + [args[i]] == args[start..i + 1];
    assert args[i + 1..i + 1] == "";
  }

  lemma {:induction false} Assoc(a: seq<string>, b: seq<string>, c: seq<string>)
    ensures a + (b + c) == a + b + c
  {
  }

  lemma {:induction false} StripNone()
    ensures StripAll([]) == []
  {
  }

  lemma {:induction false} StripSnoc(pieces: seq<string>, s: string)
    ensures StripAll(pieces + [s]) == StripAll(pieces) + [Strip(s)]
  {
    if pieces == [] {
    } else {
      StripSnoc(pieces[1..], s);
      assert (pieces + [s])[1..] == pieces[1..] + [s];
    }
  }

  // ---- Nothing is lost ----

  function Join(args: seq<string>): string
    requires args != []
  {
    if |args| == 1 then args[0] else args[0] + "," + Join(args[1..])
  }

  /** The pieces before trimming, joined by commas, are the text that was split. */
  lemma {:induction false} PiecesJoin(m: Mode, s: string, current: string)
    ensures Join(Pieces(m, s, current)) == current + s
    decreases |s|
  {
    if s == "" {
      assert current + s == current;
    } else {
      var next := Next(m, s[0]);
      assert s == [s[0]] + s[1..];
      if Cuts(next, s[0]) {
        PiecesJoin(next, s[1..], "");
        assert Pieces(m, s, current)[1..] == Pieces(next, s[1..], "");
      } else {
        PiecesJoin(next, s[1..], current + [s[0]]);
      }
    }
  }

  // ---- Splitting what was joined ----

  function Run(m: Mode, s: string): Mode
    decreases |s|
  {
    if s == "" then m else Run(Next(m, s[0]), s[1..])
  }

  // No comma of the text is a cut.
  predicate Uncut(m: Mode, s: string)
    decreases |s|
  {
    s == "" || (!Cuts(Next(m, s[0]), s[0]) && Uncut(Next(m, s[0]), s[1..]))
  }

  /** An argument that can stand before a comma: no cut inside, every bracket and string closed at its end. */
  predicate Whole(arg: string) {
    Uncut(START, arg) && Run(START, arg).bracket == 0 && !Run(START, arg).inString
  }

  /** All arguments are trimmed, all but the last one whole, and the last one at least has no cut inside. */
  predicate Splittable(args: seq<string>)
    requires args != []
  {
    && (forall i :: 0 <= i < |args| ==> Strip(args[i]) == args[i])
    && Uncuttable(args)
  }

  predicate Uncuttable(args: seq<string>)
    requires args != []
  {
    if |args| == 1 then Uncut(START, args[0]) else Whole(args[0]) && Uncuttable(args[1..])
  }

  lemma {:induction false} PiecesUncut(m: Mode, a: string, rest: string, current: string)
    requires Uncut(m, a)
    ensures Pieces(m, a + rest, current) == Pieces(Run(m, a), rest, current + a)
    decreases |a|
  {
    if a == "" {
      assert a + rest == rest && current + a == current;
    } else {
      PiecesUncut(Next(m, a[0]), a[1..], rest, current + [a[0]]);
      assert (a + rest)[1..] == a[1..] + rest && current + [a[0]] + a[1..] == current + a;
    }
  }

  lemma {:induction false} FirstPiece(m: Mode, s: string, current: string)
    ensures current <= Pieces(m, s, current)[0]
    decreases |s|
  {
    if s == "" || Cuts(Next(m, s[0]), s[0]) {
    } else {
      FirstPiece(Next(m, s[0]), s[1..], current + [s[0]]);
    }
  }

  // A first piece that is not the last one is uncut and ends at a cut.
  lemma {:induction false} FirstCut(m: Mode, a: string, t: string, current: string)
    requires Pieces(m, a + t, current)[0] == current + a && |Pieces(m, a + t, current)| > 1
    ensures Uncut(m, a) && t != "" && Cuts(Next(Run(m, a), t[0]), t[0])
    decreases |a|
  {
    var s := a + t;
    if a == "" {
      assert s == t;
      if t != "" {
        FirstPiece(Next(m, t[0]), t[1..], current + [t[0]]);
      }
    } else {
      assert s[0] == a[0] && s[1..] == a[1..] + t;
      assert |current + a| > |current|;
      assert current + a == current + [a[0]] + a[1..];
      FirstCut(Next(m, a[0]), a[1..], t, current + [a[0]]);
    }
  }

  lemma {:induction false} OnlyPiece(m: Mode, s: string, current: string)
    requires |Pieces(m, s, current)| == 1
    ensures Uncut(m, s)
    decreases |s|
  {
    if s == "" {
    } else {
      OnlyPiece(Next(m, s[0]), s[1..], current + [s[0]]);
    }
  }

  lemma {:induction false} AfterComma(m: Mode)
    ensures Cuts(Next(m, ','), ',') <==> m.bracket == 0 && !m.inString
    ensures Cuts(Next(m, ','), ',') ==> Next(m, ',') == START
  {
  }

  lemma {:induction false} PiecesOfLast(a: string)
    ensures Pieces(START, a, "") == [a] <==> Uncut(START, a)
  {
    assert "" + a == a && a + "" == a;
    if Uncut(START, a) {
      PiecesUncut(START, a, "", "");
    }
    if Pieces(START, a, "") == [a] {
      OnlyPiece(START, a, "");
    }
  }

  // The first argument comes back, and then what the rest gives, exactly when it is whole.
  lemma {:induction false} PiecesOfFirst(a: string, rest: string)
    ensures Whole(a) ==> Pieces(START, a + ("," + rest), "") == [a] + Pieces(START, rest, "")
    ensures Pieces(START, a + ("," + rest), "")[0] == a && |Pieces(START, a + ("," + rest), "")| > 1 ==> Whole(a)
  {
    hide Run, Uncut, Next, Cuts;
    var t := "," + rest;
    assert "" + a == a && t[0] == ',' && t[1..] == rest;
    AfterComma(Run(START, a));
    if Whole(a) {
      PiecesUncut(START, a, t, "");
    }
    if Pieces(START, a + t, "")[0] == a && |Pieces(START, a + t, "")| > 1 {
      FirstCut(START, a, t, "");
    }
  }

  /** The untrimmed pieces of joined arguments are the arguments exactly when these are uncuttable. */
  lemma {:induction false} PiecesOfJoin(args: seq<string>)
    requires args != []
    ensures Pieces(START, Join(args), "") == args <==> Uncuttable(args)
  {
    hide Pieces, Whole, Uncut;
    var a := args[0];
    if |args| == 1 {
      PiecesOfLast(a);
      assert args == [a];
    } else {
      var rest := args[1..];
      PiecesOfJoin(rest);
      PiecesOfFirst(a, Join(rest));
      assert Join(args) == a + ("," + Join(rest));
      assert args == [a] + rest;
      assert ([a] + Pieces(START, Join(rest), ""))[1..] == Pieces(START, Join(rest), "");
    }
  }

  lemma {:induction false} StrippedLength(pieces: seq<string>)
    requires pieces != []
    ensures |StripAll(pieces)| == |pieces| && |Join(StripAll(pieces))| <= |Join(pieces)|
    ensures |Join(StripAll(pieces))| == |Join(pieces)| ==> StripAll(pieces) == pieces
  {
    StripShrinks(pieces[0]);
    if |pieces| <= 1 {
    } else {
      StrippedLength(pieces[1..]);
      assert StripAll(pieces)[1..] == StripAll(pieces[1..]);
      assert pieces == [pieces[0]] + pieces[1..];
    }
  }

  lemma {:induction false} StripAllTrimmed(args: seq<string>)
    ensures StripAll(args) == args <==> forall i :: 0 <= i < |args| ==> Strip(args[i]) == args[i]
  {
    if args == [] {
    } else {
      StripAllTrimmed(args[1..]);
      assert args == [args[0]] + args[1..];
      assert StripAll(args)[0] == Strip(args[0]) && StripAll(args)[1..] == StripAll(args[1..]);
    }
  }

  /** Joining arguments with commas and splitting again gives the arguments back exactly when they are
      splittable. */
  lemma {:induction false} SplitJoin(args: seq<string>)
    requires args != []
    ensures Split(Join(args)) == args <==> Splittable(args)
  {
    var pieces := Pieces(START, Join(args), "");
    PiecesOfJoin(args);
    StripAllTrimmed(args);
    if Split(Join(args)) == args {
      PiecesJoin(START, Join(args), "");
      assert "" + Join(args) == Join(args);
      StrippedLength(pieces);
    }
  }

  // ---- Balanced arguments ----

  datatype Item = Plain(c: char) | Quoted(text: string) | Group(open: char, inner: seq<Item>, close: char)

  function Write(items: seq<Item>): string {
    if items == [] then "" else WriteOne(items[0]) + Write(items[1..])
  }

  function WriteOne(item: Item): string {
    match item
    case Plain(c) => [c]
    case Quoted(text) => "\"" + text + "\""
    case Group(open, inner, close) => [open] + Write(inner) + [close]
  }

  // Commas stand inside brackets or strings; quotes inside a string are escaped and it does not end in a backslash.
  predicate Balanced(items: seq<Item>, depth: nat) {
    items == [] || (BalancedOne(items[0], depth) && Balanced(items[1..], depth))
  }

  predicate BalancedOne(item: Item, depth: nat) {
    match item
    case Plain(c) => c !in "{([})]\"" && (c == ',' ==> depth > 0)
    case Quoted(text) => Escaped(text)
    case Group(open, inner, close) => open in "{([" && close in "})]" && Balanced(inner, depth + 1)
  }

  predicate Escaped(text: string) {
    && (forall i :: 0 <= i < |text| && text[i] == '"' ==> i > 0 && text[i - 1] == '\\')
    && (text != "" ==> text[|text| - 1] != '\\')
  }

  lemma {:induction false} RunConcat(m: Mode, a: string, b: string)
    ensures Run(m, a + b) == Run(Run(m, a), b)
    ensures Uncut(m, a + b) <==> Uncut(m, a) && Uncut(Run(m, a), b)
    decreases |a|
  {
    if a == "" {
      assert a + b == b;
    } else {
      RunConcat(Next(m, a[0]), a[1..], b);
      assert (a + b)[1..] == a[1..] + b;
    }
  }

  // Inside a string, up to its closing quote.
  lemma {:induction false} RunString(text: string, i: nat, m: Mode)
    requires Escaped(text) && i <= |text| && m.inString
    requires m.prev == if i == 0 then '"' else text[i - 1]
    ensures Uncut(m, text[i..] + "\"")
    ensures Run(m, text[i..] + "\"") == Mode(m.bracket, false, '"')
    decreases |text| - i
  {
    var s := text[i..] + "\"";
    if i == |text| {
      assert s == "\"" && s[1..] == "";
    } else {
      assert s[1..] == text[i + 1..] + "\"";
      RunString(text, i + 1, Next(m, text[i]));
    }
  }

  ghost predicate Passes(m: Mode, s: string) {
    Uncut(m, s) && Run(m, s).bracket == m.bracket && !Run(m, s).inString
  }

  // Balanced text is read without a cut and leaves the bracket depth as it was.
  lemma {:induction false} RunBalanced(items: seq<Item>, m: Mode)
    requires !m.inString && m.bracket >= 0 && Balanced(items, m.bracket)
    ensures Passes(m, Write(items))
    decreases items, 1
  {
    if items == [] {
    } else {
      RunOne(items[0], m);
      var after := Run(m, WriteOne(items[0]));
      RunBalanced(items[1..], after);
      RunConcat(m, WriteOne(items[0]), Write(items[1..]));
    }
  }

  lemma {:induction false} RunOne(item: Item, m: Mode)
    requires !m.inString && m.bracket >= 0 && BalancedOne(item, m.bracket)
    ensures Passes(m, WriteOne(item))
    decreases item, 0
  {
    match item
    case Plain(c) =>
      assert [c][1..] == "";
    case Quoted(text) =>
      RunString(text, 0, Next(m, '"'));
      assert ("\"" + text + "\"")[1..] == text[0..] + "\"";
    case Group(open, inner, close) =>
      var deeper := Next(m, open);
      RunBalanced(inner, deeper);
      RunConcat(deeper, Write(inner), [close]);
      assert ([open] + Write(inner) + [close])[1..] == Write(inner) + [close];
      assert [close][1..] == "";
  }

  lemma {:induction false} BalancedUncuttable(arguments: seq<seq<Item>>, args: seq<string>)
    requires args != [] && |arguments| == |args|
    requires forall i :: 0 <= i < |args| ==> Balanced(arguments[i], 0) && args[i] == Write(arguments[i])
    ensures Uncuttable(args)
  {
    RunBalanced(arguments[0], START);
    if |args| <= 1 {
    } else {
      BalancedUncuttable(arguments[1..], args[1..]);
    }
  }

  /** Any list of trimmed balanced arguments survives joining and splitting. */
  lemma {:induction false} SplitBalanced(arguments: seq<seq<Item>>, args: seq<string>)
    requires args != [] && |arguments| == |args|
    requires forall i :: 0 <= i < |args| ==>
               Balanced(arguments[i], 0) && args[i] == Write(arguments[i]) && Strip(args[i]) == args[i]
    ensures Split(Join(args)) == args
  {
    BalancedUncuttable(arguments, args);
    SplitJoin(args);
  }

  /** A string that ends in an escaped backslash is not seen to end, so the comma after it does not split. */
  lemma {:induction false} BackslashSwallowsComma()
    ensures var args := ["\"\\\\\"", "1"]; Split(Join(args)) != args
  {
    var s := "\"\\\\\"";
    assert s[1..] == "\\\\\"" && s[1..][1..] == "\\\"" && s[1..][1..][1..] == "\"";
    assert Run(START, s).inString;
    SplitJoin([s, "1"]);
  }
}

/** Whitespace as Python's `str.strip` and the regular expression class `\s` see it. */
module Whitespace {

  predicate IsSpace(c: char) {
    var x := c as int;
    || 0x09 <= x <= 0x0D || 0x1C <= x <= 0x20 || x == 0x85 || x == 0xA0 || x == 0x1680
    || 0x2000 <= x <= 0x200A || x == 0x2028 || x == 0x2029 || x == 0x202F || x == 0x205F || x == 0x3000
  }

  function StripLeft(s: string): string { if s != "" && IsSpace(s[0]) then StripLeft(s[1..]) else s }

  function StripRight(s: string): string {
    if s != "" && IsSpace(s[|s| - 1]) then StripRight(s[..|s| - 1]) else s
  }

  function Strip(s: string): string { StripRight(StripLeft(s)) }

  lemma {:induction false} StripLeftShrinks(s: string)
    ensures |StripLeft(s)| <= |s| && (|StripLeft(s)| == |s| ==> StripLeft(s) == s)
  {
    if s == "" || !IsSpace(s[0]) {
    } else {
      StripLeftShrinks(s[1..]);
    }
  }

  lemma {:induction false} StripRightShrinks(s: string)
    ensures |StripRight(s)| <= |s| && (|StripRight(s)| == |s| ==> StripRight(s) == s)
  {
    if s == "" || !IsSpace(s[|s| - 1]) {
    } else {
      StripRightShrinks(s[..|s| - 1]);
    }
  }

  lemma {:induction false} StripShrinks(s: string)
    ensures |Strip(s)| <= |s| && (|Strip(s)| == |s| ==> Strip(s) == s)
  {
    StripLeftShrinks(s);
    StripRightShrinks(StripLeft(s));
  }

  // Not whitespace at either end.
  predicate Trimmed(s: string) { s == "" || (!IsSpace(s[0]) && !IsSpace(s[|s| - 1])) }

  lemma {:induction false} StripTrimmed(s: string)
    requires Trimmed(s)
    ensures Strip(s) == s && StripLeft(s) == s && StripRight(s) == s
  {
  }

  predicate Blank(s: string) { forall i :: 0 <= i < |s| ==> IsSpace(s[i]) }

  lemma {:induction false} StripRightBehind(a: string, b: string)
    requires a != "" && !IsSpace(a[|a| - 1])
    ensures StripRight(a + b) == a + StripRight(b)
  {
    if b == "" {
      assert a + b == a;
    } else if IsSpace(b[|b| - 1]) {
      StripRightBehind(a, b[..|b| - 1]);
      assert (a + b)[..|a + b| - 1] == a + b[..|b| - 1];
    }
  }

  lemma {:induction false} StripRightCons(c: char, t: string)
    ensures StripRight([c] + t) == if StripRight(t) == "" then StripRight([c]) else [c] + StripRight(t)
  {
    if t == "" {
      assert [c] + t == [c];
    } else if IsSpace(t[|t| - 1]) {
      StripRightCons(c, t[..|t| - 1]);
      assert ([c] + t)[..|t|] == [c] + t[..|t| - 1];
    }
  }

  /** The two ends can be stripped in either order. */
  lemma {:induction false} StripEitherOrder(s: string)
    ensures StripLeft(StripRight(s)) == Strip(s)
  {
    if s == "" {
    } else {
      var c, t := s[0], s[1..];
      assert s == [c] + t;
      StripRightCons(c, t);
      if IsSpace(c) {
        StripEitherOrder(t);
        assert [c][..0] == "";
        assert StripRight(t) != "" ==> ([c] + StripRight(t))[1..] == StripRight(t);
      }
    }
  }

  lemma {:induction false} StripRightPrefix(s: string)
    ensures StripRight(s) <= s
  {
    if s == "" || !IsSpace(s[|s| - 1]) {
    } else {
      StripRightPrefix(s[..|s| - 1]);
    }
  }

  lemma {:induction false} StripBlank(s: string)
    ensures StripRight(s) == "" <==> Blank(s)
  {
    if s == "" || !IsSpace(s[|s| - 1]) {
    } else {
      StripBlank(s[..|s| - 1]);
    }
  }

  /** Stripping changes exactly the texts that are not trimmed. */
  lemma {:induction false} StripSame(s: string)
    ensures Strip(s) == s <==> Trimmed(s)
  {
    if Trimmed(s) {
      StripTrimmed(s);
    } else if IsSpace(s[0]) {
      StripLeftShrinks(s[1..]);
      StripRightShrinks(StripLeft(s));
    } else {
      StripRightShrinks(s[..|s| - 1]);
    }
  }
}

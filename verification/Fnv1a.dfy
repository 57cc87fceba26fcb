/** The 32-bit FNV-1a hash (section 2 of draft-eastlake-fnv) used for message hashes and, cut to 24 bits,
    for event ids. */
module Fnv1a {

  // A character of a Python string.
  type CodePoint = bv21

  const OFFSET_BASIS: bv32 := 0x811C_9DC5

  function Xor(x: bv32, y: bv32): bv32 { x ^ y }
  function TimesPrime(x: bv32): bv32 { x * 0x0100_0193 }
  function Code(c: CodePoint): bv32 { c as bv32 }
  function Low24(x: bv32): bv32 { x & 0xFF_FFFF }

  /** One character: 32-bit multiplication is already reduced modulo 2^32, as the mask does. */
  function Mix(hash: bv32, c: CodePoint): bv32 { TimesPrime(Xor(hash, Code(c))) }

  function HashFrom(hash: bv32, s: seq<CodePoint>): bv32
    decreases |s|
  {
    if s == [] then hash else HashFrom(Mix(hash, s[0]), s[1..])
  }

  function Hash(s: seq<CodePoint>): bv32 { HashFrom(OFFSET_BASIS, s) }

  /** The hash loop. */
  method Hash32(data: seq<CodePoint>) returns (hash: bv32)
    ensures hash == Hash(data)
  {
    hide Mix;
    hash := OFFSET_BASIS;
    for i := 0 to |data|
      invariant HashFrom(hash, data[i..]) == Hash(data)
    {
      hash := Mix(hash, data[i]);
    }
  }

  /** The 24-bit event id. */
  function EventId(name: seq<CodePoint>): bv32 { Low24(Hash(name)) }

  // ---- Arithmetic modulo 2^24: multiplying by 2^8 keeps exactly the low 24 bits ----

  function Key(x: bv32): bv32 { x * 0x100 }

  lemma {:induction false} KeyOfLow(x: bv32, y: bv32)
    requires Low24(x) == Low24(y)
    ensures Key(x) == Key(y)
  {
  }

  lemma {:induction false} KeyTimes(x: bv32)
    ensures Key(TimesPrime(x)) == TimesPrime(Key(x))
  {
    calc {
      Key(TimesPrime(x));
      TimesPrime(x) * 0x100;
      (x * 0x0100_0193) * 0x100;
      (x * 0x100) * 0x0100_0193;
      Key(x) * 0x0100_0193;
      TimesPrime(Key(x));
    }
  }

  predicate Product(x: bv32, p: bv32) { p == x * 0x0100_0193 }

  lemma {:induction false} IsProduct(x: bv32)
    ensures Product(x, TimesPrime(x))
  {
  }

  /** The prime is odd, so a product determines its factor. */
  lemma {:induction false} ProductInjective(x: bv32, y: bv32, p: bv32)
    requires Product(x, p) && Product(y, p)
    ensures x == y
  {
  }

  lemma {:induction false} KeyXor(x: bv32, y: bv32)
    ensures Key(Xor(x, y)) == Xor(Key(x), Key(y))
  {
  }

  lemma {:induction false} XorUndo(x: bv32, y: bv32)
    ensures Xor(Xor(x, y), x) == y && Xor(Xor(x, y), y) == x
  {
  }

  lemma {:induction false} KeyOfCode(a: CodePoint, b: CodePoint)
    requires Key(Code(a)) == Key(Code(b))
    ensures a == b
  {
  }

  // ---- One changed character ----

  /** Mixing in the same character keeps different low parts different. */
  lemma {:induction false} MixInjective(x: bv32, y: bv32, a: CodePoint, b: CodePoint)
    requires Key(Mix(x, a)) == Key(Mix(y, b))
    ensures Xor(Key(x), Key(Code(a))) == Xor(Key(y), Key(Code(b)))
  {
    hide Xor, TimesPrime, Product, Key, Code;
    KeyTimes(Xor(x, Code(a)));
    KeyTimes(Xor(y, Code(b)));
    var u, v := Key(Xor(x, Code(a))), Key(Xor(y, Code(b)));
    IsProduct(u);
    IsProduct(v);
    ProductInjective(u, v, TimesPrime(u));
    KeyXor(x, Code(a));
    KeyXor(y, Code(b));
  }

  lemma {:induction false} SameSuffix(x: bv32, y: bv32, s: seq<CodePoint>)
    requires Key(HashFrom(x, s)) == Key(HashFrom(y, s))
    ensures Key(x) == Key(y)
    decreases |s|
  {
    hide Mix, Key, Xor, Code;
    if s == [] {
    } else {
      SameSuffix(Mix(x, s[0]), Mix(y, s[0]), s[1..]);
      MixInjective(x, y, s[0], s[0]);
      XorUndo(Key(x), Key(Code(s[0])));
      XorUndo(Key(y), Key(Code(s[0])));
    }
  }

  lemma {:induction false} HashConcat(h: bv32, a: seq<CodePoint>, b: seq<CodePoint>)
    ensures HashFrom(h, a + b) == HashFrom(HashFrom(h, a), b)
    decreases |a|
  {
    hide Mix;
    if a == [] {
      assert a + b == b;
    } else {
      assert (a + b)[1..] == a[1..] + b;
      HashConcat(Mix(h, a[0]), a[1..], b);
    }
  }

  /** Changing exactly one character of a string always changes its event id. */
  lemma {:induction false} OneCharacterChangesId(s: seq<CodePoint>, i: nat, c: CodePoint)
    requires i < |s| && c != s[i]
    ensures EventId(s[i := c]) != EventId(s)
  {
    hide HashFrom, Mix, Key, Xor, Code, Low24;
    if EventId(s[i := c]) == EventId(s) {
      var h := HashFrom(OFFSET_BASIS, s[..i]);
      assert s == s[..i] + ([s[i]] + s[i + 1..]) && s[i := c] == s[..i] + ([c] + s[i + 1..]);
      HashConcat(OFFSET_BASIS, s[..i], [s[i]] + s[i + 1..]);
      HashConcat(OFFSET_BASIS, s[..i], [c] + s[i + 1..]);
      OneStep(h, s[i], s[i + 1..]);
      OneStep(h, c, s[i + 1..]);
      KeyOfLow(Hash(s), Hash(s[i := c]));
      SameSuffix(Mix(h, s[i]), Mix(h, c), s[i + 1..]);
      MixInjective(h, h, s[i], c);
      XorUndo(Key(h), Key(Code(s[i])));
      XorUndo(Key(h), Key(Code(c)));
      KeyOfCode(s[i], c);
    }
  }

  lemma {:induction false} OneStep(h: bv32, c: CodePoint, rest: seq<CodePoint>)
    ensures HashFrom(h, [c] + rest) == HashFrom(Mix(h, c), rest)
  {
    hide Mix;
    assert ([c] + rest)[1..] == rest;
  }

  /** And so also its 32-bit hash. */
  lemma {:induction false} OneCharacterChangesHash(s: seq<CodePoint>, i: nat, c: CodePoint)
    requires i < |s| && c != s[i]
    ensures Hash(s[i := c]) != Hash(s)
  {
    hide HashFrom, Low24;
    OneCharacterChangesId(s, i, c);
  }

  // ---- Published values ----

  lemma {:induction false} Foo(rest: seq<CodePoint>)
    ensures HashFrom(0x811C_9DC5, [0x66, 0x6F, 0x6F] + rest) == HashFrom(0xA9F3_7ED7, rest)
  {
    assert Mix(0x811C_9DC5, 0x66) == 0xE30C_2799;
    assert Mix(0xE30C_2799, 0x6F) == 0x6222_E842;
    assert Mix(0x6222_E842, 0x6F) == 0xA9F3_7ED7;
    hide Mix, HashFrom;
    OneStep(0x811C_9DC5, 0x66, [0x6F, 0x6F] + rest);
    OneStep(0xE30C_2799, 0x6F, [0x6F] + rest);
    OneStep(0x6222_E842, 0x6F, rest);
    assert [0x66, 0x6F, 0x6F] + rest == [0x66] + ([0x6F, 0x6F] + rest);
    assert [0x6F, 0x6F] + rest == [0x6F] + ([0x6F] + rest);
  }

  lemma {:induction false} Bar(rest: seq<CodePoint>)
    ensures HashFrom(0xA9F3_7ED7, [0x62, 0x61, 0x72] + rest) == HashFrom(0xBF9C_F968, rest)
  {
    assert Mix(0xA9F3_7ED7, 0x62) == 0x3F50_76EF;
    assert Mix(0x3F50_76EF, 0x61) == 0x39AA_A18A;
    assert Mix(0x39AA_A18A, 0x72) == 0xBF9C_F968;
    hide Mix, HashFrom;
    OneStep(0xA9F3_7ED7, 0x62, [0x61, 0x72] + rest);
    OneStep(0x3F50_76EF, 0x61, [0x72] + rest);
    OneStep(0x39AA_A18A, 0x72, rest);
    assert [0x62, 0x61, 0x72] + rest == [0x62] + ([0x61, 0x72] + rest);
    assert [0x61, 0x72] + rest == [0x61] + ([0x72] + rest);
  }

  /** The published test values: nothing hashes to 811C9DC5, `foobar` to BF9CF968; its event id is the low 24 bits. */
  lemma {:induction false} PublishedValues()
    ensures Hash([]) == 0x811C_9DC5
    ensures Hash([0x66, 0x6F, 0x6F, 0x62, 0x61, 0x72]) == 0xBF9C_F968
    ensures EventId([0x66, 0x6F, 0x6F, 0x62, 0x61, 0x72]) == 0x9C_F968
  {
    Foo([0x62, 0x61, 0x72]);
    Bar([]);
    assert [0x66, 0x6F, 0x6F, 0x62, 0x61, 0x72] == [0x66, 0x6F, 0x6F] + [0x62, 0x61, 0x72];
    assert [0x62, 0x61, 0x72] + [] == [0x62, 0x61, 0x72];
    assert HashFrom(0xBF9C_F968, []) == 0xBF9C_F968;
    assert Low24(0xBF9C_F968) == 0x9C_F968;
  }
}

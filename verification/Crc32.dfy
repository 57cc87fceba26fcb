/** The firmware checksum: zlib's CRC-32 (section 8 of RFC 1952) with the conditioning that
    `Firmware.crc` undoes, against the plain reflected shift register of the bootloader. */
module Crc32 {

  // ---- Word arithmetic, named so that proofs can treat it by its laws ----

  const ALL_ONES: bv32 := 0xFFFF_FFFF
  const POLYNOMIAL: bv32 := 0xEDB8_8320

  function Xor(x: bv32, y: bv32): bv32 { x ^ y }
  function Half(x: bv32): bv32 { x >> 1 }
  predicate Odd(x: bv32) { x & 1 == 1 }
  predicate Top(x: bv32) { x & 0x8000_0000 != 0 }
  function Wide(b: bv8): bv32 { b as bv32 }
  function Low(x: bv32): bv8 { (x & 0xFF) as bv8 }
  function High(x: bv32): bv32 { x >> 8 }
  function Up(x: bv32): bv32 { x << 8 }
  function And(x: bv32, y: bv32): bv32 { x & y }

  lemma {:induction false} XorComm(x: bv32, y: bv32)
    ensures Xor(x, y) == Xor(y, x)
  {
  }

  lemma {:induction false} XorAssoc(x: bv32, y: bv32, z: bv32)
    ensures Xor(Xor(x, y), z) == Xor(x, Xor(y, z))
  {
    calc {
      Xor(Xor(x, y), z);
      (x ^ y) ^ z;
      x ^ (y ^ z);
      Xor(x, Xor(y, z));
    }
  }

  lemma {:induction false} XorUndo(x: bv32, y: bv32)
    ensures Xor(Xor(x, y), y) == x
  {
  }

  lemma {:induction false} XorCancel(x: bv32, y: bv32, z: bv32)
    requires Xor(x, z) == Xor(y, z)
    ensures x == y
  {
    hide Xor;
    XorUndo(x, z);
    XorUndo(y, z);
  }

  lemma {:induction false} AndOnes(x: bv32)
    ensures And(x, ALL_ONES) == x
  {
  }

  lemma {:induction false} Ones()
    ensures Xor(ALL_ONES, ALL_ONES) == 0
  {
  }

  lemma {:induction false} HalfXor(x: bv32, y: bv32)
    ensures Half(Xor(x, y)) == Xor(Half(x), Half(y)) && Odd(Xor(x, y)) == (Odd(x) != Odd(y))
  {
  }

  /** A word is its low byte and the rest. */
  lemma {:induction false} LowAndHigh(x: bv32)
    ensures x == Xor(Wide(Low(x)), Up(High(x)))
  {
    assert x == (x & 0xFF) ^ ((x >> 8) << 8) && ((x & 0xFF) as bv8) as bv32 == x & 0xFF;
  }

  lemma {:induction false} HighUp(x: bv32)
    ensures High(Up(High(x))) == High(x)
  {
  }

  lemma {:induction false} HighXor(x: bv32, b: bv8)
    ensures High(Xor(x, Wide(b))) == High(x)
  {
  }

  lemma {:induction false} TopTells(x: bv32)
    ensures !Top(Half(x)) && Top(Xor(POLYNOMIAL, Half(x)))
  {
  }

  lemma {:induction false} HalfAndOdd(x: bv32, y: bv32)
    requires Half(x) == Half(y) && Odd(x) == Odd(y)
    ensures x == y
  {
  }

  predicate FourEven(c: bv32) {
    !Odd(c) && !Odd(Half(c)) && !Odd(Half(Half(c))) && !Odd(Half(Half(Half(c))))
  }

  lemma {:induction false} LowNibbleEven(b: bv32)
    ensures FourEven(Up(b))
  {
  }

  lemma {:induction false} HighNibbleEven(b: bv32)
    ensures FourEven(Half(Half(Half(Half(Up(b))))))
  {
  }

  function Nibble(c: bv32): bv32 { c >> 4 }

  lemma {:induction false} HalvedFour(c: bv32)
    ensures Half(Half(Half(Half(c)))) == Nibble(c)
  {
  }

  lemma {:induction false} NibbleTwice(c: bv32)
    ensures Nibble(Nibble(c)) == High(c)
  {
  }

  lemma {:induction false} UpXor(x: bv32, y: bv32)
    ensures Up(Xor(x, y)) == Xor(Up(x), Up(y)) && High(Xor(x, y)) == Xor(High(x), High(y))
  {
  }

  lemma {:induction false} LowXor(b: bv8, r: bv32)
    ensures Low(Xor(Wide(b), Up(r))) == b
  {
  }

  // ---- The reference: one bit at a time ----

  /** One step of the reflected CRC-32 register. */
  function BitStep(c: bv32): bv32 {
    if Odd(c) then Xor(POLYNOMIAL, Half(c)) else Half(c)
  }

  function Steps(n: nat, c: bv32): bv32 {
    if n == 0 then c else Steps(n - 1, BitStep(c))
  }

  /** The register after the bytes of `data`, with no initial or final inversion. */
  function Register(c: bv32, data: seq<bv8>): bv32
    decreases |data|
  {
    if data == [] then c else Register(Steps(8, Xor(c, Wide(data[0]))), data[1..])
  }

  lemma {:induction false} BitStepLinear(x: bv32, y: bv32)
    ensures BitStep(Xor(x, y)) == Xor(BitStep(x), BitStep(y))
  {
    hide Xor, Half, Odd;
    HalfXor(x, y);
    var p, a, b := POLYNOMIAL, Half(x), Half(y);
    XorAssoc(p, a, b);
    XorComm(p, a);
    XorAssoc(a, p, b);
    XorAssoc(Xor(a, p), p, b);
    XorUndo(a, p);
  }

  lemma {:induction false} StepsLinear(n: nat, x: bv32, y: bv32)
    ensures Steps(n, Xor(x, y)) == Xor(Steps(n, x), Steps(n, y))
  {
    hide Xor, BitStep;
    if n == 0 {
    } else {
      BitStepLinear(x, y);
      StepsLinear(n - 1, BitStep(x), BitStep(y));
    }
  }

  /** The polynomial's top bit tells which branch was taken, so a step can be undone. */
  lemma {:induction false} BitStepInjective(x: bv32, y: bv32)
    requires BitStep(x) == BitStep(y)
    ensures x == y
  {
    hide Xor, Half, Odd, Top;
    TopTells(x);
    TopTells(y);
    if Odd(x) && Odd(y) {
      XorComm(POLYNOMIAL, Half(x));
      XorComm(POLYNOMIAL, Half(y));
      XorCancel(Half(x), Half(y), POLYNOMIAL);
    }
    HalfAndOdd(x, y);
  }

  lemma {:induction false} StepsInjective(n: nat, x: bv32, y: bv32)
    requires Steps(n, x) == Steps(n, y)
    ensures x == y
  {
    hide BitStep;
    if n == 0 {
    } else {
      StepsInjective(n - 1, BitStep(x), BitStep(y));
      BitStepInjective(x, y);
    }
  }

  lemma {:induction false} StepsAdd(m: nat, n: nat, c: bv32)
    ensures Steps(m + n, c) == Steps(n, Steps(m, c))
  {
    hide BitStep;
    if m == 0 {
    } else {
      StepsAdd(m - 1, n, BitStep(c));
    }
  }

  /** While the low byte is zero the register only shifts. */
  lemma {:induction false} StepsShift(b: bv32)
    ensures Steps(8, Up(b)) == High(Up(b))
  {
    hide Xor, Half, Odd, Up, High, Nibble;
    LowNibbleEven(b);
    HighNibbleEven(b);
    HalvedFour(Up(b));
    HalvedFour(Nibble(Up(b)));
    NibbleTwice(Up(b));
    var c := Nibble(Up(b));
    assert Steps(8, Up(b)) == Steps(6, Half(Half(Up(b))));
    assert Steps(6, Half(Half(Up(b)))) == Steps(4, c);
    assert Steps(4, c) == Steps(2, Half(Half(c)));
    assert Steps(2, Half(Half(c))) == Steps(0, Half(Half(Half(Half(c)))));
  }

  // ---- zlib ----

  /** The table of RFC 1952: entry n is the register after eight steps from n. */
  function Table(n: bv8): bv32 { Steps(8, Wide(n)) }

  /** zlib's `crc32(data, value)`: the register between two inversions. */
  function ZlibCrc(value: bv32, data: seq<bv8>): bv32 {
    Xor(Register(Xor(value, ALL_ONES), data), ALL_ONES)
  }

  /** The table look-up and the eight bit steps are the same function. */
  lemma {:induction false} TableIsEightSteps(c: bv32, b: bv8)
    ensures Xor(Table(Low(Xor(c, Wide(b)))), High(c)) == Steps(8, Xor(c, Wide(b)))
  {
    hide Xor, Steps, Wide, Low, High, Up;
    var x := Xor(c, Wide(b));
    LowAndHigh(x);
    HighUp(x);
    HighXor(c, b);
    StepsLinear(8, Wide(Low(x)), Up(High(x)));
    StepsShift(High(x));
  }

  /** The loop of `update_crc`, one table look-up per byte. */
  method UpdateCrc(crc: bv32, buf: seq<bv8>) returns (c: bv32)
    ensures c == ZlibCrc(crc, buf)
  {
    hide Xor, Steps, Wide, Low, High, Table;
    c := Xor(crc, ALL_ONES);
    ghost var start := c;
    for n := 0 to |buf|
      invariant Register(c, buf[n..]) == Register(start, buf)
    {
      TableIsEightSteps(c, buf[n]);
      c := Xor(Table(Low(Xor(c, Wide(buf[n])))), High(c));
    }
    c := Xor(c, ALL_ONES);
  }

  // ---- Firmware.crc ----

  /** What `size` bytes of erased flash hold after programming `image`. */
  function Padded(image: seq<bv8>, size: nat): seq<bv8> {
    if |image| < size then image + seq(size - |image|, _ => 0xFF) else image
  }

  /** The image, and behind it 0xFF up to the flash size. */
  lemma {:induction false} PaddedMeans(image: seq<bv8>, size: nat)
    ensures var all := Padded(image, size);
      && image <= all && |all| == (if |image| < size then size else |image|)
      && forall i :: |image| <= i < |all| ==> all[i] == 0xFF
  {
  }

  lemma {:induction false} RegisterConcat(c: bv32, a: seq<bv8>, b: seq<bv8>)
    ensures Register(c, a + b) == Register(Register(c, a), b)
    decreases |a|
  {
    hide Steps, Xor, Wide;
    if a == [] {
      assert a + b == b;
    } else {
      assert (a + b)[1..] == a[1..] + b;
      RegisterConcat(Steps(8, Xor(c, Wide(a[0]))), a[1..], b);
    }
  }

  /** The conditioning cancels: the result is the plain register over image and padding. */
  method FirmwareCrc(image: seq<bv8>, padlen: nat) returns (crc: bv32)
    ensures crc == Register(0, Padded(image, padlen))
  {
    hide Register, Xor;
    Ones();
    var state := ALL_ONES;
    state := UpdateCrc(state, image);
    XorUndo(Register(0, image), ALL_ONES);
    if padlen > |image| {
      var padding := seq(padlen - |image|, _ => 0xFF as bv8);
      state := UpdateCrc(state, padding);
      RegisterConcat(0, image, padding);
      XorUndo(Register(0, image + padding), ALL_ONES);
      assert Padded(image, padlen) == image + padding;
    }
    crc := And(Xor(state, ALL_ONES), ALL_ONES);
    AndOnes(Xor(state, ALL_ONES));
  }

  // ---- Error detection ----

  /** Different registers stay different over the same bytes. */
  lemma {:induction false} RegisterInjective(x: bv32, y: bv32, data: seq<bv8>)
    requires Register(x, data) == Register(y, data)
    ensures x == y
    decreases |data|
  {
    hide Steps, Xor, Wide;
    if data == [] {
    } else {
      var b := Wide(data[0]);
      RegisterInjective(Steps(8, Xor(x, b)), Steps(8, Xor(y, b)), data[1..]);
      StepsInjective(8, Xor(x, b), Xor(y, b));
      XorCancel(x, y, b);
    }
  }

  /** A later byte can be folded in eight steps early. */
  lemma {:induction false} StepsFold(x: bv32, b: bv32)
    requires High(Up(b)) == b
    ensures Xor(Steps(8, x), b) == Steps(8, Xor(x, Up(b)))
  {
    hide Steps, Xor, High, Up;
    StepsLinear(8, x, Up(b));
    StepsShift(b);
  }

  /** Four bytes as a little-endian word. */
  function Word(b0: bv8, b1: bv8, b2: bv8, b3: bv8): bv32 {
    Xor(Wide(b0), Up(Tail(b1, b2, b3)))
  }

  function Tail(b1: bv8, b2: bv8, b3: bv8): bv32 {
    Xor(Wide(b1), Up(Xor(Wide(b2), Up(Wide(b3)))))
  }

  lemma {:induction false} ByteFits(b: bv8)
    ensures High(Up(Wide(b))) == Wide(b) && High(Up(Up(Wide(b)))) == Up(Wide(b))
    ensures High(Up(Up(Up(Wide(b))))) == Up(Up(Wide(b)))
  {
  }

  /** Two or three bytes still leave room for the shift. */
  lemma {:induction false} BytesFit(b1: bv8, b2: bv8, b3: bv8)
    ensures var r := Xor(Wide(b2), Up(Wide(b3)));
            High(Up(r)) == r && High(Up(Tail(b1, b2, b3))) == Tail(b1, b2, b3)
  {
    hide Xor, Up, High, Wide;
    var w1, w2, w3 := Wide(b1), Wide(b2), Wide(b3);
    ByteFits(b1);
    ByteFits(b2);
    ByteFits(b3);
    UpXor(w2, Up(w3));
    UpXor(Up(w2), Up(Up(w3)));
    UpXor(Up(Up(w2)), Up(Up(Up(w3))));
    UpXor(w1, Up(Xor(w2, Up(w3))));
    UpXor(Up(w1), Up(Up(Xor(w2, Up(w3)))));
  }

  lemma {:induction false} WordInjective(a: seq<bv8>, b: seq<bv8>)
    requires |a| == |b| == 4 && Word(a[0], a[1], a[2], a[3]) == Word(b[0], b[1], b[2], b[3])
    ensures a == b
  {
    hide Xor, Up, High, Low, Wide;
    forall s: seq<bv8> | s == a || s == b
      ensures var w := Word(s[0], s[1], s[2], s[3]);
              Low(w) == s[0] && High(w) == Tail(s[1], s[2], s[3])
      ensures var r := Xor(Wide(s[2]), Up(Wide(s[3])));
              Low(Tail(s[1], s[2], s[3])) == s[1] && High(Tail(s[1], s[2], s[3])) == r && Low(r) == s[2]
              && High(r) == Wide(s[3])
    {
      BytesFit(s[1], s[2], s[3]);
      ByteFits(s[3]);
      LowXor(s[0], Tail(s[1], s[2], s[3]));
      LowXor(s[1], Xor(Wide(s[2]), Up(Wide(s[3]))));
      LowXor(s[2], Wide(s[3]));
      HighOfXor(s[0], Up(Tail(s[1], s[2], s[3])));
      HighOfXor(s[1], Up(Xor(Wide(s[2]), Up(Wide(s[3])))));
      HighOfXor(s[2], Up(Wide(s[3])));
    }
    WideInjective(a[3], b[3]);
  }

  lemma {:induction false} HighOfXor(b: bv8, x: bv32)
    ensures High(Xor(Wide(b), x)) == High(x)
  {
  }

  lemma {:induction false} WideInjective(a: bv8, b: bv8)
    requires Wide(a) == Wide(b)
    ensures a == b
  {
  }

  /** Four bytes are one 32-step run over their word. */
  lemma {:induction false} RegisterWord(c: bv32, b0: bv8, b1: bv8, b2: bv8, b3: bv8)
    ensures Register(c, [b0, b1, b2, b3]) == Steps(32, Xor(c, Word(b0, b1, b2, b3)))
  {
    hide Steps, Xor, High, Up, Wide;
    var w0, w1, w2, w3 := Wide(b0), Wide(b1), Wide(b2), Wide(b3);
    var r2 := Xor(w2, Up(w3));
    var r1 := Xor(w1, Up(r2));
    ByteFits(b3);
    BytesFit(b1, b2, b3);
    var y0 := Xor(c, w0);
    var y1 := Xor(Steps(8, y0), w1);
    var y2 := Xor(Steps(8, y1), w2);
    assert Register(c, [b0, b1, b2, b3]) == Steps(8, Xor(Steps(8, y2), w3)) by {
      assert [b0, b1, b2, b3][1..] == [b1, b2, b3] && [b1, b2, b3][1..] == [b2, b3];
      assert [b2, b3][1..] == [b3] && [b3][1..] == [];
      assert Register(c, [b0, b1, b2, b3]) == Register(Steps(8, y1), [b2, b3]);
      assert Register(Steps(8, y1), [b2, b3]) == Register(Steps(8, Xor(Steps(8, y2), w3)), []);
    }
    StepsFold(y2, w3);
    XorAssoc(Steps(8, y1), w2, Up(w3));
    StepsFold(y1, r2);
    XorAssoc(Steps(8, y0), w1, Up(r2));
    StepsFold(y0, r1);
    XorAssoc(c, w0, Up(r1));
    var x := Xor(c, Word(b0, b1, b2, b3));
    StepsAdd(8, 8, x);
    StepsAdd(16, 8, x);
    StepsAdd(24, 8, x);
  }

  /** Flash contents that differ from the expected ones only within some four consecutive bytes, and in
      particular in exactly one byte, have a different checksum. */
  lemma {:induction false} BurstDetected(a: seq<bv8>, b: seq<bv8>, p: nat)
    requires |a| == |b| && p + 4 <= |a| && a[..p] == b[..p] && a[p + 4..] == b[p + 4..]
    requires Register(0, a) == Register(0, b)
    ensures a == b
  {
    hide Steps, Xor, Word, Register;
    var c, m, n, rest := Register(0, a[..p]), a[p..p + 4], b[p..p + 4], a[p + 4..];
    assert a == a[..p] + (m + rest) && b == a[..p] + (n + rest);
    RegisterConcat(0, a[..p], m + rest);
    RegisterConcat(0, a[..p], n + rest);
    RegisterConcat(c, m, rest);
    RegisterConcat(c, n, rest);
    RegisterInjective(Register(c, m), Register(c, n), rest);
    assert m == [m[0], m[1], m[2], m[3]] && n == [n[0], n[1], n[2], n[3]];
    RegisterWord(c, m[0], m[1], m[2], m[3]);
    RegisterWord(c, n[0], n[1], n[2], n[3]);
    var u, v := Word(m[0], m[1], m[2], m[3]), Word(n[0], n[1], n[2], n[3]);
    StepsInjective(32, Xor(c, u), Xor(c, v));
    XorComm(c, u);
    XorComm(c, v);
    XorCancel(u, v, c);
    WordInjective(m, n);
  }

  // ---- The check value ----

  lemma {:induction false} RegisterByte(c: bv32, b: bv8, rest: seq<bv8>)
    ensures Register(c, [b] + rest) == Register(Steps(8, Xor(c, Wide(b))), rest)
  {
    hide Steps, Xor, Wide;
    assert ([b] + rest)[1..] == rest;
  }

  lemma {:induction false} FirstThree(rest: seq<bv8>)
    ensures Register(0xFFFF_FFFF, [0x31, 0x32, 0x33] + rest) == Register(0x77B7_9C2D, rest)
  {
    assert Steps(8, Xor(0xFFFF_FFFF, Wide(0x31))) == 0x7C23_1048;
    assert Steps(8, Xor(0x7C23_1048, Wide(0x32))) == 0xB0AC_BB32;
    assert Steps(8, Xor(0xB0AC_BB32, Wide(0x33))) == 0x77B7_9C2D;
    hide Steps, Xor, Wide, Register;
    RegisterByte(0xFFFF_FFFF, 0x31, [0x32, 0x33] + rest);
    assert [0x31, 0x32, 0x33] + rest == [0x31] + ([0x32, 0x33] + rest);
    RegisterByte(0x7C23_1048, 0x32, [0x33] + rest);
    assert [0x32, 0x33] + rest == [0x32] + ([0x33] + rest);
    RegisterByte(0xB0AC_BB32, 0x33, rest);
    assert [0x33] + rest == [0x33] + (rest);
  }

  lemma {:induction false} MiddleThree(rest: seq<bv8>)
    ensures Register(0x77B7_9C2D, [0x34, 0x35, 0x36] + rest) == Register(0xF68D_2C9E, rest)
  {
    assert Steps(8, Xor(0x77B7_9C2D, Wide(0x34))) == 0x641C_1F5C;
    assert Steps(8, Xor(0x641C_1F5C, Wide(0x35))) == 0x340A_C5E3;
    assert Steps(8, Xor(0x340A_C5E3, Wide(0x36))) == 0xF68D_2C9E;
    hide Steps, Xor, Wide, Register;
    RegisterByte(0x77B7_9C2D, 0x34, [0x35, 0x36] + rest);
    assert [0x34, 0x35, 0x36] + rest == [0x34] + ([0x35, 0x36] + rest);
    RegisterByte(0x641C_1F5C, 0x35, [0x36] + rest);
    assert [0x35, 0x36] + rest == [0x35] + ([0x36] + rest);
    RegisterByte(0x340A_C5E3, 0x36, rest);
    assert [0x36] + rest == [0x36] + (rest);
  }

  lemma {:induction false} LastThree(rest: seq<bv8>)
    ensures Register(0xF68D_2C9E, [0x37, 0x38, 0x39] + rest) == Register(0x340B_C6D9, rest)
  {
    assert Steps(8, Xor(0xF68D_2C9E, Wide(0x37))) == 0xAFFC_9660;
    assert Steps(8, Xor(0xAFFC_9660, Wide(0x38))) == 0x651F_2550;
    assert Steps(8, Xor(0x651F_2550, Wide(0x39))) == 0x340B_C6D9;
    hide Steps, Xor, Wide, Register;
    RegisterByte(0xF68D_2C9E, 0x37, [0x38, 0x39] + rest);
    assert [0x37, 0x38, 0x39] + rest == [0x37] + ([0x38, 0x39] + rest);
    RegisterByte(0xAFFC_9660, 0x38, [0x39] + rest);
    assert [0x38, 0x39] + rest == [0x38] + ([0x39] + rest);
    RegisterByte(0x651F_2550, 0x39, rest);
    assert [0x39] + rest == [0x39] + (rest);
  }

  const DIGITS: seq<bv8> := [0x31, 0x32, 0x33, 0x34, 0x35, 0x36, 0x37, 0x38, 0x39]

  lemma {:induction false} RegisterOfDigits()
    ensures Register(0xFFFF_FFFF, DIGITS) == 0x340B_C6D9
  {
    assert Register(0x340B_C6D9, []) == 0x340B_C6D9;
    hide Register;
    var last := [0x37, 0x38, 0x39];
    FirstThree([0x34, 0x35, 0x36] + last);
    MiddleThree(last);
    LastThree([]);
    assert DIGITS == [0x31, 0x32, 0x33] + ([0x34, 0x35, 0x36] + last) && last + [] == last;
  }

  /** The published check value: the digits 1 to 9 in ASCII give CBF43926. */
  lemma {:induction false} CheckValue()
    ensures ZlibCrc(0, [0x31, 0x32, 0x33, 0x34, 0x35, 0x36, 0x37, 0x38, 0x39]) == 0xCBF4_3926
  {
    RegisterOfDigits();
    hide Register;
    var r: bv32 := 0x340B_C6D9;
    assert Xor(r, ALL_ONES) == 0xCBF4_3926 && Xor(0, ALL_ONES) == 0xFFFF_FFFF;
  }

  /** A word's bytes, the first one lowest. */
  lemma {:induction false} WordBytes(b0: bv8, b1: bv8, b2: bv8, b3: bv8)
    ensures Word(b0, b1, b2, b3)
         == (b0 as bv32) | ((b1 as bv32) << 8) | ((b2 as bv32) << 16) | ((b3 as bv32) << 24)
  {
  }
}

/** What the milestones before REBOOT mean for the flash of the device at the other end. */
module UploadOutcome {
  import opened SerialLink
  import opened BootloaderProtocol
  import opened BootloaderDevice
  import opened UploadSequence
  import Crc32

  /** Commands that neither erase nor program leave the flash alone. */
  lemma {:induction false} FlashKept(reply: Reply, cs: seq<Command>, more: seq<Command>)
    requires forall c <- more :: !c.ChipErase? && !c.ChipFullErase? && !c.ProgMulti?
    ensures Flash(reply, cs + more) == Flash(reply, cs)
  {
    if more == [] {
      assert cs + more == cs;
    } else {
      var front := more[..|more| - 1];
      assert (cs + more)[..|cs + more| - 1] == cs + front;
      FlashKept(reply, cs, front);
    }
  }

  /** The same device, seen from after the command `c`. */
  function After(reply: Reply, c: Command): Reply { cs => reply([c] + cs) }

  lemma {:induction false} AfterErase(reply: Reply, c: Command, cs: seq<Command>)
    requires c.ChipErase? || c.ChipFullErase?
    ensures Flash(reply, [c] + cs) == Flash(After(reply, c), cs)
    ensures Replies(reply, [c] + cs) == reply([c]) + Replies(After(reply, c), cs)
  {
    if cs == [] {
      assert [c] + cs == [c];
    } else {
      var front := cs[..|cs| - 1];
      assert ([c] + cs)[..|[c] + cs| - 1] == [c] + front;
      AfterErase(reply, c, front);
      assert reply([c]) + (Replies(After(reply, c), front) + reply([c] + cs))
          == (reply([c]) + Replies(After(reply, c), front)) + reply([c] + cs);
    }
  }

  lemma {:induction false} AfterAnswers(reply: Reply, c: Command)
    requires Answers(reply)
    ensures Answers(After(reply, c))
  {
    forall cs: seq<Command>, data: seq<bv8>
      ensures |After(reply, c)(cs + [ProgMulti(data)])| <= 2
    {
      assert [c] + (cs + [ProgMulti(data)]) == ([c] + cs) + [ProgMulti(data)];
      assert |reply(([c] + cs) + [ProgMulti(data)])| <= 2;
    }
  }

  /** An acknowledged erase followed by acknowledged programming leaves exactly the image, and then every answer
      was read, whenever it came. */
  lemma {:induction false} ProgrammedAfterErase(e: seq<Event>, p: seq<Event>, image: seq<bv8>, reply: Reply)
    requires ErasePassed(e) && ProgramPassed(p, image) && Answers(reply)
    requires |reply(Commands(e))| <= 2
    requires Received(e + p) <= Replies(reply, Commands(e + p))
    ensures Flash(reply, Commands(e + p)) == image
    ensures Received(e + p) == Replies(reply, Commands(e + p))
  {
    hide Received, Flash, Replies, Programs, Acks, ChunkCount, AllAcked, Answers, Commands, After;
    var n, c := ChunkCount(|image|), Commands(e)[0];
    assert Commands(e) == [c];
    Concat(e, p);
    AfterErase(reply, c, Programs(image, n));
    AfterAnswers(reply, c);
    AcksMeanAll(After(reply, c), image, n);
    LastTwo(e);
    SameTail(Received(e), Acks(n), reply([c]), Replies(After(reply, c), Programs(image, n)));
    FlashHolds(After(reply, c), image, n);
    ProgramsCover(image, n);
  }

  lemma {:induction false} SameTail(a: seq<bv8>, b: seq<bv8>, c: seq<bv8>, d: seq<bv8>)
    requires a + b <= c + d && |c| <= |a| && |d| <= |b|
    ensures b == d && a + b == c + d
  {
    assert b == (a + b)[|a|..] && d == (c + d)[|c|..];
  }

  lemma {:induction false} LastTwo(e: seq<Event>)
    requires ErasePassed(e)
    ensures |Received(e)| >= 2
  {
    var front := e[..|e| - 2];
    assert e == front + e[|e| - 2..] && e[|e| - 2..] == [Got([INSYNC])] + [Got([OK])];
    Concat(front, [Got([INSYNC])] + [Got([OK])]);
    Snoc([Got([INSYNC])], Got([OK]));
    Single(Got([INSYNC]));
  }

  /** When REBOOT is sent to a device that tells the truth about what it stored, its flash holds exactly
      the firmware image, however late its answers came. */
  lemma {:induction false} BootedDeviceHolds(p: seq<Event>, inbox: seq<bv8>, fw: Firmware, blRev: nat, size: nat,
                                             d: Device, reply: Reply)
    requires ReadyToBoot(p, fw, blRev, size) && Sound(d, p, inbox) && Queues(d, reply) && Answers(reply)
    requires |reply([ChipErase])| <= 2 && |reply([ChipFullErase])| <= 2
    ensures Flash(reply, Commands(p)) == fw.image
  {
    hide Flash, Received, Arrived, Commands, ProgramPassed, VerifyPassed, SignaturePassed, Answers, Sound, Queues;
    var k, l, m, n :| 0 <= k <= l <= m <= n <= |p| && Milestones(p, fw, blRev, size, k, l, m, n);
    ProgrammedBefore(p, inbox, fw, blRev, size, d, reply, k, l, m, n);
    QuietAfter(p, fw, blRev, size, k, l, m, n);
    Concat(p[..l], p[l..]);
    assert p == p[..l] + p[l..];
    FlashKept(reply, Commands(p[..l]), Commands(p[l..]));
  }

  // The same right after programming.
  lemma {:induction false} ProgrammedBefore(p: seq<Event>, inbox: seq<bv8>, fw: Firmware, blRev: nat, size: nat,
                                            d: Device, reply: Reply, k: int, l: int, m: int, n: int)
    requires 0 <= k <= l <= m <= n <= |p| && Milestones(p, fw, blRev, size, k, l, m, n)
    requires Sound(d, p, inbox) && Queues(d, reply) && Answers(reply)
    requires |reply([ChipErase])| <= 2 && |reply([ChipFullErase])| <= 2
    ensures Flash(reply, Commands(p[..l])) == fw.image
    ensures Received(p[..l]) == Replies(reply, Commands(p[..l]))
  {
    hide Flash, Received, Arrived, Commands, ProgramPassed, VerifyPassed, SignaturePassed, Answers, Replies;
    var e, q := p[..k], p[k..l];
    assert p[..l] == e + q;
    assert Received(p[..l]) <= Arrived(d, p[..l]) <= Replies(reply, Commands(p[..l]));
    ProgrammedAfterErase(e, q, fw.image, reply);
  }

  /** Verification, signature check and REBOOT neither erase nor program. */
  lemma {:induction false} QuietAfter(p: seq<Event>, fw: Firmware, blRev: nat, size: nat, a: int, b: int, c: int,
                                      d: int)
    requires 0 <= a <= b <= c <= d <= |p| && Milestones(p, fw, blRev, size, a, b, c, d)
    ensures forall x <- Commands(p[b..]) :: !x.ChipErase? && !x.ChipFullErase? && !x.ProgMulti?
  {
    hide Commands, ErasePassed, ProgramPassed, VerifyPassed, SignaturePassed;
    var v, g, r := p[b..c], p[c..d], p[d..];
    VerifyQuiet(v, fw.image, blRev, size);
    SignatureQuiet(g, fw.imageSigned);
    assert p[b..] == (v + g) + r;
    Concat(v, g);
    Concat(v + g, r);
  }

  lemma {:induction false} ReadsQuiet(image: seq<bv8>, n: nat)
    requires n <= ChunkCount(|image|)
    ensures forall c <- Reads(image, n) :: c.ReadMulti?
  {
    if n == 0 {
    } else {
      ReadsQuiet(image, n - 1);
    }
  }

  lemma {:induction false} VerifyQuiet(v: seq<Event>, image: seq<bv8>, blRev: nat, size: nat)
    requires VerifyPassed(v, image, blRev, size)
    ensures forall x <- Commands(v) :: x.GetCrc? || x.ChipVerify? || x.ReadMulti?
  {
    if blRev >= 3 {
      var got :| |got| == 4 && v == [Sent(GetCrc), Got(got), Got([INSYNC]), Got([OK])];
      FourEvents(v[0], v[1], v[2], v[3]);
    } else {
      ReadsQuiet(image, ChunkCount(|image|));
    }
  }

  lemma {:induction false} SignatureQuiet(g: seq<Event>, signed: bool)
    requires if signed then SignaturePassed(g, true) else g == []
    ensures forall x <- Commands(g) :: x.VerifySig?
  {
    if |g| == 2 {
      Single(g[0]);
      Snoc([g[0]], g[1]);
      assert g == [g[0]] + [g[1]];
    } else if |g| == 3 {
      Single(g[0]);
      Snoc([g[0]], g[1]);
      Snoc([g[0], g[1]], g[2]);
      assert g == [g[0], g[1]] + [g[2]] && [g[0], g[1]] == [g[0]] + [g[1]];
    }
  }

  lemma {:induction false} FourEvents(a: Event, b: Event, c: Event, d: Event)
    requires !b.Sent? && !c.Sent? && !d.Sent?
    ensures Commands([a, b, c, d]) == Commands([a])
  {
    assert [a, b, c, d] == (([a] + [b]) + [c]) + [d];
    Snoc([a], b);
    Snoc([a] + [b], c);
    Snoc(([a] + [b]) + [c], d);
  }

  /** The checksum check rejects every flash content that differs from image and padding only within
      four consecutive bytes, and so every single wrong byte. */
  lemma {:induction false} CrcRejects(t: seq<Event>, image: seq<bv8>, size: nat, flash: seq<bv8>, at: nat)
    requires CrcPassed(t, image, size)
    requires var d := t[1].bytes; Crc32.Word(d[0], d[1], d[2], d[3]) == Crc32.Register(0, flash)
    requires var good := Crc32.Padded(image, size);
             |flash| == |good| && at + 4 <= |good| && flash[..at] == good[..at] && flash[at + 4..] == good[at + 4..]
    ensures flash == Crc32.Padded(image, size)
  {
    hide Crc32.Register, Crc32.Word;
    Crc32.BurstDetected(flash, Crc32.Padded(image, size), at);
  }

  /** Read-back tells any two contents of the same length apart. */
  lemma {:induction false} ReadbackTells(image: seq<bv8>, flash: seq<bv8>, n: nat)
    requires |image| == |flash| && n <= ChunkCount(|image|)
    requires Readback(image, n) == Readback(flash, n)
    ensures image[..Covered(image, n)] == flash[..Covered(flash, n)]
    ensures n == ChunkCount(|image|) ==> image == flash
  {
    hide Acks;
    AllCovered(image);
    AllCovered(flash);
    if n == 0 {
    } else {
      var a, b := Readback(image, n - 1), Readback(flash, n - 1);
      var x, y := Chunk(image, n - 1) + Acks(1), Chunk(flash, n - 1) + Acks(1);
      ReadbackLength(image, flash, n - 1);
      assert a == (a + x)[..|a|] && b == (b + y)[..|a|] && x == (a + x)[|a|..] && y == (b + y)[|a|..];
      ReadbackTells(image, flash, n - 1);
      ChunkShape(image, n - 1);
      ChunkShape(flash, n - 1);
      var k := |Chunk(image, n - 1)|;
      assert Chunk(image, n - 1) == x[..k] && Chunk(flash, n - 1) == y[..k];
    }
  }

  lemma {:induction false} ReadbackLength(image: seq<bv8>, flash: seq<bv8>, n: nat)
    requires |image| == |flash| && n <= ChunkCount(|image|)
    ensures |Readback(image, n)| == |Readback(flash, n)|
  {
    if n == 0 {
    } else {
      ReadbackLength(image, flash, n - 1);
    }
  }
}

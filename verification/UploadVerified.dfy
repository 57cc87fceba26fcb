/** What the verification before REBOOT catches when the device acknowledges everything but may have stored
    something else. */
module UploadVerified {
  import opened SerialLink
  import opened BootloaderProtocol
  import opened BootloaderDevice
  import opened UploadSequence
  import opened UploadOutcome
  import Crc32

  /** What the flash really holds, whatever was acknowledged. */
  type Contents = seq<Command> -> seq<bv8>

  /** Commands that leave the flash alone. */
  predicate Quiet(c: Command) { !c.ChipErase? && !c.ChipFullErase? && !c.ProgMulti? }

  /** How far the commands have read since the last CHIP_VERIFY. */
  function ReadPosition(cs: seq<Command>): nat {
    if cs == [] then 0
    else
      var c := cs[|cs| - 1];
      if c.ChipVerify? then 0
      else if c.ReadMulti? then ReadPosition(cs[..|cs| - 1]) + c.count
      else ReadPosition(cs[..|cs| - 1])
  }

  ghost predicate Steady(flash: Contents) {
    forall cs: seq<Command>, c: Command :: Quiet(c) ==> flash(cs + [c]) == flash(cs)
  }

  ghost predicate ChecksumAnswer(answer: seq<bv8>, contents: seq<bv8>) {
    && |answer| == 6 && answer[4..] == Acks(1)
    && Crc32.Word(answer[0], answer[1], answer[2], answer[3]) == Crc32.Register(0, contents)
  }

  /** GET_CRC and READ_MULTI are answered from what the flash really holds. */
  ghost predicate Truthful(reply: Reply, flash: Contents) {
    && (forall cs: seq<Command> :: ChecksumAnswer(reply(cs + [GetCrc]), flash(cs)))
    && (forall cs: seq<Command> :: reply(cs + [ChipVerify]) == Acks(1))
    && forall cs: seq<Command>, k: nat :: ReadPosition(cs) + k <= |flash(cs)| ==>
         reply(cs + [ReadMulti(k)]) == flash(cs)[ReadPosition(cs)..ReadPosition(cs) + k] + Acks(1)
  }

  lemma {:induction false} SteadyAll(flash: Contents, cs: seq<Command>, more: seq<Command>)
    requires Steady(flash) && forall c <- more :: Quiet(c)
    ensures flash(cs + more) == flash(cs)
  {
    if more == [] {
      assert cs + more == cs;
    } else {
      var front := more[..|more| - 1];
      SteadyAll(flash, cs, front);
      assert cs + more == (cs + front) + [more[|more| - 1]];
    }
  }

  // ---- Answers after a point ----

  function Later(reply: Reply, cs: seq<Command>): Reply { more => reply(cs + more) }

  lemma {:induction false} RepliesConcat(reply: Reply, cs: seq<Command>, more: seq<Command>)
    ensures Replies(reply, cs + more) == Replies(reply, cs) + Replies(Later(reply, cs), more)
  {
    if more == [] {
      assert cs + more == cs;
    } else {
      var front := more[..|more| - 1];
      RepliesConcat(reply, cs, front);
      assert (cs + more)[..|cs + more| - 1] == cs + front;
      Assoc(Replies(reply, cs), Replies(Later(reply, cs), front), reply(cs + more));
    }
  }

  lemma {:induction false} PrefixTail(a: seq<bv8>, b: seq<bv8>, c: seq<bv8>)
    requires a + b <= a + c
    ensures b <= c
  {
    assert forall i :: 0 <= i < |b| ==> (a + b)[|a| + i] == b[i] && (a + c)[|a| + i] == c[i];
  }

  // What was read during the verification are answers to its commands.
  lemma {:induction false} VerificationAnswers(p: seq<Event>, inbox: seq<bv8>, fw: Firmware, blRev: nat, size: nat,
                                               d: Device, reply: Reply, k: int, l: int, m: int, n: int)
    requires 0 <= k <= l <= m <= n <= |p| && Milestones(p, fw, blRev, size, k, l, m, n)
    requires Sound(d, p, inbox) && Queues(d, reply) && Answers(reply)
    requires |reply([ChipErase])| <= 2 && |reply([ChipFullErase])| <= 2
    ensures Received(p[l..m]) <= Replies(Later(reply, Commands(p[..l])), Commands(p[l..m]))
  {
    hide Received, Commands, Replies, Answers, Flash, Milestones, Later;
    ProgrammedBefore(p, inbox, fw, blRev, size, d, reply, k, l, m, n);
    assert Received(p[..m]) <= Arrived(d, p[..m]) <= Replies(reply, Commands(p[..m]));
    assert p[..m] == p[..l] + p[l..m];
    Concat(p[..l], p[l..m]);
    RepliesConcat(reply, Commands(p[..l]), Commands(p[l..m]));
    PrefixTail(Received(p[..l]), Received(p[l..m]), Replies(Later(reply, Commands(p[..l])), Commands(p[l..m])));
  }

  // ---- Read-back ----

  lemma {:induction false} PositionOf(cs: seq<Command>, image: seq<bv8>, i: nat)
    requires i <= ChunkCount(|image|)
    ensures ReadPosition(cs + ([ChipVerify] + Reads(image, i))) == Covered(image, i)
  {
    hide Chunk, ChunkCount;
    if i == 0 {
      assert cs + ([ChipVerify] + Reads(image, i)) == cs + [ChipVerify];
    } else {
      PositionOf(cs, image, i - 1);
      ChunkShape(image, i - 1);
      var all := cs + ([ChipVerify] + Reads(image, i));
      assert all[..|all| - 1] == cs + ([ChipVerify] + Reads(image, i - 1));
      assert |image[..Covered(image, i - 1)] + Chunk(image, i - 1)| == |image[..Covered(image, i)]|;
    }
  }

  // Chunk i of the first bytes of the flash is what reading at its place gives.
  lemma {:induction false} ChunkRead(image: seq<bv8>, contents: seq<bv8>, i: nat)
    requires i < ChunkCount(|image|) && |image| <= |contents|
    ensures var k := |Chunk(image, i)|;
      && Covered(image, i) + k <= |contents|
      && contents[Covered(image, i)..Covered(image, i) + k] == Chunk(contents[..|image|], i)
  {
    assert i * CHUNK_MAX < |image|;
  }

  // A truthful device answers the read-back commands with its own contents.
  lemma {:induction false} ReadAnswers(reply: Reply, flash: Contents, cs: seq<Command>, image: seq<bv8>, i: nat)
    requires Truthful(reply, flash) && Steady(flash) && |image| <= |flash(cs)| && i <= ChunkCount(|image|)
    ensures Replies(Later(reply, cs), [ChipVerify] + Reads(image, i))
         == Acks(1) + Readback(flash(cs)[..|image|], i)
  {
    hide Chunk, ChunkCount, Acks, Truthful, Steady, Covered;
    if i == 0 {
      FirstAnswer(reply, flash, cs, image);
    } else {
      ReadAnswers(reply, flash, cs, image, i - 1);
      var more, last := [ChipVerify] + Reads(image, i - 1), ReadMulti(|Chunk(image, i - 1)|);
      assert [ChipVerify] + Reads(image, i) == more + [last];
      assert (more + [last])[..|more + [last]| - 1] == more;
      OneAnswer(reply, flash, cs, image, i - 1);
      Assoc(Acks(1), Readback(flash(cs)[..|image|], i - 1), Chunk(flash(cs)[..|image|], i - 1) + Acks(1));
    }
  }

  lemma {:induction false} FirstAnswer(reply: Reply, flash: Contents, cs: seq<Command>, image: seq<bv8>)
    requires Truthful(reply, flash) && |image| <= |flash(cs)|
    ensures Replies(Later(reply, cs), [ChipVerify] + Reads(image, 0)) == Acks(1) + Readback(flash(cs)[..|image|], 0)
  {
    assert [ChipVerify] + Reads(image, 0) == [ChipVerify] && [ChipVerify][..0] == [];
    assert reply(cs + [ChipVerify]) == Acks(1);
  }

  lemma {:induction false} OneAnswer(reply: Reply, flash: Contents, cs: seq<Command>, image: seq<bv8>, i: nat)
    requires Truthful(reply, flash) && Steady(flash) && |image| <= |flash(cs)| && i < ChunkCount(|image|)
    ensures reply(cs + ([ChipVerify] + Reads(image, i) + [ReadMulti(|Chunk(image, i)|)]))
         == Chunk(flash(cs)[..|image|], i) + Acks(1)
  {
    hide Chunk, ChunkCount, Acks, Covered, Steady, Truthful;
    var more, k := [ChipVerify] + Reads(image, i), |Chunk(image, i)|;
    ReadsQuiet(image, i);
    SteadyAll(flash, cs, more);
    PositionOf(cs, image, i);
    ChunkRead(image, flash(cs), i);
    Assoc(cs, more, [ReadMulti(k)]);
    ReadAnswered(reply, flash, cs + more, k);
  }

  lemma {:induction false} ReadAnswered(reply: Reply, flash: Contents, cs: seq<Command>, k: nat)
    requires Truthful(reply, flash) && ReadPosition(cs) + k <= |flash(cs)|
    ensures reply(cs + [ReadMulti(k)]) == flash(cs)[ReadPosition(cs)..ReadPosition(cs) + k] + Acks(1)
  {
  }

  lemma {:induction false} ReadbackPassed(v: seq<Event>, image: seq<bv8>, reply: Reply, flash: Contents,
                                          cs: seq<Command>)
    requires ReadPassed(v, image) && Truthful(reply, flash) && Steady(flash) && |image| <= |flash(cs)|
    requires Received(v) <= Replies(Later(reply, cs), Commands(v))
    ensures flash(cs)[..|image|] == image
  {
    hide Chunk, ChunkCount, Acks, Truthful, Steady, Received, Commands, Replies, Later, Readback;
    var n, f := ChunkCount(|image|), flash(cs)[..|image|];
    ReadAnswers(reply, flash, cs, image, n);
    ReadbackLength(image, f, n);
    PrefixTail(Acks(1), Readback(image, n), Readback(f, n));
    ReadbackTells(image, f, n);
  }

  // ---- Checksum ----

  lemma {:induction false} ChecksumPassed(v: seq<Event>, image: seq<bv8>, size: nat, reply: Reply, flash: Contents,
                                          cs: seq<Command>)
    requires CrcPassed(v, image, size) && Truthful(reply, flash)
    requires Received(v) <= Replies(Later(reply, cs), Commands(v))
    ensures |v| == 4 && v[1].Got? && |v[1].bytes| == 4
    ensures var d := v[1].bytes; Crc32.Word(d[0], d[1], d[2], d[3]) == Crc32.Register(0, flash(cs))
  {
    hide Crc32.Register, Crc32.Word, Crc32.Padded, Received, Commands;
    var d := v[1].bytes;
    ChecksumTrace(d);
    var answer := reply(cs + [GetCrc]);
    assert ChecksumAnswer(answer, flash(cs));
    assert [GetCrc][..0] == [] && Replies(Later(reply, cs), [GetCrc]) == [] + answer;
    assert d + Acks(1) <= answer;
    assert forall i :: 0 <= i < 4 ==> (d + Acks(1))[i] == d[i];
  }

  lemma {:induction false} ChecksumTrace(d: seq<bv8>)
    ensures Received([Sent(GetCrc), Got(d), Got([INSYNC]), Got([OK])]) == d + Acks(1)
    ensures Commands([Sent(GetCrc), Got(d), Got([INSYNC]), Got([OK])]) == [GetCrc]
  {
    hide Received, Commands;
    var a, b, c, e := Sent(GetCrc), Got(d), Got([INSYNC]), Got([OK]);
    Single(a);
    Snoc([a], b);
    Snoc([a] + [b], c);
    Snoc([a] + [b] + [c], e);
    assert [a, b, c, e] == [a] + [b] + [c] + [e];
    AcksOne();
    assert d + [INSYNC] + [OK] == d + [INSYNC, OK];
  }

  /** The two differ at most in the four bytes from `at` on. */
  predicate SameOutside(a: seq<bv8>, b: seq<bv8>, at: nat) {
    |a| == |b| && at + 4 <= |b| && a[..at] == b[..at] && a[at + 4..] == b[at + 4..]
  }

  /** A device that acknowledges everything but may have stored something else, and answers GET_CRC and
      READ_MULTI from what it holds: when REBOOT is sent after a read-back its flash starts with the image; when it
      is sent after a checksum its flash does not differ from the padded image only within four consecutive bytes. */
  lemma {:induction false} BootedDeviceVerified(p: seq<Event>, inbox: seq<bv8>, fw: Firmware, blRev: nat, size: nat,
                                                d: Device, reply: Reply, flash: Contents, at: nat)
    requires ReadyToBoot(p, fw, blRev, size) && Sound(d, p, inbox) && Queues(d, reply) && Answers(reply)
    requires |reply([ChipErase])| <= 2 && |reply([ChipFullErase])| <= 2
    requires Truthful(reply, flash) && Steady(flash)
    ensures blRev < 3 && |fw.image| <= |flash(Commands(p))| ==> flash(Commands(p))[..|fw.image|] == fw.image
    ensures var contents, good := flash(Commands(p)), Crc32.Padded(fw.image, size);
      blRev >= 3 && SameOutside(contents, good, at) ==> contents == good
  {
    hide Received, Arrived, Commands, SignaturePassed, Answers, Sound, Queues, Steady, Truthful, ErasePassed;
    hide ProgramPassed, ReadPassed, CrcPassed, Later, Replies, Crc32.Register, Crc32.Word, Crc32.Padded;
    var k, l, m, n :| 0 <= k <= l <= m <= n <= |p| && Milestones(p, fw, blRev, size, k, l, m, n);
    VerificationAnswers(p, inbox, fw, blRev, size, d, reply, k, l, m, n);
    QuietAfter(p, fw, blRev, size, k, l, m, n);
    Concat(p[..l], p[l..]);
    assert p == p[..l] + p[l..];
    var cs, v := Commands(p[..l]), p[l..m];
    SteadyAll(flash, cs, Commands(p[l..]));
    if blRev < 3 {
      if |fw.image| <= |flash(cs)| {
        ReadbackPassed(v, fw.image, reply, flash, cs);
      }
    } else {
      ChecksumPassed(v, fw.image, size, reply, flash, cs);
      var contents, good := flash(cs), Crc32.Padded(fw.image, size);
      if SameOutside(contents, good, at) {
        CrcRejects(v, fw.image, size, contents, at);
      }
    }
  }
}

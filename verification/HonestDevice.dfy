/** A bootloader that does what it is told, and the proof that every upload to it succeeds. */
module HonestDevice {
  import opened SerialLink
  import opened BootloaderProtocol
  import opened BootloaderDevice
  import opened UploadSequence
  import opened UploadVerified
  import opened UploadSuccess
  import Crc32

  // ---- Its flash and its answers ----

  /** What was programmed since the last erase. */
  function Stored(cs: seq<Command>): seq<bv8> {
    if cs == [] then []
    else
      var front, c := cs[..|cs| - 1], cs[|cs| - 1];
      if Erases(c) then [] else if c.ProgMulti? then Stored(front) + c.data else Stored(front)
  }

  /** The whole flash of the given size. */
  function Holds(cs: seq<Command>, size: nat): seq<bv8> { Crc32.Padded(Stored(cs), size) }

  function ChecksumBytes(w: bv32): seq<bv8> {
    [Crc32.Low(w), Crc32.Low(Crc32.High(w)), Crc32.Low(Crc32.High(Crc32.High(w))),
     Crc32.Low(Crc32.High(Crc32.High(Crc32.High(w))))]
  }

  function Answer(cs: seq<Command>, size: nat): seq<bv8> {
    if cs == [] then []
    else
      var front, c := cs[..|cs| - 1], cs[|cs| - 1];
      var position, flash := ReadPosition(front), Holds(front, size);
      match c
      case GetCrc => ChecksumBytes(Crc32.Register(0, flash)) + Acks(1)
      case ReadMulti(k) => if position + k <= |flash| then flash[position..position + k] + Acks(1) else []
      case _ => Acks(1)
  }

  function Honest(size: nat): Reply { cs => Answer(cs, size) }

  function HonestFlash(size: nat): Contents { cs => Holds(cs, size) }

  // ---- They are good ones ----

  lemma {:induction false} TopByte(w: bv32)
    ensures Crc32.High(Crc32.High(Crc32.High(w))) == Crc32.Wide(Crc32.Low(Crc32.High(Crc32.High(Crc32.High(w)))))
  {
  }

  lemma {:induction false} ChecksumTells(w: bv32)
    ensures var b := ChecksumBytes(w); Crc32.Word(b[0], b[1], b[2], b[3]) == w
  {
    hide Crc32.High, Crc32.Low, Crc32.Wide, Crc32.Up, Crc32.Xor;
    Crc32.LowAndHigh(w);
    Crc32.LowAndHigh(Crc32.High(w));
    Crc32.LowAndHigh(Crc32.High(Crc32.High(w)));
    TopByte(w);
  }

  lemma {:induction false} AnswerTo(cs: seq<Command>, c: Command, size: nat)
    ensures Honest(size)(cs + [c]) == Answer(cs + [c], size)
    ensures (cs + [c])[..|cs + [c]| - 1] == cs && (cs + [c])[|cs + [c]| - 1] == c
  {
  }

  lemma {:induction false} HonestObliging(size: nat)
    ensures Obliging(Honest(size))
  {
    hide Acks;
    forall cs: seq<Command>, c: Command | Acknowledged(c) || c.VerifySig?
      ensures Honest(size)(cs + [c]) == Acks(1)
    {
      AnswerTo(cs, c, size);
    }
  }

  lemma {:induction false} ChecksumAnswered(cs: seq<Command>, size: nat)
    ensures ChecksumAnswer(Honest(size)(cs + [GetCrc]), Holds(cs, size))
  {
    hide Holds, Crc32.Register, Crc32.Word, Acks;
    AnswerTo(cs, GetCrc, size);
    var w := Crc32.Register(0, Holds(cs, size));
    ChecksumTells(w);
    assert (ChecksumBytes(w) + Acks(1))[4..] == Acks(1);
  }

  lemma {:induction false} HonestTruthful(size: nat)
    ensures Truthful(Honest(size), HonestFlash(size))
  {
    hide Acks, Holds, ChecksumAnswer;
    forall cs: seq<Command>
      ensures ChecksumAnswer(Honest(size)(cs + [GetCrc]), HonestFlash(size)(cs))
      ensures Honest(size)(cs + [ChipVerify]) == Acks(1)
    {
      ChecksumAnswered(cs, size);
      AnswerTo(cs, ChipVerify, size);
    }
    forall cs: seq<Command>, k: nat | ReadPosition(cs) + k <= |HonestFlash(size)(cs)|
      ensures Honest(size)(cs + [ReadMulti(k)])
           == HonestFlash(size)(cs)[ReadPosition(cs)..ReadPosition(cs) + k] + Acks(1)
    {
      AnswerTo(cs, ReadMulti(k), size);
    }
  }

  lemma {:induction false} StoredNext(cs: seq<Command>, c: Command)
    ensures Stored(cs + [c]) == if Erases(c) then [] else if c.ProgMulti? then Stored(cs) + c.data else Stored(cs)
  {
    assert (cs + [c])[..|cs|] == cs;
  }

  lemma {:induction false} HonestSteady(size: nat)
    ensures Steady(HonestFlash(size))
  {
    forall cs: seq<Command>, c: Command | Quiet(c)
      ensures HonestFlash(size)(cs + [c]) == HonestFlash(size)(cs)
    {
      StoredNext(cs, c);
    }
  }

  lemma {:induction false} ProgramsStored(c: Command, image: seq<bv8>, n: nat)
    requires Erases(c) && n <= ChunkCount(|image|)
    ensures Stored([c] + Programs(image, n)) == Payload(Programs(image, n))
  {
    hide Stored, Chunk, ChunkCount;
    if n == 0 {
      StoredNext([], c);
      assert [c] + [] == [] + [c];
    } else {
      ProgramsStored(c, image, n - 1);
      var front, last := Programs(image, n - 1), ProgMulti(Chunk(image, n - 1));
      StoredNext([c] + front, last);
      assert [c] + (front + [last]) == [c] + front + [last];
      assert (front + [last])[..|front|] == front;
    }
  }

  /** It is good behind every dependable line. */
  lemma {:induction false} HonestGood(d: Device, polls: nat, image: seq<bv8>, size: nat)
    requires Dependable(d, Honest(size), polls) && polls > 0
    ensures Good(d, Honest(size), polls, HonestFlash(size), image, size)
  {
    hide Dependable, Obliging, Truthful, Steady, Programs, ChunkCount, Crc32.Padded, Stored;
    HonestObliging(size);
    HonestTruthful(size);
    HonestSteady(size);
    forall c | Erases(c)
      ensures HonestFlash(size)([c] + Programs(image, ChunkCount(|image|))) == Crc32.Padded(image, size)
    {
      ProgramsStored(c, image, ChunkCount(|image|));
      ProgramsCover(image, ChunkCount(|image|));
    }
  }

  /** Every firmware that passes the checks gets onto it, windowed or chunk by chunk, whatever the protocol revision and
      however long an erase takes, within the given number of polls. */
  method HonestUpload(ready: seq<Event> -> bool, windowed: bool, blRev: nat, size: nat, config: Config,
                      firmwares: seq<Firmware>, boardType: nat, polls: nat, reenumerated: nat -> bool)
    returns (s: Status, chosen: nat, trace: seq<Event>)
    requires polls > 0 && forall t :: ready(t) || StillErasing(t, polls)
    requires exists i :: Suits(firmwares, i, config, boardType)
    requires forall i | Suits(firmwares, i, config, boardType) :: ChecksPassed(config, firmwares[i], blRev, size)
    ensures s.Done? && Suits(firmwares, chosen, config, boardType)
    ensures Finished(trace, firmwares[chosen], blRev, size)
    ensures Sent(Reboot) in trace && Broke !in trace
  {
    hide ChecksPassed, Good, Dependable, Finished, StillErasing, Honest, HonestFlash;
    var d := Slow(Honest(size), ready, t => false);
    SlowDependable(Honest(size), ready, polls);
    forall i | Suits(firmwares, i, config, boardType)
      ensures Good(d, Honest(size), polls, HonestFlash(size), firmwares[i].image, size)
    {
      HonestGood(d, polls, firmwares[i].image, size);
    }
    s, chosen, trace := UploadSucceeds(d, Honest(size), HonestFlash(size), windowed, blRev, size, config, firmwares,
                                       boardType, polls, reenumerated);
  }
}

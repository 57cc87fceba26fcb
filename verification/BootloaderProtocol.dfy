/** The bootloader protocol: synchronisation, chunked programming with per-chunk or windowed
    acknowledgement, and verification by checksum or read-back. */
module BootloaderProtocol {
  import opened SerialLink
  import Crc32

  const CHUNK_MAX := 252
  const WINDOW_CHUNKS := 256
  const REBOOT_ATTEMPTS := 3

  // ---- Images and chunks ----

  /** Loading pads the image with 0xFF up to a multiple of four bytes. */
  method PadImage(data: seq<bv8>) returns (image: seq<bv8>)
    ensures data <= image && |image| % 4 == 0 && |image| < |data| + 4
    ensures forall i :: |data| <= i < |image| ==> image[i] == 0xFF
  {
    ghost var end := |data| + (4 - |data| % 4) % 4;
    image := data;
    while |image| % 4 != 0
      invariant data <= image && |image| <= end < |data| + 4 && end % 4 == 0
      invariant forall i :: |data| <= i < |image| ==> image[i] == 0xFF
      decreases end - |image|
    {
      image := image + [0xFF];
    }
  }

  function ChunkCount(length: nat): nat { (length + CHUNK_MAX - 1) / CHUNK_MAX }

  function Chunk(image: seq<bv8>, i: nat): seq<bv8>
    requires i < ChunkCount(|image|)
  {
    var end := (i + 1) * CHUNK_MAX;
    image[i * CHUNK_MAX..if end <= |image| then end else |image|]
  }

  /** The commands that program the first n chunks. */
  function Programs(image: seq<bv8>, n: nat): seq<Command>
    requires n <= ChunkCount(|image|)
  {
    if n == 0 then [] else Programs(image, n - 1) + [ProgMulti(Chunk(image, n - 1))]
  }

  function Acks(n: nat): (r: seq<bv8>)
    ensures |r| == 2 * n
  {
    if n == 0 then [] else Acks(n - 1) + [INSYNC, OK]
  }

  /** The bytes that a list of commands asks to program, in order. */
  function Payload(cs: seq<Command>): seq<bv8> {
    if cs == [] then []
    else
      var c := cs[|cs| - 1];
      Payload(cs[..|cs| - 1]) + (if c.ProgMulti? then c.data else [])
  }

  function Covered(image: seq<bv8>, n: nat): nat {
    if n * CHUNK_MAX <= |image| then n * CHUNK_MAX else |image|
  }

  lemma {:induction false} ChunkShape(image: seq<bv8>, i: nat)
    requires i < ChunkCount(|image|)
    ensures var chunk := Chunk(image, i);
            && 0 < |chunk| <= CHUNK_MAX && ChunkOk(image, ProgMulti(chunk))
            && image[..Covered(image, i)] + chunk == image[..Covered(image, i + 1)]
  {
    assert i * CHUNK_MAX < |image|;
  }

  /** Every chunk is non-empty, at most 252 bytes and, for a padded image, a multiple of four; together
      the chunks are the image. */
  lemma {:induction false} ProgramsCover(image: seq<bv8>, n: nat)
    requires n <= ChunkCount(|image|)
    ensures |Programs(image, n)| == n
    ensures Payload(Programs(image, n)) == image[..Covered(image, n)]
    ensures forall c <- Programs(image, n) :: ChunkOk(image, c)
    ensures n == ChunkCount(|image|) ==> Payload(Programs(image, n)) == image
  {
    hide Chunk, ChunkCount, Covered, Payload, ChunkOk;
    AllCovered(image);
    if n == 0 {
    } else {
      ProgramsCover(image, n - 1);
      ChunkShape(image, n - 1);
      PayloadSnoc(Programs(image, n - 1), Chunk(image, n - 1));
    }
  }

  /** Chunk i is sent as command i, and every chunk but the last is 252 bytes long. */
  lemma {:induction false} ChunksFull(image: seq<bv8>, n: nat, i: nat)
    requires i < n <= ChunkCount(|image|)
    ensures |Programs(image, n)| == n && Programs(image, n)[i] == ProgMulti(Chunk(image, i))
    ensures i + 1 < ChunkCount(|image|) ==> |Chunk(image, i)| == 252
  {
    hide ChunkOk, Payload;
    ProgramsCover(image, n);
    if i == n - 1 {
    } else {
      ChunksFull(image, n - 1, i);
    }
  }

  /** A chunk is not empty, fits a command and, for a padded image, is a multiple of four. */
  predicate ChunkOk(image: seq<bv8>, c: Command) {
    c.ProgMulti? && 0 < |c.data| <= 252 && (|image| % 4 == 0 ==> |c.data| % 4 == 0)
  }

  lemma {:induction false} PayloadSnoc(cs: seq<Command>, data: seq<bv8>)
    ensures Payload(cs + [ProgMulti(data)]) == Payload(cs) + data
  {
    assert (cs + [ProgMulti(data)])[..|cs|] == cs;
  }

  lemma {:induction false} AllCovered(image: seq<bv8>)
    ensures Covered(image, ChunkCount(|image|)) == |image| && image[..|image|] == image
    ensures image[..Covered(image, 0)] == [] == Payload([])
  {
  }

  lemma {:induction false} AcksOne()
    ensures Acks(1) == [INSYNC, OK]
  {
  }

  ghost function ByteOf(e: Event): seq<bv8> { if e.Got? || e.Short? then e.bytes else [] }

  lemma {:induction false} AcksAt(n: nat, i: nat)
    requires i < n
    ensures Acks(n)[2 * i] == INSYNC && Acks(n)[2 * i + 1] == OK
  {
    if i >= n - 1 {
    } else {
      AcksAt(n - 1, i);
    }
  }

  lemma {:induction false} AcksSplit(m: nat, n: nat)
    ensures Acks(m + n) == Acks(m) + Acks(n)
  {
    if n == 0 {
    } else {
      AcksSplit(m, n - 1);
      assert Acks(m) + (Acks(n - 1) + [INSYNC, OK]) == (Acks(m) + Acks(n - 1)) + [INSYNC, OK];
    }
  }

  /** Chunks sent whose two acknowledgement bytes were not read, and the most there ever were. */
  function Unacked(t: seq<Event>): int { |Commands(t)| - |Received(t)| / 2 }

  function Peak(t: seq<Event>): int {
    if t == [] then 0
    else
      var before, now := Peak(t[..|t| - 1]), Unacked(t);
      if before < now then now else before
  }

  lemma {:induction false} PeakSnoc(t: seq<Event>, e: Event)
    ensures Peak(t + [e]) == var now := Unacked(t + [e]); if Peak(t) < now then now else Peak(t)
  {
    assert (t + [e])[..|t|] == t;
  }

  /** Reading never raises the number of outstanding chunks. */
  lemma {:induction false} PeakReads(t: seq<Event>, r: seq<Event>)
    requires Commands(r) == []
    ensures Peak(t + r) == Peak(t) && Unacked(t + r) <= Peak(t)
  {
    if r == [] {
      assert t + r == t;
    } else {
      var front, e := r[..|r| - 1], r[|r| - 1];
      assert r == front + [e] && t + r == (t + front) + [e];
      PeakReads(t, front);
      PeakSnoc(t + front, e);
      Snoc(t + front, e);
      Concat(t, front);
    }
  }

  /** Missing acknowledgements of the last chunks are missing acknowledgements altogether. */
  lemma {:induction false} StillMissing(t: seq<Event>, r: seq<Event>, acked: nat, n: nat, k: nat, inbox: seq<bv8>)
    requires Received(t) == Acks(acked) && k <= n - acked && !(Acks(k) <= Received(r) + inbox)
    ensures Received(t + r) + inbox != Acks(n)
  {
    hide Received, Commands, Acks;
    Concat(t, r);
    AcksSplit(acked, n - acked);
    AcksSplit(k, n - acked - k);
    PrefixCancels(Acks(acked), Acks(k), Acks(n - acked - k), Received(r), inbox);
  }

  // What does not start with b cannot, behind a, be a and b and c.
  lemma {:induction false} PrefixCancels(a: seq<bv8>, b: seq<bv8>, c: seq<bv8>, r: seq<bv8>, inbox: seq<bv8>)
    requires !(b <= r + inbox)
    ensures a + r + inbox != a + (b + c)
  {
    assert (a + r + inbox)[|a|..] == r + inbox && (a + (b + c))[|a|..] == b + c;
  }

  // Bytes that differ from the acknowledgements do not start with them, and too few do not either.
  lemma {:induction false} NotAllAcks(data: seq<bv8>, rest: seq<bv8>, pairs: nat)
    ensures |data| == 2 * pairs && data != Acks(pairs) ==> !(Acks(pairs) <= data + rest)
    ensures |data| < 2 * pairs && rest == [] ==> !(Acks(pairs) <= data + rest)
  {
    if |data| == 2 * pairs {
      assert (data + rest)[..2 * pairs] == data;
    }
  }

  lemma {:induction false} NothingReceived()
    ensures Received([]) == [] == Acks(0) && Commands([]) == []
  {
  }

  /** The loop over the acknowledgements of one window. */
  method AllAcks(data: seq<bv8>) returns (ok: bool)
    requires |data| % 2 == 0
    ensures ok <==> data == Acks(|data| / 2)
  {
    var i := 0;
    while i < |data|
      invariant 0 <= i <= |data| && i % 2 == 0
      invariant data[..i] == Acks(i / 2)
    {
      AcksAt(|data| / 2, i / 2);
      if data[i] != INSYNC {
        return false;
      }
      if data[i + 1] == INVALID {
        return false;
      }
      if data[i + 1] == FAILED {
        return false;
      }
      if data[i + 1] != OK {
        return false;
      }
      assert data[..i + 2] == data[..i] + [INSYNC, OK];
      i := i + 2;
    }
    assert data[..i] == data;
    return true;
  }

  lemma {:induction false} WindowStep(i: nat)
    ensures (i + 1) % WINDOW_CHUNKS == (if i % WINDOW_CHUNKS == WINDOW_CHUNKS - 1 then 0 else i % WINDOW_CHUNKS + 1)
  {
  }

  lemma {:induction false} EmptyTrace(image: seq<bv8>)
    ensures Commands([]) == [] && Received([]) == [] && Peak([]) == 0
    ensures Programs(image, 0) == [] && Acks(0) == []
  {
  }

  /** A complete programming run: the whole image sent, every chunk acknowledged. */
  ghost predicate ProgramPassed(t: seq<Event>, image: seq<bv8>) {
    var n := ChunkCount(|image|);
    Commands(t) == Programs(image, n) && Received(t) == Acks(n)
  }

  /** An erase command that was acknowledged. */
  ghost predicate ErasePassed(t: seq<Event>) {
    && |t| >= 3 && t[|t| - 2..] == [Got([INSYNC]), Got([OK])]
    && (Commands(t) == [ChipErase] || Commands(t) == [ChipFullErase])
  }

  /** A checksum request answered with the checksum of the image in `size` bytes of flash. */
  ghost predicate CrcPassed(t: seq<Event>, image: seq<bv8>, size: nat) {
    exists d: seq<bv8> :: |d| == 4
      && t == [Sent(GetCrc), Got(d), Got([INSYNC]), Got([OK])]
      && Crc32.Word(d[0], d[1], d[2], d[3]) == Crc32.Register(0, Crc32.Padded(image, size))
  }

  /** Four bytes that say the checksum of the image. */
  ghost predicate SaysChecksum(d: seq<bv8>, image: seq<bv8>, size: nat) {
    |d| == 4 && Crc32.Word(d[0], d[1], d[2], d[3]) == Crc32.Register(0, Crc32.Padded(image, size))
  }

  /** The checksum was asked for, and the port broke or the acknowledged right one did not come. */
  ghost predicate NoChecksum(d: Device, before: seq<Event>, t: seq<Event>, image: seq<bv8>, size: nat) {
    && (Broke in t || Commands(t) == [GetCrc])
    && forall sum | SaysChecksum(sum, image, size) :: Unanswered(d, before, t, sum + Acks(1))
  }

  lemma {:induction false} BrokeChecksum(d: Device, before: seq<Event>, t: seq<Event>, image: seq<bv8>, size: nat)
    requires Broke in t
    ensures NoChecksum(d, before, t, image, size)
  {
  }

  /** The read-back was asked for up to some chunk, and the port broke or not all of it came as it should. */
  ghost predicate NoReadback(d: Device, before: seq<Event>, t: seq<Event>, image: seq<bv8>) {
    exists i: nat | i <= ChunkCount(|image|) ::
      && (Broke in t || Commands(t) == [ChipVerify] + Reads(image, i))
      && Unanswered(d, before, t, Acks(1) + Readback(image, i))
  }

  /** The signature check was asked for, and the port broke or a bad answer came. */
  ghost predicate BadSignature(d: Device, before: seq<Event>, t: seq<Event>, imageSigned: bool) {
    || Broke in t
    || (&& Commands(t) == [VerifySig] && Arrived(d, before + t) != Received(before)
        && Unanswered(d, before, t, Acks(1)) && (!imageSigned ==> Unanswered(d, before, t, [INSYNC, INVALID])))
  }

  function Reads(image: seq<bv8>, n: nat): seq<Command>
    requires n <= ChunkCount(|image|)
  {
    if n == 0 then [] else Reads(image, n - 1) + [ReadMulti(|Chunk(image, n - 1)|)]
  }

  /** What reading the first n chunks back gives when the flash holds the image. */
  function Readback(image: seq<bv8>, n: nat): seq<bv8>
    requires n <= ChunkCount(|image|)
  {
    if n == 0 then [] else Readback(image, n - 1) + (Chunk(image, n - 1) + Acks(1))
  }

  /** A read-back of the whole image that matched throughout. */
  ghost predicate ReadPassed(t: seq<Event>, image: seq<bv8>) {
    var n := ChunkCount(|image|);
    Commands(t) == [ChipVerify] + Reads(image, n) && Received(t) == Acks(1) + Readback(image, n)
  }

  ghost predicate VerifyPassed(t: seq<Event>, image: seq<bv8>, blRev: nat, size: nat) {
    if blRev >= 3 then CrcPassed(t, image, size) else ReadPassed(t, image)
  }

  /** A signature check that did not end in a FAILED or, for a signed image, an INVALID answer. */
  ghost predicate SignaturePassed(t: seq<Event>, imageSigned: bool) {
    || t == [Sent(VerifySig), Got([INSYNC]), Got([OK])]
    || (|t| == 2 && t[0] == Sent(VerifySig) && t[1].Short?)
    || (!imageSigned && t == [Sent(VerifySig), Got([INSYNC]), Got([INVALID])])
  }

  /** The port went away, or the last command was acknowledged. */
  ghost predicate Left(t: seq<Event>) {
    Broke in t || (|t| >= 2 && t[|t| - 2..] == [Got([INSYNC]), Got([OK])])
  }

  /** What one attempt to reboot shows. */
  datatype Attempt = Booted | Silent | Refused(error: Error)

  /** The port broke, or after the first REBOOT no acknowledgement came. */
  ghost predicate NoReboot(d: Device, before: seq<Event>, t: seq<Event>) {
    exists k: nat | k <= |t| ::
      (Broke in t[..k] || Commands(t[..k]) == [Reboot]) && Unanswered(d, before, t[..k], Acks(1))
  }

  lemma {:induction false} RebootStays(d: Device, before: seq<Event>, t: seq<Event>, r: seq<Event>)
    ensures NoReboot(d, before, t) ==> NoReboot(d, before, t + r)
  {
    hide Unanswered, Commands, Acks;
    if NoReboot(d, before, t) {
      var k: nat :| k <= |t|
        && (Broke in t[..k] || Commands(t[..k]) == [Reboot]) && Unanswered(d, before, t[..k], Acks(1));
      assert (t + r)[..k] == t[..k];
    }
  }

  lemma {:induction false} BrokeUnanswered(d: Device, before: seq<Event>, t: seq<Event>)
    requires Broke in t
    ensures NoReboot(d, before, t)
  {
    hide Commands, Acks;
    assert t[..|t|] == t;
    assert Unanswered(d, before, t[..|t|], Acks(1));
  }

  lemma {:induction false} AttemptUnanswered(d: Device, before: seq<Event>, e: Event, r: seq<Event>)
    requires e == Sent(Reboot) && Commands(r) == [] && Unanswered(d, before + [e], r, Acks(1))
    ensures NoReboot(d, before, [e] + r)
  {
    hide Received, Arrived, Commands, Acks;
    var t := [e] + r;
    Single(e);
    Concat([e], r);
    Snoc(before, e);
    Assoc(before, [e], r);
    assert t[..|t|] == t && (r != [] ==> t[|t| - 1] == r[|r| - 1]);
    assert Unanswered(d, before, t[..|t|], Acks(1));
  }

  lemma {:induction false} AttemptDone(r: seq<Event>)
    ensures r == [Got([INSYNC]), Got([OK])] || Broke in r ==> Left([Sent(Reboot)] + r)
    ensures r == [Got([INSYNC]), Got([OK])] ==> [Sent(Reboot)] + r == [Sent(Reboot), Got([INSYNC]), Got([OK])]
    ensures Left([Broke]) && !Left([Sent(Reboot)])
    ensures EndsReading(r) ==> EndsReading([Sent(Reboot)] + r)
  {
    var t := [Sent(Reboot)] + r;
    assert |r| == 2 ==> t[|t| - 2..] == r;
  }

  lemma {:induction false} AttemptFailed(r: seq<Event>, inbox: seq<bv8>)
    requires !(Acks(1) <= Received(r) + inbox) && |r| <= 2 && Broke !in r
    ensures !Left([Sent(Reboot)] + r)
  {
    hide Acks, Received;
    assert Acks(1) <= Acks(1) + inbox;
    SyncEvents(r);
    var t := [Sent(Reboot)] + r;
    if |r| == 2 {
      assert t[|t| - 2..] == r;
    } else if |r| == 1 {
      assert t[|t| - 2..][0] == Sent(Reboot);
    }
  }

  lemma {:induction false} SyncEvents(r: seq<Event>)
    requires Received(r) != Acks(1)
    ensures r != [Got([INSYNC]), Got([OK])]
  {
    if r == [Got([INSYNC]), Got([OK])] {
      assert r == [Got([INSYNC])] + [Got([OK])];
      Single(Got([INSYNC]));
      Snoc([Got([INSYNC])], Got([OK]));
      AcksOne();
    }
  }

  lemma {:induction false} CrcIncomplete(t: seq<Event>, image: seq<bv8>, size: nat)
    requires |t| < 4 || t[2..] != [Got([INSYNC]), Got([OK])]
    ensures !CrcPassed(t, image, size)
  {
    hide Crc32.Register, Crc32.Padded, Crc32.Word;
    if |t| >= 4 {
      assert forall d: seq<bv8> :: [Sent(GetCrc), Got(d), Got([INSYNC]), Got([OK])][2..] == [Got([INSYNC]), Got([OK])];
    }
  }

  lemma {:induction false} CrcTold(t: seq<Event>, d: seq<bv8>, image: seq<bv8>, size: nat)
    requires |d| == 4 && t == [Sent(GetCrc), Got(d), Got([INSYNC]), Got([OK])]
    ensures CrcPassed(t, image, size)
       <==> Crc32.Word(d[0], d[1], d[2], d[3]) == Crc32.Register(0, Crc32.Padded(image, size))
  {
    hide Crc32.Register, Crc32.Padded, Crc32.Word;
    assert t[1] == Got(d);
  }

  // Too few bytes came.
  lemma {:induction false} ChecksumMissing(d: Device, before: seq<Event>, t: seq<Event>, inbox: seq<bv8>,
                                           image: seq<bv8>, size: nat)
    requires Sound(d, before + t, inbox) && Commands(t) == [GetCrc]
    requires Broke in t || (EndsReading(t) && |Received(t) + inbox| < 4)
    ensures NoChecksum(d, before, t, image, size)
  {
    hide Sound, Received, Arrived, Commands, SaysChecksum, Acks;
    forall sum | SaysChecksum(sum, image, size)
      ensures Unanswered(d, before, t, sum + Acks(1))
    {
      ChecksumLength(sum, image, size);
      if Broke !in t {
        NotDelivered(d, before, t, inbox, sum + Acks(1));
      }
    }
  }

  lemma {:induction false} ChecksumLength(sum: seq<bv8>, image: seq<bv8>, size: nat)
    requires SaysChecksum(sum, image, size)
    ensures |sum| == 4
  {
  }

  // The bytes are not acknowledged.
  lemma {:induction false} ChecksumUnacked(d: Device, before: seq<Event>, t: seq<Event>, inbox: seq<bv8>,
                                           got: seq<bv8>, r: seq<Event>, image: seq<bv8>, size: nat)
    requires Sound(d, before + t, inbox) && Commands(t) == [GetCrc] && |got| == 4 && Received(t) == got + Received(r)
    requires Broke in t || (EndsReading(t) && !(Acks(1) <= Received(r) + inbox))
    ensures NoChecksum(d, before, t, image, size)
  {
    hide Sound, Received, Arrived, Commands, SaysChecksum, Acks;
    forall sum | SaysChecksum(sum, image, size)
      ensures Unanswered(d, before, t, sum + Acks(1))
    {
      ChecksumLength(sum, image, size);
      Assoc(got, Received(r), inbox);
      Heads(sum, Acks(1), got, Received(r) + inbox);
      if Broke !in t {
        NotDelivered(d, before, t, inbox, sum + Acks(1));
      }
    }
  }

  lemma {:induction false} Heads<T>(a: seq<T>, b: seq<T>, c: seq<T>, d: seq<T>)
    requires |a| == |c|
    ensures a + b <= c + d ==> a == c && b <= d
  {
    if a + b <= c + d {
      assert (a + b)[..|a|] == a && (c + d)[..|a|] == c;
      assert (c + d)[..|a + b|][..|a|] == (c + d)[..|a|];
      Behind(a, b, d);
    }
  }

  // They are acknowledged and say something else.
  lemma {:induction false} ChecksumWrong(d: Device, before: seq<Event>, t: seq<Event>, inbox: seq<bv8>,
                                         got: seq<bv8>, r: seq<Event>, image: seq<bv8>, size: nat)
    requires Sound(d, before + t, inbox) && Commands(t) == [GetCrc] && |got| == 4 && Received(t) == got + Received(r)
    requires EndsReading(t) && !SaysChecksum(got, image, size)
    ensures NoChecksum(d, before, t, image, size)
  {
    hide Sound, Received, Arrived, Commands, SaysChecksum, Acks;
    forall sum | SaysChecksum(sum, image, size)
      ensures Unanswered(d, before, t, sum + Acks(1))
    {
      ChecksumLength(sum, image, size);
      Assoc(got, Received(r), inbox);
      Heads(sum, Acks(1), got, Received(r) + inbox);
      NotDelivered(d, before, t, inbox, sum + Acks(1));
    }
  }

  lemma {:induction false} ReadsCount(image: seq<bv8>, n: nat)
    requires n <= ChunkCount(|image|)
    ensures |Reads(image, n)| == n
  {
    hide Chunk, ChunkCount;
    if n == 0 {
    } else {
      ReadsCount(image, n - 1);
    }
  }

  lemma {:induction false} Cancel<T>(a: seq<T>, b: seq<T>, c: seq<T>, d: seq<T>)
    requires |a| == |c| && a + b == c + d
    ensures a == c && b == d
  {
    assert (a + b)[..|a|] == a && (a + b)[|a|..] == b && (c + d)[..|a|] == c && (c + d)[|a|..] == d;
  }

  lemma {:induction false} NotStarted(t: seq<Event>, r: seq<Event>, image: seq<bv8>)
    requires Received(t) == Received(r) != Acks(1) && Commands(t) == [ChipVerify]
    ensures !ReadPassed(t, image)
  {
    hide Chunk, ChunkCount, Commands, Received, Acks;
    var n := ChunkCount(|image|);
    ReadsCount(image, n);
    assert n == 0 ==> Acks(1) + Readback(image, n) == Acks(1);
  }

  // A read-back that stopped at chunk i did not pass.
  lemma {:induction false} ReadIncomplete(image: seq<bv8>, t: seq<Event>, i: nat, r: seq<Event>)
    requires i < ChunkCount(|image|) && |Commands(r)| <= 1
    requires Commands(t) == [ChipVerify] + Reads(image, i) && Received(t) == Acks(1) + Readback(image, i)
    requires !(Commands(r) == [ReadMulti(|Chunk(image, i)|)] && Received(r) == Chunk(image, i) + Acks(1))
    ensures !ReadPassed(t + r, image)
  {
    hide Chunk, ChunkCount, Commands, Received, Acks;
    var n := ChunkCount(|image|);
    Concat(t, r);
    ReadsCount(image, i);
    ReadsCount(image, n);
    if ReadPassed(t + r, image) {
      assert i == n - 1;
      Assoc([ChipVerify], Reads(image, i), [ReadMulti(|Chunk(image, i)|)]);
      Cancel(Commands(t), Commands(r), [ChipVerify] + Reads(image, i), [ReadMulti(|Chunk(image, i)|)]);
      Assoc(Acks(1), Readback(image, i), Chunk(image, i) + Acks(1));
      Cancel(Received(t), Received(r), Acks(1) + Readback(image, i), Chunk(image, i) + Acks(1));
    }
  }

  lemma {:induction false} ReadVerdict(data: seq<bv8>, ack: seq<bv8>, inbox: seq<bv8>, chunk: seq<bv8>)
    requires |data| == |chunk|
    ensures data + ack == chunk + Acks(1) <==> data == chunk && ack == Acks(1)
    ensures chunk + Acks(1) <= data + ack + inbox ==> data == chunk && Acks(1) <= ack + inbox
  {
    hide Acks;
    Assoc(data, ack, inbox);
    Heads(chunk, Acks(1), data, ack + inbox);
    if data + ack == chunk + Acks(1) {
      Cancel(data, ack, chunk, Acks(1));
    }
  }

  // A chunk was asked for, and it and its acknowledgement did not come in.
  ghost predicate ReadUnanswered(t: seq<Event>, got: seq<bv8>, chunk: seq<bv8>) {
    Commands(t) == [ReadMulti(|chunk|)] && EndsReading(t) && !(chunk + Acks(1) <= got)
  }

  // An answer came, and it is none of the good ones.
  ghost predicate SignatureRefused(t: seq<Event>, read: seq<bv8>, got: seq<bv8>, imageSigned: bool) {
    && Commands(t) == [VerifySig] && EndsReading(t) && |read| > 0
    && !([INSYNC, OK] <= got) && (!imageSigned ==> !([INSYNC, INVALID] <= got))
  }

  lemma {:induction false} SignatureBad(d: Device, before: seq<Event>, t: seq<Event>, inbox: seq<bv8>,
                                        imageSigned: bool)
    requires Sound(d, before + t, inbox)
    requires Broke in t || SignatureRefused(t, Received(t), Received(t) + inbox, imageSigned)
    ensures BadSignature(d, before, t, imageSigned)
  {
    hide Received, Arrived, Commands, Acks;
    AcksOne();
    if Broke !in t {
      NotDelivered(d, before, t, inbox, Acks(1));
      if !imageSigned {
        NotDelivered(d, before, t, inbox, [INSYNC, INVALID]);
      }
      Concat(before, t);
      assert |Arrived(d, before + t)| > |Received(before)|;
    }
  }

  lemma {:induction false} BrokeReading(d: Device, before: seq<Event>, t: seq<Event>, image: seq<bv8>)
    requires Broke in t
    ensures NoReadback(d, before, t, image)
  {
    assert Unanswered(d, before, t, Acks(1) + Readback(image, 0));
  }

  lemma {:induction false} ReadUnstarted(d: Device, before: seq<Event>, t: seq<Event>, inbox: seq<bv8>, image: seq<bv8>)
    requires Sound(d, before + t, inbox) && Commands(t) == [ChipVerify]
    requires Broke in t || (EndsReading(t) && !(Acks(1) <= Received(t) + inbox))
    ensures NoReadback(d, before, t, image)
  {
    hide Sound, Received, Arrived, Commands, Acks, ChunkCount;
    if Broke in t {
      BrokeReading(d, before, t, image);
    } else {
      NotDelivered(d, before, t, inbox, Acks(1));
      assert Acks(1) + Readback(image, 0) == Acks(1) && [ChipVerify] + Reads(image, 0) == [ChipVerify];
    }
  }

  lemma {:induction false} ReadStopped(d: Device, before: seq<Event>, t: seq<Event>, r: seq<Event>, inbox: seq<bv8>,
                                       image: seq<bv8>, i: nat)
    requires i < ChunkCount(|image|) && Sound(d, before + (t + r), inbox)
    requires Commands(t) == [ChipVerify] + Reads(image, i) && Received(t) == Acks(1) + Readback(image, i)
    requires Broke in r || ReadUnanswered(r, Received(r) + inbox, Chunk(image, i))
    ensures NoReadback(d, before, t + r, image)
  {
    hide Sound, Received, Arrived, Commands, Acks, ChunkCount, Chunk;
    if Broke in r {
      BrokeReading(d, before, t + r, image);
    } else {
      Concat(t, r);
      var answer := Chunk(image, i) + Acks(1);
      Assoc(Received(t), Received(r), inbox);
      Behind(Received(t), answer, Received(r) + inbox);
      Assoc(Acks(1), Readback(image, i), answer);
      Assoc([ChipVerify], Reads(image, i), [ReadMulti(|Chunk(image, i)|)]);
      NotDelivered(d, before, t + r, inbox, Acks(1) + Readback(image, i + 1));
    }
  }

  class Bootloader {
    const link: Link
    const windowed: bool
    const blRev: nat
    const fwMaxSize: nat
    var windowSize: nat

    ghost predicate Valid()
      reads this, link
    {
      link.Valid()
    }

    constructor (link: Link, windowed: bool, blRev: nat, fwMaxSize: nat)
      requires link.Valid()
      ensures Valid() && this.link == link && windowSize == 0
      ensures this.windowed == windowed && this.blRev == blRev && this.fwMaxSize == fwMaxSize
    {
      this.link, this.windowed, this.blRev, this.fwMaxSize, windowSize := link, windowed, blRev, fwMaxSize, 0;
    }

    /** Waits for INSYNC and OK. It fails only if the port broke or something else came in. */
    method GetSync() returns (s: Status, ghost t: seq<Event>)
      requires Valid()
      modifies link
      ensures Valid() && link.trace == old(link.trace) + t && Commands(t) == []
      ensures s.Done? ==> t == [Got([INSYNC]), Got([OK])]
      ensures s.Done? <==> Received(t) == Acks(1)
      ensures s.Failed? ==> Broke in t || !(Acks(1) <= Received(t) + link.inbox)
      ensures s == Failed(Connection) <==> Broke in t
      ensures s == Failed(Timeout) ==> EndsReading(t) && t[|t| - 1].Short?
      ensures |t| <= 2 && (Broke in t || EndsReading(t))
      ensures s.Failed? ==> Unanswered(link.device, old(link.trace), t, Acks(1))
    {
      hide Sound, Received, Commands, Acks;
      AcksOne();
      s, t := GetSyncBytes();
      if s.Failed? && Broke !in t {
        NotDelivered(link.device, old(link.trace), t, link.inbox, Acks(1));
      }
    }

    /** The reading itself. */
    method GetSyncBytes() returns (s: Status, ghost t: seq<Event>)
      requires Valid()
      modifies link
      ensures Valid() && link.trace == old(link.trace) + t && Commands(t) == []
      ensures s.Done? ==> t == [Got([INSYNC]), Got([OK])]
      ensures s.Done? <==> Received(t) == Acks(1)
      ensures s.Failed? ==> Broke in t || !(Acks(1) <= Received(t) + link.inbox)
      ensures s == Failed(Connection) <==> Broke in t
      ensures s == Failed(Timeout) ==> EndsReading(t) && t[|t| - 1].Short?
      ensures |t| <= 2 && (Broke in t || EndsReading(t))
    {
      hide Sound, Received, Commands, Acks;
      AcksOne();
      var first, e1 := link.Recv(1);
      t := [e1];
      Single(e1);
      if first.Error? {
        return Failed(first.error), t;
      }
      if first.data[0] != INSYNC {
        assert (Received(t) + link.inbox)[0] != INSYNC;
        return Failed(Protocol), t;
      }
      ghost var e2;
      s, e2 := GetResult();
      t := t + [e2];
      Snoc([e1], e2);
      assert first.data == [INSYNC] && Received(t) == [INSYNC] + ByteOf(e2);
      assert Received(t)[1..] == ByteOf(e2) && Acks(1)[1..] == [OK];
    }

    /** The second byte decides. */
    method GetResult() returns (s: Status, ghost e: Event)
      requires Valid()
      modifies link
      ensures Valid() && link.trace == old(link.trace) + [e] && !e.Sent?
      ensures s.Done? <==> e == Got([OK])
      ensures s == Failed(Connection) <==> e == Broke
      ensures s == Failed(Timeout) <==> e.Short?
      ensures e.Short? ==> e.bytes == [] && link.inbox == []
      ensures e.Got? ==> |e.bytes| == 1
    {
      hide Sound;
      var second;
      second, e := link.Recv(1);
      if second.Error? {
        return Failed(second.error), e;
      }
      var result := second.data[0];
      if result == INVALID {
        return Failed(Protocol), e;
      }
      if result == FAILED {
        return Failed(Protocol), e;
      }
      if result == BAD_SILICON_REV {
        return Failed(Errata), e;
      }
      if result != OK {
        return Failed(Protocol), e;
      }
      assert second.data == [OK];
      return Done, e;
    }

    /** Reads and checks the acknowledgements of a whole window. */
    method ValidateSyncWindow(count: nat, ghost pairs: nat) returns (s: Status, ghost t: seq<Event>)
      requires Valid() && count == 2 * pairs
      modifies link
      ensures Valid() && link.trace == old(link.trace) + t && Commands(t) == []
      ensures s.Done? ==> Received(t) == Acks(pairs)
      ensures s.Failed? ==> Broke in t || !(Acks(pairs) <= Received(t) + link.inbox)
      ensures |t| <= 1 && (s.Failed? ==> Broke in t || EndsReading(t))
    {
      hide Acks, Sound, Received, Commands;
      t := [];
      NothingReceived();
      if count <= 0 {
        return Done, t;
      }
      var reading, e := link.Recv(count);
      t := [e];
      Single(e);
      if reading.Error? {
        if e.Short? {
          NotAllAcks(e.bytes, link.inbox, pairs);
        }
        return Failed(reading.error), t;
      }
      NotAllAcks(reading.data, link.inbox, pairs);
      var ok := AllAcks(reading.data);
      if !ok {
        return Failed(Protocol), t;
      }
      return Done, t;
    }

    /** After i chunks: all of them were sent, the first `acked` were acknowledged, and never more than
        a window was outstanding. */
    ghost predicate Programming(image: seq<bv8>, i: nat, acked: nat, t: seq<Event>)
      requires i <= ChunkCount(|image|)
      reads this
    {
      && Commands(t) == Programs(image, i) && Received(t) == Acks(acked)
      && acked == (if windowed then i - i % WINDOW_CHUNKS else i)
      && windowSize == 2 * (i - acked)
      && Peak(t) <= Window()
    }

    ghost function Window(): int { if windowed then WINDOW_CHUNKS else 1 }

    /** The acknowledgements of what was sent did not all come in, or the port broke. */
    ghost predicate Unacknowledged(t: seq<Event>)
      reads link
    {
      Broke in t || (EndsReading(t) && Received(t) + link.inbox != Acks(|Commands(t)|))
    }

    /** What was sent, and what was acknowledged of it, right after sending chunk i. */
    ghost predicate Awaiting(image: seq<bv8>, i: nat, acked: nat, t: seq<Event>)
      requires i < ChunkCount(|image|)
      reads this
    {
      && Commands(t) == Programs(image, i + 1) && Received(t) == Acks(acked)
      && acked == (if windowed then i - i % WINDOW_CHUNKS else i)
      && windowSize == 2 * (i - acked)
      && Peak(t) <= Window()
    }

    /** The part of the programming loop that reads acknowledgements. */
    method AwaitAcks(image: seq<bv8>, i: nat, ghost acked: nat, ghost t: seq<Event>)
      returns (s: Status, ghost acked': nat, ghost r: seq<Event>)
      requires Valid() && i < ChunkCount(|image|) && Awaiting(image, i, acked, t)
      modifies this`windowSize, link
      ensures Valid() && link.trace == old(link.trace) + r && Commands(t + r) == Programs(image, i + 1)
      ensures s.Done? ==> Programming(image, i + 1, acked', t + r)
      ensures s.Failed? ==> Unacknowledged(t + r) && Peak(t + r) <= Window()
    {
      hide Sound, ChunkCount, Received, Commands, Acks, Peak, Programs;
      WindowStep(i);
      if windowed {
        windowSize := windowSize + 2;
        assert windowSize == 2 * (i + 1 - acked);
        if (i + 1) % WINDOW_CHUNKS != 0 {
          assert t + [] == t;
          assert link.trace == old(link.trace) + [];
          return Done, acked, [];
        }
        s, r := ValidateSyncWindow(windowSize, i + 1 - acked);
      } else {
        s, r := GetSync();
      }
      Concat(t, r);
      PeakReads(t, r);
      acked' := i + 1;
      if s.Failed? {
        ProgramsCover(image, i + 1);
        if Broke !in r {
          StillMissing(t, r, acked, i + 1, i + 1 - acked, link.inbox);
        }
        return;
      }
      AcksSplit(acked, i + 1 - acked);
      windowSize := 0;
    }

    /** One turn of the programming loop. */
    method ProgramChunk(image: seq<bv8>, i: nat, ghost acked: nat, ghost t: seq<Event>)
      returns (s: Status, ghost acked': nat, ghost added: seq<Event>)
      requires Valid() && i < ChunkCount(|image|) && Programming(image, i, acked, t)
      modifies this`windowSize, link
      ensures Valid() && link.trace == old(link.trace) + added
      ensures s.Done? ==> Programming(image, i + 1, acked', t + added)
      ensures s.Failed? ==> Unacknowledged(t + added) && Peak(t + added) <= Window()
      ensures Commands(t + added) == Programs(image, i) || Commands(t + added) == Programs(image, i + 1)
    {
      hide Sound, Chunk, ChunkCount, Received, Commands, Acks, Peak;
      ProgramsCover(image, i + 1);
      WindowStep(i);
      acked' := acked;
      ghost var e;
      s, e := link.Send(ProgMulti(Chunk(image, i)));
      Snoc(t, e);
      PeakSnoc(t, e);
      added := [e];
      if s.Done? {
        ghost var r;
        s, acked', r := AwaitAcks(image, i, acked, t + [e]);
        added := [e] + r;
        Assoc(t, [e], r);
        Assoc(old(link.trace), [e], r);
      }
    }

    /** The same, seen from the device. */
    static ghost predicate NotAllAcked(d: Device, before: seq<Event>, t: seq<Event>) {
      Broke in t || (EndsReading(t) && Arrived(d, before + t) != Received(before) + Acks(|Commands(t)|))
    }

    lemma {:induction false} Missed(before: seq<Event>, t: seq<Event>)
      requires Valid() && link.trace == before + t && Unacknowledged(t)
      ensures NotAllAcked(link.device, before, t)
    {
      hide Received, Arrived, Commands, Acks;
      Concat(before, t);
      Assoc(Received(before), Received(t), link.inbox);
      var r := Received(before);
      assert (r + (Received(t) + link.inbox))[|r|..] == Received(t) + link.inbox;
      assert (r + Acks(|Commands(t)|))[|r|..] == Acks(|Commands(t)|);
    }

    /** Programs the whole image. When it returns normally, every chunk was sent in order and each was
        answered by INSYNC and OK, all read; it fails only if the port broke or some chunk that was
        sent was not acknowledged. */
    method Program(image: seq<bv8>) returns (s: Status, ghost t: seq<Event>)
      requires Valid() && windowSize == 0
      modifies this`windowSize, link
      ensures Valid() && link.trace == old(link.trace) + t
      ensures s.Done? ==> windowSize == 0 && ProgramPassed(t, image)
      ensures s.Failed? ==> Unacknowledged(t) && NotAllAcked(link.device, old(link.trace), t)
      ensures Peak(t) <= Window()
      ensures exists n :: 0 <= n <= ChunkCount(|image|) && Commands(t) == Programs(image, n)
    {
      hide Sound, Chunk, ChunkCount, Received, Commands, Peak, Acks, Programs, Unacknowledged;
      t := [];
      ghost var acked := 0;
      EmptyTrace(image);
      var n := ChunkCount(|image|);
      for i := 0 to n
        invariant Valid() && link.trace == old(link.trace) + t
        invariant Programming(image, i, acked, t)
      {
        ghost var added, before := [], t;
        s, acked, added := ProgramChunk(image, i, acked, t);
        Assoc(old(link.trace), before, added);
        t := t + added;
        if s.Failed? {
          Missed(old(link.trace), t);
          return;
        }
      }
      s := Done;
      if windowed && windowSize > 0 {
        ghost var r;
        s, r := FlushWindow(image, acked, t);
        Assoc(old(link.trace), t, r);
        t := t + r;
        if s.Failed? {
          Missed(old(link.trace), t);
        }
      }
    }

    /** Reads what is left of the last window. */
    method FlushWindow(image: seq<bv8>, ghost acked: nat, ghost t: seq<Event>) returns (s: Status, ghost r: seq<Event>)
      requires Valid() && windowed && Programming(image, ChunkCount(|image|), acked, t)
      modifies this`windowSize, link
      ensures Valid() && link.trace == old(link.trace) + r
      ensures s.Done? ==> windowSize == 0 && ProgramPassed(t + r, image)
      ensures s.Failed? ==> Unacknowledged(t + r)
      ensures Peak(t + r) <= Window() && Commands(t + r) == Programs(image, ChunkCount(|image|))
    {
      hide Sound, ChunkCount, Received, Commands, Peak, Acks, Programs;
      var n := ChunkCount(|image|);
      s, r := ValidateSyncWindow(windowSize, n - acked);
      Concat(t, r);
      PeakReads(t, r);
      ProgramsCover(image, n);
      AcksSplit(acked, n - acked);
      if s.Done? {
        windowSize := 0;
      } else if Broke !in r {
        StillMissing(t, r, acked, n, n - acked, link.inbox);
      }
    }

    /** A sync attempt that never raises: every error, silicon errata included, reads as "not yet". */
    method TrySync() returns (ok: bool, ghost t: seq<Event>)
      requires Valid()
      modifies link
      ensures Valid() && link.trace == old(link.trace) + t && Commands(t) == []
      ensures ok <==> t == [Got([INSYNC]), Got([OK])]
      ensures var available := old(link.inbox) + link.device.late(old(link.trace));
        && (Acks(1) <= available ==> ok || Broke in t)
        && (available == [] ==> Broke in t || (t == [Short([])] && link.inbox == []))
    {
      hide Sound, Received, Commands;
      AcksOne();
      ghost var available := link.inbox + link.device.late(link.trace);
      var first, e1 := link.Recv(1);
      t := [e1];
      Single(e1);
      assert first.Bytes? ==> first.data[0] == (first.data + link.inbox)[0] == available[0];
      if first.Error? || first.data[0] != INSYNC {
        return false, t;
      }
      assert available[1..] == link.inbox;
      ghost var more := link.inbox + link.device.late(link.trace);
      var second, e2 := link.Recv(1);
      assert second.Bytes? ==> second.data[0] == (second.data + link.inbox)[0] == more[0];
      t := [e1, e2];
      Snoc([e1], e2);
      assert [e1] + [e2] == [e1, e2];
      Assoc(old(link.trace), [e1], [e2]);
      assert first.data == [INSYNC] && (second.Bytes? ==> second.data == [second.data[0]]);
      assert second.Bytes? && Acks(1) <= available ==> more[0] == available[1] == OK;
      if second.Error? || second.data[0] == BAD_SILICON_REV {
        return false, t;
      }
      return second.data[0] == OK, t;
    }

    /** Reading at most `polls` times, the device has delivered nothing at first and then at once what starts with an
        acknowledgement, behind the bytes read before. */
    static ghost predicate AcksWithin(d: Device, read: seq<bv8>, t: seq<Event>, polls: nat)
      decreases polls
    {
      && polls > 0
      && var arrived := Arrived(d, t) + d.late(t);
         if arrived == read then AcksWithin(d, read, t + [Short([])], polls - 1) else read + Acks(1) <= arrived
    }

    /** Erases the flash, polling for completion at most `polls` times before the deadline. */
    method Erase(forceFull: bool, polls: nat) returns (s: Status, ghost t: seq<Event>)
      requires Valid()
      modifies link
      ensures Valid() && link.trace == old(link.trace) + t
      ensures s.Done? ==> ErasePassed(t)
      ensures Commands(t) == (if t == [Broke] then [] else [EraseCommand(forceFull)])
      ensures s.Failed? ==> t == [Broke] || s == Failed(Timeout)
      ensures s.Failed? && Broke !in t ==>
        !AcksWithin(link.device, Received(old(link.trace)), old(link.trace) + [Sent(EraseCommand(forceFull))], polls)
    {
      hide Sound, Received, Commands, AcksWithin, Arrived;
      var command := if forceFull && blRev >= 6 then ChipFullErase else ChipErase;
      ghost var read, base := Received(link.trace), link.trace;
      ghost var e;
      s, e := link.Send(command);
      t := [e];
      Single(e);
      if s.Failed? {
        return;
      }
      Snoc(base, e);
      NoPolls(link.device, read);
      for i := 0 to polls
        invariant Valid() && link.trace == old(link.trace) + t
        invariant t != [] && t[0] == Sent(command) && Commands(t) == [command]
        invariant Broke in t || (AcksWithin(link.device, read, base + [Sent(command)], polls) ==>
          Received(link.trace) == read && AcksWithin(link.device, read, link.trace, polls - i))
      {
        ghost var before, r := t, [];
        var ok;
        ghost var was, waiting := link.trace, link.inbox;
        Waiting(link.device, link.trace, link.inbox, read, polls - i);
        ok, r := TrySync();
        if r == [Short([])] {
          Snoc(was, Short([]));
        }
        Concat(before, r);
        Assoc(old(link.trace), before, r);
        t := before + r;
        if ok {
          assert t[|t| - 2..] == r;
          return Done, t;
        }
      }
      return Failed(Timeout), t;
    }

    static lemma {:induction false} NoPolls(d: Device, read: seq<bv8>)
      ensures forall t :: !AcksWithin(d, read, t, 0)
    {
    }

    static lemma {:induction false} Waiting(d: Device, t: seq<Event>, inbox: seq<bv8>, read: seq<bv8>, polls: nat)
      requires Sound(d, t, inbox)
      ensures Received(t) == read && AcksWithin(d, read, t, polls) ==>
        && polls > 0
        && var available := inbox + d.late(t);
           (available == [] && AcksWithin(d, read, t + [Short([])], polls - 1)) || Acks(1) <= available
    {
      hide Received, Arrived;
      Assoc(read, inbox, d.late(t));
      Behind(read, Acks(1), inbox + d.late(t));
    }

    function EraseCommand(forceFull: bool): Command {
      if forceFull && blRev >= 6 then ChipFullErase else ChipErase
    }

    /** Asks for the checksum and compares it. */
    method VerifyCrc(image: seq<bv8>) returns (s: Status, ghost t: seq<Event>)
      requires Valid()
      modifies link
      ensures Valid() && link.trace == old(link.trace) + t
      ensures s.Done? <==> CrcPassed(t, image, fwMaxSize)
      ensures Commands(t) == [] || Commands(t) == [GetCrc]
      ensures s.Failed? && blRev >= 3 ==> NoChecksum(link.device, old(link.trace), t, image, fwMaxSize)
    {
      hide Sound, Received, Commands, Crc32.Register, Crc32.Padded, Crc32.Word, CrcPassed, Acks, NoChecksum;
      t := [];
      EmptyTrace(image);
      CrcIncomplete(t, image, fwMaxSize);
      if blRev < 3 {
        assert link.trace == old(link.trace) + t;
        return Failed(Protocol), t;
      }
      var expected := Crc32.FirmwareCrc(image, fwMaxSize);
      ghost var e1;
      s, e1 := link.Send(GetCrc);
      t := [e1];
      Single(e1);
      CrcIncomplete(t, image, fwMaxSize);
      if s.Failed? {
        BrokeChecksum(link.device, old(link.trace), t, image, fwMaxSize);
        return;
      }
      var reading, e2 := link.Recv(4);
      Snoc([e1], e2);
      Assoc(old(link.trace), [e1], [e2]);
      t := [e1] + [e2];
      CrcIncomplete(t, image, fwMaxSize);
      if reading.Error? {
        ChecksumMissing(link.device, old(link.trace), t, link.inbox, image, fwMaxSize);
        return Failed(reading.error), t;
      }
      ghost var r;
      s, r := GetSync();
      Concat(t, r);
      Assoc(old(link.trace), t, r);
      t := t + r;
      assert t[2..] == r;
      if s.Failed? {
        SyncEvents(r);
        CrcIncomplete(t, image, fwMaxSize);
        ChecksumUnacked(link.device, old(link.trace), t, link.inbox, reading.data, r, image, fwMaxSize);
        return;
      }
      var d := reading.data;
      assert t == [Sent(GetCrc), Got(d), Got([INSYNC]), Got([OK])];
      CrcTold(t, d, image, fwMaxSize);
      if Crc32.Word(d[0], d[1], d[2], d[3]) != expected {
        ChecksumWrong(link.device, old(link.trace), t, link.inbox, d, r, image, fwMaxSize);
        return Failed(Protocol), t;
      }
    }

    /** Reads the flash back chunk by chunk and compares. */
    method VerifyRead(image: seq<bv8>) returns (s: Status, ghost t: seq<Event>)
      requires Valid()
      modifies link
      ensures Valid() && link.trace == old(link.trace) + t
      ensures s.Done? <==> ReadPassed(t, image)
      ensures forall c <- Commands(t) :: c.ChipVerify? || c.ReadMulti?
      ensures s.Failed? ==> NoReadback(link.device, old(link.trace), t, image)
    {
      hide Sound, Received, Commands, ChunkCount, Chunk, Acks, NoReadback;
      ghost var e, r;
      s, e := link.Send(ChipVerify);
      t := [e];
      Single(e);
      if s.Failed? {
        BrokeReading(link.device, old(link.trace), t, image);
        return;
      }
      s, r := GetSync();
      Concat(t, r);
      Assoc(old(link.trace), t, r);
      t := t + r;
      assert Received(t) == Received(r) && Commands(t) == [ChipVerify];
      if s.Failed? {
        NotStarted(t, r, image);
        ReadUnstarted(link.device, old(link.trace), t, link.inbox, image);
        return;
      }
      var n := ChunkCount(|image|);
      for i := 0 to n
        invariant Valid() && link.trace == old(link.trace) + t
        invariant Commands(t) == [ChipVerify] + Reads(image, i) && Received(t) == Acks(1) + Readback(image, i)
        invariant forall c <- Commands(t) :: c.ChipVerify? || c.ReadMulti?
      {
        ghost var before := t;
        s, r := ReadChunk(image, i);
        Concat(t, r);
        Assoc(old(link.trace), t, r);
        Assoc([ChipVerify], Reads(image, i), Commands(r));
        Assoc(Acks(1), Readback(image, i), Received(r));
        t := t + r;
        if s.Failed? {
          ReadIncomplete(image, before, i, r);
          ReadStopped(link.device, old(link.trace), before, r, link.inbox, image, i);
          return;
        }
      }
      s := Done;
    }

    /** One turn of the read-back loop. */
    method ReadChunk(image: seq<bv8>, i: nat) returns (s: Status, ghost t: seq<Event>)
      requires Valid() && i < ChunkCount(|image|)
      modifies link
      ensures Valid() && link.trace == old(link.trace) + t
      ensures s.Done? <==>
        Commands(t) == [ReadMulti(|Chunk(image, i)|)] && Received(t) == Chunk(image, i) + Acks(1)
      ensures |Commands(t)| <= 1 && forall c <- Commands(t) :: c.ReadMulti?
      ensures s.Failed? && Broke !in t ==>
        ReadUnanswered(t, Received(t) + link.inbox, Chunk(image, i))
    {
      hide Sound, Received, Commands, ChunkCount, Chunk, Acks;
      var chunk := Chunk(image, i);
      ghost var e;
      s, e := link.Send(ReadMulti(|chunk|));
      t := [e];
      Single(e);
      if s.Failed? {
        return;
      }
      ghost var r;
      s, r := ReadAnswer(chunk);
      Concat(t, r);
      Assoc(old(link.trace), t, r);
      t := t + r;
    }

    /** The bytes and the acknowledgement behind them. */
    method ReadAnswer(chunk: seq<bv8>) returns (s: Status, ghost t: seq<Event>)
      requires Valid()
      modifies link
      ensures Valid() && link.trace == old(link.trace) + t && Commands(t) == []
      ensures s.Done? <==> Received(t) == chunk + Acks(1)
      ensures s.Failed? && Broke !in t ==> EndsReading(t) && !(chunk + Acks(1) <= Received(t) + link.inbox)
    {
      hide Sound, Received, Commands, Acks;
      var reading, e := link.Recv(|chunk|);
      t := [e];
      Single(e);
      if reading.Error? {
        assert |chunk + Acks(1)| == |chunk| + 2;
        return Failed(reading.error), t;
      }
      ghost var r;
      s, r := GetSync();
      Concat(t, r);
      Assoc(old(link.trace), t, r);
      t := t + r;
      ReadVerdict(reading.data, Received(r), link.inbox, chunk);
      if s.Done? && reading.data != chunk {
        return Failed(Protocol), t;
      }
    }

    /** Checksum for bootloader protocol 3 and later, read-back before. */
    method Verify(image: seq<bv8>) returns (s: Status, ghost t: seq<Event>)
      requires Valid()
      modifies link
      ensures Valid() && link.trace == old(link.trace) + t
      ensures s.Done? <==> VerifyPassed(t, image, blRev, fwMaxSize)
      ensures forall c <- Commands(t) :: c.ChipVerify? || c.ReadMulti? || c.GetCrc?
      ensures s.Failed? ==>
        if blRev >= 3 then NoChecksum(link.device, old(link.trace), t, image, fwMaxSize)
        else NoReadback(link.device, old(link.trace), t, image)
    {
      hide Sound, Received, Commands, CrcPassed, ReadPassed, NoChecksum, NoReadback;
      if blRev >= 3 {
        s, t := VerifyCrc(image);
      } else {
        s, t := VerifyRead(image);
      }
    }

    /** Asks the bootloader to check the image signature. A bootloader that does not answer is taken to
        predate signatures. */
    method VerifySignature(imageSigned: bool) returns (s: Status, ghost t: seq<Event>)
      requires Valid()
      modifies link
      ensures Valid() && link.trace == old(link.trace) + t
      ensures s.Done? <==> SignaturePassed(t, imageSigned)
      ensures Commands(t) == [] || Commands(t) == [VerifySig]
      ensures s.Failed? ==> BadSignature(link.device, old(link.trace), t, imageSigned)
    {
      hide Sound, Received, Commands, BadSignature, SignaturePassed, SignatureRefused;
      s, t := AskSignature(imageSigned);
      if s.Failed? {
        SignatureBad(link.device, old(link.trace), t, link.inbox, imageSigned);
      }
    }

    method AskSignature(imageSigned: bool) returns (s: Status, ghost t: seq<Event>)
      requires Valid()
      modifies link
      ensures Valid() && link.trace == old(link.trace) + t
      ensures s.Done? <==> SignaturePassed(t, imageSigned)
      ensures Commands(t) == [] || Commands(t) == [VerifySig]
      ensures s.Failed? ==> Broke in t || SignatureRefused(t, Received(t), Received(t) + link.inbox, imageSigned)
    {
      hide Sound, Received, Commands;
      ghost var e;
      s, e := link.Send(VerifySig);
      t := [e];
      Single(e);
      if s.Failed? {
        return;
      }
      var first, e1 := link.Recv(1);
      Snoc(t, e1);
      Assoc(old(link.trace), t, [e1]);
      t := t + [e1];
      if first.Error? {
        if first.error == Timeout {
          return Done, t;
        }
        return Failed(first.error), t;
      }
      if first.data[0] != INSYNC {
        assert (Received(t) + link.inbox)[0] != INSYNC;
        return Failed(Protocol), t;
      }
      assert first.data == [INSYNC] && t == [Sent(VerifySig), Got([INSYNC])];
      s, t := SignatureAnswer(imageSigned, old(link.trace));
    }

    // The byte after INSYNC.
    method SignatureAnswer(imageSigned: bool, ghost before: seq<Event>) returns (s: Status, ghost t: seq<Event>)
      requires Valid() && link.trace == before + [Sent(VerifySig), Got([INSYNC])]
      modifies link
      ensures Valid() && link.trace == before + t
      ensures s.Done? <==> SignaturePassed(t, imageSigned)
      ensures Commands(t) == [VerifySig]
      ensures s.Failed? ==> Broke in t || SignatureRefused(t, Received(t), Received(t) + link.inbox, imageSigned)
    {
      hide Sound, Received, Commands;
      Single(Sent(VerifySig));
      Snoc([Sent(VerifySig)], Got([INSYNC]));
      t := [Sent(VerifySig), Got([INSYNC])];
      assert t == [Sent(VerifySig)] + [Got([INSYNC])];
      var second, e2 := link.Recv(1);
      Snoc(t, e2);
      Assoc(before, t, [e2]);
      t := t + [e2];
      if second.Error? {
        assert |t| == 3 && !t[2].Got?;
        return Failed(second.error), t;
      }
      assert second.data == [second.data[0]];
      ghost var result := second.data[0];
      assert t == [Sent(VerifySig), Got([INSYNC]), Got([result])] && t[2].bytes[0] == result;
      assert (Received(t) + link.inbox)[0] == INSYNC && (Received(t) + link.inbox)[1] == result;
      s := JudgeSignature(second.data[0], imageSigned);
    }

    // What the answer means.
    static method JudgeSignature(result: bv8, imageSigned: bool) returns (s: Status)
      ensures s.Done? <==> result == OK || (result == INVALID && !imageSigned)
    {
      if result == OK {
        return Done;
      }
      if result == FAILED {
        return Failed(Protocol);
      }
      if result == INVALID {
        if imageSigned {
          return Failed(Protocol);
        }
        return Done;
      }
      return Failed(Protocol);
    }

    /** One attempt: REBOOT and, from protocol 3 on, its acknowledgement. */
    method TryBoot() returns (a: Attempt, ghost t: seq<Event>)
      requires Valid()
      modifies link
      ensures Valid() && link.trace == old(link.trace) + t
      ensures t != [] && (t[0] == Sent(Reboot) || t == [Broke])
      ensures Commands(t) == if t == [Broke] then [] else [Reboot]
      ensures a.Booted? <==> Left(t)
      ensures a.Refused? ==> blRev >= 3 && EndsReading(t)
      ensures blRev >= 3 ==> t == [Sent(Reboot), Got([INSYNC]), Got([OK])] || NoReboot(link.device, old(link.trace), t)
    {
      hide Sound, Received, Commands, Acks, Unanswered, NoReboot, Left, EndsReading;
      ghost var before := link.trace;
      AttemptDone([]);
      var s, e := link.Send(Reboot);
      t := [e];
      Single(e);
      Snoc(before, e);
      if s.Failed? {
        BrokeUnanswered(link.device, before, t);
        return Booted, t;
      }
      if blRev >= 3 {
        ghost var r;
        s, r := GetSync();
        Concat(t, r);
        Assoc(before, t, r);
        t := t + r;
        AttemptDone(r);
        if s.Failed? {
          AttemptUnanswered(link.device, before, e, r);
        }
        if s.Done? || s.error == Connection {
          return Booted, t;
        }
        AttemptFailed(r, link.inbox);
        if s.error != Timeout {
          return Refused(s.error), t;
        }
      }
      return Silent, t;
    }

    /** Sends REBOOT up to three times until the bootloader acknowledges it, the port goes away or the
        board re-enumerates; `reenumerated` says what watching the port list shows. */
    method Boot(reenumerated: nat -> bool) returns (s: Status, booted: bool, ghost t: seq<Event>)
      requires Valid()
      modifies link
      ensures Valid() && link.trace == old(link.trace) + t
      ensures t != [] && (t[0] == Sent(Reboot) || t[0] == Broke)
      ensures forall c <- Commands(t) :: c == Reboot
      ensures |Commands(t)| <= REBOOT_ATTEMPTS
      ensures booted ==> s.Done? && (Left(t) || (Commands(t) != [] && reenumerated(|Commands(t)| - 1)))
      ensures forall i: nat | i + 1 < |Commands(t)| :: !reenumerated(i)
      ensures !booted && s.Done? ==>
        |Commands(t)| == REBOOT_ATTEMPTS && Broke !in t && forall i: nat | i < REBOOT_ATTEMPTS :: !reenumerated(i)
      ensures s.Failed? ==> blRev >= 3 && Broke !in t && EndsReading(t) && !Left(t)
      ensures blRev >= 3 ==>
        (booted && t == [Sent(Reboot), Got([INSYNC]), Got([OK])]) || NoReboot(link.device, old(link.trace), t)
    {
      hide Sound, Received, Commands, NoReboot;
      t := [];
      EmptyTrace([]);
      booted := false;
      assert link.trace == old(link.trace) + t;
      for i := 0 to REBOOT_ATTEMPTS
        invariant Valid() && link.trace == old(link.trace) + t && (i == 0 ==> t == [])
        invariant i > 0 ==> t != [] && t[0] == Sent(Reboot)
        invariant (forall c <- Commands(t) :: c == Reboot) && |Commands(t)| == i && Broke !in t
        invariant forall j: nat | j < i :: !reenumerated(j)
        invariant i > 0 && blRev >= 3 ==> NoReboot(link.device, old(link.trace), t)
      {
        ghost var before, r := t, [];
        var attempt;
        attempt, r := TryBoot();
        Concat(before, r);
        Assoc(old(link.trace), before, r);
        t := before + r;
        assert t[|before|..] == r && (i == 0 ==> t == r);
        assert |r| >= 2 ==> t[|t| - 2..] == r[|r| - 2..];
        RebootStays(link.device, old(link.trace), before, r);
        if attempt.Booted? {
          return Done, true, t;
        }
        if attempt.Refused? {
          return Failed(attempt.error), false, t;
        }
        if reenumerated(i) {
          return Done, true, t;
        }
      }
      s := Done;
    }
  }
}

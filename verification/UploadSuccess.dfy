/** An upload to a dependable device succeeds. */
module UploadSuccess {
  import opened SerialLink
  import opened BootloaderProtocol
  import opened BootloaderDevice
  import opened UploadSequence
  import opened UploadOutcome
  import opened UploadVerified
  import Crc32

  // ---- Dependable devices ----

  predicate Erases(c: Command) { c.ChipErase? || c.ChipFullErase? }

  /** How many of the last events are reads that timed out. */
  function Waits(t: seq<Event>): nat {
    if t == [] || !t[|t| - 1].Short? then 0 else 1 + Waits(t[..|t| - 1])
  }

  /** An erase is under way, and there is time left for it. */
  ghost predicate StillErasing(t: seq<Event>, polls: nat) {
    Commands(t) != [] && Erases(Commands(t)[|Commands(t)| - 1]) && Waits(t) + 1 < polls
  }

  /** Answers come whole and in order. */
  ghost predicate Whole(d: Device, reply: Reply, t: seq<Event>) {
    exists k: nat | k <= |Commands(t)| :: Arrived(d, t) == Replies(reply, Commands(t)[..k])
  }

  /** When bytes are read, all answers are there, except that an erase may take its time. */
  ghost predicate Timely(d: Device, reply: Reply, polls: nat, t: seq<Event>, e: Event) {
    e.Got? || e.Short? ==> Arrived(d, t + [e]) == Replies(reply, Commands(t)) || StillErasing(t, polls)
  }

  ghost predicate Dependable(d: Device, reply: Reply, polls: nat) {
    && (forall t :: !d.broken(t))
    && (forall t :: Whole(d, reply, t))
    && (forall t, e :: Timely(d, reply, polls, t, e))
  }

  /** A device that answers at once is dependable. */
  lemma {:induction false} PromptDependable(reply: Reply, polls: nat)
    ensures Dependable(Prompt(reply), reply, polls)
  {
    hide Arrived, Replies, Commands;
    forall t: seq<Event>
      ensures Whole(Prompt(reply), reply, t)
    {
      PromptArrived(reply, t);
      assert Commands(t)[..|Commands(t)|] == Commands(t);
    }
    forall t: seq<Event>, e: Event
      ensures Timely(Prompt(reply), reply, polls, t, e)
    {
      PromptArrived(reply, t + [e]);
      Snoc(t, e);
      assert Commands(t) + [] == Commands(t);
    }
  }

  /** So is one that keeps the uploader waiting only during an erase, and not too long. */
  lemma {:induction false} SlowDependable(reply: Reply, ready: seq<Event> -> bool, polls: nat)
    requires forall t :: ready(t) || StillErasing(t, polls)
    ensures Dependable(Slow(reply, ready, t => false), reply, polls)
  {
    hide Arrived, Replies, Commands, LetOut, StillErasing;
    var d := Slow(reply, ready, t => false);
    forall t: seq<Event>
      ensures Whole(d, reply, t)
    {
      SlowWhole(reply, ready, t);
    }
    forall t: seq<Event>, e: Event
      ensures Timely(d, reply, polls, t, e)
    {
      if (e.Got? || e.Short?) && ready(t) {
        SlowRead(reply, ready, t, e);
      }
    }
  }

  lemma {:induction false} SlowRead(reply: Reply, ready: seq<Event> -> bool, t: seq<Event>, e: Event)
    requires (e.Got? || e.Short?) && ready(t)
    ensures Arrived(Slow(reply, ready, t => false), t + [e]) == Replies(reply, Commands(t))
  {
    hide Arrived, Replies, Commands;
    SlowArrived(reply, ready, t => false, t + [e]);
    RepliesGrow(reply, t, e);
    assert (t + [e])[..|t|] == t;
    var all := Replies(reply, Commands(t));
    assert all[..|all|] == all;
  }

  lemma {:induction false} SlowWhole(reply: Reply, ready: seq<Event> -> bool, t: seq<Event>)
    ensures Whole(Slow(reply, ready, t => false), reply, t)
  {
    hide Arrived, Replies;
    var d := Slow(reply, ready, t => false);
    if t == [] {
      assert Arrived(d, []) == Replies(reply, Commands([])[..0]) by { NothingArrived(d, reply); }
    } else {
      var front, e := t[..|t| - 1], t[|t| - 1];
      assert t == front + [e];
      Snoc(front, e);
      if (e.Got? || e.Short?) && ready(front) {
        SlowRead(reply, ready, front, e);
        assert Commands(t)[..|Commands(t)|] == Commands(front);
      } else {
        SlowWhole(reply, ready, front);
        var k: nat :| k <= |Commands(front)| && Arrived(d, front) == Replies(reply, Commands(front)[..k]);
        ArrivedSnoc(d, front, e);
        assert Arrived(d, t) == Arrived(d, front) + [];
        assert Commands(t)[..k] == Commands(front)[..k];
      }
    }
  }

  lemma {:induction false} NothingArrived(d: Device, reply: Reply)
    ensures Arrived(d, []) == [] == Replies(reply, []) && Commands([]) == [] == Commands([])[..0]
  {
  }

  // ---- Reading everything ----

  /** Every answer was read. */
  ghost predicate CaughtUp(reply: Reply, t: seq<Event>) { Received(t) == Replies(reply, Commands(t)) }

  lemma {:induction false} NeverBroke(d: Device, reply: Reply, polls: nat, t: seq<Event>, inbox: seq<bv8>)
    requires Dependable(d, reply, polls) && Sound(d, t, inbox)
    ensures Broke !in t
  {
    hide Received, Arrived, Whole, Timely;
  }

  lemma {:induction false} RepliesPrefix(reply: Reply, cs: seq<Command>, k: nat)
    requires k <= |cs|
    ensures Replies(reply, cs[..k]) <= Replies(reply, cs)
    decreases |cs| - k
  {
    if k == |cs| {
      assert cs[..k] == cs;
    } else {
      RepliesPrefix(reply, cs, k + 1);
      assert cs[..k + 1][..k] == cs[..k];
    }
  }

  /** Whatever was read are answers, and nothing but answers arrives. */
  lemma {:induction false} OnlyAnswers(d: Device, reply: Reply, polls: nat, t: seq<Event>, inbox: seq<bv8>, i: nat)
    requires Dependable(d, reply, polls) && Sound(d, t, inbox) && i <= |t|
    ensures Received(t[..i]) <= Arrived(d, t[..i]) <= Replies(reply, Commands(t[..i]))
  {
    hide Received, Arrived, Replies, Commands, Timely;
    var p := t[..i];
    assert Whole(d, reply, p);
    var k: nat :| k <= |Commands(p)| && Arrived(d, p) == Replies(reply, Commands(p)[..k]);
    RepliesPrefix(reply, Commands(p), k);
  }

  /** Once bytes were read behind a command other than an erase, everything has arrived. */
  lemma {:induction false} Delivered(d: Device, reply: Reply, polls: nat, before: seq<Event>, t: seq<Event>)
    requires Dependable(d, reply, polls) && EndsReading(t) && Commands(t) != []
    requires !Erases(Commands(t)[|Commands(t)| - 1])
    ensures Arrived(d, before + t) == Replies(reply, Commands(before) + Commands(t))
  {
    hide Received, Arrived, Replies, Commands, Whole;
    var all := before + t;
    var front, e := all[..|all| - 1], all[|all| - 1];
    assert e == t[|t| - 1] && all == front + [e];
    Snoc(front, e);
    Concat(before, t);
    assert Commands(front) + [] == Commands(front) == Commands(before) + Commands(t);
    assert Timely(d, reply, polls, front, e);
  }

  /** So a device that answers with x is not without an answer. */
  lemma {:induction false} NotUnanswered(d: Device, reply: Reply, polls: nat, before: seq<Event>, t: seq<Event>,
                                         x: seq<bv8>)
    requires Dependable(d, reply, polls) && CaughtUp(reply, before) && Broke !in t && Commands(t) != []
    requires !Erases(Commands(t)[|Commands(t)| - 1])
    requires x <= Replies(Later(reply, Commands(before)), Commands(t))
    ensures !Unanswered(d, before, t, x)
  {
    hide Received, Arrived, Replies, Commands, Dependable;
    if EndsReading(t) {
      Delivered(d, reply, polls, before, t);
      RepliesConcat(reply, Commands(before), Commands(t));
      Behind(Received(before), x, Replies(Later(reply, Commands(before)), Commands(t)));
    }
  }

  /** As many bytes read as there are answers: all of them. */
  lemma {:induction false} NowCaughtUp(d: Device, reply: Reply, polls: nat, before: seq<Event>, t: seq<Event>,
                                       all: seq<Event>, inbox: seq<bv8>)
    requires Dependable(d, reply, polls) && Sound(d, all, inbox) && before + t <= all && CaughtUp(reply, before)
    requires |Received(t)| >= |Replies(Later(reply, Commands(before)), Commands(t))|
    ensures CaughtUp(reply, before + t)
    ensures Received(t) == Replies(Later(reply, Commands(before)), Commands(t))
  {
    hide Received, Arrived, Replies, Commands, Dependable, Sound;
    var now := before + t;
    assert all[..|now|] == now;
    OnlyAnswers(d, reply, polls, all, inbox, |now|);
    Concat(before, t);
    RepliesConcat(reply, Commands(before), Commands(t));
    Behind(Received(before), Received(t), Replies(Later(reply, Commands(before)), Commands(t)));
  }

  // ---- What a good device answers ----

  predicate Acknowledged(c: Command) { Erases(c) || c.ProgMulti? || c.Reboot? }

  /** Erasing, programming and rebooting are acknowledged, and a signature is not refused. */
  ghost predicate Obliging(reply: Reply) {
    && (forall cs: seq<Command>, c: Command :: Acknowledged(c) ==> reply(cs + [c]) == Acks(1))
    && forall cs: seq<Command> :: reply(cs + [VerifySig]) == [] || reply(cs + [VerifySig]) == Acks(1)
  }

  lemma {:induction false} OneReply(reply: Reply, cs: seq<Command>, c: Command)
    ensures Replies(Later(reply, cs), [c]) == reply(cs + [c])
  {
    assert [c][..0] == [];
  }

  lemma {:induction false} ProgramReplies(reply: Reply, cs: seq<Command>, image: seq<bv8>, n: nat)
    requires Obliging(reply) && n <= ChunkCount(|image|)
    ensures Replies(Later(reply, cs), Programs(image, n)) == Acks(n)
  {
    hide Chunk, ChunkCount;
    if n == 0 {
    } else {
      ProgramReplies(reply, cs, image, n - 1);
      var front, c := Programs(image, n - 1), ProgMulti(Chunk(image, n - 1));
      assert (front + [c])[..|front + [c]| - 1] == front;
      Assoc(cs, front, [c]);
      assert Acknowledged(c) && reply((cs + front) + [c]) == Acks(1);
      AcksSplit(n - 1, 1);
    }
  }

  // ---- No stage gets stuck ----

  lemma {:induction false} EraseAnswered(d: Device, reply: Reply, polls: nat, c: Command, t: seq<Event>, left: nat)
    requires Dependable(d, reply, polls) && Obliging(reply) && Erases(c)
    requires Commands(t) == [c] && 0 < left && Waits(t) + left == polls
    ensures Bootloader.AcksWithin(d, [], t, left)
    decreases left
  {
    hide Arrived, Replies, Received, Commands;
    var e := Short([]);
    Snoc(t, e);
    assert Commands(t) + [] == Commands(t);
    ArrivedSnoc(d, t, e);
    var arrived := Arrived(d, t + [e]);
    assert arrived == Arrived(d, t) + d.late(t);
    EraseReply(reply, c);
    assert Whole(d, reply, t + [e]) && Timely(d, reply, polls, t, e);
    if arrived == [] {
      assert (t + [e])[..|t|] == t;
      EraseAnswered(d, reply, polls, c, t + [e], left - 1);
    } else {
      assert [] + Acks(1) <= arrived;
    }
  }

  lemma {:induction false} EraseReply(reply: Reply, c: Command)
    requires Obliging(reply) && Erases(c)
    ensures Replies(reply, [c]) == Acks(1) != []
    ensures forall k: nat | k <= 1 :: Replies(reply, [c][..k]) == if k == 0 then [] else Acks(1)
  {
    assert [c][..0] == [] && [c][..1] == [c] && [] + [c] == [c];
    assert Acknowledged(c) && reply([] + [c]) == Acks(1);
  }

  lemma {:induction false} EraseNotStuck(d: Device, reply: Reply, polls: nat, e: seq<Event>, inbox: seq<bv8>,
                                         c: Command)
    requires Dependable(d, reply, polls) && Obliging(reply) && Erases(c) && polls > 0 && Broke !in e
    ensures !EraseStuck(d, [], e, c, polls)
  {
    hide Dependable, Arrived;
    Single(Sent(c));
    assert [] + [Sent(c)] == [Sent(c)] && Received([]) == [];
    EraseAnswered(d, reply, polls, c, [Sent(c)], polls);
  }

  lemma {:induction false} ErasedCaughtUp(d: Device, reply: Reply, polls: nat, e: seq<Event>, all: seq<Event>,
                                          inbox: seq<bv8>)
    requires Dependable(d, reply, polls) && Obliging(reply) && ErasePassed(e) && Sound(d, all, inbox) && e <= all
    ensures CaughtUp(reply, e) && Commands(e) != []
  {
    hide Arrived, Replies, Received, Commands, Dependable, Sound;
    var front, tail := e[..|e| - 2], e[|e| - 2..];
    assert e == front + tail && tail == [Got([INSYNC])] + [Got([OK])];
    Concat(front, tail);
    Single(Got([INSYNC]));
    Snoc([Got([INSYNC])], Got([OK]));
    assert |Received(e)| >= 2;
    assert all[..|e|] == e;
    OnlyAnswers(d, reply, polls, all, inbox, |e|);
    EraseReply(reply, Commands(e)[0]);
  }

  lemma {:induction false} ProgramNotStuck(d: Device, reply: Reply, polls: nat, before: seq<Event>, p: seq<Event>,
                                           all: seq<Event>, inbox: seq<bv8>, image: seq<bv8>)
    requires Dependable(d, reply, polls) && Obliging(reply) && CaughtUp(reply, before) && Broke !in p
    requires Sound(d, all, inbox) && before + p <= all
    ensures !ProgramStuck(d, before, p, image)
  {
    hide Arrived, Replies, Received, Commands, Dependable, Sound, ChunkCount, Acks, Obliging;
    if ProgramStuck(d, before, p, image) {
      var n :| 0 <= n <= ChunkCount(|image|) && Commands(p) == Programs(image, n);
      ProgramsCover(image, n);
      ProgramReplies(reply, Commands(before), image, n);
      RepliesConcat(reply, Commands(before), Commands(p));
      if n > 0 {
        LastProgram(image, n);
        Delivered(d, reply, polls, before, p);
      } else {
        NothingNew(d, reply, polls, before, p, all, inbox);
      }
      assert false;
    }
  }

  lemma {:induction false} LastProgram(image: seq<bv8>, n: nat)
    requires 0 < n <= ChunkCount(|image|)
    ensures Programs(image, n) != [] && Programs(image, n)[|Programs(image, n)| - 1].ProgMulti?
  {
  }

  // Without a new command nothing more arrives.
  lemma {:induction false} NothingNew(d: Device, reply: Reply, polls: nat, before: seq<Event>, t: seq<Event>,
                                      all: seq<Event>, inbox: seq<bv8>)
    requires Dependable(d, reply, polls) && CaughtUp(reply, before) && Commands(t) == []
    requires Sound(d, all, inbox) && before + t <= all
    ensures Arrived(d, before + t) == Received(before) == Received(before) + Acks(0)
  {
    hide Arrived, Replies, Received, Commands, Dependable, Sound;
    assert all[..|before + t|] == before + t;
    OnlyAnswers(d, reply, polls, all, inbox, |before + t|);
    Concat(before, t);
    assert Commands(before) + [] == Commands(before);
  }

  lemma {:induction false} ChecksumTold(reply: Reply, flash: Contents, cs: seq<Command>, image: seq<bv8>, size: nat)
    returns (sum: seq<bv8>)
    requires Truthful(reply, flash) && flash(cs) == Crc32.Padded(image, size)
    ensures SaysChecksum(sum, image, size) && Replies(Later(reply, cs), [GetCrc]) == sum + Acks(1) && |sum| == 4
  {
    hide Crc32.Register, Crc32.Padded, Crc32.Word, Acks;
    OneReply(reply, cs, GetCrc);
    var answer := reply(cs + [GetCrc]);
    assert ChecksumAnswer(answer, flash(cs));
    sum := answer[..4];
    assert answer == sum + answer[4..];
  }

  lemma {:induction false} ReadbackTold(reply: Reply, flash: Contents, cs: seq<Command>, image: seq<bv8>, size: nat,
                                        i: nat)
    requires Truthful(reply, flash) && Steady(flash) && flash(cs) == Crc32.Padded(image, size)
    requires i <= ChunkCount(|image|)
    ensures Replies(Later(reply, cs), [ChipVerify] + Reads(image, i)) == Acks(1) + Readback(image, i)
    ensures var all := [ChipVerify] + Reads(image, i); !Erases(all[|all| - 1])
  {
    hide Truthful, Steady, Replies, Readback, ChunkCount;
    assert |image| <= |flash(cs)| && flash(cs)[..|image|] == image;
    ReadAnswers(reply, flash, cs, image, i);
    ReadsQuiet(image, i);
  }

  lemma {:induction false} VerifyNotStuck(d: Device, reply: Reply, polls: nat, flash: Contents, before: seq<Event>,
                                          v: seq<Event>, image: seq<bv8>, blRev: nat, size: nat)
    requires Dependable(d, reply, polls) && Truthful(reply, flash) && Steady(flash) && CaughtUp(reply, before)
    requires flash(Commands(before)) == Crc32.Padded(image, size) && Broke !in v
    ensures !VerifyStuck(d, before, v, image, blRev, size)
  {
    hide Dependable, Truthful, Steady, CaughtUp, Commands, Replies, Received, Acks, Unanswered, SaysChecksum;
    hide Crc32.Padded, ChunkCount, Readback, Later;
    var cs := Commands(before);
    if VerifyStuck(d, before, v, image, blRev, size) {
      if blRev >= 3 {
        var sum := ChecksumTold(reply, flash, cs, image, size);
        NotUnanswered(d, reply, polls, before, v, sum + Acks(1));
      } else {
        var i: nat :| i <= ChunkCount(|image|) && Commands(v) == [ChipVerify] + Reads(image, i)
          && Unanswered(d, before, v, Acks(1) + Readback(image, i));
        ReadbackTold(reply, flash, cs, image, size, i);
        NotUnanswered(d, reply, polls, before, v, Acks(1) + Readback(image, i));
      }
      assert false;
    }
  }

  lemma {:induction false} CrcEvents(v: seq<Event>, image: seq<bv8>, size: nat)
    requires CrcPassed(v, image, size)
    ensures Commands(v) == [GetCrc] && |Received(v)| == 6
  {
    hide Crc32.Register, Crc32.Padded, Crc32.Word;
    var got :| |got| == 4 && v == [Sent(GetCrc), Got(got), Got([INSYNC]), Got([OK])];
    ChecksumTrace(got);
  }

  lemma {:induction false} VerifiedCaughtUp(d: Device, reply: Reply, polls: nat, flash: Contents, before: seq<Event>,
                                            v: seq<Event>, all: seq<Event>, inbox: seq<bv8>, image: seq<bv8>,
                                            blRev: nat, size: nat)
    requires Dependable(d, reply, polls) && Truthful(reply, flash) && Steady(flash) && CaughtUp(reply, before)
    requires flash(Commands(before)) == Crc32.Padded(image, size) && VerifyPassed(v, image, blRev, size)
    requires Sound(d, all, inbox) && before + v <= all
    ensures CaughtUp(reply, before + v)
  {
    hide Dependable, Truthful, Steady, CaughtUp, Commands, Replies, Received, Sound, SaysChecksum, CrcPassed;
    hide Crc32.Padded, ChunkCount, Readback, Later, Acks;
    var cs := Commands(before);
    if blRev >= 3 {
      var sum := ChecksumTold(reply, flash, cs, image, size);
      CrcEvents(v, image, size);
    } else {
      ReadbackTold(reply, flash, cs, image, size, ChunkCount(|image|));
    }
    NowCaughtUp(d, reply, polls, before, v, all, inbox);
  }

  lemma {:induction false} SignatureNotStuck(d: Device, reply: Reply, polls: nat, before: seq<Event>, g: seq<Event>)
    requires Dependable(d, reply, polls) && Obliging(reply) && CaughtUp(reply, before) && Broke !in g
    ensures !BadSignature(d, before, g, true)
  {
    hide Dependable, Commands, Replies, Received, Arrived, Acks;
    if BadSignature(d, before, g, true) {
      Delivered(d, reply, polls, before, g);
      RepliesConcat(reply, Commands(before), Commands(g));
      OneReply(reply, Commands(before), VerifySig);
      assert false;
    }
  }

  lemma {:induction false} SignatureEvents(g: seq<Event>)
    requires SignaturePassed(g, true)
    ensures Commands(g) == [VerifySig] && EndsReading(g)
    ensures g[|g| - 1].Short? || |Received(g)| == 2
  {
    Single(g[0]);
    Snoc([g[0]], g[1]);
    if |g| == 3 {
      Snoc([g[0], g[1]], g[2]);
      assert [g[0], g[1]] + [g[2]] == g && [g[0]] + [g[1]] == [g[0], g[1]];
    } else {
      assert [g[0]] + [g[1]] == g;
    }
  }

  lemma {:induction false} SignedCaughtUp(d: Device, reply: Reply, polls: nat, before: seq<Event>, g: seq<Event>,
                                          all: seq<Event>, inbox: seq<bv8>)
    requires Dependable(d, reply, polls) && Obliging(reply) && CaughtUp(reply, before) && SignaturePassed(g, true)
    requires Sound(d, all, inbox) && before + g <= all
    ensures CaughtUp(reply, before + g)
  {
    hide Dependable, Commands, Replies, Received, Arrived, Acks, SignaturePassed;
    SignatureEvents(g);
    if g[|g| - 1].Short? {
      Delivered(d, reply, polls, before, g);
      Concat(before, g);
      var n := |before + g|;
      assert all[..n] == before + g && all[n - 1].Short? && all[..n - 1 + 1] == all[..n];
    } else {
      OneReply(reply, Commands(before), VerifySig);
      assert |reply(Commands(before) + [VerifySig])| <= 2;
      NowCaughtUp(d, reply, polls, before, g, all, inbox);
    }
  }

  lemma {:induction false} RebootNotStuck(d: Device, reply: Reply, polls: nat, before: seq<Event>, r: seq<Event>)
    requires Dependable(d, reply, polls) && Obliging(reply) && CaughtUp(reply, before) && Broke !in r
    ensures !NoReboot(d, before, r)
  {
    hide Dependable, Commands, Replies, Received, Acks, CaughtUp, Unanswered;
    OneReply(reply, Commands(before), Reboot);
    assert Acknowledged(Reboot) && reply(Commands(before) + [Reboot]) == Acks(1);
    forall k: nat | k <= |r| && Commands(r[..k]) == [Reboot]
      ensures !Unanswered(d, before, r[..k], Acks(1))
    {
      NotUnanswered(d, reply, polls, before, r[..k], Acks(1));
    }
  }

  // ---- The whole upload ----

  /** The device is dependable and obliging, tells the truth about its flash, and holds image and padding once it was
      erased and programmed. */
  ghost predicate Good(d: Device, reply: Reply, polls: nat, flash: Contents, image: seq<bv8>, size: nat) {
    && Dependable(d, reply, polls) && polls > 0 && Obliging(reply) && Truthful(reply, flash) && Steady(flash)
    && forall c | Erases(c) :: flash([c] + Programs(image, ChunkCount(|image|))) == Crc32.Padded(image, size)
  }

  lemma {:induction false} ProgrammedCaughtUp(d: Device, reply: Reply, polls: nat, e: seq<Event>, p: seq<Event>,
                                              all: seq<Event>, inbox: seq<bv8>, image: seq<bv8>)
    requires Dependable(d, reply, polls) && Obliging(reply) && CaughtUp(reply, e) && ProgramPassed(p, image)
    requires Sound(d, all, inbox) && e + p <= all
    ensures CaughtUp(reply, e + p)
    ensures Commands(e + p) == Commands(e) + Programs(image, ChunkCount(|image|))
  {
    hide Dependable, Commands, Replies, Received, Acks, CaughtUp, Sound, ChunkCount, Programs;
    ProgramReplies(reply, Commands(e), image, ChunkCount(|image|));
    NowCaughtUp(d, reply, polls, e, p, all, inbox);
    Concat(e, p);
  }

  /** Everything up to the verification was read. */
  lemma {:induction false} PreparedCaughtUp(d: Device, reply: Reply, polls: nat, flash: Contents, e: seq<Event>,
                                            p: seq<Event>, v: seq<Event>, all: seq<Event>, inbox: seq<bv8>,
                                            fw: Firmware, blRev: nat, size: nat)
    requires Good(d, reply, polls, flash, fw.image, size) && Sound(d, all, inbox) && ErasePassed(e) && e <= all
    ensures CaughtUp(reply, e)
    ensures ProgramPassed(p, fw.image) && e + p <= all ==>
      CaughtUp(reply, e + p) && flash(Commands(e + p)) == Crc32.Padded(fw.image, size)
    ensures ProgramPassed(p, fw.image) && VerifyPassed(v, fw.image, blRev, size) && (e + p) + v <= all ==>
      e + p <= all && CaughtUp(reply, (e + p) + v)
  {
    hide Dependable, Commands, Replies, Received, CaughtUp, Sound, ErasePassed, ProgramPassed, VerifyPassed;
    hide Obliging, Truthful, Steady, Crc32.Padded, Programs, ChunkCount;
    ErasedCaughtUp(d, reply, polls, e, all, inbox);
    EraseCommands(e);
    assert (e + p) + v <= all ==> e + p <= all;
    if ProgramPassed(p, fw.image) && e + p <= all {
      ProgrammedCaughtUp(d, reply, polls, e, p, all, inbox, fw.image);
      if VerifyPassed(v, fw.image, blRev, size) && (e + p) + v <= all {
        VerifiedCaughtUp(d, reply, polls, flash, e + p, v, all, inbox, fw.image, blRev, size);
      }
    }
  }

  lemma {:induction false} EraseCommands(e: seq<Event>)
    requires ErasePassed(e)
    ensures |Commands(e)| == 1 && Erases(Commands(e)[0]) && Commands(e) == [Commands(e)[0]]
  {
  }

  lemma {:induction false} Parts(e: seq<Event>, p: seq<Event>, v: seq<Event>, g: seq<Event>, r: seq<Event>)
    ensures var t := e + p + v + g + r; e <= t && e + p <= t && (e + p) + v <= t && (e + p + v) + g <= t
  {
  }

  /** A good device leaves no stage without what it waits for. */
  lemma {:induction false} PreparingNotStuck(d: Device, reply: Reply, polls: nat, flash: Contents, e: seq<Event>,
                                             p: seq<Event>, v: seq<Event>, g: seq<Event>, t: seq<Event>,
                                             inbox: seq<bv8>, config: Config, fw: Firmware, blRev: nat, size: nat)
    requires Good(d, reply, polls, flash, fw.image, size) && Sound(d, t, inbox) && Broke !in e + p + v + g
    requires e <= t && e + p <= t && (e + p) + v <= t
    ensures !StuckPreparing(d, [], e, p, v, g, config, fw, blRev, size, polls)
  {
    hide Dependable, Commands, Replies, Received, CaughtUp, Sound, ErasePassed, ProgramPassed, VerifyPassed;
    hide Obliging, Truthful, Steady, Crc32.Padded, EraseStuck, ProgramStuck, VerifyStuck, BadSignature;
    assert [] + e == e && [] + (e + p) == e + p && [] + (e + p + v) == e + p + v;
    EraseNotStuck(d, reply, polls, e, inbox, EraseFor(config, blRev));
    if ErasePassed(e) {
      PreparedCaughtUp(d, reply, polls, flash, e, p, v, t, inbox, fw, blRev, size);
      ProgramNotStuck(d, reply, polls, e, p, t, inbox, fw.image);
      if ProgramPassed(p, fw.image) {
        VerifyNotStuck(d, reply, polls, flash, e + p, v, fw.image, blRev, size);
        if VerifyPassed(v, fw.image, blRev, size) {
          SignatureNotStuck(d, reply, polls, e + p + v, g);
        }
      }
    }
  }

  lemma {:induction false} NeverStuck(d: Device, reply: Reply, polls: nat, flash: Contents, t: seq<Event>,
                                      inbox: seq<bv8>, config: Config, fw: Firmware, blRev: nat, size: nat)
    requires Good(d, reply, polls, flash, fw.image, size) && Sound(d, t, inbox)
    ensures !Stuck(d, [], t, config, fw, blRev, size, polls)
  {
    hide Dependable, Commands, Replies, Received, CaughtUp, Sound, ErasePassed, ProgramPassed, VerifyPassed;
    hide Obliging, Truthful, Steady, Crc32.Padded, StuckPreparing, NoReboot, SignaturePassed;
    NeverBroke(d, reply, polls, t, inbox);
    forall e, p, v, g, r | t == e + p + v + g + r
      ensures !StuckAt(d, [], e, p, v, g, r, config, fw, blRev, size, polls)
    {
      Parts(e, p, v, g, r);
      assert forall x :: x in e + p + v + g || x in r ==> x in t;
      PreparingNotStuck(d, reply, polls, flash, e, p, v, g, t, inbox, config, fw, blRev, size);
      if Prepared(e, p, v, g, fw, blRev, size) {
        PreparedCaughtUp(d, reply, polls, flash, e, p, v, t, inbox, fw, blRev, size);
        if fw.imageSigned {
          SignedCaughtUp(d, reply, polls, e + p + v, g, t, inbox);
        } else {
          assert e + p + v + g == e + p + v;
        }
        assert [] + (e + p + v + g) == e + p + v + g;
        RebootNotStuck(d, reply, polls, e + p + v + g, r);
      }
    }
  }

  /** MAIN RESULT. A firmware for the board that passes the checks, a device that answers dependably (an erase may take
      up to the given number of polls), acknowledges what it should and truly holds what was programmed: the upload
      succeeds, with REBOOT sent behind all milestones. */
  method UploadSucceeds(d: Device, ghost reply: Reply, ghost flash: Contents, windowed: bool, blRev: nat, size: nat,
                        config: Config, firmwares: seq<Firmware>, boardType: nat, polls: nat,
                        reenumerated: nat -> bool)
    returns (s: Status, chosen: nat, trace: seq<Event>)
    requires exists i :: Suits(firmwares, i, config, boardType)
    requires forall i | Suits(firmwares, i, config, boardType) ::
      && ChecksPassed(config, firmwares[i], blRev, size)
      && Good(d, reply, polls, flash, firmwares[i].image, size)
    ensures s.Done? && Suits(firmwares, chosen, config, boardType)
    ensures Finished(trace, firmwares[chosen], blRev, size)
    ensures Sent(Reboot) in trace && Broke !in trace
  {
    hide Good, Sound, Finished, Stuck, Safe, ReadyToBoot, ChecksPassed;
    var link := new Link(d);
    var bootloader := new Bootloader(link, windowed, blRev, size);
    ghost var t;
    s, chosen, t := UploadToPort(bootloader, config, firmwares, boardType, polls, reenumerated);
    assert [] + t == t;
    trace := link.trace;
    assert Suits(firmwares, chosen, config, boardType);
    NeverStuck(d, reply, polls, flash, trace, link.inbox, config, firmwares[chosen], blRev, size);
    GoodNeverBroke(d, reply, polls, flash, trace, link.inbox, firmwares[chosen].image, size);
    FinishedRebooted(trace, firmwares[chosen], blRev, size);
  }

  lemma {:induction false} GoodNeverBroke(d: Device, reply: Reply, polls: nat, flash: Contents, t: seq<Event>,
                                          inbox: seq<bv8>, image: seq<bv8>, size: nat)
    requires Good(d, reply, polls, flash, image, size) && Sound(d, t, inbox)
    ensures Broke !in t
  {
    hide Dependable, Obliging, Truthful, Steady, Sound;
    NeverBroke(d, reply, polls, t, inbox);
  }

  lemma {:induction false} FinishedRebooted(t: seq<Event>, fw: Firmware, blRev: nat, size: nat)
    requires Finished(t, fw, blRev, size) && Broke !in t
    ensures Sent(Reboot) in t
  {
    hide Milestones;
  }
}

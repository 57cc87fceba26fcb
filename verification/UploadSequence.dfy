/** The upload attempt as a whole: which firmware is chosen, which checks come first, and what must have
    happened before REBOOT is sent, whatever the device answers. */
module UploadSequence {
  import opened SerialLink
  import opened BootloaderProtocol
  import Crc32

  datatype Firmware = Firmware(boardId: nat, image: seq<bv8>, imageSize: nat, imageSigned: bool)
  datatype Config = Config(force: bool, forceErase: bool)

  /** The first firmware for the board, or a single one if forced. */
  method SelectFirmware(firmwares: seq<Firmware>, config: Config, boardType: nat) returns (s: Status, chosen: nat)
    ensures s.Done? ==> chosen < |firmwares|
    ensures s.Done? && firmwares[chosen].boardId != boardType ==> config.force && |firmwares| == 1
    ensures s.Done? ==> forall j :: 0 <= j < chosen ==> firmwares[j].boardId != boardType
    ensures s.Failed? <==> (forall f <- firmwares :: f.boardId != boardType) && !(config.force && |firmwares| == 1)
    ensures s.Failed? ==> s == Failed(Mismatch)
  {
    for i := 0 to |firmwares|
      invariant forall j :: 0 <= j < i ==> firmwares[j].boardId != boardType
    {
      if firmwares[i].boardId == boardType {
        return Done, i;
      }
    }
    if config.force && |firmwares| == 1 {
      return Done, 0;
    }
    return Failed(Mismatch), 0;
  }

  /** The silicon errata and flash size checks. */
  predicate ChecksPassed(config: Config, fw: Firmware, blRev: nat, flashSize: nat) {
    && (blRev == 4 && fw.boardId == 9 && fw.imageSize > 1032192 ==> config.force)
    && fw.imageSize <= flashSize
  }

  /** The size check looks at the size in the metadata, so it lets exactly those firmwares write past the flash
      whose image is longer than the flash although the metadata says otherwise. */
  lemma {:induction false} SizeCheckMisses(config: Config, fw: Firmware, blRev: nat, flashSize: nat)
    requires ChecksPassed(config, fw, blRev, flashSize)
    ensures |Payload(Programs(fw.image, ChunkCount(|fw.image|)))| > flashSize
       <==> fw.imageSize <= flashSize < |fw.image|
  {
    hide Payload, Programs, ChunkCount;
    ProgramsCover(fw.image, ChunkCount(|fw.image|));
  }

  /** Such a firmware: eight bytes for a flash of four, declared as four. */
  lemma {:induction false} SizeCheckMissesOne()
    ensures var fw := Firmware(1, [0, 0, 0, 0, 0, 0, 0, 0], 4, false);
      && ChecksPassed(Config(false, false), fw, 5, 4)
      && |Payload(Programs(fw.image, ChunkCount(|fw.image|)))| > 4
  {
    var fw := Firmware(1, [0, 0, 0, 0, 0, 0, 0, 0], 4, false);
    SizeCheckMisses(Config(false, false), fw, 5, 4);
  }

  lemma {:induction false} PaddedPast(data: nat, image: nat, flashSize: nat)
    requires data <= flashSize && data <= image < data + 4 && image % 4 == 0
    ensures image > flashSize <==> data > flashSize - flashSize % 4
  {
  }

  /** With a true size in the metadata the padding to whole words alone can still write past the flash: exactly when
      the flash size is not a multiple of four and the data reaches into its last, incomplete word. */
  lemma {:induction false} PaddingOverruns(config: Config, fw: Firmware, blRev: nat, flashSize: nat, data: seq<bv8>)
    requires ChecksPassed(config, fw, blRev, flashSize) && fw.imageSize == |data|
    requires data <= fw.image && |fw.image| % 4 == 0 && |fw.image| < |data| + 4
    ensures |Payload(Programs(fw.image, ChunkCount(|fw.image|)))| > flashSize <==> |data| > flashSize - flashSize % 4
  {
    hide Payload, Programs, ChunkCount;
    PaddedPast(|data|, |fw.image|, flashSize);
    ProgramsCover(fw.image, ChunkCount(|fw.image|));
  }

  /** `p` is an acknowledged erase, the whole image programmed and acknowledged, a passing verification,
      for a signed image a signature check without a bad answer, and then nothing but REBOOT. */
  ghost predicate ReadyToBoot(p: seq<Event>, fw: Firmware, blRev: nat, flashSize: nat) {
    exists a, b, c, d | 0 <= a <= b <= c <= d <= |p| :: Milestones(p, fw, blRev, flashSize, a, b, c, d)
  }

  ghost predicate Milestones(p: seq<Event>, fw: Firmware, blRev: nat, flashSize: nat, a: int, b: int, c: int, d: int)
    requires 0 <= a <= b <= c <= d <= |p|
  {
    && ErasePassed(p[..a]) && ProgramPassed(p[a..b], fw.image)
    && VerifyPassed(p[b..c], fw.image, blRev, flashSize)
    && (if fw.imageSigned then SignaturePassed(p[c..d], true) else c == d)
    && forall cmd <- Commands(p[d..]) :: cmd == Reboot
  }

  /** The milestones, and behind them REBOOT or a port that went away when it was sent. */
  ghost predicate Finished(t: seq<Event>, fw: Firmware, blRev: nat, flashSize: nat) {
    exists a, b, c, d | 0 <= a <= b <= c <= d < |t| ::
      Milestones(t, fw, blRev, flashSize, a, b, c, d) && (t[d] == Sent(Reboot) || t[d] == Broke)
  }

  // ---- Why an upload fails ----

  /** The erase was not acknowledged in time, or the port broke. */
  ghost predicate EraseStuck(d: Device, before: seq<Event>, t: seq<Event>, c: Command, polls: nat) {
    Broke in t || !Bootloader.AcksWithin(d, Received(before), before + [Sent(c)], polls)
  }

  /** Some chunks were sent and not all of them acknowledged, or the port broke. */
  ghost predicate ProgramStuck(d: Device, before: seq<Event>, t: seq<Event>, image: seq<bv8>) {
    && Bootloader.NotAllAcked(d, before, t)
    && exists n :: 0 <= n <= ChunkCount(|image|) && Commands(t) == Programs(image, n)
  }

  ghost predicate VerifyStuck(d: Device, before: seq<Event>, t: seq<Event>, image: seq<bv8>, blRev: nat, size: nat) {
    if blRev >= 3 then NoChecksum(d, before, t, image, size) else NoReadback(d, before, t, image)
  }

  /** The first milestone that was not reached, and what the device did not deliver for it. */
  ghost predicate StuckPreparing(d: Device, before: seq<Event>, e: seq<Event>, p: seq<Event>, v: seq<Event>,
                                 g: seq<Event>, config: Config, fw: Firmware, blRev: nat, size: nat, polls: nat)
  {
    || (p == v == g == [] && EraseStuck(d, before, e, EraseFor(config, blRev), polls))
    || (ErasePassed(e) && v == g == [] && ProgramStuck(d, before + e, p, fw.image))
    || (ErasePassed(e) && ProgramPassed(p, fw.image) && g == []
        && VerifyStuck(d, before + (e + p), v, fw.image, blRev, size))
    || (ErasePassed(e) && ProgramPassed(p, fw.image) && VerifyPassed(v, fw.image, blRev, size)
        && fw.imageSigned && BadSignature(d, before + (e + p + v), g, true))
  }

  ghost function EraseFor(config: Config, blRev: nat): Command {
    if config.forceErase && blRev >= 6 then ChipFullErase else ChipErase
  }

  /** The same for a whole upload. */
  ghost predicate Stuck(d: Device, before: seq<Event>, t: seq<Event>, config: Config, fw: Firmware, blRev: nat,
                        size: nat, polls: nat)
  {
    exists e, p, v, g, r | t == e + p + v + g + r :: StuckAt(d, before, e, p, v, g, r, config, fw, blRev, size, polls)
  }

  ghost predicate StuckAt(d: Device, before: seq<Event>, e: seq<Event>, p: seq<Event>, v: seq<Event>, g: seq<Event>,
                          r: seq<Event>, config: Config, fw: Firmware, blRev: nat, size: nat, polls: nat)
  {
    if r == [] then StuckPreparing(d, before, e, p, v, g, config, fw, blRev, size, polls)
    else Prepared(e, p, v, g, fw, blRev, size) && blRev >= 3 && NoReboot(d, before + (e + p + v + g), r)
  }

  ghost predicate Prepared(e: seq<Event>, p: seq<Event>, v: seq<Event>, g: seq<Event>, fw: Firmware, blRev: nat,
                           size: nat)
  {
    && ErasePassed(e) && ProgramPassed(p, fw.image) && VerifyPassed(v, fw.image, blRev, size)
    && if fw.imageSigned then SignaturePassed(g, true) else g == []
  }

  /** Nothing is sent unless the checks passed, and REBOOT only to a device that is ready for it. */
  ghost predicate Safe(t: seq<Event>, config: Config, fw: Firmware, blRev: nat, flashSize: nat) {
    && (t != [] ==> ChecksPassed(config, fw, blRev, flashSize))
    && forall i | 0 <= i < |t| && t[i] == Sent(Reboot) :: ReadyToBoot(t[..i], fw, blRev, flashSize)
  }

  lemma {:induction false} SentInCommands(t: seq<Event>, i: nat)
    requires i < |t| && t[i].Sent?
    ensures t[i].command in Commands(t)
  {
    if i >= |t| - 1 {
    } else {
      SentInCommands(t[..|t| - 1], i);
    }
  }

  lemma {:induction false} CommandsOfPrefix(t: seq<Event>, k: nat)
    requires k <= |t|
    ensures forall c <- Commands(t[..k]) :: c in Commands(t)
  {
    Concat(t[..k], t[k..]);
    assert t == t[..k] + t[k..];
  }

  /** A run in which REBOOT was never sent. */
  lemma {:induction false} NotBooted(t: seq<Event>)
    requires Reboot !in Commands(t)
    ensures Sent(Reboot) !in t
  {
    if Sent(Reboot) in t {
      var i :| 0 <= i < |t| && t[i] == Sent(Reboot);
      SentInCommands(t, i);
    }
  }

  lemma {:induction false} Halves(x: seq<Event>, y: seq<Event>, i: nat)
    requires |x| <= i <= |x + y|
    ensures (x + y)[..i][..|x|] == x && (x + y)[..i][|x|..] == y[..i - |x|]
  {
  }

  lemma {:induction false} Slices(q: seq<Event>, e: seq<Event>, p: seq<Event>, v: seq<Event>, g: seq<Event>)
    requires |e + p + v + g| <= |q| && q[..|e + p + v + g|] == e + p + v + g
    ensures q[..|e|] == e && q[|e|..|e + p|] == p
    ensures q[|e + p|..|e + p + v|] == v && q[|e + p + v|..|e + p + v + g|] == g
  {
    Within(q, e + p + v, g);
    Within(q, e + p, v);
    Within(q, e, p);
  }

  lemma {:induction false} Within(q: seq<Event>, x: seq<Event>, y: seq<Event>)
    requires |x + y| <= |q| && q[..|x + y|] == x + y
    ensures q[..|x|] == x && q[|x|..|x + y|] == y
  {
    assert q[..|x + y|][..|x|] == q[..|x|] && q[..|x + y|][|x|..] == q[|x|..|x + y|];
  }

  /** A run that went through all the milestones before REBOOT is safe. */
  lemma {:induction false} BootedSafely(e: seq<Event>, p: seq<Event>, v: seq<Event>, g: seq<Event>, r: seq<Event>,
                                        fw: Firmware, blRev: nat, flashSize: nat, i: nat)
    requires ErasePassed(e) && ProgramPassed(p, fw.image) && VerifyPassed(v, fw.image, blRev, flashSize)
    requires if fw.imageSigned then SignaturePassed(g, true) else g == []
    requires forall c <- Commands(r) :: c == Reboot
    requires |e + p + v + g| <= i <= |e + p + v + g + r|
    ensures ReadyToBoot((e + p + v + g + r)[..i], fw, blRev, flashSize)
  {
    hide ErasePassed, ProgramPassed, VerifyPassed, SignaturePassed, Commands;
    var t := e + p + v + g + r;
    var a, b, c, d := |e|, |e + p|, |e + p + v|, |e + p + v + g|;
    var q := t[..i];
    Halves(e + p + v + g, r, i);
    Slices(q, e, p, v, g);
    CommandsOfPrefix(r, i - d);
    assert Milestones(q, fw, blRev, flashSize, a, b, c, d);
  }

  /** Everything up to and including the signature check. */
  method Prepare(bl: Bootloader, config: Config, fw: Firmware, polls: nat)
    returns (s: Status, ghost e: seq<Event>, ghost p: seq<Event>, ghost v: seq<Event>, ghost g: seq<Event>)
    requires bl.Valid() && bl.windowSize == 0
    modifies bl`windowSize, bl.link
    ensures bl.Valid() && bl.link.trace == old(bl.link.trace) + (e + p + v + g)
    ensures s.Done? ==> Prepared(e, p, v, g, fw, bl.blRev, bl.fwMaxSize)
    ensures s.Failed? ==> StuckPreparing(bl.link.device, old(bl.link.trace), e, p, v, g, config, fw, bl.blRev,
                                         bl.fwMaxSize, polls)
    ensures Sent(Reboot) !in e && Sent(Reboot) !in p && Sent(Reboot) !in v && Sent(Reboot) !in g
  {
    hide ErasePassed, ProgramPassed, VerifyPassed, SignaturePassed, Commands, Sound, Programs, ChunkCount;
    hide BadSignature, NoChecksum, NoReadback, Bootloader.NotAllAcked, Bootloader.AcksWithin;
    ghost var was := bl.link.trace;
    e, p, v, g := [], [], [], [];
    s, e := bl.Erase(config.forceErase, polls);
    NotBooted(e);
    Empties(e, p, v);
    if s.Failed? {
      return;
    }
    s, p := bl.Program(fw.image);
    ghost var n :| 0 <= n <= ChunkCount(|fw.image|) && Commands(p) == Programs(fw.image, n);
    ProgramsCover(fw.image, n);
    NotBooted(p);
    Assoc(was, e, p);
    Empties(e, p, v);
    if s.Failed? {
      return;
    }
    s, v := bl.Verify(fw.image);
    NotBooted(v);
    Assoc(was, e + p, v);
    Empties(e, p, v);
    if s.Failed? || !fw.imageSigned {
      return;
    }
    s, g := bl.VerifySignature(fw.imageSigned);
    NotBooted(g);
    Assoc(was, e + p + v, g);
  }

  lemma {:induction false} Empties(e: seq<Event>, p: seq<Event>, v: seq<Event>)
    ensures e + [] == e && e + p + [] == e + p && e + p + v + [] == e + p + v
  {
  }

  /** A run that went through all the milestones is finished with the first event behind them. */
  lemma {:induction false} FinishedWith(e: seq<Event>, p: seq<Event>, v: seq<Event>, g: seq<Event>, r: seq<Event>,
                                        fw: Firmware, blRev: nat, flashSize: nat)
    requires Prepared(e, p, v, g, fw, blRev, flashSize)
    requires r != [] && (r[0] == Sent(Reboot) || r[0] == Broke) && forall c <- Commands(r) :: c == Reboot
    ensures Finished(e + p + v + g + r, fw, blRev, flashSize)
  {
    hide ErasePassed, ProgramPassed, VerifyPassed, SignaturePassed, Commands;
    var t := e + p + v + g + r;
    var a, b, c, d := |e|, |e + p|, |e + p + v|, |e + p + v + g|;
    assert t[..|t|] == t;
    Halves(e + p + v + g, r, |t|);
    Slices(t, e, p, v, g);
    assert r[..|t| - d] == r;
    assert Milestones(t, fw, blRev, flashSize, a, b, c, d) && t[d] == r[0];
  }

  /** The upload sequence. Whatever the device answers, the trace is safe; success means that REBOOT was sent to a
      device that was ready for it, and every failure is a refused firmware or something that did not come in. */
  method DoUpload(bl: Bootloader, config: Config, fw: Firmware, polls: nat, reenumerated: nat -> bool)
    returns (s: Status, ghost t: seq<Event>)
    requires bl.Valid() && bl.windowSize == 0
    modifies bl`windowSize, bl.link
    ensures bl.Valid() && bl.link.trace == old(bl.link.trace) + t
    ensures Safe(t, config, fw, bl.blRev, bl.fwMaxSize)
    ensures s.Done? ==> ReadyToBoot(t, fw, bl.blRev, bl.fwMaxSize) && Finished(t, fw, bl.blRev, bl.fwMaxSize)
    ensures !ChecksPassed(config, fw, bl.blRev, bl.fwMaxSize) ==> s.Failed? && t == []
    ensures s.Failed? && ChecksPassed(config, fw, bl.blRev, bl.fwMaxSize) ==>
      Stuck(bl.link.device, old(bl.link.trace), t, config, fw, bl.blRev, bl.fwMaxSize, polls)
  {
    hide ErasePassed, ProgramPassed, VerifyPassed, SignaturePassed, Commands, Sound, ReadyToBoot, Finished;
    hide StuckPreparing, NoReboot;
    ghost var before := bl.link.trace;
    t := [];
    assert bl.link.trace == before + t;
    if bl.blRev == 4 && fw.boardId == 9 {
      if fw.imageSize > 1032192 && !config.force {
        return Failed(Errata), t;
      }
    }
    if bl.fwMaxSize < fw.imageSize {
      return Failed(TooLarge), t;
    }
    ghost var e, p, v, g, r;
    s, e, p, v, g := Prepare(bl, config, fw, polls);
    t := e + p + v + g;
    if s.Failed? {
      assert t == e + p + v + g + [];
      assert StuckAt(bl.link.device, before, e, p, v, g, [], config, fw, bl.blRev, bl.fwMaxSize, polls);
      return;
    }
    var booted;
    s, booted, r := bl.Boot(reenumerated);
    Assoc(before, t, r);
    t := t + r;
    if s.Failed? {
      assert StuckAt(bl.link.device, before, e, p, v, g, r, config, fw, bl.blRev, bl.fwMaxSize, polls);
    }
    forall i | 0 <= i < |t| && t[i] == Sent(Reboot)
      ensures ReadyToBoot(t[..i], fw, bl.blRev, bl.fwMaxSize)
    {
      BootedSafely(e, p, v, g, r, fw, bl.blRev, bl.fwMaxSize, i);
    }
    BootedSafely(e, p, v, g, r, fw, bl.blRev, bl.fwMaxSize, |t|);
    FinishedWith(e, p, v, g, r, fw, bl.blRev, bl.fwMaxSize);
    assert t[..|t|] == t;
  }

  /** An attempt on one port: firmware selection, then the upload. Nothing is sent unless the firmware
      is for the board or is a single forced one; success means that the chosen one was uploaded. */
  method UploadToPort(bl: Bootloader, config: Config, firmwares: seq<Firmware>, boardType: nat, polls: nat,
                      reenumerated: nat -> bool)
    returns (s: Status, chosen: nat, ghost t: seq<Event>)
    requires bl.Valid() && bl.windowSize == 0
    modifies bl`windowSize, bl.link
    ensures bl.Valid() && bl.link.trace == old(bl.link.trace) + t
    ensures t != [] ==> Suits(firmwares, chosen, config, boardType)
                        && Safe(t, config, firmwares[chosen], bl.blRev, bl.fwMaxSize)
    ensures s.Done? ==> Suits(firmwares, chosen, config, boardType)
                        && ReadyToBoot(t, firmwares[chosen], bl.blRev, bl.fwMaxSize)
                        && Finished(t, firmwares[chosen], bl.blRev, bl.fwMaxSize)
    ensures s.Failed? && (exists i :: Suits(firmwares, i, config, boardType)) ==>
      && Suits(firmwares, chosen, config, boardType)
      && (ChecksPassed(config, firmwares[chosen], bl.blRev, bl.fwMaxSize) ==>
            Stuck(bl.link.device, old(bl.link.trace), t, config, firmwares[chosen], bl.blRev, bl.fwMaxSize, polls))
  {
    hide Safe, ReadyToBoot, Finished, Stuck, ChecksPassed, Sound;
    t := [];
    s, chosen := SelectFirmware(firmwares, config, boardType);
    if s.Done? {
      s, t := DoUpload(bl, config, firmwares[chosen], polls, reenumerated);
    } else {
      assert bl.link.trace == old(bl.link.trace) + t;
    }
  }

  /** The first firmware for the board or, when there is none, a single one that is forced. */
  ghost predicate Suits(firmwares: seq<Firmware>, i: int, config: Config, boardType: nat) {
    && 0 <= i < |firmwares|
    && (forall j :: 0 <= j < i ==> firmwares[j].boardId != boardType)
    && (firmwares[i].boardId == boardType || (config.force && |firmwares| == 1))
  }
}

/** The sending side: cutting ULog messages into packets that say where in them the first message starts. */
module ULogSender {

  import opened Basics
  import opened ULogReceiver
  import opened ULogDelivery

  const DATA_LEN := 249

  // ---- What is to be sent ----

  // Where the first message at or after position c starts, counted from c; NO_START if there is none.
  ghost function PendingOffset(ms: seq<seq<byte>>, c: nat): int
    requires c <= Start(ms, |ms|)
  {
    var k := FirstStart(ms, 0, c);
    if k < |ms| then Start(ms, k) - c else NO_START
  }

  // The same, for a packet of the bytes from c to end.
  ghost function TrueOffset(ms: seq<seq<byte>>, c: nat, end: nat): int
    requires c <= Start(ms, |ms|)
  {
    var k := FirstStart(ms, 0, c);
    if k < |ms| && Start(ms, k) < end then Start(ms, k) - c else NO_START
  }

  lemma {:induction false} StartOf(ms: seq<seq<byte>>, m: seq<byte>, k: nat)
    requires k <= |ms|
    ensures Start(ms + [m], k) == Start(ms, k)
  {
    if k == 0 {
    } else {
      StartOf(ms, m, k - 1);
    }
  }

  lemma {:induction false} FirstStartOf(ms: seq<seq<byte>>, m: seq<byte>, k: nat, p: nat)
    requires k <= |ms| && p <= Start(ms, |ms|) <= Start(ms + [m], |ms| + 1)
    ensures FirstStart(ms + [m], k, p) == FirstStart(ms, k, p)
    decreases |ms| - k
  {
    StartOf(ms, m, k);
    if Start(ms, k) >= p {
    } else {
      FirstStartOf(ms, m, k + 1, p);
    }
  }

  lemma {:induction false} Longer(ms: seq<seq<byte>>, m: seq<byte>)
    ensures Start(ms + [m], |ms| + 1) == Start(ms, |ms|) + |m|
  {
    StartOf(ms, m, |ms|);
  }

  // A message that starts behind a packet does not change the packet's offset.
  lemma {:induction false} OffsetStays(ms: seq<seq<byte>>, m: seq<byte>, c: nat, end: nat)
    requires c <= end <= Start(ms, |ms|)
    ensures c <= Start(ms + [m], |ms| + 1) && TrueOffset(ms + [m], c, end) == TrueOffset(ms, c, end)
  {
    hide Start, FirstStart;
    Longer(ms, m);
    FirstStartOf(ms, m, 0, c);
    StartOf(ms, m, FirstStart(ms, 0, c));
  }

  // A new message is the first one to start when none was pending.
  lemma {:induction false} OffsetOfNew(ms: seq<seq<byte>>, m: seq<byte>, c: nat)
    requires c <= Start(ms, |ms|)
    ensures c <= Start(ms + [m], |ms| + 1)
    ensures var k := FirstStart(ms, 0, c);
      PendingOffset(ms + [m], c) == if k < |ms| then Start(ms, k) - c else Start(ms, |ms|) - c
  {
    hide Start, FirstStart;
    Longer(ms, m);
    FirstStartOf(ms, m, 0, c);
    StartOf(ms, m, FirstStart(ms, 0, c));
  }

  lemma {:induction false} SpellsMore(bytes: seq<byte>, ms: seq<seq<byte>>, m: seq<byte>)
    requires Spells(bytes, ms) && IsMessage(m)
    ensures Spells(bytes + m, ms + [m])
  {
    var more, all := ms + [m], bytes + m;
    Longer(ms, m);
    forall k: nat | k < |more|
      ensures SpellsAt(all, more, k)
    {
      StartOf(ms, m, k);
      if k < |ms| {
        StartOf(ms, m, k + 1);
        assert SpellsAt(bytes, ms, k);
        StartOrdered(bytes, ms, k + 1, |ms|);
        assert all[Start(ms, k)..Start(ms, k + 1)] == bytes[Start(ms, k)..Start(ms, k + 1)];
      } else {
        assert all[|bytes|..] == m;
      }
    }
  }

  lemma {:induction false} PublishedTrue(bytes: seq<byte>, ms: seq<seq<byte>>, c: nat, end: nat)
    requires Spells(bytes, ms) && c <= |bytes|
    requires forall k: nat | k < |ms| :: Start(ms, k) < end
    ensures TrueOffset(ms, c, end) == PendingOffset(ms, c)
  {
  }

  lemma {:induction false} NothingPending(bytes: seq<byte>, ms: seq<seq<byte>>, c: nat)
    requires Spells(bytes, ms) && c <= |bytes| && forall k: nat | k < |ms| :: Start(ms, k) < c
    ensures PendingOffset(ms, c) == NO_START
  {
  }

  // ---- What was sent ----

  /** What was written and published since the log was started; packet i ends at message byte cuts[i + 1]. */
  datatype Log = Log(header: seq<byte>, messages: seq<seq<byte>>, bytes: seq<byte>, cuts: seq<nat>,
                     published: seq<Packet>) {

    ghost function Cut(): nat requires cuts != [] { cuts[|cuts| - 1] }

    // Packet i carries its piece of the stream, and says truly where in it the first message starts.
    ghost predicate PacketOk(i: nat)
      requires i < |published| && |cuts| == |published| + 1
    {
      && cuts[i] <= cuts[i + 1] <= |bytes| == Start(messages, |messages|)
      && |published[i].data| <= DATA_LEN && (i > 0 ==> published[i].data != [])
      && published[i].data == (if i == 0 then header else []) + bytes[cuts[i]..cuts[i + 1]]
      && published[i].sequence == i % SEQ_SPAN
      && published[i].firstOffset == if i == 0 then 0 else TrueOffset(messages, cuts[i], cuts[i + 1])
    }

    ghost predicate Valid() {
      && |header| == HEADER_LEN && Spells(bytes, messages)
      && |cuts| == |published| + 1 && cuts[0] == 0 && Cut() <= |bytes|
      && forall i: nat | i < |published| :: PacketOk(i)
    }

    // The bytes after the last packet, up to message byte pos.
    ghost function Rest(pos: nat): seq<byte>
      requires cuts != [] && Cut() <= pos <= |bytes|
    {
      (if published == [] then header else []) + bytes[Cut()..pos]
    }

    lemma {:induction false} Copied(pos: nat, rest: seq<byte>, n: nat)
      requires cuts != [] && Cut() <= pos <= |bytes| && rest == bytes[pos..] && n <= |rest|
      ensures Rest(pos) + rest[..n] == Rest(pos + n) && rest[n..] == bytes[pos + n..]
    {
      assert bytes[Cut()..pos] + rest[..n] == bytes[Cut()..pos + n];
    }

    ghost function Write(m: seq<byte>): Log { this.(messages := messages + [m], bytes := bytes + m) }

    ghost function Publish(p: Packet, end: nat): Log { this.(published := published + [p], cuts := cuts + [end]) }

    lemma {:induction false} WriteValid(m: seq<byte>)
      requires Valid() && IsMessage(m)
      ensures Write(m).Valid()
    {
      hide Spells, TrueOffset, IsMessage;
      var l := Write(m);
      SpellsMore(bytes, messages, m);
      TotalLength(bytes, messages);
      TotalLength(l.bytes, l.messages);
      forall i: nat | i < |published|
        ensures l.PacketOk(i)
      {
        assert PacketOk(i);
        OffsetStays(messages, m, cuts[i], cuts[i + 1]);
        assert l.bytes[cuts[i]..cuts[i + 1]] == bytes[cuts[i]..cuts[i + 1]];
      }
    }

    lemma {:induction false} PublishValid(p: Packet, end: nat)
      requires Valid() && Cut() <= end <= |bytes| && |p.data| <= DATA_LEN && (published != [] ==> p.data != [])
      requires p.data == Rest(end) && p.sequence == |published| % SEQ_SPAN
      requires Start(messages, |messages|) == |bytes|
      requires p.firstOffset == if published == [] then 0 else TrueOffset(messages, Cut(), end)
      ensures Publish(p, end).Valid()
    {
      hide Spells, TrueOffset;
      var l := Publish(p, end);
      forall i: nat | i < |l.published|
        ensures l.PacketOk(i)
      {
        assert i < |published| ==> PacketOk(i);
      }
    }
  }

  lemma {:induction false} TotalLength(bytes: seq<byte>, ms: seq<seq<byte>>)
    requires Spells(bytes, ms)
    ensures Start(ms, |ms|) == |bytes|
  {
  }

  ghost predicate Extends(log: Log, before: Log, m: seq<byte>) {
    && log.header == before.header && log.messages == before.messages + [m]
    && log.bytes == before.bytes + m && before.published <= log.published
  }

  /** All packets from number n on are full and ask for an acknowledgement exactly in a reliable transfer. */
  ghost predicate FullSince(log: Log, n: nat, reliable: bool) {
    forall i :: n <= i < |log.published| ==> |log.published[i].data| == 249 && log.published[i].acked == reliable
  }

  lemma {:induction false} NoneSince(log: Log, n: nat, reliable: bool)
    requires |log.published| <= n
    ensures FullSince(log, n, reliable)
  {
  }

  const EMPTY := Log([], [], [], [0], [])

  class LogWriter {
    var isStarted: bool
    var needReliableTransfer: bool
    var sequence: nat
    var data: seq<byte>
    var firstMessageOffset: byte
    ghost var log: Log

    // Everything written is in a packet or in the data.
    ghost predicate Valid()
      reads this
    {
      && (!isStarted ==> data == [])
      && if log.header == [] then log == EMPTY && data == [] && (isStarted ==> firstMessageOffset == 0 && sequence == 0)
         else log.Valid() && (isStarted ==> Ready(|log.bytes|) && |data| < DATA_LEN)
    }

    ghost predicate Ready(pos: nat)
      requires log.Valid()
      reads this
    {
      && sequence == |log.published| % SEQ_SPAN
      && log.Cut() <= pos <= |log.bytes| == Start(log.messages, |log.messages|) && data == log.Rest(pos)
      && firstMessageOffset == if log.published == [] then 0 else PendingOffset(log.messages, log.Cut())
    }

    constructor ()
      ensures Valid() && !isStarted && log == EMPTY
    {
      isStarted, needReliableTransfer, sequence, data, firstMessageOffset := false, false, 0, [], 0;
      log := EMPTY;
    }

    method StartLog()
      modifies this
      ensures Valid() && isStarted && log == EMPTY && needReliableTransfer == old(needReliableTransfer)
    {
      sequence, data, firstMessageOffset, isStarted, log := 0, [], 0, true, EMPTY;
    }

    method StopLog()
      requires Valid()
      modifies this`data, this`isStarted
      ensures Valid() && !isStarted
    {
      data, isStarted := [], false;
    }

    /** Publishes the data. When an acknowledgement is needed and does not come, the log stops. */
    method PublishMessage(ghost pos: nat) returns (failed: bool)
      requires log.Valid() && isStarted && Ready(pos) && |data| <= DATA_LEN
      requires log.published != [] ==> data != []
      requires forall k: nat | k < |log.messages| :: Start(log.messages, k) < pos
      modifies this
      ensures log.Valid() && needReliableTransfer == old(needReliableTransfer)
      ensures var p := Packet(needReliableTransfer, old(sequence), old(data), old(firstMessageOffset));
        log == old(log).Publish(p, pos)
      ensures failed == !isStarted && (failed ==> needReliableTransfer && data == [])
      ensures isStarted ==> Ready(pos) && data == []
    {
      hide Start, FirstStart, Spells;
      PublishedTrue(log.bytes, log.messages, log.Cut(), pos);
      ghost var p := Packet(needReliableTransfer, sequence, data, firstMessageOffset);
      log.PublishValid(p, pos);
      NothingPending(log.bytes, log.messages, pos);
      log := log.Publish(p, pos);
      assert log.bytes[pos..pos] == [];
      if needReliableTransfer {
        var gotAck: bool := *;
        if !gotAck {
          data, isStarted := [], false;
          return true;
        }
      }
      sequence := (sequence + 1) % SEQ_SPAN;
      data := [];
      firstMessageOffset := NO_START;
      return false;
    }

    // With a new message announced the pending offset is still right.
    ghost method Announce(m: seq<byte>)
      requires Valid() && isStarted && log.header != [] && IsMessage(m)
      requires log.published != [] && firstMessageOffset == NO_START ==>
        PendingOffset(log.messages, log.Cut()) == NO_START
      modifies this`log
      ensures log == old(log).Write(m) && log.Valid()
      ensures var pos := |old(log).bytes|;
        && sequence == |log.published| % SEQ_SPAN
        && log.Cut() <= pos <= |log.bytes| == Start(log.messages, |log.messages|) && data == log.Rest(pos)
        && log.bytes[pos..] == m
        && (log.published == [] ==> firstMessageOffset == 0)
        && (log.published != [] ==>
              PendingOffset(log.messages, log.Cut())
              == if firstMessageOffset == NO_START then |data| else firstMessageOffset)
        && forall k: nat | k < |log.messages| :: Start(log.messages, k) <= pos
    {
      hide Start, FirstStart, Spells, IsMessage;
      ghost var before := log;
      before.WriteValid(m);
      OffsetOfNew(before.messages, m, before.Cut());
      EarlierStarts(before.bytes, before.messages, m);
      TotalLength(before.bytes, before.messages);
      TotalLength(before.Write(m).bytes, before.Write(m).messages);
      StartsInside(before.bytes, before.messages, FirstStart(before.messages, 0, before.Cut()));
      log := before.Write(m);
      assert log.bytes[log.Cut()..|before.bytes|] == before.bytes[log.Cut()..|before.bytes|];
      assert log.bytes[|before.bytes|..] == m;
    }

    /** Writes one message, the header first, and publishes every full packet. */
    method WriteMessage(m: seq<byte>) returns (failed: bool)
      requires Valid() && if log.header == [] then |m| == HEADER_LEN else IsMessage(m)
      modifies this
      ensures Valid() && needReliableTransfer == old(needReliableTransfer)
      ensures !old(isStarted) ==> !failed && !isStarted && log == old(log)
      ensures old(isStarted) && old(log).header == [] ==> !failed && isStarted && log == EMPTY.(header := m)
      ensures old(isStarted) && old(log).header != [] ==>
        Extends(log, old(log), m) && failed == !isStarted && (failed ==> needReliableTransfer)
      ensures FullSince(log, |old(log).published|, needReliableTransfer)
    {
      hide Start, FirstStart, Spells, FullSince;
      NoneSince(log, |log.published|, needReliableTransfer);
      if !isStarted {
        return false;
      }
      ghost var before, pos: nat, first := log, |log.bytes|, log.header == [];
      if first {
        log := EMPTY.(header := m);
      } else {
        Announce(m);
      }
      if firstMessageOffset == NO_START {
        firstMessageOffset := |data|;
      }
      NoneSince(log, |before.published|, needReliableTransfer);
      assert first ==> data + m == m;
      failed, pos := SendAll(m, first, before, pos);
      if first {
        HeaderValid(m);
        TotalLength(log.bytes, log.messages);
        assert log.Rest(0) == m + [] == m;
      }
    }

    // The copying loop.
    method SendAll(m: seq<byte>, ghost first: bool, ghost before: Log, ghost start: nat)
      returns (failed: bool, ghost pos: nat)
      requires Sending(first, before, m, start, m) && (first ==> |m| == HEADER_LEN)
      requires FullSince(log, |before.published|, needReliableTransfer)
      modifies this
      ensures needReliableTransfer == old(needReliableTransfer)
      ensures FullSince(log, |before.published|, needReliableTransfer)
      ensures !failed ==> Sending(first, before, m, pos, [])
      ensures failed ==> !first && !isStarted && data == [] && log.Valid() && Extends(log, before, m)
      ensures failed ==> needReliableTransfer
    {
      hide Sending, FullSince, Extends;
      var rest := m;
      pos, failed := start, false;
      while rest != []
        invariant Sending(first, before, m, pos, rest) && needReliableTransfer == old(needReliableTransfer)
        invariant FullSince(log, |before.published|, needReliableTransfer)
        decreases |rest|
      {
        rest, failed, pos := SendSome(first, before, m, pos, rest);
        if failed {
          return;
        }
      }
    }

    // What is still to be copied of message m; the header is still in front when it comes first.
    ghost predicate Sending(first: bool, before: Log, m: seq<byte>, pos: nat, rest: seq<byte>)
      reads this
    {
      && isStarted
      && if first then log == EMPTY.(header := m) && data + rest == m && firstMessageOffset == 0 && sequence == 0
         else
           && log.Valid() && Ready(pos) && |data| < DATA_LEN && rest == log.bytes[pos..]
           && Extends(log, before, m)
           && forall k: nat | k < |log.messages| :: Start(log.messages, k) <= pos
    }

    // One round of the copying loop.
    method SendSome(ghost first: bool, ghost before: Log, ghost m: seq<byte>, ghost pos: nat, rest: seq<byte>)
      returns (left: seq<byte>, failed: bool, ghost end: nat)
      requires rest != [] && Sending(first, before, m, pos, rest)
      requires first ==> |m| == HEADER_LEN
      requires FullSince(log, |before.published|, needReliableTransfer)
      modifies this
      ensures needReliableTransfer == old(needReliableTransfer)
      ensures FullSince(log, |before.published|, needReliableTransfer)
      ensures |left| < |rest|
      ensures !failed ==> Sending(first, before, m, end, left)
      ensures failed ==> !first && !isStarted && data == [] && log.Valid() && Extends(log, before, m)
      ensures failed ==> needReliableTransfer
    {
      hide Start, FirstStart, Spells, PendingOffset, TrueOffset;
      var sendLen := if DATA_LEN - |data| < |rest| then DATA_LEN - |data| else |rest|;
      if first {
        Concatenated(data, rest, sendLen);
      } else {
        log.Copied(pos, rest, sendLen);
      }
      data := data + rest[..sendLen];
      left, failed, end := rest[sendLen..], false, pos + sendLen;
      if |data| >= DATA_LEN {
        failed := PublishMessage(end);
      }
    }

    /** Switching reliable transfer off sends what is left with it. */
    method SetNeedReliableTransfer(need: bool)
      requires Valid()
      modifies this
      ensures Valid() && needReliableTransfer == need
      ensures log.header == old(log).header && log.messages == old(log).messages && log.bytes == old(log).bytes
      ensures var ends := !need && old(needReliableTransfer) && old(data) != [];
        && log.published == old(log).published
           + (if ends then [Packet(true, old(sequence), old(data), old(firstMessageOffset))] else [])
        && data == (if ends then [] else old(data))
    {
      if !need && needReliableTransfer {
        if |data| > 0 {
          AllStarted(log.bytes, log.messages);
          var failed := PublishMessage(|log.bytes|);
        }
      }
      needReliableTransfer := need;
    }
  }

  lemma {:induction false} Concatenated(a: seq<byte>, rest: seq<byte>, n: nat)
    requires n <= |rest|
    ensures a + rest[..n] + rest[n..] == a + rest
  {
  }

  lemma {:induction false} HeaderValid(h: seq<byte>)
    requires |h| == HEADER_LEN
    ensures EMPTY.(header := h).Valid()
  {
  }

  lemma {:induction false} EarlierStarts(bytes: seq<byte>, ms: seq<seq<byte>>, m: seq<byte>)
    requires Spells(bytes, ms)
    ensures forall k: nat | k < |ms + [m]| :: Start(ms + [m], k) <= |bytes|
  {
    forall k: nat | k < |ms + [m]|
      ensures Start(ms + [m], k) <= |bytes|
    {
      StartOf(ms, m, k);
      StartOrdered(bytes, ms, k, |ms|);
    }
  }

  lemma {:induction false} StartsInside(bytes: seq<byte>, ms: seq<seq<byte>>, k: nat)
    requires Spells(bytes, ms) && k <= |ms|
    ensures Start(ms, k) <= |bytes|
  {
    StartOrdered(bytes, ms, k, |ms|);
  }

  lemma {:induction false} AllStarted(bytes: seq<byte>, ms: seq<seq<byte>>)
    requires Spells(bytes, ms)
    ensures forall k: nat | k < |ms| :: Start(ms, k) < |bytes|
  {
    forall k: nat | k < |ms|
      ensures Start(ms, k) < |bytes|
    {
      StartOrdered(bytes, ms, k, |ms|);
    }
  }

  // ---- Sender and receiver together ----

  ghost function Flags(published: seq<Packet>): seq<bool> {
    if published == [] then [] else Flags(published[..|published| - 1]) + [published[|published| - 1].acked]
  }

  lemma {:induction false} FlagsAt(published: seq<Packet>)
    ensures |Flags(published)| == |published|
    ensures forall i :: 0 <= i < |published| ==> Flags(published)[i] == published[i].acked
  {
    if published == [] {
    } else {
      FlagsAt(published[..|published| - 1]);
    }
  }

  ghost function StreamOf(log: Log): Stream {
    Stream(log.header, log.messages, log.bytes, log.cuts, Flags(log.published), 0)
  }

  /** Whatever was written and published, the packets are those of a true stream: header and messages cut into
      pieces, numbered without gaps, each with its true first message offset. */
  lemma {:induction false} PublishedStream(log: Log)
    requires log.Valid() && log.published != []
    ensures StreamOf(log).Valid() && |StreamOf(log).acked| == |log.published|
    ensures forall i: nat | i < |log.published| :: log.published[i] == StreamOf(log).At(i)
  {
    var st := StreamOf(log);
    FlagsAt(log.published);
    forall i: nat | i < |log.published|
      ensures |log.published[i].data| + log.cuts[i] == (if i == 0 then HEADER_LEN else 0) + log.cuts[i + 1]
    {
      assert log.PacketOk(i);
    }
    assert log.PacketOk(0);
    forall i | 0 < i < |st.acked|
      ensures st.Begin(i) < st.End(i) <= st.Begin(i) + 255
    {
      assert log.PacketOk(i);
    }
    forall i: nat | i < |log.published|
      ensures log.published[i] == st.At(i)
    {
      PublishedAt(log, i);
    }
  }

  lemma {:induction false} PublishedAt(log: Log, i: nat)
    requires log.Valid() && i < |log.published| && StreamOf(log).Valid()
    requires |StreamOf(log).acked| == |log.published| && StreamOf(log).acked[i] == log.published[i].acked
    ensures log.published[i] == StreamOf(log).At(i)
  {
    hide Spells, Flags;
    assert log.PacketOk(i);
    StreamOf(log).Ordered(i, i + 1);
  }

  // The packets that arrive, in order of arrival.
  ghost function Picked(published: seq<Packet>, arrivals: seq<nat>): seq<Packet>
    requires forall i :: 0 <= i < |arrivals| ==> arrivals[i] < |published|
  {
    if arrivals == [] then [] else [published[arrivals[0]]] + Picked(published, arrivals[1..])
  }

  lemma {:induction false} PickedAre(log: Log, highest: nat, arrivals: seq<nat>)
    requires log.Valid() && log.published != [] && Followable(|log.published|, highest, arrivals)
    ensures StreamOf(log).Valid() && |StreamOf(log).acked| == |log.published|
    ensures forall i :: 0 <= i < |arrivals| ==> arrivals[i] < |log.published|
    ensures Picked(log.published, arrivals) == Packets(StreamOf(log), highest, arrivals)
    decreases |arrivals|
  {
    hide StreamOf;
    PublishedStream(log);
    if arrivals == [] {
    } else {
      PickedAre(log, Max(highest, arrivals[0]), arrivals[1..]);
      assert forall i :: 0 < i < |arrivals| ==> arrivals[i] == arrivals[1..][i - 1];
    }
  }

  /** The numbers of the packets that ask for an acknowledgement. */
  ghost function Asked(ps: seq<Packet>): seq<nat> {
    if ps == [] then [] else (if ps[0].acked then [ps[0].sequence] else []) + Asked(ps[1..])
  }

  lemma {:induction false} AskedAre(log: Log, arrivals: seq<nat>)
    requires log.Valid() && |StreamOf(log).acked| == |log.published|
    requires forall i :: 0 <= i < |arrivals| ==> arrivals[i] < |log.published|
    ensures Asked(Picked(log.published, arrivals)) == Answered(StreamOf(log), arrivals)
  {
    if arrivals == [] {
    } else {
      assert log.PacketOk(arrivals[0]);
      FlagsAt(log.published);
      AskedAre(log, arrivals[1..]);
      var ps := Picked(log.published, arrivals);
      assert ps[1..] == Picked(log.published, arrivals[1..]);
    }
  }

  /** End to end: for every run of the sender and every loss, repetition and delay of its packets after the first
      one, the receiver's file is the header followed by whole messages, and those of the sender in it are the
      ones whose every packet was accepted; the dropout records are those of the losses after the header section,
      each packet that asks for it is acknowledged whenever it arrives, and with no dropout, file and pending bytes
      are what was sent. */
  lemma {:induction false} EndToEnd(log: Log, arrivals: seq<nat>) returns (s: State, entries: seq<Entry>)
    requires log.Valid() && log.published != [] && Followable(|log.published|, 0, arrivals)
    ensures forall i :: 0 <= i < |[0] + arrivals| ==> ([0] + arrivals)[i] < |log.published|
    ensures forall i :: 0 <= i < |log.published| ==> log.published[i].sequence < SEQ_SPAN
    ensures (forall p <- Picked(log.published, [0] + arrivals) :: p.sequence < SEQ_SPAN)
         && ReceiveAll(Initial, Picked(log.published, [0] + arrivals)) == Stored(s)
    ensures StreamOf(log).Valid() && FileHolds(StreamOf(log), s.file, entries)
    ensures Highest(0, arrivals) < |StreamOf(log).acked| == |log.published|
    ensures log.cuts[Highest(0, arrivals) + 1] <= |log.bytes|
    ensures var whole := WholeSoFar(StreamOf(log), {0} + Records(0, arrivals), Highest(0, arrivals));
      || SentOf(entries) == whole
      || exists k: nat :: k < |log.messages| && SentOf(entries) + [k] == whole && s.pending == log.messages[k]
    ensures DropsOf(entries) == Losses(StreamOf(log).acked, !log.published[0].acked, 0, arrivals)
    ensures s.acks == Asked(Picked(log.published, [0] + arrivals))
    ensures |{0} + Records(0, arrivals)| + s.numDropouts == Highest(0, arrivals) + 1
    ensures s.numDropouts == 0 ==> s.file + s.pending == log.header + log.bytes[..log.cuts[Highest(0, arrivals) + 1]]
  {
    hide ReceiveAll, FileHolds, WholeSoFar, SentOf, DropsOf, Packets, Picked, Answered, Losses, Asked, Flags;
    PublishedStream(log);
    FlagsAt(log.published);
    var st := StreamOf(log);
    s, entries := Delivery(st, arrivals);
    PickedAre(log, 0, [0] + arrivals);
    AskedAre(log, [0] + arrivals);
    assert forall i :: 0 <= i < |log.published| ==> log.PacketOk(i);
  }
}

/** What any lossy, duplicated or reordered delivery of a sender's stream leaves in the log file. */
module ULogDelivery {
  import opened Basics
  import opened ULogReceiver

  // ---- The sender's stream ----

  // Two bytes as a number, the low one first.
  ghost function LittleEndian(low: int, high: int): int { low + 0x100 * high }

  /** A payload length, a type byte and a payload of that length. */
  ghost predicate IsMessage(m: seq<byte>) { |m| >= 3 && |m| - 3 == LittleEndian(m[0], m[1]) }

  /** Where message k starts; for k == |ms|, where the last one ends. */
  ghost function Start(ms: seq<seq<byte>>, k: nat): nat
    requires k <= |ms|
  {
    if k == 0 then 0 else Start(ms, k - 1) + |ms[k - 1]|
  }

  /** `bytes` is the messages one after the other. */
  ghost predicate Spells(bytes: seq<byte>, ms: seq<seq<byte>>) {
    Start(ms, |ms|) == |bytes| && forall k: nat | k < |ms| :: SpellsAt(bytes, ms, k)
  }

  ghost predicate SpellsAt(bytes: seq<byte>, ms: seq<seq<byte>>, k: nat)
    requires k < |ms|
  {
    && IsMessage(ms[k]) && Start(ms, k + 1) <= |bytes|
    && bytes[Start(ms, k)..Start(ms, k + 1)] == ms[k]
  }

  /** The first message that starts at or after position p, looking from message k on. */
  ghost function FirstStart(ms: seq<seq<byte>>, k: nat, p: nat): (r: nat)
    requires k <= |ms| && p <= Start(ms, |ms|)
    ensures k <= r <= |ms| && p <= Start(ms, r)
    ensures forall j :: k <= j < r ==> Start(ms, j) < p
    decreases |ms| - k
  {
    if p <= Start(ms, k) then k else FirstStart(ms, k + 1, p)
  }

  /** A 16-byte header and messages, cut into packets: packet i carries the message bytes from
      cuts[i] to cuts[i + 1], and packet 0 carries the header in front of them. */
  datatype Stream = Stream(header: seq<byte>, messages: seq<seq<byte>>, bytes: seq<byte>,
                           cuts: seq<nat>, acked: seq<bool>, base: nat) {

    ghost predicate Valid() {
      && |header| == 16 && Spells(bytes, messages)
      && |cuts| >= 2 && |acked| == |cuts| - 1
      && cuts[0] == 0 && 16 + cuts[1] <= 255
      && (forall i :: 0 < i < |acked| ==> Begin(i) < End(i) <= Begin(i) + 255)
      && cuts[|cuts| - 1] <= |bytes|
    }

    ghost function Begin(i: nat): nat requires i < |cuts| { cuts[i] }
    ghost function End(i: nat): nat requires i + 1 < |cuts| { cuts[i + 1] }

    /** Later packets lie further on; every packet ends inside the stream. */
    lemma {:induction false} Ordered(i: nat, j: nat)
      requires Valid() && i <= j < |cuts|
      ensures Begin(i) <= Begin(j) <= |bytes|
      ensures 1 <= i < j ==> Begin(i) < Begin(j)
      decreases |cuts| - i
    {
      if i < |cuts| - 1 {
        Ordered(i + 1, if i < j then j else |cuts| - 1);
        assert i > 0 ==> Begin(i) < End(i);
      }
    }

    /** Where in packet i the first message starts, or 255 if none does. */
    ghost function Offset(i: nat): (o: byte)
      requires Valid() && i < |acked|
    {
      Ordered(i, i + 1);
      assert i > 0 ==> Begin(i) < End(i) <= Begin(i) + 255;
      if i == 0 then 0
      else
        var k := FirstStart(messages, 0, Begin(i));
        if k < |messages| && Start(messages, k) < End(i) then Start(messages, k) - Begin(i) else NO_START
    }

    ghost function At(i: nat): (p: Packet)
      requires Valid() && i < |acked|
      ensures p.sequence < SEQ_SPAN
    {
      Ordered(i, i + 1);
      Packet(acked[i], (base + i) % SEQ_SPAN, (if i == 0 then header else []) + bytes[Begin(i)..End(i)], Offset(i))
    }
  }

  lemma {:induction false} StartOrdered(bytes: seq<byte>, ms: seq<seq<byte>>, j: nat, k: nat)
    requires Spells(bytes, ms) && j <= k <= |ms|
    ensures Start(ms, j) + 3 * (k - j) <= Start(ms, k) <= |bytes|
    decreases |ms| - j, k - j
  {
    if j < k {
      StartOrdered(bytes, ms, j, k - 1);
      assert SpellsAt(bytes, ms, k - 1);
    } else if k < |ms| {
      StartOrdered(bytes, ms, k + 1, |ms|);
      assert SpellsAt(bytes, ms, k);
    }
  }

  // ---- What arrived whole ----

  /** Packet i carries a byte of message k. */
  ghost predicate Overlaps(st: Stream, i: nat, k: nat)
    requires i < |st.acked| < |st.cuts| && k < |st.messages|
  {
    st.Begin(i) < Start(st.messages, k + 1) && Start(st.messages, k) < st.End(i)
  }

  /** Every packet that carries a byte of message k is among the accepted ones. */
  ghost predicate Arrived(st: Stream, accepted: set<nat>, k: nat)
    requires |st.acked| < |st.cuts| && k < |st.messages|
  {
    forall i: nat | i < |st.acked| && Overlaps(st, i, k) :: i in accepted
  }

  /** Some packet up to n with a byte of message k was not accepted. */
  ghost predicate MissingIn(st: Stream, n: nat, accepted: set<nat>, k: nat)
    requires n < |st.acked| < |st.cuts| && k < |st.messages|
  {
    exists i: nat :: i <= n && i !in accepted && Overlaps(st, i, k)
  }

  lemma {:induction false} MissingStays(st: Stream, n: nat, accepted: set<nat>, k: nat, h: nat)
    requires n < |st.acked| < |st.cuts| && k < |st.messages| && MissingIn(st, n, accepted, k) && n < h
    ensures !Arrived(st, accepted + {h}, k)
    ensures h < |st.acked| ==> MissingIn(st, h, accepted + {h}, k)
  {
  }

  /** The messages before k that arrived whole, in order. */
  ghost function Whole(st: Stream, accepted: set<nat>, k: nat): seq<nat>
    requires |st.acked| < |st.cuts| && k <= |st.messages|
  {
    if k == 0 then []
    else Whole(st, accepted, k - 1) + (if Arrived(st, accepted, k - 1) then [k - 1] else [])
  }

  /** A packet that lies at or after the start of message k does not touch the earlier ones. */
  lemma {:induction false} WholeStable(st: Stream, accepted: set<nat>, h: nat, k: nat)
    requires st.Valid() && h < |st.acked| && k <= |st.messages|
    requires Start(st.messages, k) <= st.Begin(h)
    ensures Whole(st, accepted + {h}, k) == Whole(st, accepted, k)
  {
    if k == 0 {
    } else {
      StartOrdered(st.bytes, st.messages, k - 1, k);
      WholeStable(st, accepted, h, k - 1);
      assert !Overlaps(st, h, k - 1);
    }
  }

  lemma {:induction false} WholeSkips(st: Stream, accepted: set<nat>, k: nat, m: nat)
    requires |st.acked| < |st.cuts| && k <= m <= |st.messages|
    requires forall j :: k <= j < m ==> !Arrived(st, accepted, j)
    ensures Whole(st, accepted, m) == Whole(st, accepted, k)
  {
    if k >= m {
    } else {
      WholeSkips(st, accepted, k, m - 1);
    }
  }

  // ---- What the file holds ----

  datatype Entry = Dropout(drops: nat) | Sent(k: nat)

  ghost predicate EntryOk(ms: seq<seq<byte>>, e: Entry) {
    if e.Sent? then e.k < |ms| else 1 <= e.drops <= 25
  }

  ghost function Bytes(ms: seq<seq<byte>>, e: Entry): seq<byte>
    requires EntryOk(ms, e)
  {
    if e.Sent? then ms[e.k] else DropoutRecord(e.drops)
  }

  /** A ULog dropout message: type 'O' and a duration in milliseconds, ten for each lost packet. */
  ghost predicate IsDropout(m: seq<byte>, drops: nat) {
    IsMessage(m) && |m| == 5 && m[2] == 'O' as int && LittleEndian(m[3], m[4]) == 10 * drops
  }

  /** The record for a count is the only such message. */
  lemma {:induction false} DropoutSays(drops: nat, m: seq<byte>)
    requires drops <= 25
    ensures m == DropoutRecord(drops) <==> IsDropout(m, drops)
  {
    if IsDropout(m, drops) {
      assert LittleEndian(m[0], m[1]) == 2;
      assert m == [m[0], m[1], m[2], m[3], m[4]];
    }
  }

  ghost function Render(ms: seq<seq<byte>>, entries: seq<Entry>): seq<byte>
    requires forall e <- entries :: EntryOk(ms, e)
  {
    if entries == [] then []
    else Render(ms, entries[..|entries| - 1]) + Bytes(ms, entries[|entries| - 1])
  }

  ghost function SentOf(entries: seq<Entry>): seq<nat>
  {
    if entries == [] then []
    else
      var e := entries[|entries| - 1];
      SentOf(entries[..|entries| - 1]) + (if e.Sent? then [e.k] else [])
  }

  /** The counts in the dropout records, in order. */
  ghost function DropsOf(entries: seq<Entry>): seq<nat>
  {
    if entries == [] then []
    else
      var e := entries[|entries| - 1];
      DropsOf(entries[..|entries| - 1]) + (if e.Dropout? then [e.drops] else [])
  }

  lemma {:induction false} DropsAppend(entries: seq<Entry>, e: Entry)
    ensures DropsOf(entries + [e]) == DropsOf(entries) + (if e.Dropout? then [e.drops] else [])
  {
    assert (entries + [e])[..|entries|] == entries;
  }

  lemma {:induction false} NoDrops(entries: seq<Entry>)
    requires DropsOf(entries) == []
    ensures forall e <- entries :: e.Sent?
  {
    if entries == [] {
    } else {
      var front, last := entries[..|entries| - 1], entries[|entries| - 1];
      NoDrops(front);
      assert entries == front + [last];
    }
  }

  /** A record appended to the list is appended to the file. */
  lemma {:induction false} Append(ms: seq<seq<byte>>, entries: seq<Entry>, e: Entry)
    requires EntryOk(ms, e) && forall x <- entries :: EntryOk(ms, x)
    ensures Render(ms, entries + [e]) == Render(ms, entries) + Bytes(ms, e)
    ensures SentOf(entries + [e]) == SentOf(entries) + (if e.Sent? then [e.k] else [])
  {
    assert (entries + [e])[..|entries|] == entries;
  }

  lemma {:induction false} Glue(s: seq<byte>, p: nat, q: nat, r: nat)
    requires p <= q <= r <= |s|
    ensures s[p..q] + s[q..r] == s[p..r]
  {
  }

  lemma {:induction false} SplitHead(message: seq<byte>, rest: seq<byte>)
    requires IsMessage(message)
    ensures Split(message + rest) == (message + Split(rest).0, Split(rest).1)
  {
    var data := message + rest;
    assert data[0] == message[0] && data[1] == message[1];
    assert data[..|message|] == message && data[|message|..] == rest;
  }

  lemma {:induction false} SplitPartial(message: seq<byte>, data: seq<byte>)
    requires IsMessage(message) && data < message
    ensures Split(data) == ([], data)
  {
    if |data| > 2 {
      assert data[0] == message[0] && data[1] == message[1];
    }
  }

  /** Splitting data that starts at message k stores the whole messages k..j and keeps the start of
      message j. */
  lemma {:induction false} SplitAt(bytes: seq<byte>, ms: seq<seq<byte>>, k: nat, d: nat) returns (j: nat)
    requires Spells(bytes, ms) && k <= |ms| && Start(ms, k) <= d <= |bytes|
    ensures k <= j <= |ms| && Start(ms, k) <= Start(ms, j) <= d
    ensures j < |ms| ==> d < Start(ms, j + 1)
    ensures Split(bytes[Start(ms, k)..d]) == (bytes[Start(ms, k)..Start(ms, j)], bytes[Start(ms, j)..d])
    decreases |ms| - k
  {
    var p := Start(ms, k);
    if k == |ms| {
      return k;
    }
    assert SpellsAt(bytes, ms, k);
    var q := Start(ms, k + 1);
    if q <= d {
      j := SplitAt(bytes, ms, k + 1, d);
      Glue(bytes, p, q, d);
      Glue(bytes, p, q, Start(ms, j));
      SplitHead(ms[k], bytes[q..d]);
    } else {
      j := k;
      Glue(bytes, p, d, q);
      SplitPartial(ms[k], bytes[p..d]);
      assert bytes[p..p] == [];
    }
  }

  // ---- The run invariant ----

  /** Either the receiver knows where it is (pending is the start of message k, possibly all of it),
      or it lost message k and waits for the next message start. */
  datatype Mode = Synced(k: nat) | Lost(k: nat)

  /** The highest accepted packet, all accepted ones, the file's records, and the mode. */
  datatype Progress = Progress(highest: nat, accepted: set<nat>, entries: seq<Entry>, mode: Mode)

  /** The bookkeeping part of the invariant. */
  ghost predicate Counted(st: Stream, s: State, g: Progress) {
    && st.Valid() && g.highest < |st.acked|
    && g.highest in g.accepted && (forall i <- g.accepted :: i <= g.highest)
    && s.gotUlogHeader && s.lastSequence == (st.base + g.highest) % SEQ_SPAN
    && s.numDropouts + |g.accepted| == g.highest + 1
  }

  /** The file is the header and the records, and those hold exactly the messages before k that
      arrived whole. */
  ghost predicate Logged(st: Stream, file: seq<byte>, accepted: set<nat>, entries: seq<Entry>, k: nat)
    requires st.Valid()
  {
    && k <= |st.messages|
    && (forall e <- entries :: EntryOk(st.messages, e))
    && file == st.header + Render(st.messages, entries)
    && SentOf(entries) == Whole(st, accepted, k)
  }

  ghost predicate InSync(st: Stream, pending: seq<byte>, h: nat, accepted: set<nat>, k: nat)
    requires st.Valid() && h < |st.acked| && k <= |st.messages|
  {
    var start, end := Start(st.messages, k), st.End(h);
    && start <= end <= |st.bytes|
    && (k < |st.messages| ==> end <= Start(st.messages, k + 1))
    && pending == st.bytes[start..end]
    && forall i: nat | i <= h && start < st.End(i) :: i in accepted
  }

  ghost predicate OutOfSync(st: Stream, pending: seq<byte>, h: nat, accepted: set<nat>, k: nat)
    requires st.Valid() && h < |st.acked| && k <= |st.messages|
  {
    && k < |st.messages| && Start(st.messages, k) < st.End(h) <= Start(st.messages, k + 1)
    && pending == []
    && MissingIn(st, h, accepted, k)
  }

  /** The file and the pending bytes after packet h. */
  ghost predicate Follows(st: Stream, file: seq<byte>, pending: seq<byte>, h: nat, accepted: set<nat>,
                          entries: seq<Entry>, mode: Mode)
    requires st.Valid() && h < |st.acked|
  {
    && Logged(st, file, accepted, entries, mode.k)
    && (if mode.Synced? then InSync(st, pending, h, accepted, mode.k)
        else OutOfSync(st, pending, h, accepted, mode.k))
  }

  ghost predicate Unbroken(g: Progress) { g.mode.Synced? && DropsOf(g.entries) == [] }

  ghost predicate Reached(st: Stream, s: State, g: Progress) {
    && Counted(st, s, g)
    && Follows(st, s.file, s.pending, g.highest, g.accepted, g.entries, g.mode)
    && (s.numDropouts == 0 ==> Unbroken(g))
  }

  /** Storing message k after the messages before it, when it arrived whole. */
  lemma {:induction false} LogMessage(st: Stream, file: seq<byte>, accepted: set<nat>, entries: seq<Entry>, k: nat)
    requires st.Valid() && Logged(st, file, accepted, entries, k)
    requires k < |st.messages| && Arrived(st, accepted, k)
    ensures Logged(st, file + st.messages[k], accepted, entries + [Sent(k)], k + 1)
  {
    hide Arrived, Overlaps;
    Append(st.messages, entries, Sent(k));
    assert file + st.messages[k] == st.header + (Render(st.messages, entries) + st.messages[k]);
  }

  lemma {:induction false} LogDropout(st: Stream, file: seq<byte>, accepted: set<nat>, entries: seq<Entry>, k: nat,
                                      drops: nat)
    requires st.Valid() && Logged(st, file, accepted, entries, k) && 1 <= drops <= 25
    ensures Logged(st, file + DropoutRecord(drops), accepted, entries + [Dropout(drops)], k)
  {
    hide Whole;
    Append(st.messages, entries, Dropout(drops));
    assert file + DropoutRecord(drops) == st.header + (Render(st.messages, entries) + DropoutRecord(drops));
  }

  /** Storing messages m..j, all of which arrived. */
  lemma {:induction false} LogRange(st: Stream, file: seq<byte>, accepted: set<nat>, entries: seq<Entry>, m: nat,
                                    j: nat)
    returns (entries': seq<Entry>)
    requires st.Valid() && Logged(st, file, accepted, entries, m) && m <= j <= |st.messages|
    requires Start(st.messages, m) <= Start(st.messages, j) <= |st.bytes|
    requires forall k :: m <= k < j ==> Arrived(st, accepted, k)
    ensures Logged(st, file + st.bytes[Start(st.messages, m)..Start(st.messages, j)], accepted, entries', j)
    ensures DropsOf(entries') == DropsOf(entries)
    decreases j - m
  {
    hide Logged, Arrived, Render, SentOf;
    var p, r := Start(st.messages, m), Start(st.messages, j);
    if m == j {
      assert file + st.bytes[p..r] == file;
      return entries;
    }
    assert SpellsAt(st.bytes, st.messages, m);
    StartOrdered(st.bytes, st.messages, m + 1, j);
    var q := Start(st.messages, m + 1);
    LogMessage(st, file, accepted, entries, m);
    DropsAppend(entries, Sent(m));
    entries' := LogRange(st, file + st.messages[m], accepted, entries + [Sent(m)], m + 1, j);
    Glue(st.bytes, p, q, r);
    assert file + st.messages[m] + st.bytes[q..r] == file + st.bytes[p..r];
  }

  /** The first message starting in or after packet h follows the message that reaches into it. */
  lemma {:induction false} FirstStartFollows(st: Stream, h: nat, k: nat)
    requires st.Valid() && 0 < h < |st.acked| && k < |st.messages|
    requires Start(st.messages, k) < st.Begin(h) <= Start(st.messages, k + 1)
    ensures st.Begin(h) <= |st.bytes| && FirstStart(st.messages, 0, st.Begin(h)) == k + 1
  {
    st.Ordered(h, h + 1);
    var m := FirstStart(st.messages, 0, st.Begin(h));
    if m <= k {
      StartOrdered(st.bytes, st.messages, m, k);
    }
  }

  /** The packets that hold a byte of a region inside packet h are packet h alone. */
  lemma {:induction false} InsidePacket(st: Stream, h: nat, i: nat)
    requires st.Valid() && h < |st.acked| && i < |st.acked|
    ensures i < h ==> st.End(i) <= st.Begin(h)
    ensures i > h ==> st.End(h) <= st.Begin(i)
  {
    if i < h {
      st.Ordered(i + 1, h);
    } else if i > h {
      st.Ordered(h + 1, i);
    }
  }

  /** Data from a message start m to the end of packet h, stored with nothing pending. */
  lemma {:induction false} Fill(st: Stream, file: seq<byte>, h: nat, accepted: set<nat>, entries: seq<Entry>, m: nat)
    returns (entries': seq<Entry>, j: nat)
    requires st.Valid() && h < |st.acked| && h in accepted && Logged(st, file, accepted, entries, m)
    requires st.Begin(h) <= Start(st.messages, m) <= st.End(h) <= |st.bytes|
    ensures j <= |st.messages|
    ensures var (written, rest) := Split(st.bytes[Start(st.messages, m)..st.End(h)]);
            Logged(st, file + written, accepted, entries', j) && InSync(st, rest, h, accepted, j)
    ensures DropsOf(entries') == DropsOf(entries)
  {
    hide Split, Render, SentOf;
    j := SplitAt(st.bytes, st.messages, m, st.End(h));
    forall k | m <= k < j
      ensures Arrived(st, accepted, k)
    {
      StartOrdered(st.bytes, st.messages, m, k);
      StartOrdered(st.bytes, st.messages, k + 1, j);
      forall i: nat | i < |st.acked| && Overlaps(st, i, k)
        ensures i in accepted
      {
        InsidePacket(st, h, i);
      }
    }
    forall i: nat | i <= h && Start(st.messages, j) < st.End(i)
      ensures i in accepted
    {
      InsidePacket(st, h, i);
    }
    entries' := LogRange(st, file, accepted, entries, m, j);
  }

  /** Nothing is pending: the next packet starts with message k. */
  lemma {:induction false} NextAligned(st: Stream, s: State, h: nat, accepted: set<nat>, entries: seq<Entry>, k: nat)
    returns (entries': seq<Entry>, k': nat)
    requires st.Valid() && 0 < h < |st.acked| && Logged(st, s.file, accepted, entries, k)
    requires s.pending == [] && Start(st.messages, k) == st.Begin(h)
    ensures var r := Resume(s, st.At(h).data, st.At(h).firstOffset);
            Follows(st, r.file, r.pending, h, accepted + {h}, entries', Synced(k'))
    ensures DropsOf(entries') == DropsOf(entries)
  {
    hide Render, SentOf, Split, Overlaps;
    st.Ordered(h, h + 1);
    assert st.Begin(h) < st.End(h);
    StartOrdered(st.bytes, st.messages, k, |st.messages|);
    var m := FirstStart(st.messages, 0, st.Begin(h));
    if m < k {
      StartOrdered(st.bytes, st.messages, m, k);
    }
    WholeStable(st, accepted, h, k);
    entries', k' := Fill(st, s.file, h, accepted + {h}, entries, k);
    assert st.At(h).data == st.bytes[st.Begin(h)..st.End(h)] && st.Offset(h) == 0;
  }

  /** The next packet lies inside the pending message. */
  lemma {:induction false} NextInside(st: Stream, s: State, h: nat, accepted: set<nat>, entries: seq<Entry>, k: nat)
    requires st.Valid() && h + 1 < |st.acked| && Follows(st, s.file, s.pending, h, accepted, entries, Synced(k))
    requires k < |st.messages| && Start(st.messages, k) < st.Begin(h + 1)
    requires st.End(h + 1) <= Start(st.messages, k + 1)
    ensures var p := st.At(h + 1);
            var r := Resume(s, p.data, p.firstOffset);
            Follows(st, r.file, r.pending, h + 1, accepted + {h + 1}, entries, Synced(k))
  {
    hide Render, SentOf, Whole, Split, Overlaps;
    st.Ordered(h + 1, h + 2);
    FirstStartFollows(st, h + 1, k);
    WholeStable(st, accepted, h + 1, k);
    assert st.At(h + 1).data == st.bytes[st.Begin(h + 1)..st.End(h + 1)] && st.Offset(h + 1) == NO_START;
    Glue(st.bytes, Start(st.messages, k), st.Begin(h + 1), st.End(h + 1));
  }

  /** A message whose earlier packets were accepted arrives with the packet it ends in. */
  lemma {:induction false} ArrivesNow(st: Stream, h: nat, accepted: set<nat>, k: nat)
    requires st.Valid() && h + 1 < |st.acked| && k < |st.messages|
    requires forall i: nat | i <= h && Start(st.messages, k) < st.End(i) :: i in accepted
    requires Start(st.messages, k + 1) <= st.End(h + 1)
    ensures Arrived(st, accepted + {h + 1}, k)
  {
    forall i: nat | i < |st.acked| && Overlaps(st, i, k)
      ensures i in accepted + {h + 1}
    {
      InsidePacket(st, h + 1, i);
    }
  }

  /** The data and offset of a packet in which the message after k starts. */
  lemma {:induction false} CompletingPacket(st: Stream, h: nat, k: nat)
    requires st.Valid() && 0 < h < |st.acked| && k < |st.messages|
    requires Start(st.messages, k) < st.Begin(h) <= Start(st.messages, k + 1) < st.End(h)
    ensures st.End(h) <= |st.bytes|
    ensures var next, p := Start(st.messages, k + 1), st.At(h);
            && p.firstOffset == next - st.Begin(h) < |p.data| <= 255
            && UpTo(p.data, p.firstOffset) == st.bytes[st.Begin(h)..next]
            && From(p.data, p.firstOffset) == st.bytes[next..st.End(h)]
  {
    st.Ordered(h, h + 1);
    FirstStartFollows(st, h, k);
    StartOrdered(st.bytes, st.messages, k + 1, |st.messages|);
    assert st.Begin(h) < st.End(h) <= st.Begin(h) + 255;
    assert st.At(h).data == st.bytes[st.Begin(h)..st.End(h)];
  }

  // What the receiver makes of such a packet while the start of message k is pending.
  lemma {:induction false} CompletingResume(st: Stream, s: State, h: nat, k: nat)
    requires st.Valid() && 0 < h < |st.acked| && k < |st.messages|
    requires Start(st.messages, k) < st.Begin(h) <= Start(st.messages, k + 1) < st.End(h)
    requires st.End(h) <= |st.bytes| && s.pending == st.bytes[Start(st.messages, k)..st.Begin(h)]
    ensures var p := st.At(h);
            var (written, rest) := Split(st.bytes[Start(st.messages, k + 1)..st.End(h)]);
            Resume(s, p.data, p.firstOffset) == s.(file := s.file + st.messages[k] + written, pending := rest)
  {
    hide Split, Start;
    CompletingPacket(st, h, k);
    assert SpellsAt(st.bytes, st.messages, k);
    Glue(st.bytes, Start(st.messages, k), st.Begin(h), Start(st.messages, k + 1));
  }

  /** The next packet completes the pending message and goes on after it. */
  lemma {:induction false} NextCompletes(st: Stream, s: State, h: nat, accepted: set<nat>, entries: seq<Entry>, k: nat)
    returns (entries': seq<Entry>, k': nat)
    requires st.Valid() && h + 1 < |st.acked| && Follows(st, s.file, s.pending, h, accepted, entries, Synced(k))
    requires k < |st.messages| && Start(st.messages, k) < st.Begin(h + 1)
    requires Start(st.messages, k + 1) < st.End(h + 1)
    ensures var p := st.At(h + 1);
            var r := Resume(s, p.data, p.firstOffset);
            Follows(st, r.file, r.pending, h + 1, accepted + {h + 1}, entries', Synced(k'))
    ensures DropsOf(entries') == DropsOf(entries)
  {
    hide Split, Render, SentOf, Overlaps, Arrived, Whole, Start, Resume;
    CompletingPacket(st, h + 1, k);
    CompletingResume(st, s, h + 1, k);
    ArrivesNow(st, h, accepted, k);
    WholeStable(st, accepted, h + 1, k);
    LogMessage(st, s.file, accepted + {h + 1}, entries, k);
    DropsAppend(entries, Sent(k));
    entries', k' := Fill(st, s.file + st.messages[k], h + 1, accepted + {h + 1}, entries + [Sent(k)], k + 1);
  }

  /** The packet right after the last accepted one, when the receiver is in sync. */
  lemma {:induction false} NextInSync(st: Stream, s: State, h: nat, accepted: set<nat>, entries: seq<Entry>, k: nat)
    returns (entries': seq<Entry>, k': nat)
    requires st.Valid() && h + 1 < |st.acked| && Follows(st, s.file, s.pending, h, accepted, entries, Synced(k))
    ensures var p := st.At(h + 1);
            var r := Resume(s, p.data, p.firstOffset);
            Follows(st, r.file, r.pending, h + 1, accepted + {h + 1}, entries', Synced(k'))
    ensures DropsOf(entries') == DropsOf(entries)
  {
    st.Ordered(h + 1, h + 2);
    StartOrdered(st.bytes, st.messages, k, |st.messages|);
    if Start(st.messages, k) == st.Begin(h + 1) {
      entries', k' := NextAligned(st, s, h + 1, accepted, entries, k);
    } else if st.End(h + 1) <= Start(st.messages, k + 1) {
      NextInside(st, s, h, accepted, entries, k);
      entries', k' := entries, k;
    } else {
      entries', k' := NextCompletes(st, s, h, accepted, entries, k);
    }
  }

  /** Waiting for a message start, a packet without one is ignored. */
  lemma {:induction false} NextStillLost(st: Stream, s: State, h: nat, accepted: set<nat>, entries: seq<Entry>, k: nat)
    requires st.Valid() && h + 1 < |st.acked| && Follows(st, s.file, s.pending, h, accepted, entries, Lost(k))
    requires h + 1 !in accepted && st.End(h + 1) <= Start(st.messages, k + 1)
    ensures var p := st.At(h + 1);
            var r := Resume(s, p.data, p.firstOffset);
            Follows(st, r.file, r.pending, h + 1, accepted + {h + 1}, entries, Lost(k))
  {
    hide Render, SentOf, Whole, Overlaps;
    var p := st.At(h + 1);
    st.Ordered(h + 1, h + 2);
    FirstStartFollows(st, h + 1, k);
    WholeStable(st, accepted, h + 1, k);
    assert st.Begin(h + 1) < st.End(h + 1) <= st.Begin(h + 1) + 255;
    MissingStays(st, h, accepted, k, h + 1);
    assert p.firstOffset == NO_START && From(p.data, NO_START) == [];
    assert s.file + [] == s.file;
    assert Resume(s, p.data, p.firstOffset) == s;
  }

  /** Waiting for a message start, a packet with one brings the receiver back in sync. */
  lemma {:induction false} NextFound(st: Stream, s: State, h: nat, accepted: set<nat>, entries: seq<Entry>, k: nat)
    returns (entries': seq<Entry>, j: nat)
    requires st.Valid() && h + 1 < |st.acked| && Follows(st, s.file, s.pending, h, accepted, entries, Lost(k))
    requires h + 1 !in accepted && Start(st.messages, k + 1) < st.End(h + 1)
    ensures var p := st.At(h + 1);
            var r := Resume(s, p.data, p.firstOffset);
            Follows(st, r.file, r.pending, h + 1, accepted + {h + 1}, entries', Synced(j))
    ensures DropsOf(entries') == DropsOf(entries)
  {
    hide Render, SentOf, Split, Overlaps;
    CompletingPacket(st, h + 1, k);
    WholeStable(st, accepted, h + 1, k);
    MissingStays(st, h, accepted, k, h + 1);
    assert Logged(st, s.file, accepted + {h + 1}, entries, k + 1);
    entries', j := Fill(st, s.file, h + 1, accepted + {h + 1}, entries, k + 1);
  }

  /** A complete pending message is stored when a loss is noticed. */
  lemma {:induction false} FlushComplete(st: Stream, s: State, h: nat, accepted: set<nat>, entries: seq<Entry>, k: nat)
    requires st.Valid() && h < |st.acked| && Follows(st, s.file, s.pending, h, accepted, entries, Synced(k))
    requires k < |st.messages| && st.End(h) == Start(st.messages, k + 1)
    ensures Logged(st, s.file + Split(s.pending).0, accepted, entries + [Sent(k)], k + 1)
  {
    assert SpellsAt(st.bytes, st.messages, k);
    SplitHead(st.messages[k], []);
    assert s.pending + [] == s.pending && s.pending + Split([]).0 == s.pending;
    forall i: nat | i < |st.acked| && Overlaps(st, i, k)
      ensures i in accepted
    {
      InsidePacket(st, h, i);
    }
    LogMessage(st, s.file, accepted, entries, k);
  }

  /** An incomplete pending message is dropped when a loss is noticed. */
  lemma {:induction false} FlushPartial(st: Stream, s: State, h: nat, accepted: set<nat>, entries: seq<Entry>, k: nat)
    requires st.Valid() && h + 1 < |st.acked| && Follows(st, s.file, s.pending, h, accepted, entries, Synced(k))
    requires h + 1 !in accepted
    requires k < |st.messages| ==> st.End(h) < Start(st.messages, k + 1)
    ensures Split(s.pending).0 == []
    ensures k < |st.messages| ==> MissingIn(st, h + 1, accepted, k)
  {
    if k < |st.messages| {
      assert SpellsAt(st.bytes, st.messages, k);
      Glue(st.bytes, Start(st.messages, k), st.End(h), Start(st.messages, k + 1));
      SplitPartial(st.messages[k], s.pending);
      st.Ordered(h + 1, h + 2);
      assert Overlaps(st, h + 1, k);
    }
  }

  lemma {:induction false} NothingSplit(pending: seq<byte>)
    ensures pending == [] ==> Split(pending).0 == []
  {
  }

  /** After a loss, from message q on, everything starts after packet h or misses a packet. */
  lemma {:induction false} Flush(st: Stream, s: State, h: nat, accepted: set<nat>, entries: seq<Entry>, mode: Mode)
    returns (entries': seq<Entry>, q: nat)
    requires st.Valid() && h + 1 < |st.acked| && Follows(st, s.file, s.pending, h, accepted, entries, mode)
    requires h + 1 !in accepted
    ensures Logged(st, s.file + Split(s.pending).0, accepted, entries', q) && DropsOf(entries') == DropsOf(entries)
    ensures Start(st.messages, q) <= st.End(h)
    ensures forall j: nat :: q <= j < |st.messages| ==>
      st.End(h) <= Start(st.messages, j) || MissingIn(st, h + 1, accepted, j)
  {
    hide Render, SentOf, DropsOf, EntryOk, Whole, Overlaps, Split;
    var k := mode.k;
    assert s.file + [] == s.file;
    if mode.Synced? && k < |st.messages| && st.End(h) == Start(st.messages, k + 1) {
      FlushComplete(st, s, h, accepted, entries, k);
      DropsAppend(entries, Sent(k));
      entries', q := entries + [Sent(k)], k + 1;
    } else {
      entries', q := entries, k;
      NothingSplit(s.pending);
      if mode.Synced? {
        FlushPartial(st, s, h, accepted, entries, k);
      } else {
        assert MissingIn(st, h + 1, accepted, k);
      }
    }
    forall j: nat | q <= j < |st.messages| && k < j
      ensures st.End(h) <= Start(st.messages, j)
    {
      StartOrdered(st.bytes, st.messages, k + 1, j);
    }
  }

  lemma {:induction false} FindPacket(st: Stream, p: nat, a: nat, b: nat) returns (i: nat)
    requires st.Valid() && a < b < |st.cuts| && st.Begin(a) <= p < st.Begin(b)
    ensures a <= i < b && st.Begin(i) <= p < st.End(i)
    decreases b - a
  {
    if p < st.Begin(b - 1) {
      i := FindPacket(st, p, a, b - 1);
    } else {
      i := b - 1;
    }
  }

  /** A message that starts in the gap misses a packet. */
  lemma {:induction false} SkippedMissing(st: Stream, h: nat, accepted: set<nat>, n: nat, j: nat)
    requires st.Valid() && h + 1 < n < |st.acked| && j < |st.messages| && forall i <- accepted :: i <= h
    requires st.End(h) <= Start(st.messages, j) || MissingIn(st, h + 1, accepted, j)
    requires Start(st.messages, j) < st.Begin(n)
    ensures !Arrived(st, accepted + {n}, j) && MissingIn(st, n, accepted + {n}, j)
  {
    if st.End(h) <= Start(st.messages, j) {
      var i := FindPacket(st, Start(st.messages, j), h + 1, n);
      StartOrdered(st.bytes, st.messages, j, j + 1);
      assert Overlaps(st, i, j);
      assert MissingIn(st, n - 1, accepted, j);
      MissingStays(st, n - 1, accepted, j, n);
    } else {
      MissingStays(st, h + 1, accepted, j, n);
    }
  }

  /** The first message starting in or after packet n, reached after a gap: nothing between q and it
      arrived. */
  lemma {:induction false} Skip(st: Stream, file: seq<byte>, h: nat, accepted: set<nat>, entries: seq<Entry>, q: nat,
                                n: nat)
    returns (m: nat)
    requires st.Valid() && h + 1 < n < |st.acked| && forall i <- accepted :: i <= h
    requires Logged(st, file, accepted, entries, q) && Start(st.messages, q) <= st.End(h)
    requires forall j: nat :: q <= j < |st.messages| ==>
      st.End(h) <= Start(st.messages, j) || MissingIn(st, h + 1, accepted, j)
    ensures st.Begin(n) < st.End(n) <= |st.bytes| && st.End(n) <= st.Begin(n) + 255
    ensures m == FirstStart(st.messages, 0, st.Begin(n)) && q < m
    ensures Logged(st, file, accepted + {n}, entries, m - 1) && Logged(st, file, accepted + {n}, entries, m)
    ensures MissingIn(st, n, accepted + {n}, m - 1)
  {
    hide Render, SentOf, Arrived, Overlaps, MissingIn;
    st.Ordered(n, n + 1);
    assert st.Begin(n) < st.End(n) <= st.Begin(n) + 255;
    st.Ordered(h + 1, n);
    m := FirstStart(st.messages, 0, st.Begin(n));
    if m <= q {
      StartOrdered(st.bytes, st.messages, m, q);
    }
    forall j | q <= j < m
      ensures !Arrived(st, accepted + {n}, j) && MissingIn(st, n, accepted + {n}, j)
    {
      SkippedMissing(st, h, accepted, n, j);
    }
    WholeStable(st, accepted, n, q);
    WholeSkips(st, accepted + {n}, q, m - 1);
    WholeSkips(st, accepted + {n}, q, m);
  }

  lemma {:induction false} Cut(bytes: seq<byte>, begin: nat, end: nat, o: nat)
    requires begin + o <= end <= |bytes|
    ensures From(From(bytes[begin..end], o), 0) == bytes[begin + o..end]
  {
  }

  lemma {:induction false} OffsetResume(st: Stream, s: State, n: nat, m: nat)
    requires st.Valid() && 0 < n < |st.acked| && m <= |st.messages| && s.pending == []
    requires st.Begin(n) <= Start(st.messages, m) < st.End(n) <= |st.bytes|
    ensures var o, (written, rest) := Start(st.messages, m) - st.Begin(n),
                                      Split(st.bytes[Start(st.messages, m)..st.End(n)]);
            Resume(s, From(st.At(n).data, o), 0) == s.(file := s.file + written, pending := rest)
  {
    hide Split, Start, From;
    assert st.At(n).data == st.bytes[st.Begin(n)..st.End(n)];
    Cut(st.bytes, st.Begin(n), st.End(n), Start(st.messages, m) - st.Begin(n));
  }

  /** Storing a packet from its first message start on, with nothing pending. */
  lemma {:induction false} FillFromOffset(st: Stream, s: State, n: nat, accepted: set<nat>, entries: seq<Entry>, m: nat)
    returns (entries': seq<Entry>, j: nat)
    requires st.Valid() && 0 < n < |st.acked| && n in accepted && Logged(st, s.file, accepted, entries, m)
    requires st.Begin(n) <= Start(st.messages, m) < st.End(n) <= |st.bytes| && s.pending == []
    ensures var o := Start(st.messages, m) - st.Begin(n);
            var r := Resume(s, From(st.At(n).data, o), 0);
            Follows(st, r.file, r.pending, n, accepted, entries', Synced(j))
    ensures DropsOf(entries') == DropsOf(entries)
  {
    hide Split, Render, SentOf, Whole, EntryOk, InSync, Resume, From, Start;
    entries', j := Fill(st, s.file, n, accepted, entries, m);
    OffsetResume(st, s, n, m);
  }

  /** A packet after a gap. */
  lemma {:induction false} Gap(st: Stream, s: State, h: nat, accepted: set<nat>, entries: seq<Entry>, mode: Mode,
                               n: nat)
    returns (entries': seq<Entry>, mode': Mode)
    requires st.Valid() && h + 1 < n < |st.acked| && Follows(st, s.file, s.pending, h, accepted, entries, mode)
    requires forall i <- accepted :: i <= h
    ensures var r := Recover(s, st.At(n).data, st.At(n).firstOffset);
            Follows(st, r.file, r.pending, n, accepted + {n}, entries', mode')
    ensures DropsOf(entries') == DropsOf(entries)
  {
    hide Split, Logged, Resume, InSync;
    var q;
    entries', q := Flush(st, s, h, accepted, entries, mode);
    var flushed := s.(file := s.file + Split(s.pending).0, pending := []);
    var m := Skip(st, flushed.file, h, accepted, entries', q, n);
    var o := st.Offset(n);
    if m < |st.messages| && Start(st.messages, m) < st.End(n) {
      var j;
      entries', j := FillFromOffset(st, flushed, n, accepted + {n}, entries', m);
      mode' := Synced(j);
    } else {
      mode' := Lost(m - 1);
    }
  }

  // ---- Runs ----

  /** A late or duplicate packet changes nothing; its acknowledgement is sent again. */
  lemma {:induction false} Rejected(st: Stream, s: State, g: Progress, n: nat)
    requires Reached(st, s, g) && g.highest - SEQ_HALF < n <= g.highest
    ensures Receive(s, st.At(n)) == Stored(Acked(s, st.At(n))) && Reached(st, Acked(s, st.At(n)), g)
  {
    hide Follows, Store;
    CheckSequenceExact(st.base + g.highest, st.base + n);
    var p := st.At(n);
    assert !CheckSequence(s.lastSequence, p.sequence).0;
  }

  /** A newer packet is accepted, and exactly the packets in between are counted as dropped. */
  lemma {:induction false} Accepted(st: Stream, s: State, g: Progress, n: nat)
    requires Counted(st, s, g) && n < |st.acked| && g.highest < n < g.highest + SEQ_HALF
    ensures CheckSequence(s.lastSequence, st.At(n).sequence) == (true, n - g.highest - 1)
  {
    CheckSequenceExact(st.base + g.highest, st.base + n);
  }

  /** The counters after accepting packet n, with the file and the pending bytes accounted for. */
  lemma {:induction false} Recount(st: Stream, s: State, g: Progress, s': State, g': Progress)
    requires Counted(st, s, g) && g.highest < g'.highest < |st.acked|
    requires g'.accepted == g.accepted + {g'.highest}
    requires s'.gotUlogHeader && s'.lastSequence == st.At(g'.highest).sequence
    requires s'.numDropouts == s.numDropouts + (g'.highest - g.highest - 1)
    ensures Counted(st, s', g')
  {
  }

  lemma {:induction false} ResumeKeepsCounters(s: State, data: seq<byte>, first: nat)
    ensures var r := Resume(s, data, first);
            r == s.(file := r.file, pending := r.pending)
  {
    hide Split;
  }

  /** The header section is over with the first packet that needs no acknowledgement; one that needs it gets it. */
  ghost predicate Heard(st: Stream, s: State, s': State, n: nat)
    requires st.Valid() && n < |st.acked|
  {
    && s'.gotHeaderSection == (s.gotHeaderSection || !st.acked[n])
    && s'.acks == s.acks + if st.acked[n] then [(st.base + n) % 0x1_0000] else []
  }

  ghost function Min(a: nat, b: nat): nat { if a < b then a else b }

  /** Any receiver, any packet behind a loss: the dropout record directly follows what the file held before, unless the
      header section is still going on. */
  lemma {:induction false} RecordFirst(s: State, p: Packet, m: seq<byte>)
    requires s.gotUlogHeader && -1 <= s.lastSequence < SEQ_SPAN && p.sequence < SEQ_SPAN
    requires CheckSequence(s.lastSequence, p.sequence).0 && CheckSequence(s.lastSequence, p.sequence).1 > 0
    requires IsDropout(m, Min(25, CheckSequence(s.lastSequence, p.sequence).1))
    ensures Receive(s, p).Stored?
    ensures (if s.gotHeaderSection || !p.acked then s.file + m else s.file) <= Receive(s, p).state.file
  {
    hide Split, CheckSequence, IsDropout;
    DropoutSays(Min(25, CheckSequence(s.lastSequence, p.sequence).1), m);
  }

  /** Only a first packet without a whole header is refused. */
  lemma {:induction false} TooShortExactly(s: State, p: Packet)
    requires -1 <= s.lastSequence < SEQ_SPAN && p.sequence < SEQ_SPAN
    ensures Receive(s, p).TooShort?
       <==> !s.gotUlogHeader && CheckSequence(s.lastSequence, p.sequence).0 && |p.data| < 16
  {
  }

  /** Slicing twice at one place loses and repeats nothing, wherever it is. */
  lemma {:induction false} SlicesMeet(s: seq<byte>, n: nat)
    ensures UpTo(s, n) + From(s, n) == s && |UpTo(s, n)| == Min(|s|, n)
  {
  }

  /** The packet right after the highest accepted one. */
  lemma {:induction false} StepNext(st: Stream, s: State, g: Progress) returns (s': State, g': Progress)
    requires Reached(st, s, g) && g.highest + 1 < |st.acked|
    ensures Receive(s, st.At(g.highest + 1)) == Stored(s') && Reached(st, s', g')
    ensures g'.highest == g.highest + 1 && g'.accepted == g.accepted + {g.highest + 1}
    ensures DropsOf(g'.entries) == DropsOf(g.entries) && Heard(st, s, s', g.highest + 1)
  {
    hide Split, Resume, Logged, InSync, OutOfSync;
    var h, p := g.highest, st.At(g.highest + 1);
    Accepted(st, s, g, h + 1);
    var s1 := Accept(Acked(s, p), p, 0);
    s' := Resume(s1, p.data, p.firstOffset);
    ResumeKeepsCounters(s1, p.data, p.firstOffset);
    assert Follows(st, s1.file, s1.pending, h, g.accepted, g.entries, g.mode);
    var entries, mode := FollowNext(st, s1, h, g.accepted, g.entries, g.mode);
    g' := Progress(h + 1, g.accepted + {h + 1}, entries, mode);
    Recount(st, s, g, s', g');
  }

  lemma {:induction false} FollowNext(st: Stream, s: State, h: nat, accepted: set<nat>, entries: seq<Entry>, mode: Mode)
    returns (entries': seq<Entry>, mode': Mode)
    requires st.Valid() && h + 1 < |st.acked| && Follows(st, s.file, s.pending, h, accepted, entries, mode)
    requires h + 1 !in accepted
    ensures var p := st.At(h + 1);
            var r := Resume(s, p.data, p.firstOffset);
            Follows(st, r.file, r.pending, h + 1, accepted + {h + 1}, entries', mode')
    ensures DropsOf(entries') == DropsOf(entries) && (mode.Synced? ==> mode'.Synced?)
  {
    hide Resume, Logged, InSync;
    var j;
    if mode.Synced? {
      entries', j := NextInSync(st, s, h, accepted, entries, mode.k);
      mode' := Synced(j);
    } else if st.End(h + 1) <= Start(st.messages, mode.k + 1) {
      NextStillLost(st, s, h, accepted, entries, mode.k);
      entries', mode' := entries, mode;
    } else {
      entries', j := NextFound(st, s, h, accepted, entries, mode.k);
      mode' := Synced(j);
    }
  }

  /** A packet after a loss: the dropout record comes first, once the header section is over. */
  lemma {:induction false} StepGap(st: Stream, s: State, g: Progress, n: nat) returns (s': State, g': Progress)
    requires Reached(st, s, g) && n < |st.acked| && g.highest + 1 < n < g.highest + SEQ_HALF
    ensures Receive(s, st.At(n)) == Stored(s') && Reached(st, s', g')
    ensures g'.highest == n && g'.accepted == g.accepted + {n} && Heard(st, s, s', n)
    ensures DropsOf(g'.entries) == DropsOf(g.entries) + if s'.gotHeaderSection then [Min(25, n - g.highest - 1)] else []
  {
    hide Split, Logged, InSync, OutOfSync;
    var p, drops := st.At(n), n - g.highest - 1;
    Accepted(st, s, g, n);
    var s1 := Accept(Acked(s, p), p, drops);
    var s2 := NoteDrops(s1, drops);
    var entries := g.entries;
    if s1.gotHeaderSection {
      var cap := if drops > 25 then 25 else drops;
      LogDropout(st, s1.file, g.accepted, entries, g.mode.k, cap);
      DropsAppend(entries, Dropout(cap));
      entries := entries + [Dropout(cap)];
    }
    assert Follows(st, s2.file, s2.pending, g.highest, g.accepted, entries, g.mode);
    s' := Recover(s2, p.data, p.firstOffset);
    var mode;
    entries, mode := Gap(st, s2, g.highest, g.accepted, entries, g.mode, n);
    g' := Progress(n, g.accepted + {n}, entries, mode);
    Recount(st, s, g, s', g');
  }

  /** The first packet: the header is stored and the messages behind it start the log. */
  lemma {:induction false} StepFirst(st: Stream) returns (s': State, g': Progress)
    requires st.Valid()
    ensures Receive(Initial, st.At(0)) == Stored(s') && Reached(st, s', g')
    ensures g'.highest == 0 && g'.accepted == {0} && DropsOf(g'.entries) == [] && Heard(st, Initial, s', 0)
  {
    var p := st.At(0);
    st.Ordered(0, 1);
    var entries, j := Fill(st, st.header, 0, {0}, [], 0);
    var body := st.bytes[0..st.End(0)];
    assert p.data[..HEADER_LEN] == st.header && p.data[HEADER_LEN..] == body && From(body, 0) == body;
    assert Initial.file + st.header == st.header;
    var s1 := Accept(Acked(Initial, p), p, 0).(file := st.header, gotUlogHeader := true);
    s' := Resume(s1, body, 0);
    g' := Progress(0, {0}, entries, Synced(j));
  }

  /** Every arriving packet is less than 2^15 away from the highest one before it. */
  ghost predicate Followable(count: nat, highest: nat, arrivals: seq<nat>)
    decreases |arrivals|
  {
    arrivals == [] ||
    (arrivals[0] < count && -SEQ_HALF < arrivals[0] - highest < SEQ_HALF
     && Followable(count, Max(highest, arrivals[0]), arrivals[1..]))
  }

  ghost function Max(a: nat, b: nat): nat { if a < b then b else a }

  ghost function Highest(highest: nat, arrivals: seq<nat>): nat
    decreases |arrivals|
  {
    if arrivals == [] then highest else Highest(Max(highest, arrivals[0]), arrivals[1..])
  }

  /** The arrivals that were newer than everything before them. */
  ghost function Records(highest: nat, arrivals: seq<nat>): set<nat>
    decreases |arrivals|
  {
    if arrivals == [] then {}
    else (if highest < arrivals[0] then {arrivals[0]} else {}) + Records(Max(highest, arrivals[0]), arrivals[1..])
  }

  ghost function Packets(st: Stream, highest: nat, arrivals: seq<nat>): (ps: seq<Packet>)
    requires st.Valid() && Followable(|st.acked|, highest, arrivals)
    ensures forall p <- ps :: p.sequence < SEQ_SPAN
    decreases |arrivals|
  {
    if arrivals == [] then []
    else [st.At(arrivals[0])] + Packets(st, Max(highest, arrivals[0]), arrivals[1..])
  }

  /** The counts of the records that losses leave, from the arrivals alone: one record, of at most 25, for every
      arrival that skips packets once an accepted packet needed no acknowledgement (`over` for those so far). */
  ghost function Losses(acked: seq<bool>, over: bool, highest: nat, arrivals: seq<nat>): seq<nat>
    requires Followable(|acked|, highest, arrivals)
    decreases |arrivals|
  {
    if arrivals == [] then []
    else
      var n := arrivals[0];
      if n <= highest then Losses(acked, over, highest, arrivals[1..])
      else
        (if n > highest + 1 && (over || !acked[n]) then [Min(25, n - highest - 1)] else [])
        + Losses(acked, over || !acked[n], n, arrivals[1..])
  }

  /** The acknowledgements: one for every arrival that asks for it, repeated or not. */
  ghost function Answered(st: Stream, arrivals: seq<nat>): seq<nat>
    requires forall i :: 0 <= i < |arrivals| ==> arrivals[i] < |st.acked|
  {
    if arrivals == [] then []
    else
      (if st.acked[arrivals[0]] then [(st.base + arrivals[0]) % 0x1_0000] else []) + Answered(st, arrivals[1..])
  }

  lemma {:induction false} AllInside(count: nat, highest: nat, arrivals: seq<nat>)
    requires Followable(count, highest, arrivals)
    ensures forall i :: 0 <= i < |arrivals| ==> arrivals[i] < count
    decreases |arrivals|
  {
    if arrivals == [] {
    } else {
      AllInside(count, Max(highest, arrivals[0]), arrivals[1..]);
      assert forall i :: 0 < i < |arrivals| ==> arrivals[i] == arrivals[1..][i - 1];
    }
  }

  lemma {:induction false} Assoc<T>(a: seq<T>, b: seq<T>, c: seq<T>)
    ensures a + b + c == a + (b + c) && [] + c == c
  {
  }

  lemma {:induction false} UnionAssoc(a: set<nat>, b: set<nat>, c: set<nat>)
    ensures a + b + c == a + (b + c) && a + {} == a
  {
  }

  lemma {:induction false} AnswerOnly(st: Stream, s: State, n: nat)
    requires st.Valid() && n < |st.acked|
    ensures var s' := Acked(s, st.At(n));
      && s'.acks == s.acks + (if st.acked[n] then [(st.base + n) % 0x1_0000] else [])
      && s'.gotHeaderSection == s.gotHeaderSection
  {
  }

  lemma {:induction false} RecordsFirst(highest: nat, arrivals: seq<nat>)
    requires arrivals != []
    ensures var n, rest := arrivals[0], arrivals[1..];
      && Highest(highest, arrivals) == Highest(Max(highest, n), rest)
      && Records(highest, arrivals) == (if highest < n then {n} else {}) + Records(Max(highest, n), rest)
  {
  }

  lemma {:induction false} NoRecords(highest: nat)
    ensures Highest(highest, []) == highest && Records(highest, []) == {}
  {
  }

  /** One arrival. */
  lemma {:induction false} Step(st: Stream, s: State, g: Progress, n: nat) returns (s': State, g': Progress)
    requires st.Valid() && Reached(st, s, g) && n < |st.acked| && -SEQ_HALF < n - g.highest < SEQ_HALF
    ensures Receive(s, st.At(n)) == Stored(s') && Reached(st, s', g')
    ensures g'.highest == Max(g.highest, n) && g'.accepted == g.accepted + if g.highest < n then {n} else {}
    ensures s'.acks == s.acks + if st.acked[n] then [(st.base + n) % 0x1_0000] else []
    ensures s'.gotHeaderSection == (s.gotHeaderSection || (g.highest < n && !st.acked[n]))
    ensures DropsOf(g'.entries) == DropsOf(g.entries)
      + if n > g.highest + 1 && s'.gotHeaderSection then [Min(25, n - g.highest - 1)] else []
  {
    hide Reached, Receive, DropsOf, Acked;
    if n <= g.highest {
      Rejected(st, s, g, n);
      AnswerOnly(st, s, n);
      s', g' := Acked(s, st.At(n)), g;
      assert DropsOf(g.entries) + [] == DropsOf(g.entries) && g.accepted + {} == g.accepted;
    } else if n == g.highest + 1 {
      s', g' := StepNext(st, s, g);
      assert DropsOf(g.entries) + [] == DropsOf(g.entries);
    } else {
      s', g' := StepGap(st, s, g, n);
    }
  }

  lemma {:induction false} RunFrom(st: Stream, s: State, g: Progress, arrivals: seq<nat>)
    returns (s': State, g': Progress)
    requires st.Valid() && Reached(st, s, g) && Followable(|st.acked|, g.highest, arrivals)
    ensures ReceiveAll(s, Packets(st, g.highest, arrivals)) == Stored(s') && Reached(st, s', g')
    ensures g'.highest == Highest(g.highest, arrivals)
    ensures g'.accepted == g.accepted + Records(g.highest, arrivals)
    ensures DropsOf(g'.entries) == DropsOf(g.entries) + Losses(st.acked, s.gotHeaderSection, g.highest, arrivals)
    ensures forall i :: 0 <= i < |arrivals| ==> arrivals[i] < |st.acked|
    ensures s'.acks == s.acks + Answered(st, arrivals)
    decreases |arrivals|
  {
    hide Reached, Receive, DropsOf, Losses, Answered, Packets, ReceiveAll, Records, Highest;
    AllInside(|st.acked|, g.highest, arrivals);
    Counting(st, s, g);
    NoArrivals(st, s, g);
    s', g' := s, g;
    if arrivals == [] {
      NoRecords(g.highest);
      assert g.accepted + {} == g.accepted;
    } else {
      var n, rest, over := arrivals[0], arrivals[1..], s.gotHeaderSection;
      var s1, g1 := Step(st, s, g, n);
      RecordsFirst(g.highest, arrivals);
      UnionAssoc(g.accepted, if g.highest < n then {n} else {}, Records(g1.highest, rest));
      s', g' := RunFrom(st, s1, g1, rest);
      Counting(st, s1, g1);
      ReceiveFirst(st, s, s1, g.highest, arrivals);
      LossesFirst(st, over, g.highest, arrivals);
      Assoc(s.acks, if st.acked[n] then [(st.base + n) % 0x1_0000] else [], Answered(st, rest));
      Assoc(DropsOf(g.entries), if n > g.highest + 1 && s1.gotHeaderSection then [Min(25, n - g.highest - 1)] else [],
            Losses(st.acked, s1.gotHeaderSection, g1.highest, rest));
    }
  }

  lemma {:induction false} Counting(st: Stream, s: State, g: Progress)
    requires Reached(st, s, g)
    ensures st.Valid() && 0 <= s.lastSequence < SEQ_SPAN && g.highest < |st.acked|
  {
  }

  lemma {:induction false} SpanCounted(st: Stream, s: State, g: Progress)
    requires Reached(st, s, g)
    ensures |g.accepted| + s.numDropouts == g.highest + 1
  {
  }

  lemma {:induction false} FirstAnswer(st: Stream, arrivals: seq<nat>)
    requires forall i :: 0 <= i < |arrivals| ==> arrivals[i] < |st.acked|
    requires |st.acked| > 0
    ensures forall i :: 0 <= i < |[0] + arrivals| ==> ([0] + arrivals)[i] < |st.acked|
    ensures Answered(st, [0] + arrivals)
         == (if st.acked[0] then [(st.base + 0) % 0x1_0000] else []) + Answered(st, arrivals)
  {
    assert ([0] + arrivals)[1..] == arrivals;
  }

  lemma {:induction false} NoArrivals(st: Stream, s: State, g: Progress)
    requires st.Valid() && -1 <= s.lastSequence < SEQ_SPAN
    ensures ReceiveAll(s, Packets(st, g.highest, [])) == Stored(s) && s.acks + Answered(st, []) == s.acks
    ensures DropsOf(g.entries) + Losses(st.acked, s.gotHeaderSection, g.highest, []) == DropsOf(g.entries)
  {
  }

  lemma {:induction false} ReceiveFirst(st: Stream, s: State, s1: State, highest: nat, arrivals: seq<nat>)
    requires st.Valid() && arrivals != [] && Followable(|st.acked|, highest, arrivals)
    requires -1 <= s.lastSequence < SEQ_SPAN && -1 <= s1.lastSequence < SEQ_SPAN
    requires Receive(s, st.At(arrivals[0])) == Stored(s1)
    ensures ReceiveAll(s, Packets(st, highest, arrivals))
         == ReceiveAll(s1, Packets(st, Max(highest, arrivals[0]), arrivals[1..]))
  {
    hide Receive;
    var ps := Packets(st, highest, arrivals);
    assert ps[0] == st.At(arrivals[0]) && ps[1..] == Packets(st, Max(highest, arrivals[0]), arrivals[1..]);
  }

  lemma {:induction false} LossesFirst(st: Stream, over: bool, highest: nat, arrivals: seq<nat>)
    requires arrivals != [] && Followable(|st.acked|, highest, arrivals)
    requires forall i :: 0 <= i < |arrivals| ==> arrivals[i] < |st.acked|
    ensures var n, rest := arrivals[0], arrivals[1..];
            var over' := over || (highest < n && !st.acked[n]);
            && Losses(st.acked, over, highest, arrivals)
               == (if n > highest + 1 && over' then [Min(25, n - highest - 1)] else [])
                  + Losses(st.acked, over', Max(highest, n), rest)
            && Answered(st, arrivals)
               == (if st.acked[n] then [(st.base + n) % 0x1_0000] else []) + Answered(st, rest)
  {
  }

  // ---- The theorems ----

  /** How many messages end at or before position p, counting from message k. */
  ghost function Ended(ms: seq<seq<byte>>, k: nat, p: nat): (e: nat)
    requires k <= |ms| && Start(ms, k) <= p
    ensures k <= e <= |ms| && Start(ms, e) <= p && (e < |ms| ==> p < Start(ms, e + 1))
    decreases |ms| - k
  {
    if k < |ms| && Start(ms, k + 1) <= p then Ended(ms, k + 1, p) else k
  }

  lemma {:induction false} EndedIs(bytes: seq<byte>, ms: seq<seq<byte>>, p: nat, e: nat)
    requires Spells(bytes, ms) && e <= |ms| && Start(ms, e) <= p && (e < |ms| ==> p < Start(ms, e + 1))
    ensures Ended(ms, 0, p) == e
  {
    var x := Ended(ms, 0, p);
    if x < e {
      StartOrdered(bytes, ms, x + 1, e);
    } else if e < x {
      StartOrdered(bytes, ms, e + 1, x);
    }
  }

  /** `entries` is what the file holds after the header. */
  ghost predicate FileHolds(st: Stream, file: seq<byte>, entries: seq<Entry>) {
    && (forall e <- entries :: EntryOk(st.messages, e))
    && file == st.header + Render(st.messages, entries)
  }

  /** Everything that ended before the highest accepted packet did, and arrived whole. */
  ghost function WholeSoFar(st: Stream, accepted: set<nat>, h: nat): seq<nat>
    requires st.Valid() && h < |st.acked|
  {
    Whole(st, accepted, Ended(st.messages, 0, st.End(h)))
  }

  /** The file holds exactly the messages that arrived whole, or all but the one still pending. */
  lemma {:induction false} ReachedMeans(st: Stream, s: State, g: Progress)
    requires Reached(st, s, g)
    ensures FileHolds(st, s.file, g.entries)
    ensures var whole := WholeSoFar(st, g.accepted, g.highest);
            || SentOf(g.entries) == whole
            || (g.mode.k < |st.messages| && SentOf(g.entries) + [g.mode.k] == whole
                && s.pending == st.messages[g.mode.k])
  {
    hide Render, SentOf, Split, Unbroken, EntryOk;
    var k, end := g.mode.k, st.End(g.highest);
    if k < |st.messages| && end == Start(st.messages, k + 1) {
      if k + 1 < |st.messages| {
        StartOrdered(st.bytes, st.messages, k + 1, k + 2);
      }
      EndedIs(st.bytes, st.messages, end, k + 1);
      assert SpellsAt(st.bytes, st.messages, k);
      if g.mode.Synced? {
        PendingArrived(st, s.pending, g.highest, g.accepted, k);
      } else {
        assert !Arrived(st, g.accepted, k);
      }
    } else {
      EndedIs(st.bytes, st.messages, end, k);
    }
  }

  lemma {:induction false} PendingArrived(st: Stream, pending: seq<byte>, h: nat, accepted: set<nat>, k: nat)
    requires st.Valid() && h < |st.acked| && k < |st.messages| && InSync(st, pending, h, accepted, k)
    requires st.End(h) == Start(st.messages, k + 1)
    ensures Arrived(st, accepted, k)
  {
    hide Start;
    forall i: nat | i < |st.acked| && Overlaps(st, i, k)
      ensures i in accepted
    {
      InsidePacket(st, h, i);
    }
  }

  /** n numbers below n are all of them. */
  lemma {:induction false} AllBelow(numbers: set<nat>, n: nat)
    requires (forall i <- numbers :: i < n) && |numbers| == n
    ensures forall i: nat | i < n :: i in numbers
  {
    if n == 0 {
    } else {
      if n - 1 !in numbers {
        Crowded(numbers, n - 1);
      }
      AllBelow(numbers - {n - 1}, n - 1);
    }
  }

  lemma {:induction false} Crowded(numbers: set<nat>, n: nat)
    requires forall i <- numbers :: i < n
    ensures |numbers| <= n
  {
    if n > 0 {
      Crowded(numbers - {n - 1}, n - 1);
    } else {
      assert numbers == {};
    }
  }

  /** With every message stored and no dropout record, the file is the stream itself. */
  lemma {:induction false} RenderAll(st: Stream, accepted: set<nat>, entries: seq<Entry>, k: nat)
    requires st.Valid() && k <= |st.messages| && SentOf(entries) == Whole(st, accepted, k)
    requires forall e <- entries :: e.Sent? && e.k < |st.messages|
    requires forall j: nat | j < k :: Arrived(st, accepted, j)
    ensures Start(st.messages, k) <= |st.bytes|
    ensures Render(st.messages, entries) == st.bytes[..Start(st.messages, k)]
  {
    StartOrdered(st.bytes, st.messages, k, |st.messages|);
    if k == 0 {
      assert |entries| > 0 ==> |SentOf(entries)| > 0;
    } else {
      var front, last := entries[..|entries| - 1], entries[|entries| - 1];
      assert Arrived(st, accepted, k - 1) && last in entries;
      assert SentOf(front) + [last.k] == Whole(st, accepted, k - 1) + [k - 1];
      assert (SentOf(front) + [last.k])[..|SentOf(front)|] == SentOf(front);
      assert (Whole(st, accepted, k - 1) + [k - 1])[..|SentOf(front)|] == Whole(st, accepted, k - 1);
      RenderAll(st, accepted, front, k - 1);
      assert SpellsAt(st.bytes, st.messages, k - 1);
      Glue(st.bytes, 0, Start(st.messages, k - 1), Start(st.messages, k));
    }
  }

  /** Without loss, the file and the pending bytes together are exactly the bytes received. */
  lemma {:induction false} NothingLost(st: Stream, s: State, g: Progress)
    requires Reached(st, s, g) && s.numDropouts == 0
    ensures st.End(g.highest) <= |st.bytes|
    ensures s.file + s.pending == st.header + st.bytes[..st.End(g.highest)]
  {
    hide Whole, SentOf, Render;
    NoDrops(g.entries);
    AllBelow(g.accepted, g.highest + 1);
    var k := g.mode.k;
    forall j: nat | j < k
      ensures Arrived(st, g.accepted, j)
    {
      StartOrdered(st.bytes, st.messages, j + 1, k);
      forall i: nat | i < |st.acked| && Overlaps(st, i, j)
        ensures i in g.accepted
      {
        InsidePacket(st, g.highest, i);
      }
    }
    RenderAll(st, g.accepted, g.entries, k);
    Glue(st.bytes, 0, Start(st.messages, k), st.End(g.highest));
  }

  lemma {:induction false} SplitBehind(message: seq<byte>, a: seq<byte>, b: seq<byte>)
    requires IsMessage(message)
    requires Split(a + b) == (Split(a).0 + Split(Split(a).1 + b).0, Split(Split(a).1 + b).1)
    ensures var whole := message + a;
      Split(whole + b) == (Split(whole).0 + Split(Split(whole).1 + b).0, Split(Split(whole).1 + b).1)
  {
    hide Split, IsMessage;
    SplitHead(message, a);
    SplitHead(message, a + b);
    assert (message + a) + b == message + (a + b);
    var more := Split(Split(a).1 + b).0;
    assert message + (Split(a).0 + more) == (message + Split(a).0) + more;
  }

  /** Splitting goes on where it stopped when more data is appended. */
  lemma {:induction false} SplitGoesOn(a: seq<byte>, b: seq<byte>)
    ensures Split(a + b) == (Split(a).0 + Split(Split(a).1 + b).0, Split(Split(a).1 + b).1)
    decreases |a|
  {
    if |a| > 2 && MessageLength(a[0], a[1]) <= |a| {
      hide Split;
      var n := MessageLength(a[0], a[1]);
      SplitGoesOn(a[n..], b);
      assert IsMessage(a[..n]) && a == a[..n] + a[n..];
      SplitBehind(a[..n], a[n..], b);
    } else {
      assert Split(a) == ([], a) && [] + Split(a + b).0 == Split(a + b).0;
    }
  }

  lemma {:induction false} EntryIsMessage(ms: seq<seq<byte>>, e: Entry)
    requires EntryOk(ms, e) && forall m <- ms :: IsMessage(m)
    ensures IsMessage(Bytes(ms, e))
  {
  }

  /** The receiver's own message splitter reads the whole file back, with nothing left over. */
  lemma {:induction false} FileReadable(ms: seq<seq<byte>>, entries: seq<Entry>)
    requires forall m <- ms :: IsMessage(m)
    requires forall e <- entries :: EntryOk(ms, e)
    ensures Split(Render(ms, entries)) == (Render(ms, entries), [])
  {
    hide EntryOk, IsMessage, Bytes;
    if entries == [] {
    } else {
      hide Split;
      var front, m := Render(ms, entries[..|entries| - 1]), Bytes(ms, entries[|entries| - 1]);
      FileReadable(ms, entries[..|entries| - 1]);
      EntryIsMessage(ms, entries[|entries| - 1]);
      SplitGoesOn(front, m);
      SplitHead(m, []);
      assert m + [] == m && [] + m == m;
    }
  }

  lemma {:induction false} LogReadable(st: Stream, file: seq<byte>, entries: seq<Entry>)
    requires st.Valid() && FileHolds(st, file, entries)
    ensures |file| >= HEADER_LEN && Split(file[HEADER_LEN..]) == (file[HEADER_LEN..], [])
  {
    hide Split;
    forall m <- st.messages
      ensures IsMessage(m)
    {
      var k :| 0 <= k < |st.messages| && st.messages[k] == m;
      assert SpellsAt(st.bytes, st.messages, k);
    }
    FileReadable(st.messages, entries);
    assert file[HEADER_LEN..] == Render(st.messages, entries);
  }

  /** MAIN RESULT. Whatever is lost, repeated or late after the first packet: the file is the header
      followed by whole messages, each a dropout record or a message of the sender; the sender's
      messages in it are exactly those whose every packet was accepted, in order and once each (the
      last of them may still be pending); accepted packets plus counted dropouts are the span of
      sequence numbers; the dropout records are, in order, those of the losses after the header section, each with
      its count; every packet that asks for it is acknowledged each time it arrives; and with no dropout, file and
      pending bytes are all the bytes received. */
  lemma {:induction false} Delivery(st: Stream, arrivals: seq<nat>) returns (s: State, entries: seq<Entry>)
    requires st.Valid() && Followable(|st.acked|, 0, arrivals)
    ensures Highest(0, arrivals) < |st.acked| && st.End(Highest(0, arrivals)) <= |st.bytes|
    ensures Followable(|st.acked|, 0, [0] + arrivals)
    ensures ReceiveAll(Initial, Packets(st, 0, [0] + arrivals)) == Stored(s)
    ensures FileHolds(st, s.file, entries)
    ensures |s.file| >= HEADER_LEN && Split(s.file[HEADER_LEN..]) == (s.file[HEADER_LEN..], [])
    ensures var whole := WholeSoFar(st, {0} + Records(0, arrivals), Highest(0, arrivals));
            || SentOf(entries) == whole
            || exists k: nat :: k < |st.messages| && SentOf(entries) + [k] == whole && s.pending == st.messages[k]
    ensures |{0} + Records(0, arrivals)| + s.numDropouts == Highest(0, arrivals) + 1
    ensures DropsOf(entries) == Losses(st.acked, !st.acked[0], 0, arrivals)
    ensures forall i :: 0 <= i < |[0] + arrivals| ==> ([0] + arrivals)[i] < |st.acked|
    ensures s.acks == Answered(st, [0] + arrivals)
    ensures s.numDropouts == 0 ==> s.file + s.pending == st.header + st.bytes[..st.End(Highest(0, arrivals))]
  {
    hide Receive, ReceiveAll, Packets, Reached, Losses, Answered, Records, Highest, WholeSoFar, Split, FileHolds,
         DropsOf, SentOf;
    var s1, g1 := StepFirst(st);
    assert ([0] + arrivals)[1..] == arrivals;
    Counting(st, s1, g1);
    ReceiveFirst(st, Initial, s1, 0, [0] + arrivals);
    var g;
    s, g := RunFrom(st, s1, g1, arrivals);
    FirstAnswer(st, arrivals);
    ReachedMeans(st, s, g);
    Counting(st, s, g);
    SpanCounted(st, s, g);
    st.Ordered(g.highest + 1, g.highest + 1);
    entries := g.entries;
    assert [] + Losses(st.acked, s1.gotHeaderSection, 0, arrivals)
        == Losses(st.acked, s1.gotHeaderSection, 0, arrivals);
    LogReadable(st, s.file, entries);
    if s.numDropouts == 0 {
      NothingLost(st, s, g);
    }
  }
}

/** The ULog stream receiver: 16-bit sequence checking with drop counting, and reassembly of
    length-prefixed ULog messages from packets that carry a "first message offset". */
module ULogReceiver {

  import opened Basics

  const SEQ_SPAN := 0x1_0000
  const SEQ_HALF := 0x8000
  const NO_START := 255
  const HEADER_LEN := 16

  datatype Packet = Packet(acked: bool, sequence: nat, data: seq<byte>, firstOffset: byte)

  /** Everything the receiver changes while it runs. `lastSequence` is -1 before the first packet;
      `acks` lists the acknowledgements sent back. */
  datatype State = State(
    gotUlogHeader: bool,
    gotHeaderSection: bool,
    pending: seq<byte>,
    file: seq<byte>,
    lastSequence: int,
    numDropouts: nat,
    acks: seq<nat>)

  const Initial := State(false, false, [], [], -1, 0, [])

  /** Whether a sequence number is newer than the last accepted one, and how many were skipped. */
  function CheckSequence(last: int, number: nat): (r: (bool, nat))
    requires -1 <= last < SEQ_SPAN && number < SEQ_SPAN
  {
    if last == -1 then (true, 0)
    else if number == last then (false, 0)
    else if number > last then
      if number - last > SEQ_HALF then (false, 0) else (true, number - last - 1)
    else
      if last - number > SEQ_HALF then (true, SEQ_SPAN - last - 1 + number) else (false, 0)
  }

  /** For true (unwrapped) numbers up to 2^15 apart the 16-bit check is right, and counts exactly the
      numbers in between, except on one half of the distance-2^15 pairs. */
  lemma {:induction false} CheckSequenceExact(highest: nat, number: nat)
    requires -SEQ_HALF <= number - highest <= SEQ_HALF
    ensures var r := CheckSequence(highest % SEQ_SPAN, number % SEQ_SPAN);
            && (r.0 == (number > highest) <==>
                !((number - highest == SEQ_HALF && highest % SEQ_SPAN >= SEQ_HALF)
                  || (highest - number == SEQ_HALF && highest % SEQ_SPAN < SEQ_HALF)))
            && (r.0 && number > highest ==> r.1 == number - highest - 1)
            && (!r.0 ==> r.1 == 0)
  {
  }

  // Python slices never fail: a bound past the end is the end.
  function From(s: seq<byte>, n: nat): seq<byte> { if n <= |s| then s[n..] else [] }
  function UpTo(s: seq<byte>, n: nat): seq<byte> { if n <= |s| then s[..n] else s }

  // A ULog message is a two-byte payload length, a type byte and the payload.
  function MessageLength(low: int, high: int): int { low + high * 256 + 3 }

  /** The length-prefixed messages at the front of `data`, and what is left after them. */
  function Split(data: seq<byte>): (r: (seq<byte>, seq<byte>))
  {
    if |data| <= 2 then ([], data)
    else
      var length := MessageLength(data[0], data[1]);
      if length > |data| then ([], data)
      else
        var (written, rest) := Split(data[length..]);
        (data[..length] + written, rest)
  }

  function DropoutRecord(drops: nat): seq<byte>
    requires drops <= 25
  {
    [2, 0, 79, drops * 10, 0]
  }

  datatype Outcome = TooShort | Stored(state: State)

  /** The new state after storing one accepted packet's data. */
  function Store(s: State, data: seq<byte>, first: nat, drops: nat): Outcome
  {
    if s.gotUlogHeader then Stored(StoreBody(s, data, first, drops))
    else if |data| < HEADER_LEN then TooShort
    else
      var s1 := s.(file := s.file + data[..HEADER_LEN], gotUlogHeader := true);
      Stored(StoreBody(s1, data[HEADER_LEN..], first, drops))
  }

  function StoreBody(s: State, data: seq<byte>, first: nat, drops: nat): State
  {
    if drops == 0 then Resume(s, data, first) else Recover(NoteDrops(s, drops), data, first)
  }

  /** Once the header section is over, a loss leaves a dropout record. */
  function NoteDrops(s: State, drops: nat): State
  {
    if s.gotHeaderSection && drops > 0
    then s.(file := s.file + DropoutRecord(if drops > 25 then 25 else drops)) else s
  }

  /** After a loss the pending message is written if complete, and data is used from its first
      message start on. */
  function Recover(s: State, data: seq<byte>, first: nat): State
  {
    var s1 := s.(file := s.file + Split(s.pending).0, pending := []);
    if first == NO_START then s1 else Resume(s1, From(data, first), 0)
  }

  /** Joins data to the pending message and stores whatever is complete. */
  function Resume(s: State, data: seq<byte>, first: nat): State
  {
    if first == NO_START && |s.pending| > 0 then s.(pending := s.pending + data)
    else
      var file := if |s.pending| > 0 then s.file + (s.pending + UpTo(data, first)) else s.file;
      var (written, rest) := Split(From(data, first));
      s.(file := file + written, pending := rest)
  }

  /** One received packet: sequence check, acknowledgement, bookkeeping, storing. */
  function Receive(s: State, p: Packet): Outcome
    requires -1 <= s.lastSequence < SEQ_SPAN && p.sequence < SEQ_SPAN
  {
    var (newer, drops) := CheckSequence(s.lastSequence, p.sequence);
    if newer then Store(Accept(Acked(s, p), p, drops), p.data, p.firstOffset, drops) else Stored(Acked(s, p))
  }

  function Acked(s: State, p: Packet): State
  {
    if p.acked then s.(acks := s.acks + [p.sequence]) else s
  }

  /** The counters after a packet is found to be newer. */
  function Accept(s: State, p: Packet, drops: nat): State
  {
    s.(numDropouts := s.numDropouts + drops,
       gotHeaderSection := s.gotHeaderSection || !p.acked,
       lastSequence := p.sequence)
  }

  function ReceiveAll(s: State, ps: seq<Packet>): Outcome
    requires -1 <= s.lastSequence < SEQ_SPAN
    requires forall p <- ps :: p.sequence < SEQ_SPAN
    decreases |ps|
  {
    if ps == [] then Stored(s)
    else
      match Receive(s, ps[0])
      case TooShort => TooShort
      case Stored(s') => ReceiveAll(s', ps[1..])
  }

  class LogStreaming {
    var gotUlogHeader: bool
    var gotHeaderSection: bool
    var ulogMessage: seq<byte>
    var file: seq<byte>
    var lastSequence: int
    var numDropouts: nat
    var acks: seq<nat>

    ghost function Value(): State
      reads this
    {
      State(gotUlogHeader, gotHeaderSection, ulogMessage, file, lastSequence, numDropouts, acks)
    }

    constructor ()
      ensures Value() == Initial
    {
      gotUlogHeader, gotHeaderSection, ulogMessage, file := false, false, [], [];
      lastSequence, numDropouts, acks := -1, 0, [];
    }

    /** Writes the whole messages at the front of `data` and returns the rest. */
    method WriteUlogMessages(data: seq<byte>) returns (rest: seq<byte>)
      modifies this`file
      ensures file == old(file) + Split(data).0 && rest == Split(data).1
    {
      rest := data;
      while |rest| > 2
        invariant file + Split(rest).0 == old(file) + Split(data).0
        invariant Split(rest).1 == Split(data).1
        decreases |rest|
      {
        var length := MessageLength(rest[0], rest[1]);
        if length > |rest| {
          break;
        }
        file := file + rest[..length];
        rest := rest[length..];
      }
    }

    /** Stores the data of one accepted packet; false is the "message too short" exception. */
    method ProcessStreamedUlogData(data: seq<byte>, firstMsgStart: nat, numDrops: nat) returns (ok: bool)
      modifies this`file, this`gotUlogHeader, this`ulogMessage
      ensures ok <==> Store(old(Value()), data, firstMsgStart, numDrops).Stored?
      ensures ok ==> Value() == Store(old(Value()), data, firstMsgStart, numDrops).state
      ensures !ok ==> Value() == old(Value())
    {
      var d, first := data, firstMsgStart;
      if !gotUlogHeader {
        if |d| < HEADER_LEN {
          return false;
        }
        file := file + d[..HEADER_LEN];
        d := d[HEADER_LEN..];
        gotUlogHeader := true;
      }
      if gotHeaderSection && numDrops > 0 {
        var drops := if numDrops > 25 then 25 else numDrops;
        file := file + [2, 0, 79, drops * 10, 0];
      }
      if numDrops > 0 {
        var _ := WriteUlogMessages(ulogMessage);
        ulogMessage := [];
        if first == NO_START {
          return true;
        }
        d := From(d, first);
        first := 0;
      }
      ResumeMessage(d, first);
      return true;
    }

    /** The tail of the method above: continues the pending message with `d`. */
    method ResumeMessage(d: seq<byte>, first: nat)
      modifies this`file, this`ulogMessage
      ensures Value() == Resume(old(Value()), d, first)
    {
      if first == NO_START && |ulogMessage| > 0 {
        ulogMessage := ulogMessage + d;
        return;
      }
      if |ulogMessage| > 0 {
        file := file + (ulogMessage + UpTo(d, first));
        ulogMessage := [];
      }
      ulogMessage := WriteUlogMessages(From(d, first));
    }

    /** One `LOGGING_DATA` or `LOGGING_DATA_ACKED` message. */
    method ReadMessage(p: Packet) returns (ok: bool)
      requires -1 <= lastSequence < SEQ_SPAN && p.sequence < SEQ_SPAN
      modifies this
      ensures ok <==> Receive(old(Value()), p).Stored?
      ensures ok ==> Value() == Receive(old(Value()), p).state
      ensures -1 <= lastSequence < SEQ_SPAN
    {
      var (newer, drops) := CheckSequence(lastSequence, p.sequence);
      if p.acked {
        acks := acks + [p.sequence];
      }
      ok := true;
      if newer {
        if drops > 0 {
          numDropouts := numDropouts + drops;
        }
        if !p.acked && !gotHeaderSection {
          gotHeaderSection := true;
        }
        lastSequence := p.sequence;
        assert Value() == Accept(Acked(old(Value()), p), p, drops);
        ok := ProcessStreamedUlogData(p.data, p.firstOffset, drops);
      }
    }

    /** The main loop over the packets that arrive. */
    method ReadMessages(ps: seq<Packet>) returns (ok: bool)
      requires -1 <= lastSequence < SEQ_SPAN
      requires forall p <- ps :: p.sequence < SEQ_SPAN
      modifies this
      ensures ok <==> ReceiveAll(old(Value()), ps).Stored?
      ensures ok ==> Value() == ReceiveAll(old(Value()), ps).state
    {
      ghost var start := Value();
      for i := 0 to |ps|
        invariant -1 <= lastSequence < SEQ_SPAN
        invariant ReceiveAll(Value(), ps[i..]) == ReceiveAll(start, ps)
      {
        ok := ReadMessage(ps[i]);
        if !ok {
          return false;
        }
      }
      ok := true;
    }
  }
}

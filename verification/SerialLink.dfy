/** The serial line between the uploader and one bootloader, with every command sent and every byte
    read recorded in a trace. */
module SerialLink {

  const INSYNC: bv8 := 0x12
  const OK: bv8 := 0x10
  const FAILED: bv8 := 0x11
  const INVALID: bv8 := 0x13
  const BAD_SILICON_REV: bv8 := 0x14

  datatype Command =
    | ChipErase | ChipFullErase
    | ProgMulti(data: seq<bv8>)
    | ChipVerify | ReadMulti(count: nat) | GetCrc
    | VerifySig
    | Reboot

  /** `Short` is a read that timed out, with the bytes it got; `Broke` is a port that went away. */
  datatype Event = Sent(command: Command) | Got(bytes: seq<bv8>) | Short(bytes: seq<bv8>) | Broke

  datatype Error = Protocol | Timeout | Errata | Connection | Mismatch | TooLarge
  datatype Status = Done | Failed(error: Error)
  datatype Reading = Bytes(data: seq<bv8>) | Error(error: Error)

  /** What is at the other end, as arbitrary functions of the history: the bytes that arrive when a
      command has been sent, those that arrive later, and whether the port fails. */
  datatype Device = Device(answer: seq<Event> -> seq<bv8>, late: seq<Event> -> seq<bv8>, broken: seq<Event> -> bool)

  function Commands(t: seq<Event>): seq<Command> {
    if t == [] then []
    else
      var e := t[|t| - 1];
      Commands(t[..|t| - 1]) + (if e.Sent? then [e.command] else [])
  }

  function Received(t: seq<Event>): seq<bv8> {
    if t == [] then []
    else
      var e := t[|t| - 1];
      Received(t[..|t| - 1]) + (if e.Got? || e.Short? then e.bytes else [])
  }

  /** All bytes that came in over the line. */
  function Arrived(d: Device, t: seq<Event>): seq<bv8> {
    if t == [] then []
    else
      var front, e := t[..|t| - 1], t[|t| - 1];
      Arrived(d, front) + (if e.Sent? then d.answer(t) else if e.Broke? then [] else d.late(front))
  }

  lemma {:induction false} Assoc<T>(a: seq<T>, b: seq<T>, c: seq<T>)
    ensures (a + b) + c == a + (b + c)
  {
  }

  lemma {:induction false} Snoc(t: seq<Event>, e: Event)
    ensures Commands(t + [e]) == Commands(t) + (if e.Sent? then [e.command] else [])
    ensures Received(t + [e]) == Received(t) + (if e.Got? || e.Short? then e.bytes else [])
  {
    assert (t + [e])[..|t|] == t;
  }

  lemma {:induction false} Single(e: Event)
    ensures Commands([e]) == (if e.Sent? then [e.command] else [])
    ensures Received([e]) == (if e.Got? || e.Short? then e.bytes else [])
  {
    Snoc([], e);
    assert [] + [e] == [e];
  }

  lemma {:induction false} ArrivedSnoc(d: Device, t: seq<Event>, e: Event)
    ensures Arrived(d, t + [e])
         == Arrived(d, t) + (if e.Sent? then d.answer(t + [e]) else if e.Broke? then [] else d.late(t))
  {
    assert (t + [e])[..|t|] == t;
  }

  lemma {:induction false} Concat(s: seq<Event>, t: seq<Event>)
    ensures Commands(s + t) == Commands(s) + Commands(t)
    ensures Received(s + t) == Received(s) + Received(t)
  {
    if t == [] {
      assert s + t == s;
    } else {
      var front, e := t[..|t| - 1], t[|t| - 1];
      assert s + t == (s + front) + [e] && t == front + [e];
      Concat(s, front);
      Snoc(s + front, e);
    }
  }

  /** Bytes are conserved: what arrived was read or is still waiting, and nothing was read before it
      arrived. A read that times out leaves nothing waiting. The port breaks only when the device says so. */
  ghost predicate Sound(d: Device, t: seq<Event>, inbox: seq<bv8>) {
    && Received(t) + inbox == Arrived(d, t)
    && (forall i :: 0 <= i < |t| && t[i] == Broke ==> d.broken(t[..i]))
    && (forall i :: 0 <= i <= |t| ==> Received(t[..i]) <= Arrived(d, t[..i]))
    && forall i :: 0 <= i < |t| && t[i].Short? ==> Received(t[..i + 1]) == Arrived(d, t[..i + 1])
  }

  /** One more event keeps the line sound when the bytes add up. */
  lemma {:induction false} SoundSnoc(d: Device, t: seq<Event>, inbox: seq<bv8>, e: Event, inbox': seq<bv8>)
    requires Sound(d, t, inbox) && (e.Broke? ==> d.broken(t)) && (e.Short? ==> inbox' == [])
    requires (if e.Got? || e.Short? then e.bytes else []) + inbox'
          == inbox + (if e.Sent? then d.answer(t + [e]) else if e.Broke? then [] else d.late(t))
    ensures Sound(d, t + [e], inbox')
  {
    hide Received, Arrived;
    var t' := t + [e];
    assert t'[..|t'|] == t' && t'[..|t|] == t;
    assert forall i :: 0 <= i <= |t| ==> t'[..i] == t[..i];
    Conserved(d, t, inbox, e, inbox');
  }

  lemma {:induction false} Conserved(d: Device, t: seq<Event>, inbox: seq<bv8>, e: Event, inbox': seq<bv8>)
    requires Received(t) + inbox == Arrived(d, t)
    requires (if e.Got? || e.Short? then e.bytes else []) + inbox'
          == inbox + (if e.Sent? then d.answer(t + [e]) else if e.Broke? then [] else d.late(t))
    ensures Received(t + [e]) + inbox' == Arrived(d, t + [e])
  {
    hide Received, Arrived;
    Snoc(t, e);
    ArrivedSnoc(d, t, e);
    var taken := if e.Got? || e.Short? then e.bytes else [];
    var came := if e.Sent? then d.answer(t + [e]) else if e.Broke? then [] else d.late(t);
    Assoc(Received(t), taken, inbox');
    Assoc(Received(t), inbox, came);
  }

  ghost predicate EndsReading(t: seq<Event>) { t != [] && (t[|t| - 1].Got? || t[|t| - 1].Short?) }

  /** The port broke during t, or at the last read of t the device had not delivered x behind what was read before. */
  ghost predicate Unanswered(d: Device, before: seq<Event>, t: seq<Event>, x: seq<bv8>) {
    Broke in t || (EndsReading(t) && !(Received(before) + x <= Arrived(d, before + t)))
  }

  /** What was neither read nor is waiting was not delivered. */
  lemma {:induction false} NotDelivered(d: Device, before: seq<Event>, t: seq<Event>, inbox: seq<bv8>, x: seq<bv8>)
    requires Sound(d, before + t, inbox) && EndsReading(t) && !(x <= Received(t) + inbox)
    ensures Unanswered(d, before, t, x)
  {
    hide Received, Arrived, Commands;
    Concat(before, t);
    Assoc(Received(before), Received(t), inbox);
    Behind(Received(before), x, Received(t) + inbox);
  }

  lemma {:induction false} Behind<T>(r: seq<T>, x: seq<T>, y: seq<T>)
    ensures r + x <= r + y <==> x <= y
  {
    if r + x <= r + y {
      assert (r + x)[|r|..] == x && (r + y)[|r|..] == y;
      assert (r + y)[..|r + x|] == r + x;
      assert y[..|x|] == x;
    }
  }

  class Link {
    const device: Device
    var trace: seq<Event>
    var inbox: seq<bv8>

    ghost predicate Valid()
      reads this
    {
      Sound(device, trace, inbox)
    }

    constructor (device: Device)
      ensures Valid() && this.device == device && trace == [] && inbox == []
    {
      this.device, trace, inbox := device, [], [];
    }

    method Send(command: Command) returns (s: Status, ghost e: Event)
      requires Valid()
      modifies this
      ensures Valid() && trace == old(trace) + [e]
      ensures e == if s.Done? then Sent(command) else Broke
      ensures s.Done? || s == Failed(Connection)
      ensures inbox == old(inbox) + (if s.Done? then device.answer(trace) else [])
    {
      hide Sound;
      s := if device.broken(trace) then Failed(Connection) else Done;
      var event := if s.Done? then Sent(command) else Broke;
      e := event;
      var answer := if s.Done? then device.answer(trace + [event]) else [];
      SoundSnoc(device, trace, inbox, event, inbox + answer);
      trace, inbox := trace + [event], inbox + answer;
    }

    /** Reads exactly `count` bytes, or times out. */
    method Recv(count: nat) returns (r: Reading, ghost e: Event)
      requires Valid()
      modifies this
      ensures Valid() && trace == old(trace) + [e]
      ensures match r
              case Bytes(data) => e == Got(data) && |data| == count
                                  && data + inbox == old(inbox) + device.late(old(trace))
              case Error(Timeout) => e == Short(old(inbox) + device.late(old(trace))) && inbox == []
                                     && |e.bytes| < count
              case Error(x) => x == Connection && e == Broke && inbox == old(inbox)
    {
      hide Sound;
      if device.broken(trace) {
        r, e := Error(Connection), Broke;
        SoundSnoc(device, trace, inbox, Broke, inbox);
        trace := trace + [Broke];
        return;
      }
      var available := inbox + device.late(trace);
      if |available| < count {
        r, e := Error(Timeout), Short(available);
        SoundSnoc(device, trace, inbox, Short(available), []);
        trace, inbox := trace + [Short(available)], [];
      } else {
        r, e := Bytes(available[..count]), Got(available[..count]);
        assert available[..count] + available[count..] == available;
        SoundSnoc(device, trace, inbox, Got(available[..count]), available[count..]);
        trace, inbox := trace + [Got(available[..count])], available[count..];
      }
    }
  }
}

/** A bootloader as flash plus a queue of answers, and what programming leaves in it. */
module BootloaderDevice {
  import opened SerialLink
  import opened BootloaderProtocol

  type Reply = seq<Command> -> seq<bv8>

  /** A device that answers at once, each time depending on the commands it has been sent. */
  function Prompt(reply: Reply): Device {
    Device(t => reply(Commands(t)), t => [], t => false)
  }

  /** It answers a programming command with INSYNC and OK exactly when it stored the data, and otherwise with
      something else of at most two bytes. */
  ghost predicate Answers(reply: Reply) {
    forall cs: seq<Command>, data: seq<bv8> :: |reply(cs + [ProgMulti(data)])| <= 2
  }

  /** What the flash holds after the commands. */
  ghost function Flash(reply: Reply, cs: seq<Command>): seq<bv8> {
    if cs == [] then []
    else
      var front, c := cs[..|cs| - 1], cs[|cs| - 1];
      if c.ChipErase? || c.ChipFullErase? then []
      else if c.ProgMulti? && reply(cs) == [INSYNC, OK] then Flash(reply, front) + c.data
      else Flash(reply, front)
  }

  /** All answers, one after the other. */
  function Replies(reply: Reply, cs: seq<Command>): seq<bv8> {
    if cs == [] then [] else Replies(reply, cs[..|cs| - 1]) + reply(cs)
  }

  lemma {:induction false} PromptArrived(reply: Reply, t: seq<Event>)
    ensures Arrived(Prompt(reply), t) == Replies(reply, Commands(t))
  {
    if t == [] {
    } else {
      var front, e := t[..|t| - 1], t[|t| - 1];
      PromptArrived(reply, front);
      if e.Sent? {
        assert Commands(t)[..|Commands(t)| - 1] == Commands(front);
      } else {
        assert Commands(t) == Commands(front) && Arrived(Prompt(reply), t) == Arrived(Prompt(reply), front);
      }
    }
  }

  /** The answers come in order, at any delay and possibly not all of them; the port may break at any time. */
  ghost predicate Queues(d: Device, reply: Reply) {
    forall t: seq<Event> :: Arrived(d, t) <= Replies(reply, Commands(t))
  }

  lemma {:induction false} PromptQueues(reply: Reply)
    ensures Queues(Prompt(reply), reply)
  {
    forall t: seq<Event>
      ensures Arrived(Prompt(reply), t) <= Replies(reply, Commands(t))
    {
      PromptArrived(reply, t);
    }
  }

  // How many bytes a slow device has let out: all that are due each time it is ready, none otherwise.
  function LetOut(reply: Reply, ready: seq<Event> -> bool, t: seq<Event>): nat {
    if t == [] then 0
    else
      var front, e := t[..|t| - 1], t[|t| - 1];
      if (e.Got? || e.Short?) && ready(front) then |Replies(reply, Commands(front))| else LetOut(reply, ready, front)
  }

  /** A device that answers when it is ready, such as one that takes seconds to erase, on a port that may break. */
  function Slow(reply: Reply, ready: seq<Event> -> bool, broken: seq<Event> -> bool): Device {
    Device(t => [],
           t => if ready(t) && LetOut(reply, ready, t) <= |Replies(reply, Commands(t))|
                then Replies(reply, Commands(t))[LetOut(reply, ready, t)..] else [],
           broken)
  }

  lemma {:induction false} SlowArrived(reply: Reply, ready: seq<Event> -> bool, broken: seq<Event> -> bool,
                                       t: seq<Event>)
    ensures LetOut(reply, ready, t) <= |Replies(reply, Commands(t))|
    ensures Arrived(Slow(reply, ready, broken), t) == Replies(reply, Commands(t))[..LetOut(reply, ready, t)]
  {
    hide Replies;
    if t == [] {
      assert Replies(reply, Commands(t))[..0] == [];
    } else {
      var front, e := t[..|t| - 1], t[|t| - 1];
      SlowArrived(reply, ready, broken, front);
      RepliesGrow(reply, front, e);
      var k, before := LetOut(reply, ready, front), Replies(reply, Commands(front));
      assert before[..k] + before[k..] == before && before[..|before|] == before;
      assert Replies(reply, Commands(t))[..k] == before[..k];
    }
  }

  lemma {:induction false} RepliesGrow(reply: Reply, front: seq<Event>, e: Event)
    ensures Replies(reply, Commands(front)) <= Replies(reply, Commands(front + [e]))
    ensures !e.Sent? ==> Replies(reply, Commands(front + [e])) == Replies(reply, Commands(front))
  {
    Snoc(front, e);
    if e.Sent? {
      var cs := Commands(front) + [e.command];
      assert cs[..|cs| - 1] == Commands(front);
    } else {
      assert Commands(front) + [] == Commands(front);
    }
  }

  /** Slow devices are among those the results below are about. */
  lemma {:induction false} SlowQueues(reply: Reply, ready: seq<Event> -> bool, broken: seq<Event> -> bool)
    ensures Queues(Slow(reply, ready, broken), reply)
  {
    forall t: seq<Event>
      ensures Arrived(Slow(reply, ready, broken), t) <= Replies(reply, Commands(t))
    {
      SlowArrived(reply, ready, broken, t);
    }
  }

  ghost predicate AllAcked(reply: Reply, image: seq<bv8>, n: nat)
    requires n <= ChunkCount(|image|)
  {
    forall i: nat | 1 <= i <= n :: Acked(reply, image, i)
  }

  /** The device acknowledged the i-th chunk. */
  ghost predicate Acked(reply: Reply, image: seq<bv8>, i: nat)
    requires i <= ChunkCount(|image|)
  {
    reply(Programs(image, i)) == [INSYNC, OK]
  }

  /** Counting bytes is enough: the answers to n chunks read as n acknowledgements only if each of
      them is one. */
  lemma {:induction false} AcksMeanAll(reply: Reply, image: seq<bv8>, n: nat)
    requires Answers(reply) && n <= ChunkCount(|image|)
    ensures |Replies(reply, Programs(image, n))| <= 2 * n
    ensures Replies(reply, Programs(image, n)) == Acks(n) <==> AllAcked(reply, image, n)
  {
    hide ChunkCount, Chunk;
    if n == 0 {
    } else {
      AcksMeanAll(reply, image, n - 1);
      var front, last := Programs(image, n - 1), reply(Programs(image, n));
      assert Programs(image, n)[..|Programs(image, n)| - 1] == front;
      assert |reply(front + [ProgMulti(Chunk(image, n - 1))])| <= 2;
      var all := Replies(reply, front) + last;
      assert |last| == 2 ==> last == [last[0], last[1]];
      if all == Acks(n) {
        assert all[..2 * (n - 1)] == Acks(n - 1) && all[2 * (n - 1)..] == [INSYNC, OK];
        assert |Replies(reply, front)| == 2 * (n - 1) && |last| == 2;
        assert Replies(reply, front) == all[..2 * (n - 1)] && last == all[2 * (n - 1)..];
        assert Acked(reply, image, n);
      }
      if AllAcked(reply, image, n) {
        assert Acked(reply, image, n);
      }
    }
  }

  /** A device that acknowledged every chunk holds exactly the chunks. */
  lemma {:induction false} FlashHolds(reply: Reply, image: seq<bv8>, n: nat)
    requires n <= ChunkCount(|image|) && AllAcked(reply, image, n)
    ensures Flash(reply, Programs(image, n)) == Payload(Programs(image, n))
  {
    hide ChunkCount, Chunk;
    if n == 0 {
    } else {
      FlashHolds(reply, image, n - 1);
      assert Programs(image, n)[..|Programs(image, n)| - 1] == Programs(image, n - 1);
      assert Acked(reply, image, n);
    }
  }

  /** One programming run against a fresh device behind any line that keeps the order of its answers: when it
      succeeds the device acknowledged every chunk, its flash is the image and no answer is left unread; when it
      fails the port broke or not all acknowledgements came in. */
  method ProgramFresh(image: seq<bv8>, d: Device, ghost reply: Reply, windowed: bool)
    returns (ok: bool, trace: seq<Event>, unread: seq<bv8>)
    requires Answers(reply) && Queues(d, reply)
    ensures Sound(d, trace, unread)
    ensures ok ==> AllAcked(reply, image, ChunkCount(|image|)) && unread == []
                   && Commands(trace) == Programs(image, ChunkCount(|image|))
                   && Flash(reply, Commands(trace)) == image
    ensures !ok ==> Broke in trace || Arrived(d, trace) != Acks(|Commands(trace)|)
    ensures exists m :: 0 <= m <= ChunkCount(|image|) && Commands(trace) == Programs(image, m)
    ensures Peak(trace) <= if windowed then WINDOW_CHUNKS else 1
  {
    hide Arrived, Received, Commands, Peak, Programs, Replies, Flash, Sound;
    var link := new Link(d);
    var bootloader := new Bootloader(link, windowed, 5, |image|);
    ghost var n := ChunkCount(|image|);
    var s;
    ghost var t;
    s, t := bootloader.Program(image);
    assert link.trace == t;
    Conserves(d, t, link.inbox);
    if s.Done? {
      AllRead(d, t, link.inbox, image, reply);
      FlashHolds(reply, image, n);
      ProgramsCover(image, n);
    }
    ok, trace, unread := s.Done?, link.trace, link.inbox;
  }

  lemma {:induction false} Conserves(d: Device, t: seq<Event>, inbox: seq<bv8>)
    requires Sound(d, t, inbox)
    ensures Received(t) + inbox == Arrived(d, t)
  {
  }

  // When the acknowledgements of all chunks were read there is nothing else to read.
  lemma {:induction false} AllRead(d: Device, t: seq<Event>, inbox: seq<bv8>, image: seq<bv8>, reply: Reply)
    requires Answers(reply) && Queues(d, reply) && Sound(d, t, inbox) && ProgramPassed(t, image)
    ensures inbox == [] && AllAcked(reply, image, ChunkCount(|image|))
  {
    hide Arrived, Received, Commands, Programs, Replies, Answers, AllAcked;
    var n := ChunkCount(|image|);
    assert Received(t) + inbox <= Replies(reply, Programs(image, n));
    AcksMeanAll(reply, image, n);
    assert |Received(t) + inbox| <= 2 * n;
    assert inbox == [] && Received(t) + [] == Received(t);
  }

  lemma {:induction false} FewerAcked(reply: Reply, image: seq<bv8>, m: nat)
    requires m <= ChunkCount(|image|)
    ensures AllAcked(reply, image, ChunkCount(|image|)) ==> AllAcked(reply, image, m)
  {
  }

  lemma {:induction false} NeverBroken(reply: Reply, t: seq<Event>, inbox: seq<bv8>)
    requires Sound(Prompt(reply), t, inbox)
    ensures Broke !in t
  {
  }

  // A run behind a prompt line fails only if some chunk is not acknowledged.
  lemma {:induction false} PromptDecides(image: seq<bv8>, reply: Reply, ok: bool, t: seq<Event>, unread: seq<bv8>)
    requires Answers(reply) && Sound(Prompt(reply), t, unread)
    requires exists m :: 0 <= m <= ChunkCount(|image|) && Commands(t) == Programs(image, m)
    requires ok ==> AllAcked(reply, image, ChunkCount(|image|))
    requires !ok ==> Broke in t || Arrived(Prompt(reply), t) != Acks(|Commands(t)|)
    ensures ok <==> AllAcked(reply, image, ChunkCount(|image|))
  {
    hide Arrived, Received, Commands, Programs, Replies, Answers, AllAcked;
    var m :| 0 <= m <= ChunkCount(|image|) && Commands(t) == Programs(image, m);
    ProgramsCover(image, m);
    PromptArrived(reply, t);
    AcksMeanAll(reply, image, m);
    FewerAcked(reply, image, m);
    NeverBroken(reply, t, unread);
  }

  /** Against a device that answers at once the run succeeds exactly if it acknowledges every chunk. */
  method ProgramPrompt(image: seq<bv8>, reply: Reply, windowed: bool) returns (ok: bool, trace: seq<Event>)
    requires Answers(reply)
    ensures ok <==> AllAcked(reply, image, ChunkCount(|image|))
    ensures ok ==> Commands(trace) == Programs(image, ChunkCount(|image|)) && Flash(reply, Commands(trace)) == image
    ensures Peak(trace) <= if windowed then WINDOW_CHUNKS else 1
  {
    hide Arrived, Commands, Peak, Programs, Flash, Queues, Answers, AllAcked, Prompt, Sound;
    PromptQueues(reply);
    var unread;
    ok, trace, unread := ProgramFresh(image, Prompt(reply), reply, windowed);
    PromptDecides(image, reply, ok, trace, unread);
  }

  /** Windowed and per-chunk acknowledgement agree. Behind any two lines, each with its own delays and failures,
      the runs that succeed send the same commands and leave the same device holding the whole image; behind
      prompt lines both succeed or both fail. */
  method ProgramBothWays(image: seq<bv8>, d1: Device, d2: Device, reply: Reply)
    returns (windowed: bool, plain: bool, windowedTrace: seq<Event>, plainTrace: seq<Event>)
    requires Answers(reply) && Queues(d1, reply) && Queues(d2, reply)
    ensures windowed || plain ==> AllAcked(reply, image, ChunkCount(|image|))
    ensures windowed ==> Flash(reply, Commands(windowedTrace)) == image
    ensures plain ==> Flash(reply, Commands(plainTrace)) == image
    ensures windowed && plain ==> Commands(windowedTrace) == Commands(plainTrace)
    ensures d1 == d2 == Prompt(reply) ==> windowed == plain
    ensures Peak(windowedTrace) <= WINDOW_CHUNKS && Peak(plainTrace) <= 1
  {
    hide AllAcked, Flash, Commands, Peak, Queues, Arrived, Programs, Answers;
    var unread1, unread2;
    windowed, windowedTrace, unread1 := ProgramFresh(image, d1, reply, true);
    plain, plainTrace, unread2 := ProgramFresh(image, d2, reply, false);
    if d1 == d2 == Prompt(reply) {
      PromptDecides(image, reply, windowed, windowedTrace, unread1);
      PromptDecides(image, reply, plain, plainTrace, unread2);
    }
  }
}

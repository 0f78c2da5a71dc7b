/** The UART receive ring between the interrupt handler and the main loop (firmware/Core/serial_io.c). */
module SerialIo {
  import opened Bytes

  // ---------------------------------------------------------------- interleaved steps

  /** Where serial_get_byte stands between two accesses to the shared variables. */
  datatype Reader =
    | Idle
    | GotTail(t: nat)          // one operand of the emptiness test, tail read first
    | GotHead(h: nat)          // one operand of the emptiness test, head read first
    | NotEmpty                 // the two differed
    | GotIndex(t: nat)         // index of the byte to load
    | GotByte(b: byte)         // *out is assigned
    | GotNext(b: byte, t: nat) // tail read again, not yet stored

  /** The shared variables, the reader, and the bytes accepted and delivered so far. */
  datatype State = State(buf: seq<byte>, head: nat, tail: nat, reader: Reader,
                         accepted: seq<byte>, delivered: seq<byte>)

  function Boot(buf: seq<byte>): State {
    State(buf, 0, 0, Idle, [], [])
  }

  /** The language leaves the order of the two reads in the emptiness test open; it may differ from call to call. */
  datatype Event = Push(b: byte) | Get(headFirst: bool)

  predicate Ok(s: State) {
    |s.buf| == 256 && s.head < 256 && s.tail < 256
    && match s.reader
       case GotTail(t) => t < 256
       case GotHead(h) => h < 256
       case GotIndex(t) => t < 256
       case GotNext(_, t) => t < 256
       case _ => true
  }

  /** The interrupt handler runs to completion. */
  function DoPush(s: State, b: byte): State
    requires Ok(s)
  {
    var next := (s.head + 1) % 256;
    if next != s.tail then s.(buf := s.buf[s.head := b], head := next, accepted := s.accepted + [b]) else s
  }

  /** The main loop makes one access at a time; the flag matters to the first one only. */
  function DoGet(s: State, headFirst: bool): State
    requires Ok(s)
  {
    match s.reader
    case Idle => s.(reader := if headFirst then GotHead(s.head) else GotTail(s.tail))
    case GotTail(t) => s.(reader := if t == s.head then Idle else NotEmpty)
    case GotHead(h) => s.(reader := if h == s.tail then Idle else NotEmpty)
    case NotEmpty => s.(reader := GotIndex(s.tail))
    case GotIndex(t) => s.(reader := GotByte(s.buf[t]))
    case GotByte(b) => s.(reader := GotNext(b, s.tail))
    case GotNext(b, t) => s.(reader := Idle, tail := (t + 1) % 256, delivered := s.delivered + [b])
  }

  function Do(s: State, e: Event): (s': State)
    requires Ok(s)
    ensures Ok(s')
  {
    match e case Push(b) => DoPush(s, b) case Get(headFirst) => DoGet(s, headFirst)
  }

  function DoAll(s: State, events: seq<Event>): (s': State)
    requires Ok(s)
    ensures Ok(s')
  {
    if events == [] then s else Do(DoAll(s, events[..|events| - 1]), events[|events| - 1])
  }

  function Count(head: nat, tail: nat): nat
    requires head < 256 && tail < 256
  {
    if head >= tail then head - tail else head + 256 - tail
  }

  function Pending(buf: seq<byte>, head: nat, tail: nat): (p: seq<byte>)
    requires |buf| == 256 && head < 256 && tail < 256
    ensures |p| == Count(head, tail)
  {
    seq(Count(head, tail), i requires 0 <= i < Count(head, tail) => buf[(tail + i) % 256])
  }

  predicate Inv(s: State) {
    && Ok(s)
    && s.accepted == s.delivered + Pending(s.buf, s.head, s.tail)
    && match s.reader
       case Idle => true
       case GotTail(t) => t == s.tail
       case GotHead(h) => h != s.tail ==> s.head != s.tail
       case NotEmpty => s.head != s.tail
       case GotIndex(t) => t == s.tail && s.head != s.tail
       case GotByte(b) => s.head != s.tail && b == s.buf[s.tail]
       case GotNext(b, t) => t == s.tail && s.head != s.tail && b == s.buf[s.tail]
  }

  lemma Wraps(x: nat)
    requires x < 512
    ensures x % 256 == if x < 256 then x else x - 256
  {
  }

  lemma PushAppends(buf: seq<byte>, head: nat, tail: nat, b: byte)
    requires |buf| == 256 && head < 256 && tail < 256 && (head + 1) % 256 != tail
    ensures Pending(buf[head := b], (head + 1) % 256, tail) == Pending(buf, head, tail) + [b]
  {
    var n := Count(head, tail);
    Wraps(head + 1);
    forall i | 0 <= i <= n
      ensures Pending(buf[head := b], (head + 1) % 256, tail)[i] == (Pending(buf, head, tail) + [b])[i]
    {
      Wraps(tail + i);
    }
  }

  lemma PopDrops(buf: seq<byte>, head: nat, tail: nat)
    requires |buf| == 256 && head < 256 && tail < 256 && head != tail
    ensures Pending(buf, head, tail) == [buf[tail]] + Pending(buf, head, (tail + 1) % 256)
  {
    var tail' := (tail + 1) % 256;
    Wraps(tail + 1);
    forall i | 0 <= i < Count(head, tail')
      ensures Pending(buf, head, tail')[i] == Pending(buf, head, tail)[i + 1]
    {
      Wraps(tail' + i);
      Wraps(tail + i + 1);
    }
  }

  lemma FullWhen(head: nat, tail: nat)
    requires head < 256 && tail < 256
    ensures Count(head, tail) == 255 <==> (head + 1) % 256 == tail
  {
    Wraps(head + 1);
  }

  lemma StepKeepsInv(s: State, e: Event)
    requires Inv(s)
    ensures Inv(Do(s, e))
  {
    hide Pending;
    match e
    case Push(b) =>
      if (s.head + 1) % 256 != s.tail {
        PushAppends(s.buf, s.head, s.tail, b);
      }
    case Get(_) =>
      if s.reader.GotNext? {
        PopDrops(s.buf, s.head, s.tail);
      }
  }

  lemma {:induction false} RunKeepsInv(s: State, events: seq<Event>)
    requires Inv(s)
    ensures Inv(DoAll(s, events))
  {
    hide DoPush, DoGet;
    if events != [] {
      RunKeepsInv(s, events[..|events| - 1]);
      StepKeepsInv(DoAll(s, events[..|events| - 1]), events[|events| - 1]);
    }
  }

  lemma BootInv(buf: seq<byte>)
    requires |buf| == 256
    ensures Inv(Boot(buf))
  {
  }

  lemma AtMost255(head: nat, tail: nat)
    requires head < 256 && tail < 256
    ensures Count(head, tail) <= 255
  {
  }

  /**
   * Whatever the interleaving of interrupts with the reader's accesses: the bytes delivered are a prefix of the
   * bytes accepted, at most 255 wait, and the next byte is dropped exactly when 255 do.
   */
  lemma InterruptSafeFifo(buf: seq<byte>, events: seq<Event>)
    requires |buf| == 256
    ensures var s := DoAll(Boot(buf), events);
            && s.accepted == s.delivered + Pending(s.buf, s.head, s.tail)
            && s.delivered <= s.accepted
            && |s.accepted| - |s.delivered| <= 255
            && forall b :: Do(s, Push(b)).accepted ==
                 s.accepted + (if |s.accepted| - |s.delivered| == 255 then [] else [b])
  {
    hide DoAll, Pending, Count;
    BootInv(buf);
    RunKeepsInv(Boot(buf), events);
    var s := DoAll(Boot(buf), events);
    AtMost255(s.head, s.tail);
    FullWhen(s.head, s.tail);
  }

  /** Number of reader accesses among the events. */
  function Gets(events: seq<Event>): nat {
    if events == [] then 0
    else Gets(events[..|events| - 1]) + (if events[|events| - 1].Get? then 1 else 0)
  }

  /** Reader accesses still to be made for the byte in hand. */
  function Remaining(r: Reader): nat {
    match r
    case NotEmpty => 4
    case GotIndex(_) => 3
    case GotByte(_) => 2
    case GotNext(_, _) => 1
    case _ => 0
  }

  /** A reader that has found the ring non-empty delivers the oldest byte, however many interrupts come between. */
  lemma {:induction false} ReaderIsNotDisturbed(s: State, events: seq<Event>)
    requires Inv(s) && Remaining(s.reader) > 0 && Gets(events) <= Remaining(s.reader)
    ensures var s' := DoAll(s, events);
            && (Gets(events) == Remaining(s.reader) ==>
                  s'.reader == Idle && s'.delivered == s.delivered + [Pending(s.buf, s.head, s.tail)[0]])
            && (Gets(events) < Remaining(s.reader) ==>
                  && Remaining(s'.reader) == Remaining(s.reader) - Gets(events)
                  && s'.delivered == s.delivered && s.accepted <= s'.accepted)
  {
    if events != [] {
      var init := events[..|events| - 1];
      ReaderIsNotDisturbed(s, init);
      var s1 := DoAll(s, init);
      RunKeepsInv(s, init);
      StepKeepsInv(s1, events[|events| - 1]);
      OldestStays(s, s1);
    }
  }

  /** As long as nothing is delivered, the oldest waiting byte stays the same. */
  lemma OldestStays(s: State, s': State)
    requires Inv(s) && Inv(s') && s.head != s.tail
    ensures s'.delivered == s.delivered && s.accepted <= s'.accepted && s'.head != s'.tail ==>
              s'.buf[s'.tail] == Pending(s.buf, s.head, s.tail)[0]
  {
    assert s.accepted[|s.delivered|] == Pending(s.buf, s.head, s.tail)[0];
    if s'.head != s'.tail {
      assert s'.accepted[|s'.delivered|] == Pending(s'.buf, s'.head, s'.tail)[0] == s'.buf[s'.tail];
    }
  }

  function Accesses(n: nat, headFirst: bool): seq<Event> {
    seq(n, _ => Get(headFirst))
  }

  /** All accesses of one call, with no interrupt between them: two if the ring is empty, six if it is not. */
  function WholeGet(s: State, headFirst: bool): (s': State)
    requires Ok(s)
    ensures Ok(s')
  {
    DoAll(s, Accesses(if s.head == s.tail then 2 else 6, headFirst))
  }

  lemma OneMore(s: State, n: nat, headFirst: bool)
    requires Ok(s) && n > 0
    ensures DoAll(s, Accesses(n, headFirst)) == DoGet(DoAll(s, Accesses(n - 1, headFirst)), headFirst)
  {
    assert Accesses(n, headFirst)[..n - 1] == Accesses(n - 1, headFirst);
  }

  lemma WholeGetDelivers(s: State, headFirst: bool)
    requires Ok(s) && s.reader == Idle
    ensures WholeGet(s, headFirst) ==
            if s.head == s.tail then s
            else s.(tail := (s.tail + 1) % 256, delivered := s.delivered + [s.buf[s.tail]])
  {
    hide Accesses, DoAll;
    NoAccess(s, headFirst);
    OneMore(s, 1, headFirst);
    OneMore(s, 2, headFirst);
    var two := DoAll(s, Accesses(2, headFirst));
    assert two == s.(reader := if s.head == s.tail then Idle else NotEmpty);
    if s.head != s.tail {
      OneMore(s, 3, headFirst);
      OneMore(s, 4, headFirst);
      OneMore(s, 5, headFirst);
      OneMore(s, 6, headFirst);
      assert DoAll(s, Accesses(4, headFirst)) == s.(reader := GotByte(s.buf[s.tail]));
    }
  }

  lemma NoAccess(s: State, headFirst: bool)
    requires Ok(s)
    ensures DoAll(s, Accesses(0, headFirst)) == s
  {
  }

  // ---------------------------------------------------------------- the code

  class SerialPort {
    const ring: array<byte>
    var head: u16
    var tail: u16

    ghost predicate Valid()
      reads this
    {
      ring.Length == 256 && head < 256 && tail < 256
    }

    ghost function Waiting(): seq<byte>
      requires Valid()
      reads this, ring
    {
      Pending(ring[..], head, tail)
    }

    constructor ()
      ensures Valid() && fresh(ring)
      ensures Waiting() == []
    {
      ring := new byte[256](_ => 0);
      head, tail := 0, 0;
    }

    method PushByte(b: byte)
      requires Valid()
      modifies this, ring
      ensures Valid()
      ensures Waiting() == old(Waiting()) + (if |old(Waiting())| == 255 then [] else [b])
      ensures var s := State(old(ring[..]), old(head) as int, old(tail) as int, Idle, [], []);
              var s' := DoPush(s, b);
              ring[..] == s'.buf && head as int == s'.head && tail as int == s'.tail
    {
      var next := (head + 1) % 256;
      if next != tail {
        PushAppends(ring[..], head, tail, b);
        ring[head] := b;
        head := next;
      }
    }

    method GetByte() returns (ok: bool, b: byte)
      requires Valid()
      modifies this`tail
      ensures Valid()
      ensures ok <==> old(Waiting()) != []
      ensures ok ==> old(Waiting()) == [b] + Waiting()
      ensures !ok ==> Waiting() == []
      ensures var s := State(ring[..], head as int, old(tail) as int, Idle, [], []);
              forall headFirst ::
                WholeGet(s, headFirst) == State(ring[..], head as int, tail as int, Idle, [], if ok then [b] else [])
    {
      hide WholeGet;
      WholeGetDelivers(State(ring[..], head as int, tail as int, Idle, [], []), true);
      WholeGetDelivers(State(ring[..], head as int, tail as int, Idle, [], []), false);
      b := 0;
      if tail == head {
        return false, b;
      }
      b := ring[tail];
      PopDrops(ring[..], head, tail);
      tail := (tail + 1) % 256;
      return true, b;
    }
  }
}

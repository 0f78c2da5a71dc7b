/** The framed serial link (firmware/Serial/serial_framing.c). */
module SerialFraming {
  import opened Bytes

  const START1: byte := 0x94
  const START2: byte := 0xC3
  const MAX_PAYLOAD := 512

  /** The receiver's state: bytes of the body gathered so far, once the length is known. */
  datatype RxState = Sync | LenMsb | LenLsb(msb: byte) | Body(len: nat, got: seq<byte>)

  datatype RxResult = RxResult(state: RxState, bodies: seq<seq<byte>>)

  function Step(s: RxState, b: byte): RxResult {
    match s
    case Sync => RxResult(if b == START1 then LenMsb else Sync, [])
    case LenMsb => RxResult(LenLsb(b), [])
    case LenLsb(msb) =>
      var len := msb as int * 0x100 + b as int;
      RxResult(if len > MAX_PAYLOAD then Sync else Body(len, []), [])
    case Body(len, got) =>
      if |got| + 1 >= len then RxResult(Sync, [(got + [b])[..if len <= |got| then len else |got| + 1]])
      else RxResult(Body(len, got + [b]), [])
  }

  function Receive(s: RxState, stream: seq<byte>): RxResult
    decreases |stream|
  {
    if stream == [] then RxResult(s, [])
    else
      var first := Step(s, stream[0]);
      var rest := Receive(first.state, stream[1..]);
      RxResult(rest.state, first.bodies + rest.bodies)
  }

  // ---------------------------------------------------------------- the receiver's own grammar

  /** Body bytes taken from the stream for a given length field: a zero length still takes one. */
  function Consumed(len: nat): nat {
    if len == 0 then 1 else len
  }

  /** 0x94, MSB, LSB, body; anything else is skipped, and so is a header with a length over 512. */
  function Frames(s: seq<byte>): seq<seq<byte>> {
    if s == [] then []
    else if s[0] != START1 then Frames(s[1..])
    else if |s| < 3 then []
    else
      var len := s[1] as int * 0x100 + s[2] as int;
      if len > MAX_PAYLOAD then Frames(s[3..])
      else if |s| < 3 + Consumed(len) then []
      else [s[3..3 + len]] + Frames(s[3 + Consumed(len)..])
  }

  lemma {:induction false} ReceiveSplits(st: RxState, a: seq<byte>, b: seq<byte>)
    ensures var first := Receive(st, a);
            var rest := Receive(first.state, b);
            Receive(st, a + b) == RxResult(rest.state, first.bodies + rest.bodies)
    decreases |a|
  {
    hide Step;
    if a == [] {
      assert a + b == b;
    } else {
      ReceiveSplits(Step(st, a[0]).state, a[1..], b);
      assert (a + b)[0] == a[0] && (a + b)[1..] == a[1..] + b;
    }
  }

  lemma {:induction false} ReceiveWithinBody(len: nat, got: seq<byte>, s: seq<byte>)
    requires |got| + |s| < Consumed(len)
    ensures Receive(Body(len, got), s) == RxResult(Body(len, got + s), [])
    decreases |s|
  {
    if s == [] {
      assert got + s == got;
    } else {
      ReceiveQuietly(Body(len, got), s, Body(len, got + [s[0]]));
      ReceiveWithinBody(len, got + [s[0]], s[1..]);
      assert got + [s[0]] + s[1..] == got + s;
    }
  }

  lemma ReceiveBody(len: nat, body: seq<byte>, rest: seq<byte>)
    requires |body| == Consumed(len)
    ensures Receive(Body(len, []), body + rest) ==
            RxResult(Receive(Sync, rest).state, [body[..len]] + Receive(Sync, rest).bodies)
  {
    hide Receive;
    var most, last := body[..|body| - 1], body[|body| - 1];
    ReceiveWithinBody(len, [], most);
    assert [] + most == most && body == most + [last];
    ReceiveSplits(Body(len, []), most, [last]);
    ReceiveLast(len, body);
    ReceiveSplits(Body(len, []), body, rest);
  }

  lemma ReceiveLast(len: nat, body: seq<byte>)
    requires |body| == Consumed(len)
    ensures Receive(Body(len, body[..|body| - 1]), [body[|body| - 1]]) == RxResult(Sync, [body[..len]])
  {
    var most, last := body[..|body| - 1], body[|body| - 1];
    assert most + [last] == body;
    assert Step(Body(len, most), last) == RxResult(Sync, [body[..len]]);
  }

  /** A byte that completes no body. */
  lemma ReceiveQuietly(st: RxState, s: seq<byte>, next: RxState)
    requires s != [] && Step(st, s[0]) == RxResult(next, [])
    ensures Receive(st, s) == Receive(next, s[1..])
  {
    hide Step;
  }

  /** A header of three bytes from SYNC. */
  lemma ReceiveHeader(s: seq<byte>)
    requires |s| >= 3 && s[0] == START1
    ensures var len := s[1] as int * 0x100 + s[2] as int;
            Receive(Sync, s) == Receive(if len > MAX_PAYLOAD then Sync else Body(len, []), s[3..])
  {
    hide Receive;
    var len := s[1] as int * 0x100 + s[2] as int;
    ReceiveQuietly(Sync, s, LenMsb);
    ReceiveQuietly(LenMsb, s[1..], LenLsb(s[1]));
    assert s[1..][1..] == s[2..] && s[2..][1..] == s[3..];
    ReceiveQuietly(LenLsb(s[1]), s[2..], if len > MAX_PAYLOAD then Sync else Body(len, []));
  }

  lemma ReceiveShort(s: seq<byte>)
    requires s == [] || (s[0] == START1 && |s| < 3)
    ensures Receive(Sync, s).bodies == []
  {
    if |s| == 2 {
      assert Receive(LenMsb, s[1..]).bodies == [] + Receive(LenLsb(s[1]), s[1..][1..]).bodies;
    }
  }

  lemma ReceiveOther(s: seq<byte>)
    requires s != [] && s[0] != START1
    ensures Receive(Sync, s) == Receive(Sync, s[1..])
  {
  }

  /** On every stream the callbacks are exactly the bodies the recursive parser finds. */
  lemma {:induction false} ReceiverParsesFrames(s: seq<byte>)
    ensures Receive(Sync, s).bodies == Frames(s)
    decreases |s|
  {
    hide Receive;
    if s == [] || (s[0] == START1 && |s| < 3) {
      ReceiveShort(s);
    } else if s[0] != START1 {
      ReceiveOther(s);
      ReceiverParsesFrames(s[1..]);
    } else {
      ReceiveHeader(s);
      var len := s[1] as int * 0x100 + s[2] as int;
      if len > MAX_PAYLOAD {
        ReceiverParsesFrames(s[3..]);
      } else {
        var end := 3 + Consumed(len);
        if |s| < end {
          ReceiveWithinBody(len, [], s[3..]);
        } else {
          assert s[3..] == s[3..end] + s[end..] && s[3..end][..len] == s[3..3 + len];
          ReceiveBody(len, s[3..end], s[end..]);
          ReceiverParsesFrames(s[end..]);
        }
      }
    }
  }

  // ---------------------------------------------------------------- what round-trips and what does not

  function Frame(body: seq<byte>): seq<byte>
    requires |body| <= MAX_PAYLOAD
  {
    [START1, |body| / 0x100, |body| % 0x100] + body
  }

  function FrameAll(bodies: seq<seq<byte>>): seq<byte>
    requires forall b :: b in bodies ==> |b| <= MAX_PAYLOAD
  {
    if bodies == [] then [] else Frame(bodies[0]) + FrameAll(bodies[1..])
  }

  /** Frames of the receiver's grammar deliver exactly their bodies, whatever bytes these hold, and end in SYNC. */
  lemma {:induction false} FramesRoundTrip(bodies: seq<seq<byte>>)
    requires forall b :: b in bodies ==> 1 <= |b| <= MAX_PAYLOAD
    ensures Receive(Sync, FrameAll(bodies)) == RxResult(Sync, bodies)
  {
    hide Receive, Step;
    if bodies == [] {
      ReceiveNothing(Sync);
    } else {
      var body, rest := bodies[0], FrameAll(bodies[1..]);
      var s := FrameAll(bodies);
      ReceiveHeader(s);
      assert s[3..] == body + rest;
      ReceiveBody(|body|, body, rest);
      assert body[..|body|] == body;
      FramesRoundTrip(bodies[1..]);
    }
  }

  lemma ReceiveNothing(st: RxState)
    ensures Receive(st, []) == RxResult(st, [])
  {
  }

  /** Bytes the receiver takes for a list of bodies. */
  function Cost(bodies: seq<seq<byte>>): nat {
    if bodies == [] then 0 else 3 + Consumed(|bodies[0]|) + Cost(bodies[1..])
  }

  lemma {:induction false} FramesFit(s: seq<byte>)
    ensures Cost(Frames(s)) <= |s|
    decreases |s|
  {
    if s != [] {
      if s[0] != START1 {
        FramesFit(s[1..]);
      } else if |s| >= 3 {
        var len := s[1] as int * 0x100 + s[2] as int;
        if len > MAX_PAYLOAD {
          FramesFit(s[3..]);
        } else if |s| >= 3 + Consumed(len) {
          FramesFit(s[3 + Consumed(len)..]);
          assert Frames(s)[1..] == Frames(s[3 + Consumed(len)..]);
        }
      }
    }
  }

  /** An empty body costs a byte its frame does not have. */
  lemma {:induction false} EmptyBodyCostsMore(bodies: seq<seq<byte>>)
    requires forall b :: b in bodies ==> |b| <= MAX_PAYLOAD
    ensures |FrameAll(bodies)| <= Cost(bodies)
    ensures [] in bodies ==> |FrameAll(bodies)| < Cost(bodies)
  {
    if bodies != [] {
      EmptyBodyCostsMore(bodies[1..]);
    }
  }

  /** A list of frames is delivered as it was made exactly if none of its bodies is empty. */
  lemma RoundTripIffNonEmpty(bodies: seq<seq<byte>>)
    requires forall b :: b in bodies ==> |b| <= MAX_PAYLOAD
    ensures Receive(Sync, FrameAll(bodies)).bodies == bodies <==> [] !in bodies
  {
    hide Receive, Frames, FrameAll, Cost;
    if [] in bodies {
      ReceiverParsesFrames(FrameAll(bodies));
      FramesFit(FrameAll(bodies));
      EmptyBodyCostsMore(bodies);
    } else {
      FramesRoundTrip(bodies);
    }
  }

  /** The bytes the sender puts on the wire: nothing at all for an oversized body. */
  function SendPacket(body: seq<byte>): seq<byte> {
    if |body| > MAX_PAYLOAD then []
    else [START1, START2, |body| / 0x100, |body| % 0x100] + body
  }

  lemma FrameHere(s: seq<byte>)
    requires Frames(s) != [] && s[0] == START1
    requires |s| >= 3 ==> s[1] as int * 0x100 + s[2] as int <= MAX_PAYLOAD
    ensures var body := Frames(s)[0];
            var end := 3 + Consumed(|body|);
            |body| <= MAX_PAYLOAD && end <= |s| && Frames(s)[1..] == Frames(s[end..])
  {
    var len := s[1] as int * 0x100 + s[2] as int;
    var rest := Frames(s[3 + Consumed(len)..]);
    assert Frames(s) == [s[3..3 + len]] + rest;
    assert ([s[3..3 + len]] + rest)[1..] == rest;
  }

  /** Bytes skipped where no frame starts. */
  lemma NoFrameHere(s: seq<byte>) returns (skip: nat)
    requires Frames(s) != []
    requires s[0] != START1 || (|s| >= 3 && s[1] as int * 0x100 + s[2] as int > MAX_PAYLOAD)
    ensures 0 < skip <= |s| && Frames(s) == Frames(s[skip..])
  {
    skip := if s[0] == START1 then 3 else 1;
  }

  lemma PacketBytes(body: seq<byte>)
    ensures SendPacket(body) ==
            if |body| > 512 then [] else [0x94, 0xC3, |body| / 0x100, |body| % 0x100] + body
  {
  }

  /** What a header makes of a receiver in SYNC, over all bytes. */
  lemma HeaderDecides(start: byte, msb: byte, lsb: byte)
    ensures Receive(Sync, [start]) == RxResult(if start == 0x94 then LenMsb else Sync, [])
    ensures var len := msb as int * 0x100 + lsb as int;
            Receive(Sync, [0x94, msb, lsb]) == RxResult(if len > 512 then Sync else Body(len, []), [])
    ensures Receive(Sync, [0x94, 0, 0, start]) == RxResult(Sync, [[]])
  {
    ReceiveHeader([0x94, msb, lsb]);
    ReceiveHeader([0x94, 0, 0, start]);
    assert [0x94, msb, lsb][3..] == [] && [0x94, 0, 0, start][3..] == [start];
    assert Receive(Body(0, []), [start]) == RxResult(Sync, [[]]);
  }

  /** Where the first body comes from, and what is left after it. */
  lemma {:induction false} FirstFrame(s: seq<byte>) returns (p: nat)
    requires Frames(s) != []
    ensures var body := Frames(s)[0];
            var end := p + 3 + Consumed(|body|);
            && |body| <= MAX_PAYLOAD && end <= |s| && s[p] == START1
            && Frames(s)[1..] == Frames(s[end..])
    decreases |s|
  {
    var len := if |s| < 3 then 0 else s[1] as int * 0x100 + s[2] as int;
    if s[0] == START1 && len <= MAX_PAYLOAD {
      p := 0;
      FrameHere(s);
    } else {
      hide Frames;
      var skip := NoFrameHere(s);
      p := FirstFrame(s[skip..]);
      var end := p + 3 + Consumed(|Frames(s)[0]|);
      assert s[skip..][end..] == s[skip + end..];
      p := p + skip;
    }
  }

  /** The packets of a list of bodies, one after another. */
  function SendAll(bodies: seq<seq<byte>>): seq<byte> {
    if bodies == [] then [] else SendPacket(bodies[0]) + SendAll(bodies[1..])
  }

  lemma BodiesFit(s: seq<byte>)
    ensures Frames(s) != [] ==> |Frames(s)[0]| <= MAX_PAYLOAD
  {
    if Frames(s) != [] {
      var p := FirstFrame(s);
    }
  }

  /** A frame takes at most one byte less than a packet with the same body, and a packet's second byte starts none. */
  lemma StaysAhead(packet: seq<byte>, more: seq<byte>, ahead: nat) returns (still: nat)
    requires 0 < ahead <= |packet + more| && |packet| >= 4 && packet[1] == START2
    requires var frames := Frames((packet + more)[ahead..]); frames != [] && |packet| == 4 + |frames[0]|
    ensures 0 < still <= |more| && Frames((packet + more)[ahead..])[1..] == Frames(more[still..])
  {
    hide Frames;
    var s := packet + more;
    var p := FirstFrame(s[ahead..]);
    assert s[ahead..][p] == s[ahead + p] && s[1] == START2;
    var end := p + 3 + Consumed(|packet| - 4);
    still := ahead + end - |packet|;
    assert s[ahead..][end..] == s[ahead + end..] == more[still..];
  }

  /** A receiver that is ahead of the packets of the bodies still to come cannot deliver exactly these. */
  lemma {:induction false} NeverInStep(bodies: seq<seq<byte>>, ahead: nat)
    requires 0 < ahead <= |SendAll(bodies)|
    ensures Frames(SendAll(bodies)[ahead..]) != bodies
    decreases |bodies|
  {
    hide Frames;
    var packet, more := SendPacket(bodies[0]), SendAll(bodies[1..]);
    if Frames((packet + more)[ahead..]) == bodies {
      BodiesFit((packet + more)[ahead..]);
      var still := StaysAhead(packet, more, ahead);
      NeverInStep(bodies[1..], still);
    }
  }

  /**
   * The documented round trip holds for no stream of packets but the empty one: from SYNC, the sender's second start
   * byte is read as a length, which throws the header away and puts the receiver ahead of the packets for good.
   */
  lemma SenderIsNeverUnderstood(bodies: seq<seq<byte>>)
    ensures Receive(Sync, SendAll(bodies)).bodies == bodies <==> bodies == []
    ensures forall body: seq<byte> :: |body| <= MAX_PAYLOAD ==>
              Receive(Sync, SendPacket(body)[..3]) == RxResult(Sync, [])
  {
    forall body: seq<byte> | |body| <= MAX_PAYLOAD
      ensures Receive(Sync, SendPacket(body)[..3]) == RxResult(Sync, [])
    {
      HeaderIsLost(body, []);
    }
    var s := SendAll(bodies);
    ReceiverParsesFrames(s);
    if bodies != [] && Frames(s) == bodies {
      BodiesFit(s);
      HeaderIsLost(bodies[0], SendAll(bodies[1..]));
      ReceiverParsesFrames(s[3..]);
      NeverInStep(bodies, 3);
    }
  }

  /** Three bytes into a packet the receiver is back in SYNC, having delivered nothing. */
  lemma HeaderIsLost(body: seq<byte>, more: seq<byte>)
    requires |body| <= MAX_PAYLOAD
    ensures Receive(Sync, SendPacket(body)[..3]) == RxResult(Sync, [])
    ensures Receive(Sync, SendPacket(body) + more) == Receive(Sync, (SendPacket(body) + more)[3..])
  {
    var s := SendPacket(body);
    ReceiveHeader(s[..3]);
    assert s[..3][3..] == [];
    ReceiveHeader(s + more);
  }

  lemma {:induction false} FramesAreShort(s: seq<byte>, body: seq<byte>)
    requires body in Frames(s)
    ensures |body| + 3 <= |s|
    decreases |s|
  {
    hide Frames;
    var p := FirstFrame(s);
    if body != Frames(s)[0] {
      FramesAreShort(s[p + 3 + Consumed(|Frames(s)[0]|)..], body);
    }
  }

  /** A packet heard on its own from SYNC never delivers its body, alone or among others. */
  lemma LonePacketIsLost(body: seq<byte>)
    ensures body !in Receive(Sync, SendPacket(body)).bodies
  {
    if |body| <= MAX_PAYLOAD {
      HeaderIsLost(body, []);
      assert SendPacket(body) + [] == SendPacket(body);
      ReceiverParsesFrames(SendPacket(body)[3..]);
      if body in Frames(SendPacket(body)[3..]) {
        FramesAreShort(SendPacket(body)[3..], body);
      }
    }
  }

  /** A body whose bytes repeat C3 00 94, as many as its length byte says. */
  function Periodic(): (s: seq<byte>)
    ensures |s| == 0x94
  {
    seq(0x94, i => if i % 3 == 0 then START2 else if i % 3 == 1 then 0 else START1)
  }

  /** Single bodies can get through, out of step: after the packet of [94 00], that of the periodic body does. */
  lemma BodyOutOfStep()
    ensures Receive(Sync, SendAll([[START1, 0], Periodic()])).bodies == [Periodic()]
  {
    hide Receive, SendPacket, Periodic, Step;
    var a, b: seq<byte> := [START1, 0], Periodic();
    SendTwo(a, b);
    HeaderIsLost(a, SendPacket(b));
    SentOutOfStep(b);
    TakenOutOfStep([START1, 0, START1, START2, 0, START1] + b);
    PeriodGoesOn();
    var rest: seq<byte> := b[0x91..];
    assert ([START1, 0, START1, START2, 0, START1] + b)[3..] == [START2, 0, START1] + b == b + rest;
    ReceiveBody(0x94, b, rest);
    assert b[..0x94] == b;
    OneByteShort(rest);
  }

  lemma SentOutOfStep(b: seq<byte>)
    requires |b| == 0x94
    ensures (SendPacket([START1, 0]) + SendPacket(b))[3..] == [2] + ([START1, 0, START1, START2, 0, START1] + b)
  {
    assert SendPacket([START1, 0]) == [START1, START2, 0, 2, START1, 0];
    assert SendPacket(b) == [START1, START2, 0, START1] + b;
    hide SendPacket;
  }

  lemma TakenOutOfStep(s: seq<byte>)
    requires |s| >= 3 && s[..3] == [START1, 0, START1]
    ensures Receive(Sync, [2] + s) == Receive(Body(0x94, []), s[3..])
  {
    hide Receive;
    assert ([2] + s)[1..] == s && s[0] == s[..3][0] && s[1] == s[..3][1] && s[2] == s[..3][2];
    ReceiveOther([2] + s);
    ReceiveHeader(s);
  }

  lemma PeriodGoesOn()
    ensures [START2, 0, START1] + Periodic() == Periodic() + Periodic()[0x91..]
  {
    var b := Periodic();
    forall i | 0 <= i < 0x97
      ensures ([START2, 0, START1] + b)[i] == (b + b[0x91..])[i]
    {
    }
  }

  lemma SendTwo(a: seq<byte>, b: seq<byte>)
    ensures SendAll([a, b]) == SendPacket(a) + SendPacket(b)
  {
    hide SendPacket;
    assert SendAll([a, b][1..]) == SendPacket(b) + SendAll([a, b][1..][1..]) == SendPacket(b);
  }

  lemma OneByteShort(rest: seq<byte>)
    requires |rest| <= 3
    ensures Receive(Sync, rest).bodies == []
  {
    ReceiverParsesFrames(rest);
    if Frames(rest) != [] {
      var p := FirstFrame(rest);
    }
  }

  // ---------------------------------------------------------------- the code

  datatype Phase = SYNC | LEN_MSB | LEN_LSB | BODY

  lemma MsbIs(x: nat, msb: nat)
    ensures x == 0x100 * msb <==> x % 0x100 == 0 && x / 0x100 == msb
  {
  }

  class Receiver {
    var phase: Phase
    var rxLen: u16
    var rxIdx: u16
    const rxBuf: array<byte>
    /** The bodies handed to the callback so far. */
    var delivered: seq<seq<byte>>

    ghost predicate Valid()
      reads this
    {
      && rxBuf.Length == MAX_PAYLOAD
      && (phase == LEN_LSB ==> rxLen % 0x100 == 0)
      && (phase == BODY ==> rxLen <= MAX_PAYLOAD && rxIdx < Consumed(rxLen))
    }

    ghost function State(): RxState
      requires Valid()
      reads this, rxBuf
    {
      match phase
      case SYNC => Sync
      case LEN_MSB => LenMsb
      case LEN_LSB => LenLsb(rxLen / 0x100)
      case BODY => Body(rxLen, rxBuf[..rxIdx])
    }

    constructor ()
      ensures Valid() && fresh(rxBuf)
      ensures State() == Sync && delivered == []
    {
      phase, rxLen, rxIdx, delivered := SYNC, 0, 0, [];
      rxBuf := new byte[MAX_PAYLOAD](_ => 0);
    }

    /** Returns 1 when the byte completes a packet; `callback` tells whether one is installed. */
    method RxByte(b: byte, callback: bool) returns (r: int)
      requires Valid()
      modifies this, rxBuf
      ensures Valid()
      ensures State() == Step(old(State()), b).state
      ensures r == |Step(old(State()), b).bodies|
      ensures delivered == old(delivered) + (if callback then Step(old(State()), b).bodies else [])
    {
      r := 0;
      match phase {
        case SYNC =>
          if b == START1 {
            phase := LEN_MSB;
          }
        case LEN_MSB =>
          MsbIs(b as int * 0x100, b);
          rxLen := b as int * 0x100;
          phase := LEN_LSB;
        case LEN_LSB =>
          MsbIs(rxLen, rxLen / 0x100);
          rxLen := rxLen + b;
          if rxLen > MAX_PAYLOAD {
            phase := SYNC;
          } else {
            rxIdx := 0;
            phase := BODY;
          }
        case BODY =>
          rxBuf[rxIdx] := b;
          rxIdx := rxIdx + 1;
          assert rxBuf[..rxIdx] == old(rxBuf[..rxIdx]) + [b];
          if rxIdx >= rxLen {
            phase := SYNC;
            if callback {
              delivered := delivered + [rxBuf[..rxLen]];
            }
            r := 1;
            assert rxBuf[..rxLen] == rxBuf[..rxIdx][..rxLen];
          }
      }
    }
  }
}

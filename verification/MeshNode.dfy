/** One node: the main loop, as a function on its state and as code (firmware/Core/main_loop.c). */
module MeshNode {
  import opened Bytes
  import opened MeshPacket
  import opened FloodRouter
  import opened AesMeshtastic
  import opened PbData
  import opened LineInput
  import S = SerialIo

  const TEXT_PORT: byte := 1
  const MAX_TEXT := 127
  const PONG: seq<byte> := [0x70, 0x6F, 0x6E, 0x67]

  /** The AES peripheral and the channel key. */
  datatype Config = Config(hal: Peripheral, key: Block)

  /** The radio's length field is one byte. */
  type Packet = s: seq<byte> | |s| <= 255 witness []

  /** A packet handed to the radio: sent by this node, or relayed. */
  datatype Tx = Tx(packet: Packet, relayed: bool)

  /** What is printed on the serial console. */
  datatype Shown = NodeIdSet | HelpText | InfoText(id: u32) | SentOk | TxFailed | Received(text: seq<byte>)

  /**
   * The state of a node and what it has done so far: keys passed to flood_seen, packets handed to the radio,
   * lines printed. A halted node is one whose decoder never came back.
   */
  datatype Trace = Trace(id: u32, nextId: u32, ring: Ring, halted: bool,
                         seen: seq<Key>, out: seq<Tx>, shown: seq<Shown>)

  // ---------------------------------------------------------------- sending

  function Crypt(cfg: Config, data: seq<byte>, packetId: u32, from: u32, blocks: nat): (r: seq<byte>)
    ensures |r| == |data|
  {
    Ctr(cfg.hal, cfg.key, data, packetId, from, blocks)
  }

  function MakePacket(cfg: Config, id: u32, packetId: u32, to: u32, text: seq<byte>, blocks: nat): (p: Packet)
    requires |text| <= MAX_TEXT
    ensures |p| == HEADER_SIZE + 4 + |text|
  {
    Build(Header(to, id, packetId, 3, 0, 0, 0)) + Crypt(cfg, Encoded(TEXT_PORT, text), packetId, id, blocks)
  }

  /** Sends nothing, and uses up no packet id, if the text is too long to encode. */
  function Send(cfg: Config, t: Trace, to: u32, text: seq<byte>, blocks: nat): Trace {
    if |text| > MAX_TEXT then t
    else
      var key := Key(t.id, t.nextId);
      t.(nextId := (t.nextId as int + 1) % 0x1_0000_0000,
         ring := Insert(t.ring, key),
         seen := t.seen + [key],
         out := t.out + [Tx(MakePacket(cfg, t.id, t.nextId, to, text, blocks), false)])
  }

  // ---------------------------------------------------------------- lines typed at the console

  /** A line that is no command and fits into a packet. */
  predicate Sendable(line: Line) {
    line != [] && RequestOf(line) == SendText && |line| <= MAX_TEXT
  }

  /** Block operations that succeed before one fails, and whether the radio reports success. */
  datatype SendEnv = SendEnv(blocks: nat, txOk: bool)

  function HandleLine(cfg: Config, t: Trace, line: Line, env: SendEnv): Trace {
    if line == [] then t
    else
      match RequestOf(line)
      case SetNode(id) => t.(id := id, shown := t.shown + [NodeIdSet])
      case Ignore => t
      case ShowHelp => t.(shown := t.shown + [HelpText])
      case ShowInfo => t.(shown := t.shown + [InfoText(t.id)])
      case SendText =>
        var sent := Send(cfg, t, BROADCAST, line, env.blocks);
        sent.(shown := sent.shown + [if |line| <= MAX_TEXT && env.txOk then SentOk else TxFailed])
  }

  /** The i-th line is sent, if it is, in environment env(i). */
  function HandleLines(cfg: Config, t: Trace, lines: seq<Line>, env: nat -> SendEnv): Trace {
    if lines == [] then t
    else
      var n := |lines| - 1;
      HandleLine(cfg, HandleLines(cfg, t, lines[..n], env), lines[n], env(n))
  }

  /** A node together with its line buffer and the bytes waiting in its receive ring. */
  datatype View = View(trace: Trace, partial: Line, waiting: seq<byte>)

  /** The oldest waiting byte is taken; a line it completes meets environment env. */
  function TakeOne(cfg: Config, v: View, env: SendEnv): View
    requires v.waiting != []
  {
    var step := Feed(v.partial, v.waiting[0]);
    var trace := if step.lines == [] then v.trace else HandleLine(cfg, v.trace, step.lines[0], env);
    View(trace, step.partial, v.waiting[1..])
  }

  /** The i-th line of a poll meets environment env(i). */
  function TakeBytes(cfg: Config, v: View, k: nat, env: nat -> SendEnv): View
    requires k <= |v.waiting|
  {
    var fed := FeedAll(v.partial, v.waiting[..k]);
    View(HandleLines(cfg, v.trace, fed.lines, env), fed.partial, v.waiting[k..])
  }

  function LinesIn(v: View, k: nat): nat
    requires k <= |v.waiting|
  {
    |FeedAll(v.partial, v.waiting[..k]).lines|
  }

  lemma TakeNone(cfg: Config, v: View, env: nat -> SendEnv)
    ensures TakeBytes(cfg, v, 0, env) == v && LinesIn(v, 0) == 0
  {
  }

  lemma LeftToTake(cfg: Config, v: View, k: nat, env: nat -> SendEnv)
    requires k <= |v.waiting|
    ensures TakeBytes(cfg, v, k, env).waiting == [] <==> k == |v.waiting|
    ensures k < |v.waiting| ==>
              |Feed(TakeBytes(cfg, v, k, env).partial, TakeBytes(cfg, v, k, env).waiting[0]).lines| <= 1
  {
  }

  lemma TakeNext(cfg: Config, v: View, k: nat, env: nat -> SendEnv)
    requires k < |v.waiting|
    ensures var now := TakeBytes(cfg, v, k, env);
            && now.waiting != []
            && TakeBytes(cfg, v, k + 1, env) == TakeOne(cfg, now, env(LinesIn(v, k)))
            && LinesIn(v, k + 1) == LinesIn(v, k) + |Feed(now.partial, now.waiting[0]).lines|
  {
    hide HandleLine;
    var taken, b := v.waiting[..k], v.waiting[k];
    assert v.waiting[..k + 1] == taken + [b] && (taken + [b])[..|taken + [b]| - 1] == taken;
    var fed := FeedAll(v.partial, taken);
    var step := Feed(fed.partial, b);
    if step.lines == [] {
      assert fed.lines + step.lines == fed.lines;
    } else {
      assert (fed.lines + step.lines)[..|fed.lines|] == fed.lines;
    }
  }

  // ---------------------------------------------------------------- receiving

  /** Unknown is what comes of a decoding that does something undefined. */
  datatype Content = Text(port: byte, text: seq<byte>) | NoText | Stuck | Unknown

  /** What the decrypted payload of a packet decodes to. */
  function ContentOf(cfg: Config, packet: seq<byte>, blocks: nat): Content
    requires |packet| >= HEADER_SIZE
  {
    var h := Parse(packet);
    var data := Crypt(cfg, packet[HEADER_SIZE..], h.packetId, h.fromId, blocks);
    var r := Decode(data);
    DecodeIsSafe(data);
    if r.Undefined? then Unknown
    else if r.Hangs? then Stuck
    else
      match PayloadOf(data, r.found)
      case Some(text) => if text == [] then NoText else Text(r.port, text)
      case None => NoText
  }

  lemma ContentIs(cfg: Config, packet: seq<byte>, blocks: nat, data: seq<byte>)
    requires |packet| >= HEADER_SIZE
    requires var h := Parse(packet); data == Crypt(cfg, packet[HEADER_SIZE..], h.packetId, h.fromId, blocks)
    ensures var c, r := ContentOf(cfg, packet, blocks), Decode(data);
            match r
            case Done(port, At(start, len)) =>
              start + len <= |data| && c == if len == 0 then NoText else Text(port, data[start..start + len])
            case Done(port, NoPayload) => c == NoText
            case Hangs => c == Stuck
            case Undefined => c == Unknown
  {
    DecodeIsSafe(data);
    hide Decode, Crypt, Parse;
  }

  predicate Addressed(packet: seq<byte>, id: u32)
    requires |packet| >= HEADER_SIZE
  {
    Parse(packet).toId == BROADCAST || Parse(packet).toId == id
  }

  /** Shows the text, and answers "pong" to its sender unless that is what it says. */
  function Deliver(cfg: Config, t: Trace, from: u32, content: Content, blocks: nat): Trace {
    match content
    case NoText => t
    case Text(_, text) =>
      var shown := t.(shown := t.shown + [Received(text)]);
      if text == PONG then shown else Send(cfg, shown, from, PONG, blocks)
    case _ => t.(halted := true)
  }

  function Register(t: Trace, key: Key): Trace {
    t.(ring := Insert(t.ring, key), seen := t.seen + [key])
  }

  /** What a decoder that comes back may have found. */
  type Outcome = c: Content | !c.Unknown? && (c.Text? ==> c.text != []) witness NoText

  /**
   * Block operations that succeed before one fails, when decrypting and when encrypting a reply, and what the
   * compiled code makes of a decoding that is undefined.
   */
  datatype HearEnv = HearEnv(decrypt: nat, encrypt: nat, undefined: Outcome)

  function Understood(cfg: Config, packet: seq<byte>, env: HearEnv): Content
    requires |packet| >= HEADER_SIZE
  {
    var c := ContentOf(cfg, packet, env.decrypt);
    if c.Unknown? then env.undefined else c
  }

  function Hear(cfg: Config, t: Trace, packet: Packet, env: HearEnv): Trace {
    if |packet| <= HEADER_SIZE then t
    else
      var registered := Register(t, KeyOf(packet));
      var delivered :=
        if !Addressed(packet, t.id) then registered
        else Deliver(cfg, registered, Parse(packet).fromId, Understood(cfg, packet, env), env.encrypt);
      if delivered.halted || !ShouldForward(t.ring, packet) then delivered
      else delivered.(out := delivered.out + [Tx(PrepareForward(packet, t.id % 0x100), true)])
  }

  // ---------------------------------------------------------------- a node's life

  datatype Action = Type(line: Line, sendEnv: SendEnv) | Receive(packet: Packet, hearEnv: HearEnv)

  function Act(cfg: Config, t: Trace, a: Action): Trace {
    match a
    case Type(line, env) => HandleLine(cfg, t, line, env)
    case Receive(packet, env) => Hear(cfg, t, packet, env)
  }

  function Live(cfg: Config, t: Trace, actions: seq<Action>): Trace {
    if actions == [] then t
    else Act(cfg, Live(cfg, t, actions[..|actions| - 1]), actions[|actions| - 1])
  }

  /** A line is sent exactly if it is no command, does not start with an N and another character, and fits. */
  lemma LineIsSentIff(cfg: Config, t: Trace, line: Line, env: SendEnv)
    requires line != []
    ensures var t' := HandleLine(cfg, t, line, env);
            t'.out != t.out <==>
              |line| <= MAX_TEXT && line != HELP && line != INFO && !(|line| >= 2 && IsN(line[0]))
    ensures var t' := HandleLine(cfg, t, line, env);
            t'.out != t.out <==> Sendable(line)
    ensures var t' := HandleLine(cfg, t, line, env);
            t'.out != t.out ==>
              t'.out == t.out + [Tx(MakePacket(cfg, t.id, t.nextId, BROADCAST, line, env.blocks), false)]
  {
    hide MakePacket, Insert;
  }

  /** What every line does to the node: "N1" to "N9" in either case, "help", "info", and what is sent. */
  lemma LineIsObeyed(cfg: Config, t: Trace, line: Line, env: SendEnv)
    requires line != []
    ensures var t' := HandleLine(cfg, t, line, env);
            if |line| >= 2 && line[0] in {0x4E, 0x6E} then
              t' == if 0x31 <= line[1] <= 0x39 then t.(id := line[1] - 0x30, shown := t.shown + [NodeIdSet]) else t
            else if line == [0x68, 0x65, 0x6C, 0x70] then t' == t.(shown := t.shown + [HelpText])
            else if line == [0x69, 0x6E, 0x66, 0x6F] then t' == t.(shown := t.shown + [InfoText(t.id)])
            else if |line| > 127 then t' == t.(shown := t.shown + [TxFailed])
            else
              && t'.id == t.id && t'.halted == t.halted
              && t'.out == t.out + [Tx(MakePacket(cfg, t.id, t.nextId, 0xFFFF_FFFF, line, env.blocks), false)]
              && t'.seen == t.seen + [Key(t.id, t.nextId)]
              && t'.shown == t.shown + [if env.txOk then SentOk else TxFailed]
  {
    hide MakePacket, Insert;
  }

  /** The node id that a line sets, if it sets one. */
  function IdSetBy(line: Line): Option<u32> {
    if |line| >= 2 && line[0] in {0x4E, 0x6E} && 0x31 <= line[1] <= 0x39 then Some(line[1] - 0x30) else None
  }

  /** The digit of the last line that sets the id; `start` if there is none. */
  function LastIdSet(actions: seq<Action>, start: u32): u32 {
    if actions == [] then start
    else
      var last := actions[|actions| - 1];
      if last.Type? && IdSetBy(last.line).Some? then IdSetBy(last.line).value
      else LastIdSet(actions[..|actions| - 1], start)
  }

  /** Over a node's life its id is what the last such line said, whatever it sent and heard. */
  lemma {:induction false} IdIsLastSet(cfg: Config, t: Trace, actions: seq<Action>)
    ensures Live(cfg, t, actions).id == LastIdSet(actions, t.id)
  {
    hide HandleLine, Hear, IdSetBy;
    if actions != [] {
      var init, last := actions[..|actions| - 1], actions[|actions| - 1];
      IdIsLastSet(cfg, t, init);
      match last
      case Type(line, env) => LineSetsId(cfg, Live(cfg, t, init), line, env);
      case Receive(p, env) => HearingKeepsId(cfg, Live(cfg, t, init), p, env);
    }
  }

  lemma LineSetsId(cfg: Config, t: Trace, line: Line, env: SendEnv)
    ensures HandleLine(cfg, t, line, env).id == if IdSetBy(line).Some? then IdSetBy(line).value else t.id
  {
    hide Send;
    SendKeepsId(cfg, t, line, env.blocks);
  }

  lemma SendKeepsId(cfg: Config, t: Trace, text: seq<byte>, blocks: nat)
    ensures Send(cfg, t, BROADCAST, text, blocks).id == t.id
  {
    hide MakePacket, Insert;
  }

  lemma HearingKeepsId(cfg: Config, t: Trace, p: Packet, env: HearEnv)
    ensures Hear(cfg, t, p, env).id == t.id
  {
    hide Understood, MakePacket, PrepareForward, ShouldForward, Insert, Parse;
  }

  // ---------------------------------------------------------------- the code

  class Node {
    const hal: Peripheral
    const hwKey: Words
    const router: Router
    const uart: S.SerialPort
    const rxBuf: array<byte>
    const txBuf: array<byte>
    const lineBuf: array<byte>
    var nodeId: u32
    var nextPacketId: u32
    var lineLen: nat
    var halted: bool
    /** Packets handed to the radio and lines printed. */
    var radio: seq<Tx>
    var console: seq<Shown>
    ghost var registered: seq<Key>

    ghost predicate Valid()
      reads this, router, uart
    {
      && router.Valid() && uart.Valid()
      && rxBuf.Length == txBuf.Length == 256 && lineBuf.Length == LINE_MAX + 1
      && lineLen <= LINE_MAX
      && rxBuf != txBuf && rxBuf != lineBuf && txBuf != lineBuf
      && uart.ring != rxBuf && uart.ring != txBuf && uart.ring != lineBuf
    }

    ghost function Cfg(): Config {
      Config(hal, FromWords(hwKey))
    }

    ghost function History(): Trace
      requires Valid()
      reads this, router, router.slots, uart
    {
      Trace(nodeId, nextPacketId, router.State(), halted, registered, radio, console)
    }

    ghost function Partial(): Line
      requires Valid()
      reads this, router, uart, lineBuf
    {
      lineBuf[..lineLen]
    }

    ghost function Now(): View
      requires Valid()
      reads this, router, router.slots, uart, uart.ring, lineBuf
    {
      View(History(), Partial(), uart.Waiting())
    }

    constructor (hal: Peripheral, psk: Block, nodeId: u32)
      ensures Valid() && fresh(router) && fresh(router.slots) && fresh(uart) && fresh(uart.ring)
      ensures fresh(rxBuf) && fresh(txBuf) && fresh(lineBuf)
      ensures Cfg() == Config(hal, psk)
      ensures History() == Trace(nodeId, 0, BootRing(), false, [], [], [])
      ensures Partial() == [] && uart.Waiting() == []
    {
      this.hal := hal;
      hwKey := ToWords(psk);
      router := new Router();
      uart := new S.SerialPort();
      rxBuf := new byte[256](_ => 0);
      txBuf := new byte[256](_ => 0);
      lineBuf := new byte[LINE_MAX + 1](_ => 0);
      this.nodeId, nextPacketId, lineLen, halted := nodeId, 0, 0, false;
      radio, console, registered := [], [], [];
      WordsRoundTrip(psk, [0, 0, 0, 0]);
    }

    /** Encodes, frames and encrypts into the transmit buffer; 0 if the encoder refuses. */
    method Compose(h: Header, text: seq<byte>, blocks: nat) returns (n: u16)
      requires Valid() && |text| <= 0xFFFF
      requires h == Header(h.toId, h.fromId, h.packetId, 3, 0, 0, 0)
      modifies txBuf
      ensures n == 0 <==> |text| > MAX_TEXT
      ensures n > 0 ==> n < 256 && txBuf[..n] == MakePacket(Cfg(), h.fromId, h.packetId, h.toId, text, blocks)
    {
      hide Build, Encoded, Ctr, Parse, Loop, FromWords;
      var pb := new byte[240](_ => 0);
      var pbLen := EncodeData(pb, 240, TEXT_PORT, text);
      if pbLen == 0 {
        return 0;
      }
      n := HEADER_SIZE + pbLen as int;
      HeaderToBuf(h, txBuf);
      forall i | 0 <= i < pbLen as int {
        txBuf[HEADER_SIZE + i] := pb[i];
      }
      assert txBuf[..HEADER_SIZE] == Build(h);
      assert txBuf[HEADER_SIZE..n] == Encoded(TEXT_PORT, text);
      CtrCrypt(hal, hwKey, txBuf, HEADER_SIZE, pbLen, h.packetId, h.fromId, blocks);
      assert txBuf[..n] == txBuf[..HEADER_SIZE] + txBuf[HEADER_SIZE..n];
    }

    method SendLoraPacket(to: u32, text: seq<byte>, env: SendEnv) returns (ok: bool)
      requires Valid() && |text| <= 0xFFFF
      modifies this`nextPacketId, this`radio, this`registered, txBuf, router, router.slots
      ensures Valid()
      ensures History() == Send(Cfg(), old(History()), to, text, env.blocks)
      ensures ok <==> |text| <= MAX_TEXT && env.txOk
    {
      var h := Header(to, nodeId, nextPacketId, 3, 0, 0, 0);
      var n := Compose(h, text, env.blocks);
      if n == 0 {
        return false;
      }
      nextPacketId := (nextPacketId as int + 1) % 0x1_0000_0000;
      var key := Key(h.fromId, h.packetId);
      router.Seen(key);
      registered := registered + [key];
      radio := radio + [Tx(txBuf[..n], false)];
      return env.txOk;
    }

    /** A complete line in the buffer. */
    method TakeLine(env: SendEnv)
      requires Valid() && lineLen > 0
      modifies this`nodeId, this`nextPacketId, this`radio, this`console, this`registered, this`lineLen
      modifies lineBuf, txBuf, router, router.slots
      ensures Valid() && Partial() == []
      ensures History() == HandleLine(Cfg(), old(History()), old(Partial()), env)
    {
      hide Send, BootRing, FromWords;
      ghost var line := Partial();
      lineBuf[lineLen] := 0;
      assert lineBuf[..lineLen] == line;
      if lineLen >= 2 && (lineBuf[0] == 0x4E || lineBuf[0] == 0x6E) {
        if 0x31 <= lineBuf[1] <= 0x39 {
          nodeId := lineBuf[1] - 0x30;
          console := console + [NodeIdSet];
        }
      } else if lineLen == 4 && lineBuf[..4] == HELP {
        console := console + [HelpText];
      } else if lineLen == 4 && lineBuf[..4] == INFO {
        console := console + [InfoText(nodeId)];
      } else {
        var ok := SendLoraPacket(BROADCAST, lineBuf[..lineLen], env);
        console := console + [if ok then SentOk else TxFailed];
      }
      lineLen := 0;
    }

    /** The body of the polling loop; tells whether the byte completed a line. */
    method TakeByte(b: byte, env: SendEnv) returns (line: bool)
      requires Valid()
      modifies this`nodeId, this`nextPacketId, this`radio, this`console, this`registered, this`lineLen
      modifies lineBuf, txBuf, router, router.slots
      ensures Valid()
      ensures Partial() == Feed(old(Partial()), b).partial
      ensures Feed(old(Partial()), b).lines == if line then [old(Partial())] else []
      ensures History() == if line then HandleLine(Cfg(), old(History()), old(Partial()), env) else old(History())
    {
      line := false;
      if b == CR || b == LF {
        if lineLen == 0 {
          return;
        }
        TakeLine(env);
        line := true;
      } else if lineLen < LINE_MAX {
        lineBuf[lineLen] := b;
        lineLen := lineLen + 1;
        assert Partial() == old(Partial()) + [b];
      }
    }

    /** One turn of the polling loop; tells whether there was a byte, and whether it completed a line. */
    method PollByte(env: SendEnv) returns (got: bool, line: bool)
      requires Valid()
      modifies this`nodeId, this`nextPacketId, this`radio, this`console, this`registered, this`lineLen
      modifies uart`tail, lineBuf, txBuf, router, router.slots
      ensures Valid()
      ensures got <==> old(Now()).waiting != []
      ensures Now() == if got then TakeOne(Cfg(), old(Now()), env) else old(Now())
      ensures line <==> got && Feed(old(Now()).partial, old(Now()).waiting[0]).lines != []
    {
      line := false;
      var b;
      got, b := uart.GetByte();
      hide Feed, HandleLine, S.Pending;
      if got {
        line := TakeByte(b, env);
      }
    }

    /** Empties the ring; the i-th line of this poll meets environment env(i). */
    method UartRxLinePoll(env: nat -> SendEnv)
      requires Valid()
      modifies this`nodeId, this`nextPacketId, this`radio, this`console, this`registered, this`lineLen
      modifies uart`tail, lineBuf, txBuf, router, router.slots
      ensures Valid() && Now().waiting == []
      ensures Now() == TakeBytes(Cfg(), old(Now()), |old(Now()).waiting|, env)
    {
      ghost var start := Now();
      ghost var k := 0;
      TakeNone(Cfg(), start, env);
      hide TakeBytes, LinesIn, Now;
      var i := 0;
      while true
        invariant Valid() && k <= |start.waiting|
        invariant Now() == TakeBytes(Cfg(), start, k, env)
        invariant i == LinesIn(start, k)
        decreases |start.waiting| - k
      {
        LeftToTake(Cfg(), start, k, env);
        var got, line := PollByte(env(i));
        if !got {
          break;
        }
        TakeNext(Cfg(), start, k, env);
        k := k + 1;
        if line {
          i := i + 1;
        }
      }
    }

    /** The n bytes of a received packet, in the receive buffer. */
    method HandlePacket(n: u16, env: HearEnv)
      requires Valid() && !halted && n < 256
      modifies this`halted, this`nextPacketId, this`radio, this`console, this`registered
      modifies rxBuf, txBuf, router, router.slots
      ensures Valid()
      ensures History() == Hear(Cfg(), old(History()), old(rxBuf[..n]), env)
    {
      if n <= HEADER_SIZE {
        return;
      }
      ghost var packet := rxBuf[..n];
      var h := HeaderFromBuf(rxBuf);
      assert Parse(rxBuf[..]) == Parse(packet);
      var forward := router.Gate(rxBuf, n);
      hide Parse, ShouldForward, Insert, Understood, PrepareForward;
      var key := Key(h.fromId, h.packetId);
      router.Seen(key);
      registered := registered + [key];
      if h.toId == BROADCAST || h.toId == nodeId {
        DeliverPacket(n, h, env);
      }
      hide Deliver;
      if !halted && forward {
        RelayPacket(n);
      }
    }

    method RelayPacket(n: u16)
      requires Valid() && n < 256
      modifies this`radio, rxBuf
      ensures Valid()
      ensures var t := old(History());
              History() == t.(out := t.out + [Tx(PrepareForward(old(rxBuf[..n]), t.id % 0x100), true)])
    {
      RewriteForRelay(rxBuf, n, nodeId % 0x100);
      radio := radio + [Tx(rxBuf[..n], true)];
    }

    method DecryptCopy(n: u16, h: Header, blocks: nat) returns (dec: array<byte>)
      requires Valid() && HEADER_SIZE < n as int < 256
      ensures fresh(dec) && dec.Length == 256
      ensures dec[..n - HEADER_SIZE] == Crypt(Cfg(), rxBuf[..n][HEADER_SIZE..], h.packetId, h.fromId, blocks)
    {
      var len := n - HEADER_SIZE;
      dec := new byte[256](_ => 0);
      forall i | 0 <= i < len {
        dec[i] := rxBuf[HEADER_SIZE + i];
      }
      hide Ctr;
      assert dec[0..len] == rxBuf[..n][HEADER_SIZE..];
      CtrCrypt(hal, hwKey, dec, 0, len, h.packetId, h.fromId, blocks);
      assert dec[..len] == dec[0..len];
    }

    /** Decrypts and decodes a copy of the payload; no text is an empty one. */
    method ReadText(n: u16, h: Header, env: HearEnv) returns (returned: bool, text: seq<byte>, ghost content: Content)
      requires Valid() && HEADER_SIZE < n as int < 256 && h == Parse(rxBuf[..n])
      ensures content == Understood(Cfg(), rxBuf[..n], env)
      ensures returned <==> !content.Stuck? && !content.Unknown?
      ensures returned ==> if text == [] then content.NoText? else content.Text? && content.text == text
    {
      hide Decode, Crypt, ContentOf, Parse, FromWords;
      var len := n - HEADER_SIZE;
      var dec := DecryptCopy(n, h, env.decrypt);
      ghost var data := dec[..len];
      ContentIs(Cfg(), rxBuf[..n], env.decrypt, data);
      content := Understood(Cfg(), rxBuf[..n], env);
      text := [];
      if Decode(dec[..len]).Undefined? {
        text := if env.undefined.Text? then env.undefined.text else [];
        return !env.undefined.Stuck?, text, content;
      }
      if Decode(dec[..len]).Hangs? {
        return false, text, content;
      }
      var found, port, start, textLen := DecodeData(dec, len);
      if found && textLen > 0 {
        text := dec[..len][start..start + textLen];
      }
      returned := true;
    }

    /** Shows and answers the text of the packet, if there is one. */
    method DeliverPacket(n: u16, h: Header, env: HearEnv)
      requires Valid() && !halted && HEADER_SIZE < n as int < 256 && h == Parse(rxBuf[..n])
      modifies this`halted, this`nextPacketId, this`radio, this`console, this`registered, txBuf, router, router.slots
      ensures Valid()
      ensures History() ==
                Deliver(Cfg(), old(History()), h.fromId, Understood(Cfg(), old(rxBuf[..n]), env), env.encrypt)
    {
      var returned, text;
      ghost var content;
      returned, text, content := ReadText(n, h, env);
      hide Understood, Parse, Send;
      if !returned {
        halted := true;
      } else if |text| > 0 {
        ShowAndReply(h.fromId, content.port, text, env.encrypt);
      }
    }

    method ShowAndReply(from: u32, ghost port: byte, text: seq<byte>, blocks: nat)
      requires Valid()
      modifies this`nextPacketId, this`radio, this`console, this`registered, txBuf, router, router.slots
      ensures Valid()
      ensures History() == Deliver(Cfg(), old(History()), from, Text(port, text), blocks)
    {
      hide Insert, MakePacket;
      console := console + [Received(text)];
      if |text| != 4 || text != PONG {
        var _ := SendLoraPacket(from, PONG, SendEnv(blocks, true));
      }
    }

    /** One turn of the main loop; `packet` is what the radio has received, if anything. */
    method MeshMiniLoop(lineEnv: nat -> SendEnv, packet: seq<byte>, hearEnv: HearEnv)
      requires Valid() && !halted && |packet| < 256
      modifies this, uart`tail, lineBuf, rxBuf, txBuf, router, router.slots
      ensures Valid()
      ensures var polled := TakeBytes(Cfg(), old(Now()), |old(Now()).waiting|, lineEnv);
              && polled.waiting == []
              && Now() == polled.(trace := Hear(Cfg(), polled.trace, packet, hearEnv))
    {
      UartRxLinePoll(lineEnv);
      forall i | 0 <= i < |packet| {
        rxBuf[i] := packet[i];
      }
      assert rxBuf[..|packet|] == packet;
      HandlePacket(|packet|, hearEnv);
    }
  }
}

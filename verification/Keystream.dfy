/** The counter blocks that packets are encrypted under, at one node and on a channel. */
module Keystream {
  import opened Bytes
  import opened MeshPacket
  import opened FloodRouter
  import opened AesMeshtastic
  import opened LineInput
  import opened MeshNode
  import opened Delivery
  import opened Network

  /** The packets a node sent itself, in order. */
  function FreshPackets(out: seq<Tx>): seq<Packet> {
    if out == [] then []
    else
      var last := out[|out| - 1];
      FreshPackets(out[..|out| - 1]) + (if last.relayed then [] else [last.packet])
  }

  lemma FreshOne(out: seq<Tx>, tx: Tx)
    ensures FreshPackets(out + [tx]) == FreshPackets(out) + if tx.relayed then [] else [tx.packet]
  {
    assert (out + [tx])[..|out|] == out;
  }

  /** The s-th packet id after `first`; the counter is 32 bits wide. */
  function NthId(first: u32, s: nat): u32 {
    (first as int + s) % 0x1_0000_0000
  }

  lemma NthIdsDiffer(first: u32, s: nat, s': nat)
    requires s < s' < s + 0x1_0000_0000
    ensures NthId(first, s) != NthId(first, s')
  {
  }

  lemma NextNthId(first: u32, s: nat)
    ensures (NthId(first, s) as int + 1) % 0x1_0000_0000 == NthId(first, s + 1)
  {
  }

  // ---------------------------------------------------------------- what a life sends

  type Message = s: seq<byte> | |s| <= MAX_TEXT witness []

  /** A text that a node sends: under which id, to whom, how far it is encrypted, and whether it was typed. */
  datatype Sending = Sending(id: u32, to: u32, text: Message, blocks: nat, typed: bool)

  function PacketOf(cfg: Config, s: Sending, packetId: u32): Packet {
    MakePacket(cfg, s.id, packetId, s.to, s.text, s.blocks)
  }

  /** A sendable line is sent to everybody, a pong to the sender of the text it answers. */
  function SendingsOf(cfg: Config, t: Trace, a: Action): (r: seq<Sending>)
    ensures |r| <= 1
  {
    match a
    case Type(line, env) =>
      if Sendable(line) then [Sending(t.id, BROADCAST, line, env.blocks, true)] else []
    case Receive(p, env) =>
      if Answers(cfg, t, p, env) then [Sending(t.id, Parse(p).fromId, PONG, env.encrypt, false)] else []
  }

  function Sendings(cfg: Config, t0: Trace, actions: seq<Action>): seq<Sending> {
    if actions == [] then []
    else
      var init := actions[..|actions| - 1];
      Sendings(cfg, t0, init) + SendingsOf(cfg, Live(cfg, t0, init), actions[|actions| - 1])
  }

  /** The packets the node sent itself are those of its sendings, under successive ids. */
  predicate Numbered(cfg: Config, t0: Trace, t: Trace, sendings: seq<Sending>) {
    var sent := FreshPackets(t.out);
    && |sent| == |sendings|
    && t.nextId == NthId(t0.nextId, |sent|)
    && (forall s :: 0 <= s < |sent| ==> sent[s] == PacketOf(cfg, sendings[s], NthId(t0.nextId, s)))
  }

  /** What an action does to the packets sent and to the packet id. */
  lemma ActSends(cfg: Config, t: Trace, a: Action)
    ensures var sendings := SendingsOf(cfg, t, a);
            var t' := Act(cfg, t, a);
            if sendings == [] then FreshPackets(t'.out) == FreshPackets(t.out) && t'.nextId == t.nextId
            else FreshPackets(t'.out) == FreshPackets(t.out) + [PacketOf(cfg, sendings[0], t.nextId)]
                 && t'.nextId == (t.nextId as int + 1) % 0x1_0000_0000
  {
    hide MakePacket, Insert, Hear, FreshPackets, Reply, Parse, Answers;
    match a
    case Type(line, env) =>
      if Sendable(line) {
        FreshOne(t.out, Tx(MakePacket(cfg, t.id, t.nextId, BROADCAST, line, env.blocks), false));
      }
    case Receive(p, env) => HearSends(cfg, t, p, env);
  }

  lemma HearSends(cfg: Config, t: Trace, p: Packet, env: HearEnv)
    ensures var sendings := SendingsOf(cfg, t, Receive(p, env));
            var t' := Hear(cfg, t, p, env);
            if sendings == [] then FreshPackets(t'.out) == FreshPackets(t.out) && t'.nextId == t.nextId
            else FreshPackets(t'.out) == FreshPackets(t.out) + [PacketOf(cfg, sendings[0], t.nextId)]
                 && t'.nextId == (t.nextId as int + 1) % 0x1_0000_0000
  {
    hide MakePacket, FreshPackets, Parse, Hear, Understood, Addressed, ShouldForward, PrepareForward;
    HearTransmits(cfg, t, p, env);
    HearCounts(cfg, t, p, env);
    if |p| > HEADER_SIZE {
      var reply, relay := Reply(cfg, t, p, env), Relay(cfg, t, p, env);
      if reply != [] {
        FreshOne(t.out, reply[0]);
      } else {
        assert t.out + reply == t.out;
      }
      if relay != [] {
        FreshOne(t.out + reply, relay[0]);
      } else {
        assert t.out + reply + relay == t.out + reply;
      }
    }
  }

  lemma HearCounts(cfg: Config, t: Trace, p: Packet, env: HearEnv)
    ensures Hear(cfg, t, p, env).nextId ==
            if Answers(cfg, t, p, env) then (t.nextId as int + 1) % 0x1_0000_0000 else t.nextId
  {
    hide Understood, MakePacket, PrepareForward, ShouldForward, Insert, Parse;
  }

  lemma {:induction false} LifeIsNumbered(cfg: Config, t0: Trace, actions: seq<Action>)
    requires t0.out == []
    ensures Numbered(cfg, t0, Live(cfg, t0, actions), Sendings(cfg, t0, actions))
  {
    hide Act, SendingsOf, PacketOf, NthId, FreshPackets;
    if actions == [] {
      NothingNumbered(cfg, t0);
    } else {
      var init := actions[..|actions| - 1];
      LifeIsNumbered(cfg, t0, init);
      ActSends(cfg, Live(cfg, t0, init), actions[|actions| - 1]);
      NextNthId(t0.nextId, |Sendings(cfg, t0, init)|);
    }
  }

  lemma NothingNumbered(cfg: Config, t0: Trace)
    requires t0.out == []
    ensures Numbered(cfg, t0, t0, [])
  {
  }

  // ---------------------------------------------------------------- what the block cipher is given

  /** Counter blocks used for the payload of a packet. */
  function BlockCount(p: Packet): nat
    requires |p| >= HEADER_SIZE
  {
    (|p| - HEADER_SIZE + 15) / 16
  }

  /** The input of the block cipher for the c-th block of a packet's payload. */
  function InputBlock(p: Packet, c: nat): Block
    requires |p| >= HEADER_SIZE
  {
    Nonce(Parse(p).packetId, Parse(p).fromId, c % 0x100)
  }

  /**
   * The payload is the encoded text; as far as block operations succeeded, byte i of it is combined with the
   * peripheral's answer to the input block i / 16.
   */
  predicate Enciphers(cfg: Config, p: Packet, text: seq<byte>, blocks: nat) {
    && |text| <= MAX_TEXT && |p| == HEADER_SIZE + 4 + |text|
    && var plain := PbData.Encoded(TEXT_PORT, text);
       forall i :: 0 <= i < 4 + |text| ==>
         && i / 16 < BlockCount(p)
         && p[HEADER_SIZE + i] ==
            if i < 16 * blocks then Xor(plain[i], EncryptBlock(cfg.hal, cfg.key, InputBlock(p, i / 16))[i % 16])
            else plain[i]
  }

  lemma SentUnderInputBlocks(cfg: Config, id: u32, packetId: u32, to: u32, text: seq<byte>, blocks: nat)
    requires |text| <= MAX_TEXT
    ensures Enciphers(cfg, MakePacket(cfg, id, packetId, to, text, blocks), text, blocks)
  {
    hide Parse, Nonce, EncryptBlock, Xor, PbData.Encoded;
    SentHeader(cfg, id, packetId, to, text, blocks);
  }

  /** The header of a sending's packet, and how its payload is enciphered. */
  lemma PacketOfIs(cfg: Config, s: Sending, packetId: u32)
    ensures var p := PacketOf(cfg, s, packetId);
            && Parse(p).packetId == packetId && Parse(p).fromId == s.id && Parse(p).toId == s.to
            && Enciphers(cfg, p, s.text, s.blocks)
  {
    hide MakePacket, Enciphers;
    SentHeader(cfg, s.id, packetId, s.to, s.text, s.blocks);
    SentUnderInputBlocks(cfg, s.id, packetId, s.to, s.text, s.blocks);
  }

  /**
   * Any two lives under one key, of one node or of two, whatever lines (id changes included) and packets they consist
   * of: two block cipher inputs used for sending are equal exactly if they are the same block of packets sent under
   * the same node id and the same packet id.
   */
  lemma SharedIff(cfg: Config, t: Trace, actions: seq<Action>, s: nat, c: nat,
                  t': Trace, actions': seq<Action>, s': nat, c': nat)
    requires t.out == [] && t'.out == []
    requires var sent, sent' := FreshPackets(Live(cfg, t, actions).out), FreshPackets(Live(cfg, t', actions').out);
             && s < |sent| && s' < |sent'| && |sent[s]| >= HEADER_SIZE && |sent'[s']| >= HEADER_SIZE
             && c < BlockCount(sent[s]) && c' < BlockCount(sent'[s'])
    ensures var p, p' := FreshPackets(Live(cfg, t, actions).out)[s], FreshPackets(Live(cfg, t', actions').out)[s'];
            var sendings, sendings' := Sendings(cfg, t, actions), Sendings(cfg, t', actions');
            && s < |sendings| && s' < |sendings'|
            && Enciphers(cfg, p, sendings[s].text, sendings[s].blocks)
            && Parse(p).toId == sendings[s].to
            && (InputBlock(p, c) == InputBlock(p', c') <==>
                  && sendings[s].id == sendings'[s'].id && c == c'
                  && NthId(t.nextId, s) == NthId(t'.nextId, s'))
  {
    hide Live, Sendings, Nonce, Parse, NthId, FreshPackets, PacketOf, Enciphers;
    LifeIsNumbered(cfg, t, actions);
    LifeIsNumbered(cfg, t', actions');
    var p, p' := FreshPackets(Live(cfg, t, actions).out)[s], FreshPackets(Live(cfg, t', actions').out)[s'];
    PacketOfIs(cfg, Sendings(cfg, t, actions)[s], NthId(t.nextId, s));
    PacketOfIs(cfg, Sendings(cfg, t', actions')[s'], NthId(t'.nextId, s'));
    BlocksFit(p, c);
    BlocksFit(p', c');
    if InputBlock(p, c) == InputBlock(p', c') {
      NonceIsInjective(Parse(p).packetId, Parse(p).fromId, c % 0x100, Parse(p').packetId, Parse(p').fromId, c' % 0x100);
    }
  }

  lemma SameNthId(first: u32, s: nat, s': nat)
    requires s < 0x1_0000_0000 && s' < 0x1_0000_0000
    ensures NthId(first, s) == NthId(first, s') <==> s == s'
  {
  }

  /**
   * Over the first 2^32 packets a node sends after boot, whatever it does besides: each is its text, enciphered with
   * the block cipher's answers to its input blocks, and no two of these are equal.
   */
  lemma NoKeystreamReuse(cfg: Config, t0: Trace, actions: seq<Action>, s: nat, s': nat, c: nat, c': nat)
    requires t0.out == []
    requires var sent := FreshPackets(Live(cfg, t0, actions).out);
             && |sent| <= 0x1_0000_0000 && s < |sent| && s' < |sent|
             && |sent[s]| >= HEADER_SIZE && |sent[s']| >= HEADER_SIZE
             && c < BlockCount(sent[s]) && c' < BlockCount(sent[s'])
    ensures var sent, sendings := FreshPackets(Live(cfg, t0, actions).out), Sendings(cfg, t0, actions);
            && |sendings| == |sent|
            && Enciphers(cfg, sent[s], sendings[s].text, sendings[s].blocks)
            && (InputBlock(sent[s], c) == InputBlock(sent[s'], c') <==> s == s' && c == c')
  {
    hide Live, Sendings, InputBlock, NthId, FreshPackets, PacketOf, Enciphers, Parse;
    LifeIsNumbered(cfg, t0, actions);
    SharedIff(cfg, t0, actions, s, c, t0, actions, s', c');
    SameNthId(t0.nextId, s, s');
  }

  /** The radio's length field keeps the block counter far from its end. */
  lemma BlocksFit(p: Packet, c: nat)
    requires |p| >= HEADER_SIZE && c < BlockCount(p)
    ensures c < 0x100
  {
  }

  // ---------------------------------------------------------------- a channel shared by nodes

  /** What one node of a network does in a run. */
  function ActionsAt(cfg: Config, net: Net, events: seq<Event>, j: nat): seq<Action> {
    if events == [] then []
    else
      var init, e := events[..|events| - 1], events[|events| - 1];
      var before := Run(cfg, net, init);
      ActionsAt(cfg, net, init, j) + if Enabled(before, e) && Actor(before, e) == j then [ActionOf(before, e)] else []
  }

  predicate KeepsId(a: Action) {
    a.Type? && a.line != [] ==> !RequestOf(a.line).SetNode?
  }

  /** Each node of a network leads a life of its own, made of the events it takes part in. */
  lemma {:induction false} NodesLive(cfg: Config, net: Net, events: seq<Event>, j: nat)
    requires j < |net.nodes|
    ensures Run(cfg, net, events).nodes[j] == Live(cfg, net.nodes[j], ActionsAt(cfg, net, events, j))
    ensures (forall e :: e in events ==> NoRenaming(e)) ==>
              forall a :: a in ActionsAt(cfg, net, events, j) ==> KeepsId(a)
  {
    hide Act, Step, Actor, ActionOf, NoRenaming, KeepsId;
    if events != [] {
      var init, e := events[..|events| - 1], events[|events| - 1];
      NodesLive(cfg, net, init, j);
      var before, actions := Run(cfg, net, init), ActionsAt(cfg, net, init, j);
      StepActs(cfg, before, e, j);
      if Enabled(before, e) && Actor(before, e) == j {
        var a := ActionOf(before, e);
        assert (actions + [a])[..|actions|] == actions;
      } else {
        assert actions + [] == actions;
      }
    }
  }

  lemma StepActs(cfg: Config, net: Net, e: Event, j: nat)
    requires j < |net.nodes|
    ensures Step(cfg, net, e).nodes[j] ==
            if Enabled(net, e) && Actor(net, e) == j then Act(cfg, net.nodes[j], ActionOf(net, e)) else net.nodes[j]
    ensures Enabled(net, e) && NoRenaming(e) ==> KeepsId(ActionOf(net, e))
  {
    hide Act, Broadcasts, NewOut, RequestOf;
  }

  lemma {:induction false} SendsUnderOneId(cfg: Config, t0: Trace, actions: seq<Action>)
    requires forall a :: a in actions ==> KeepsId(a)
    ensures Live(cfg, t0, actions).id == t0.id
    ensures forall s :: s in Sendings(cfg, t0, actions) ==> s.id == t0.id
  {
    hide Act, Answers, KeepsId, Parse;
    if actions != [] {
      var init := actions[..|actions| - 1];
      SendsUnderOneId(cfg, t0, init);
      ActKeepsId(cfg, Live(cfg, t0, init), actions[|actions| - 1]);
    }
  }

  lemma ActKeepsId(cfg: Config, t: Trace, a: Action)
    requires KeepsId(a)
    ensures Act(cfg, t, a).id == t.id
  {
    hide Understood, MakePacket, PrepareForward, ShouldForward, Insert, Parse;
  }

  /** Packet s of node j and packet s' of node j' exist and have blocks c and c'. */
  predicate BothSent(nodes: seq<Trace>, j: nat, s: nat, c: nat, j': nat, s': nat, c': nat) {
    && j < |nodes| && j' < |nodes|
    && var sent, sent' := FreshPackets(nodes[j].out), FreshPackets(nodes[j'].out);
       && s < |sent| && s' < |sent'| && |sent[s]| >= HEADER_SIZE && |sent'[s']| >= HEADER_SIZE
       && c < BlockCount(sent[s]) && c' < BlockCount(sent'[s'])
  }

  predicate SameInput(nodes: seq<Trace>, j: nat, s: nat, c: nat, j': nat, s': nat, c': nat) {
    && BothSent(nodes, j, s, c, j', s', c')
    && InputBlock(FreshPackets(nodes[j].out)[s], c) == InputBlock(FreshPackets(nodes[j'].out)[s'], c')
  }

  /** The s-th packet of node j is the s-th text of its life, enciphered under the packet's input blocks. */
  predicate EncipheredText(cfg: Config, net: Net, events: seq<Event>, j: nat, s: nat) {
    && j < |net.nodes|
    && var sent := FreshPackets(Run(cfg, net, events).nodes[j].out);
       var sendings := Sendings(cfg, net.nodes[j], ActionsAt(cfg, net, events, j));
       s < |sent| && s < |sendings| && Enciphers(cfg, sent[s], sendings[s].text, sendings[s].blocks)
  }

  /**
   * In any run of a network in which nobody changes ids: two input blocks used for sending under the common key are
   * equal exactly if they are the same block of packets with the same packet id, sent by nodes with the same id.
   */
  lemma SharedOnChannelIff(cfg: Config, net: Net, events: seq<Event>,
                           j: nat, s: nat, c: nat, j': nat, s': nat, c': nat)
    requires forall e :: e in events ==> NoRenaming(e)
    requires forall t :: t in net.nodes ==> t.out == []
    requires BothSent(Run(cfg, net, events).nodes, j, s, c, j', s', c')
    ensures SameInput(Run(cfg, net, events).nodes, j, s, c, j', s', c') <==>
              && net.nodes[j].id == net.nodes[j'].id && c == c'
              && NthId(net.nodes[j].nextId, s) == NthId(net.nodes[j'].nextId, s')
    ensures EncipheredText(cfg, net, events, j, s)
  {
    hide Run, Live, ActionsAt, Sendings, FreshPackets, Enciphers, BlockCount, NoRenaming, KeepsId, NthId;
    hide InputBlock, Parse;
    var actions, actions' := ActionsAt(cfg, net, events, j), ActionsAt(cfg, net, events, j');
    NodesLive(cfg, net, events, j);
    NodesLive(cfg, net, events, j');
    SharedIff(cfg, net.nodes[j], actions, s, c, net.nodes[j'], actions', s', c');
    SendsUnderOneId(cfg, net.nodes[j], actions);
    SendsUnderOneId(cfg, net.nodes[j'], actions');
    assert Sendings(cfg, net.nodes[j], actions)[s] in Sendings(cfg, net.nodes[j], actions);
    assert Sendings(cfg, net.nodes[j'], actions')[s'] in Sendings(cfg, net.nodes[j'], actions');
  }

  /** In a network just booted, two nodes share an input block in a run exactly if their ids agree and both send. */
  lemma BootedShareIff(cfg: Config, net: Net, events: seq<Event>, j: nat, j': nat)
    requires forall e :: e in events ==> NoRenaming(e)
    requires forall t :: t in net.nodes ==> t.out == [] && t.nextId == 0
    requires j < |net.nodes| && j' < |net.nodes|
    ensures var nodes := Run(cfg, net, events).nodes;
            (exists s, c, s', c' :: SameInput(nodes, j, s, c, j', s', c')) <==>
              && net.nodes[j].id == net.nodes[j'].id
              && FreshPackets(nodes[j].out) != [] && FreshPackets(nodes[j'].out) != []
  {
    hide Run, FreshPackets, InputBlock, NoRenaming, NthId;
    var nodes := Run(cfg, net, events).nodes;
    if s, c, s', c' :| SameInput(nodes, j, s, c, j', s', c') {
      SharedOnChannelIff(cfg, net, events, j, s, c, j', s', c');
    }
    if net.nodes[j].id == net.nodes[j'].id && FreshPackets(nodes[j].out) != [] && FreshPackets(nodes[j'].out) != [] {
      SentHasBlocks(cfg, net, events, j);
      SentHasBlocks(cfg, net, events, j');
      SharedOnChannelIff(cfg, net, events, j, 0, 0, j', 0, 0);
      assert SameInput(nodes, j, 0, 0, j', 0, 0);
    }
  }

  lemma SentHasBlocks(cfg: Config, net: Net, events: seq<Event>, j: nat)
    requires j < |net.nodes| && net.nodes[j].out == []
    ensures forall p :: p in FreshPackets(Run(cfg, net, events).nodes[j].out) ==>
              |p| >= HEADER_SIZE && BlockCount(p) > 0
  {
    hide Run, Live, ActionsAt, Sendings, FreshPackets, NthId, NoRenaming;
    NodesLive(cfg, net, events, j);
    LifeIsNumbered(cfg, net.nodes[j], ActionsAt(cfg, net, events, j));
  }

  /**
   * In a network of distinct ids that nobody changes, over the first 2^32 packets of each node and in any run: two
   * input blocks used for sending under the common key are equal only if they are the same block of the same packet.
   */
  lemma NoKeystreamReuseOnChannel(cfg: Config, net: Net, events: seq<Event>,
                                  j: nat, s: nat, c: nat, j': nat, s': nat, c': nat)
    requires DistinctIds(net) && forall e :: e in events ==> NoRenaming(e)
    requires forall t :: t in net.nodes ==> t.out == []
    requires BothSent(Run(cfg, net, events).nodes, j, s, c, j', s', c')
    requires s < 0x1_0000_0000 && s' < 0x1_0000_0000
    ensures SameInput(Run(cfg, net, events).nodes, j, s, c, j', s', c') <==> j == j' && s == s' && c == c'
    ensures EncipheredText(cfg, net, events, j, s)
  {
    hide Run, SameInput, NoRenaming, NthId, EncipheredText;
    SharedOnChannelIff(cfg, net, events, j, s, c, j', s', c');
    SameNthId(net.nodes[j].nextId, s, s');
  }

  // ---------------------------------------------------------------- examples of sharing

  function Booted(id: u32): Trace {
    Trace(id, 0, BootRing(), false, [], [], [])
  }

  /** Two packets that a sender id and a packet id are given to twice are encrypted under the same blocks. */
  lemma SameIdsSameBlocks(cfg: Config, id: u32, packetId: u32, to: u32, text: seq<byte>, blocks: nat,
                          to': u32, text': seq<byte>, blocks': nat, c: nat)
    requires |text| <= MAX_TEXT && |text'| <= MAX_TEXT
    ensures InputBlock(MakePacket(cfg, id, packetId, to, text, blocks), c) ==
            InputBlock(MakePacket(cfg, id, packetId, to', text', blocks'), c)
  {
    hide Parse, Nonce, MakePacket;
    SentHeader(cfg, id, packetId, to, text, blocks);
    SentHeader(cfg, id, packetId, to', text', blocks');
  }

  /** The packet id is not stored: the first texts sent before and after a reboot share their blocks. */
  lemma RebootRepeats(cfg: Config, id: u32, line: Line, line': Line, env: SendEnv, env': SendEnv, c: nat)
    requires Sendable(line) && Sendable(line')
    ensures var before, after := HandleLine(cfg, Booted(id), line, env), HandleLine(cfg, Booted(id), line', env');
            && |before.out| == |after.out| == 1
            && InputBlock(before.out[0].packet, c) == InputBlock(after.out[0].packet, c)
  {
    hide MakePacket, Insert, InputBlock, BootRing;
    LineIsSentIff(cfg, Booted(id), line, env);
    LineIsSentIff(cfg, Booted(id), line', env');
    SameIdsSameBlocks(cfg, id, 0, BROADCAST, line, env.blocks, BROADCAST, line', env'.blocks, c);
  }

  const N1: Line := [0x4E, 0x31]

  /** Typing N1 at two nodes makes them share their blocks, whatever they say. */
  lemma RenamingRepeats(cfg: Config, a: u32, b: u32, line: Line, line': Line, env: SendEnv, c: nat)
    requires Sendable(line) && Sendable(line')
    ensures var events := [Typed(0, N1, env, []), Typed(1, N1, env, []),
                           Typed(0, line, env, []), Typed(1, line', env, [])];
            var nodes := Run(cfg, Net([Booted(a), Booted(b)], []), events).nodes;
            && |nodes[0].out| == |nodes[1].out| == 1
            && |nodes[0].out[0].packet| >= HEADER_SIZE && |nodes[1].out[0].packet| >= HEADER_SIZE
            && InputBlock(nodes[0].out[0].packet, c) == InputBlock(nodes[1].out[0].packet, c)
  {
    hide MakePacket, Insert, InputBlock, BootRing, Run, HandleLine, RequestOf;
    var net := Net([Booted(a), Booted(b)], []);
    var e0, e1 := Typed(0, N1, env, []), Typed(1, N1, env, []);
    var e2, e3 := Typed(0, line, env, []), Typed(1, line', env, []);
    assert Run(cfg, net, []) == net by {
      RunOfNothing(cfg, net);
    }
    RenamedTo1(cfg, Booted(a), env);
    RenamedTo1(cfg, Booted(b), env);
    SpeaksAs(cfg, HandleLine(cfg, Booted(a), N1, env), line, env);
    SpeaksAs(cfg, HandleLine(cfg, Booted(b), N1, env), line', env);
    assert [] + [e0] == [e0] && [e0] + [e1] == [e0, e1];
    assert [e0, e1] + [e2] == [e0, e1, e2] && [e0, e1, e2] + [e3] == [e0, e1, e2, e3];
    OneMoreLine(cfg, net, [], e0);
    OneMoreLine(cfg, net, [e0], e1);
    OneMoreLine(cfg, net, [e0, e1], e2);
    OneMoreLine(cfg, net, [e0, e1, e2], e3);
    assert Run(cfg, net, [e0, e1, e2, e3]).nodes ==
           [HandleLine(cfg, HandleLine(cfg, Booted(a), N1, env), line, env),
            HandleLine(cfg, HandleLine(cfg, Booted(b), N1, env), line', env)];
    SameIdsSameBlocks(cfg, 1, 0, BROADCAST, line, env.blocks, BROADCAST, line', env.blocks, c);
  }

  lemma RenamedTo1(cfg: Config, t: Trace, env: SendEnv)
    ensures HandleLine(cfg, t, N1, env) == t.(id := 1, shown := t.shown + [NodeIdSet])
  {
  }

  lemma SpeaksAs(cfg: Config, t: Trace, line: Line, env: SendEnv)
    requires Sendable(line)
    ensures HandleLine(cfg, t, line, env).out ==
            t.out + [Tx(MakePacket(cfg, t.id, t.nextId, BROADCAST, line, env.blocks), false)]
  {
    hide MakePacket, Insert;
  }

  lemma RunOfNothing(cfg: Config, net: Net)
    ensures Run(cfg, net, []) == net
  {
  }

  lemma OneMoreLine(cfg: Config, net: Net, events: seq<Event>, e: Event)
    requires e.Typed? && e.node < |net.nodes| && !Run(cfg, net, events).nodes[e.node].halted
    ensures var before := Run(cfg, net, events).nodes;
            Run(cfg, net, events + [e]).nodes == before[e.node := HandleLine(cfg, before[e.node], e.line, e.sendEnv)]
  {
    hide HandleLine, Broadcasts, NewOut;
    assert (events + [e])[..|events|] == events;
  }
}

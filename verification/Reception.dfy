/** What one reception does, in the bytes of the packet. */
module Reception {
  import opened Bytes
  import opened MeshPacket
  import opened FloodRouter
  import opened LineInput
  import opened MeshNode
  import opened Delivery
  import opened Network

  /** Bytes 0 to 3 are all 0xFF or spell the id, low byte first. */
  predicate IsFor(p: Packet, id: u32)
    requires |p| >= 16
  {
    p[..4] == [0xFF, 0xFF, 0xFF, 0xFF] || LeWord(p[..4]) == id
  }

  lemma IsForMe(p: Packet, id: u32)
    requires |p| >= 16
    ensures IsFor(p, id) <==> Addressed(p, id)
  {
    if p[..4] != [0xFF, 0xFF, 0xFF, 0xFF] && LeWord(p[..4]) == 0xFFFF_FFFF {
      LeRoundTripBytes(p[..4]);
    }
  }

  /** The relay of a packet heard: hops left in the low half of byte 12, sender and packet id not in the ring. */
  function RelayOf(t: Trace, p: Packet): seq<Tx>
    requires |p| > 16
  {
    if p[12] % 16 != 0 && Key(LeWord(p[4..8]), LeWord(p[8..12])) !in t.ring.slots
    then [Tx(PrepareForward(p, t.id % 0x100), true)]
    else []
  }

  /**
   * Every reception. Up to 16 bytes: nothing. A packet for another node, or one without a text, is registered and
   * relayed, no more. A text for this node is shown whatever its portnum, answered unless it is "pong", and relayed.
   * Only a decoder that does not come back stops the node.
   */
  lemma HearingIs(cfg: Config, t: Trace, p: Packet, env: HearEnv)
    requires !t.halted
    ensures var t' := Hear(cfg, t, p, env);
            if |p| <= 16 then t' == t
            else
              var key := Key(LeWord(p[4..8]), LeWord(p[8..12]));
              var silent := t.(ring := Insert(t.ring, key), seen := t.seen + [key]);
              var c := Understood(cfg, p, env);
              if !IsFor(p, t.id) || c == NoText then t' == silent.(out := t.out + RelayOf(t, p))
              else if !c.Text? then t' == silent.(halted := true)
              else
                && t'.id == t.id && !t'.halted && t'.shown == t.shown + [Received(c.text)]
                && if c.text == [0x70, 0x6F, 0x6E, 0x67] then
                     t'.nextId == t.nextId && t'.seen == silent.seen && t'.out == t.out + RelayOf(t, p)
                   else
                     var pong := MakePacket(cfg, t.id, t.nextId, key.from, [0x70, 0x6F, 0x6E, 0x67], env.encrypt);
                     && t'.nextId == (t.nextId as int + 1) % 0x1_0000_0000
                     && t'.seen == silent.seen + [Key(t.id, t.nextId)]
                     && t'.out == t.out + [Tx(pong, false)] + RelayOf(t, p)
  {
    hide Hear, Understood, MakePacket, PrepareForward, Insert, IsFor, WasSeen, Hop, Parse, LeWord, RelayOf;
    if |p| > 16 {
      IsForMe(p, t.id);
      FromOnWire(p);
      RelayIs(t, p);
      HearingByCases(cfg, t, p, env);
    } else {
      ShortIsNothing(cfg, t, p, env);
    }
  }

  lemma ShortIsNothing(cfg: Config, t: Trace, p: Packet, env: HearEnv)
    requires |p| <= 16
    ensures Hear(cfg, t, p, env) == t
  {
  }

  lemma RelayIs(t: Trace, p: Packet)
    requires |p| > 16
    ensures RelayOf(t, p) == if ShouldForward(t.ring, p) then [Tx(PrepareForward(p, t.id % 0x100), true)] else []
    ensures KeyOf(p) == Key(LeWord(p[4..8]), LeWord(p[8..12]))
  {
    GateOnWire(t.ring, p);
  }

  lemma HearingByCases(cfg: Config, t: Trace, p: Packet, env: HearEnv)
    requires |p| > 16 && !t.halted
    ensures var d := if Addressed(p, t.id)
                     then Deliver(cfg, Register(t, KeyOf(p)), Parse(p).fromId, Understood(cfg, p, env), env.encrypt)
                     else Register(t, KeyOf(p));
            Hear(cfg, t, p, env) ==
            if d.halted then d
            else d.(out := d.out + if ShouldForward(t.ring, p) then [Tx(PrepareForward(p, t.id % 0x100), true)] else [])
  {
    hide Understood, MakePacket, PrepareForward, Insert, Parse, ShouldForward, KeyOf, Deliver;
  }

  lemma FromOnWire(p: Packet)
    requires |p| >= 16
    ensures Parse(p).fromId == LeWord(p[4..8])
  {
  }

  /** A text for another node is neither shown nor answered, after any relays and under any cipher. */
  lemma OthersAreLeftAlone(cfg: Config, sender: Trace, to: u32, text: seq<byte>, blocks: nat, relays: seq<byte>,
                           receiver: Trace, env: HearEnv)
    requires |text| <= 127 && to != 0xFFFF_FFFF && to != receiver.id && !receiver.halted
    ensures var p := RelayedBy(MakePacket(cfg, sender.id, sender.nextId, to, text, blocks), relays);
            var r := Hear(cfg, receiver, p, env);
            && r.shown == receiver.shown && r.nextId == receiver.nextId && r.id == receiver.id && !r.halted
            && r.out == receiver.out + RelayOf(receiver, p)
  {
    hide MakePacket, Hear, Parse, PrepareForward, LeWord, KeyOf;
    var first := MakePacket(cfg, sender.id, sender.nextId, to, text, blocks);
    SentHeader(cfg, sender.id, sender.nextId, to, text, blocks);
    RelayedContent(cfg, first, relays, FULL);
    var p := RelayedBy(first, relays);
    IsForMe(p, receiver.id);
    HearingIs(cfg, receiver, p, env);
  }

  /**
   * In any run: what makes a node print, reply or stop when an event is a reception is a packet for that node, and
   * it is the node that receives it.
   */
  lemma OnlyTheAddresseeActs(cfg: Config, net: Net, events: seq<Event>, j: nat)
    requires events != [] && events[|events| - 1].Heard? && j < |net.nodes|
    requires var before := Run(cfg, net, events[..|events| - 1]).nodes[j];
             var after := Run(cfg, net, events).nodes[j];
             after.shown != before.shown || after.nextId != before.nextId || after.halted != before.halted
    ensures var now, e := Run(cfg, net, events[..|events| - 1]), events[|events| - 1];
            && Enabled(now, e) && now.pending[e.i].dst == j
            && |now.pending[e.i].packet| > 16 && IsFor(now.pending[e.i].packet, now.nodes[j].id)
  {
    hide Hear, Broadcasts, NewOut, IsFor, Understood, RelayOf;
    var now, e := Run(cfg, net, events[..|events| - 1]), events[|events| - 1];
    if Enabled(now, e) {
      HearingIs(cfg, now.nodes[now.pending[e.i].dst], now.pending[e.i].packet, e.hearEnv);
    }
  }

  /** An empty text is neither shown nor answered, and relayed all the same. */
  lemma EmptyTextIsRelayed(cfg: Config, id: u32, packetId: u32, to: u32, blocks: nat, receiver: Trace, env: HearEnv)
    requires StopAlike([], blocks, env.decrypt) && !receiver.halted
    ensures var p := MakePacket(cfg, id, packetId, to, [], blocks);
            var r := Hear(cfg, receiver, p, env);
            r.shown == receiver.shown && !r.halted && r.out == receiver.out + RelayOf(receiver, p)
  {
    hide MakePacket, Hear, Parse, ContentOf, IsFor, StopAlike;
    EmptyIsNoText(cfg, id, packetId, to, blocks, env.decrypt);
    HearingIs(cfg, receiver, MakePacket(cfg, id, packetId, to, [], blocks), env);
  }
}

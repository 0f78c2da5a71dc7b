/** How often one packet is on the air. */
module FloodCost {
  import opened Bytes
  import opened MeshPacket
  import opened FloodRouter
  import opened LineInput
  import opened MeshNode
  import opened Delivery
  import opened Network
  import opened Keystream

  /** Transmissions with a given key. */
  function Count(out: seq<Tx>, k: Key): nat {
    if out == [] then 0
    else
      var p := out[|out| - 1].packet;
      Count(out[..|out| - 1], k) + (if |p| >= HEADER_SIZE && KeyOf(p) == k then 1 else 0)
  }

  lemma CountOne(out: seq<Tx>, tx: Tx, k: Key)
    ensures Count(out + [tx], k) ==
            Count(out, k) + if |tx.packet| >= HEADER_SIZE && KeyOf(tx.packet) == k then 1 else 0
  {
    assert (out + [tx])[..|out|] == out;
  }

  predicate Issued(first: u32, n: nat, id: u32) {
    exists s :: 0 <= s < n && NthId(first, s) == id
  }

  /** Nothing is transmitted but by keys already registered, once each, and relays never carry the node's own id. */
  ghost predicate OnceEach(id: u32, seen: seq<Key>, out: seq<Tx>) {
    && (forall k :: Count(out, k) <= 1 && (Count(out, k) > 0 ==> k in seen))
    && (forall tx :: tx in out ==> |tx.packet| >= HEADER_SIZE && KeyOf(tx.packet) in seen
                                   && (tx.relayed ==> KeyOf(tx.packet).from != id))
  }

  /** What holds of a node that started as t0 with an empty history, as long as it keeps its id. */
  ghost predicate Inv(t0: Trace, t: Trace) {
    var n := |FreshPackets(t.out)|;
    && t.id == t0.id
    && t.ring == InsertAll(t0.ring, t.seen)
    && n <= |t.seen| && t.nextId == NthId(t0.nextId, n)
    && (forall k :: k in t.seen && k.from == t.id ==> Issued(t0.nextId, n, k.id))
    && OnceEach(t.id, t.seen, t.out)
  }

  lemma SeenIsSeen(r: Ring, log: seq<Key>, k: Key)
    requires k in log && |log| <= SEEN_SIZE
    ensures WasSeen(InsertAll(r, log), k)
  {
    var j :| 0 <= j < |log| && log[j] == k;
    if !WasSeen(InsertAll(r, log), k) {
      RelaysAreSeparated(r, log, j);
    }
  }

  /** A new transmission whose key is registered and was never transmitted. */
  lemma TransmitOnce(id: u32, seen: seq<Key>, out: seq<Tx>, tx: Tx)
    requires OnceEach(id, seen, out) && |tx.packet| >= HEADER_SIZE && KeyOf(tx.packet) in seen
    requires Count(out, KeyOf(tx.packet)) == 0 && (tx.relayed ==> KeyOf(tx.packet).from != id)
    ensures OnceEach(id, seen, out + [tx])
  {
    hide KeyOf, Count;
    forall k
      ensures Count(out + [tx], k) <= 1 && (Count(out + [tx], k) > 0 ==> k in seen)
    {
      CountOne(out, tx, k);
    }
  }

  lemma FreshKeyIsNew(t0: Trace, t: Trace)
    requires Inv(t0, t) && |t.seen| < SEEN_SIZE
    ensures Key(t.id, t.nextId) !in t.seen
  {
    hide NthId, InsertAll, FreshPackets, OnceEach;
    var n := |FreshPackets(t.out)|;
    if Key(t.id, t.nextId) in t.seen {
      var s :| 0 <= s < n && NthId(t0.nextId, s) == t.nextId;
      NthIdsDiffer(t0.nextId, s, n);
    }
  }

  lemma SendKeepsInv(cfg: Config, t0: Trace, t: Trace, to: u32, text: seq<byte>, blocks: nat)
    requires Inv(t0, t) && |Send(cfg, t, to, text, blocks).seen| <= SEEN_SIZE
    ensures Inv(t0, Send(cfg, t, to, text, blocks))
    ensures Count(t.out, Key(t.id, t.nextId)) == 0 || |text| > MAX_TEXT
  {
    hide MakePacket, Insert, InsertAll, NthId, FreshPackets, KeyOf, Count;
    if |text| <= MAX_TEXT {
      var key := Key(t.id, t.nextId);
      var p := MakePacket(cfg, t.id, t.nextId, to, text, blocks);
      var n := |FreshPackets(t.out)|;
      SentHeader(cfg, t.id, t.nextId, to, text, blocks);
      FreshKeyIsNew(t0, t);
      InsertOne(t0.ring, t.seen, key);
      FreshOne(t.out, Tx(p, false));
      NextNthId(t0.nextId, n);
      TransmitOnce(t.id, t.seen + [key], t.out, Tx(p, false));
      forall k | k in t.seen + [key] && k.from == t.id
        ensures Issued(t0.nextId, n + 1, k.id)
      {
        if k == key {
          assert NthId(t0.nextId, n) == k.id;
        } else {
          var s :| 0 <= s < n && NthId(t0.nextId, s) == k.id;
        }
      }
    }
  }

  lemma RegisterKeepsInv(t0: Trace, t: Trace, key: Key)
    requires Inv(t0, t) && (key.from == t.id ==> key in t.seen)
    ensures Inv(t0, Register(t, key))
  {
    hide Insert, InsertAll, NthId, FreshPackets, KeyOf, Count, Issued;
    InsertOne(t0.ring, t.seen, key);
  }

  /** The trace with the text shown. */
  function Shows(t: Trace, c: Content): Trace {
    if c.Text? then t.(shown := t.shown + [Received(c.text)]) else t
  }

  lemma ShowKeepsInv(t0: Trace, t: Trace, c: Content)
    requires Inv(t0, t)
    ensures Inv(t0, Shows(t, c)) && Inv(t0, t.(halted := true))
  {
    hide InsertAll, NthId, FreshPackets, OnceEach, Issued;
  }

  lemma RelayKeepsInv(t0: Trace, t: Trace, tx: Tx)
    requires Inv(t0, t) && tx.relayed && |tx.packet| >= HEADER_SIZE && KeyOf(tx.packet) in t.seen
    requires KeyOf(tx.packet).from != t.id && Count(t.out, KeyOf(tx.packet)) == 0
    ensures Inv(t0, t.(out := t.out + [tx]))
  {
    hide InsertAll, NthId, FreshPackets, KeyOf, Count, OnceEach, Issued;
    FreshOne(t.out, tx);
    TransmitOnce(t.id, t.seen, t.out, tx);
  }

  /** The part of a reception before the relay. */
  function Delivered(cfg: Config, t: Trace, p: Packet, env: HearEnv): Trace
    requires |p| > HEADER_SIZE
  {
    var registered := Register(t, KeyOf(p));
    if !Addressed(p, t.id) then registered
    else Deliver(cfg, registered, Parse(p).fromId, Understood(cfg, p, env), env.encrypt)
  }

  lemma DeliverKeepsInv(cfg: Config, t0: Trace, t: Trace, p: Packet, env: HearEnv)
    requires |p| > HEADER_SIZE && Inv(t0, t) && (KeyOf(p).from == t.id ==> KeyOf(p) in t.seen)
    requires |Delivered(cfg, t, p, env).seen| <= SEEN_SIZE
    ensures var d := Delivered(cfg, t, p, env);
            && Inv(t0, d) && KeyOf(p) in d.seen && t.seen <= d.seen
            && (KeyOf(p) !in t.seen ==> Count(d.out, KeyOf(p)) == 0)
  {
    hide Inv, Understood, Send, Insert, Count;
    var key := KeyOf(p);
    var registered := Register(t, key);
    RegisterKeepsInv(t0, t, key);
    NotTransmitted(t0, t, key);
    if Addressed(p, t.id) {
      var c := Understood(cfg, p, env);
      ShowKeepsInv(t0, registered, c);
      if c.Text? && c.text != PONG {
        ReplyKeepsInv(cfg, t0, Shows(registered, c), Parse(p).fromId, env.encrypt, key);
      }
    }
  }

  lemma NotTransmitted(t0: Trace, t: Trace, key: Key)
    requires Inv(t0, t)
    ensures key !in t.seen ==> Count(t.out, key) == 0
    ensures t.id == t0.id
  {
    hide InsertAll, NthId, FreshPackets, Issued;
  }

  lemma ReplyKeepsInv(cfg: Config, t0: Trace, t: Trace, to: u32, blocks: nat, key: Key)
    requires Inv(t0, t) && |Send(cfg, t, to, PONG, blocks).seen| <= SEEN_SIZE && key in t.seen
    ensures var t' := Send(cfg, t, to, PONG, blocks);
            Inv(t0, t') && t.seen <= t'.seen && Count(t'.out, key) == Count(t.out, key)
  {
    hide Inv, MakePacket, Count, KeyOf, Insert;
    SendKeepsInv(cfg, t0, t, to, PONG, blocks);
    FreshKeyIsNew(t0, t);
    SentHeader(cfg, t.id, t.nextId, to, PONG, blocks);
    CountOne(t.out, Tx(MakePacket(cfg, t.id, t.nextId, to, PONG, blocks), false), key);
  }

  /** Every key the node transmits is its own or that of the packet it has just received. */
  predicate OutKeys(out: seq<Tx>, own: u32, seen: seq<Key>, p: Packet) {
    forall tx :: tx in out ==>
      && |tx.packet| >= HEADER_SIZE
      && ((KeyOf(tx.packet).from == own && KeyOf(tx.packet) in seen)
          || (|p| >= HEADER_SIZE && KeyOf(tx.packet) == KeyOf(p)))
  }

  lemma HearKeepsInv(cfg: Config, t0: Trace, t: Trace, p: Packet, env: HearEnv)
    requires Inv(t0, t) && !t.halted && (|p| >= HEADER_SIZE && KeyOf(p).from == t.id ==> KeyOf(p) in t.seen)
    requires |Hear(cfg, t, p, env).seen| <= SEEN_SIZE
    ensures Inv(t0, Hear(cfg, t, p, env)) && t.seen <= Hear(cfg, t, p, env).seen
  {
    hide Inv, Understood, Deliver, Insert, Count, PrepareForward, Parse;
    if |p| > HEADER_SIZE {
      var d := Delivered(cfg, t, p, env);
      DeliverKeepsInv(cfg, t0, t, p, env);
      NotTransmitted(t0, t, KeyOf(p));
      NotTransmitted(t0, d, KeyOf(p));
      if !d.halted && ShouldForward(t.ring, p) {
        RelayedKeyIsNew(t0, t, p);
        RelayRewrite(p, t.id % 0x100);
        RelayKeepsInv(t0, d, Tx(PrepareForward(p, t.id % 0x100), true));
      }
    }
  }

  lemma RelayedKeyIsNew(t0: Trace, t: Trace, p: Packet)
    requires Inv(t0, t) && |p| > HEADER_SIZE && ShouldForward(t.ring, p) && |t.seen| <= SEEN_SIZE
    ensures KeyOf(p) !in t.seen
  {
    hide KeyOf, NthId, FreshPackets, Issued, OnceEach;
    if KeyOf(p) in t.seen {
      SeenIsSeen(t0.ring, t.seen, KeyOf(p));
    }
  }

  lemma TypeKeepsInv(cfg: Config, t0: Trace, t: Trace, line: Line, env: SendEnv)
    requires Inv(t0, t) && (line == [] || !RequestOf(line).SetNode?)
    requires |HandleLine(cfg, t, line, env).seen| <= SEEN_SIZE
    ensures Inv(t0, HandleLine(cfg, t, line, env)) && t.seen <= HandleLine(cfg, t, line, env).seen
  {
    hide MakePacket, Insert, InsertAll, NthId, FreshPackets, OnceEach, Issued;
    if line != [] && RequestOf(line) == SendText {
      SendKeepsInv(cfg, t0, t, BROADCAST, line, env.blocks);
    }
  }

  // ---------------------------------------------------------------- the network

  /** A pending packet that names one of the nodes as its sender has been registered by that node. */
  predicate SendersKnow(nodes: seq<Trace>, p: Packet) {
    |p| >= HEADER_SIZE ==>
      forall j :: 0 <= j < |nodes| && KeyOf(p).from == nodes[j].id ==> KeyOf(p) in nodes[j].seen
  }

  ghost predicate NetInv(net0: Net, net: Net) {
    && |net.nodes| == |net0.nodes|
    && (forall j :: 0 <= j < |net.nodes| ==> Inv(net0.nodes[j], net.nodes[j]))
    && (forall c :: c in net.pending ==> SendersKnow(net.nodes, c.packet))
  }

  lemma ActKeepsInv(cfg: Config, t0: Trace, t: Trace, a: Action)
    requires Inv(t0, t) && !t.halted && |Act(cfg, t, a).seen| <= SEEN_SIZE
    requires a.Type? && a.line != [] ==> !RequestOf(a.line).SetNode?
    requires a.Receive? && |a.packet| >= HEADER_SIZE && KeyOf(a.packet).from == t.id ==> KeyOf(a.packet) in t.seen
    ensures Inv(t0, Act(cfg, t, a)) && t.seen <= Act(cfg, t, a).seen
  {
    hide Inv, HandleLine, Hear, KeyOf;
    match a
    case Type(line, env) => TypeKeepsInv(cfg, t0, t, line, env);
    case Receive(p, env) => HearKeepsInv(cfg, t0, t, p, env);
  }

  /** The keys an action transmits. */
  lemma ActOutKeys(cfg: Config, t0: Trace, t: Trace, a: Action)
    requires !t.halted && Inv(t0, Act(cfg, t, a))
    ensures OutKeys(NewOut(t, Act(cfg, t, a)), t.id, Act(cfg, t, a).seen, if a.Receive? then a.packet else [])
  {
    hide MakePacket, Insert, Inv, Understood, PrepareForward, ShouldForward, Parse, KeyOf;
    var t' := Act(cfg, t, a);
    AllRegistered(t0, t');
    match a
    case Type(line, env) =>
      if line != [] {
        LineIsSentIff(cfg, t, line, env);
        if |line| <= MAX_TEXT {
          SentHeader(cfg, t.id, t.nextId, BROADCAST, line, env.blocks);
        }
      }
    case Receive(p, env) =>
      HearTransmits(cfg, t, p, env);
      if |p| > HEADER_SIZE {
        SentHeader(cfg, t.id, t.nextId, Parse(p).fromId, PONG, env.encrypt);
        RelayRewrite(p, t.id % 0x100);
      }
  }

  lemma AllRegistered(t0: Trace, t: Trace)
    requires Inv(t0, t)
    ensures forall tx :: tx in t.out ==> |tx.packet| >= HEADER_SIZE && KeyOf(tx.packet) in t.seen
  {
    hide KeyOf, InsertAll, Issued, FreshPackets, NthId, Count;
  }

  lemma StillKnown(nodes: seq<Trace>, j: nat, t: Trace, p: Packet)
    requires j < |nodes| && t.id == nodes[j].id && nodes[j].seen <= t.seen && SendersKnow(nodes, p)
    ensures SendersKnow(nodes[j := t], p)
  {
    hide KeyOf;
  }

  lemma NewlyKnown(net: Net, j: nat, t: Trace, p: Packet, tx: Tx)
    requires DistinctIds(net) && j < |net.nodes| && t.id == net.nodes[j].id && net.nodes[j].seen <= t.seen
    requires SendersKnow(net.nodes, p)
    requires |tx.packet| >= HEADER_SIZE
    requires (KeyOf(tx.packet).from == t.id && KeyOf(tx.packet) in t.seen)
             || (|p| >= HEADER_SIZE && KeyOf(tx.packet) == KeyOf(p))
    ensures SendersKnow(net.nodes[j := t], tx.packet)
  {
    hide KeyOf;
  }

  lemma StepKeepsInv(cfg: Config, net0: Net, net: Net, e: Event)
    requires NetInv(net0, net) && DistinctIds(net) && NoRenaming(e)
    requires forall j :: 0 <= j < |net.nodes| ==> |Step(cfg, net, e).nodes[j].seen| <= SEEN_SIZE
    ensures NetInv(net0, Step(cfg, net, e)) && DistinctIds(Step(cfg, net, e))
  {
    hide Inv, Act, OutKeys, Broadcasts, NewOut, KeyOf, SendersKnow;
    if Enabled(net, e) {
      var j := Actor(net, e);
      var t, a := net.nodes[j], ActionOf(net, e);
      var t' := Act(cfg, t, a);
      var net' := Step(cfg, net, e);
      assert net'.nodes[j] == t';
      PacketKnown(net, e);
      ActKeepsInv(cfg, net0.nodes[j], t, a);
      SameId(net0.nodes[j], t);
      SameId(net0.nodes[j], t');
      ActOutKeys(cfg, net0.nodes[j], t, a);
      forall c | c in net'.pending
        ensures SendersKnow(net'.nodes, c.packet)
      {
        if c in Remaining(net, e) {
          assert c in net.pending;
          StillKnown(net.nodes, j, t', c.packet);
        } else {
          BroadcastKnown(net, e, t', c);
        }
      }
    }
  }

  lemma SameId(t0: Trace, t: Trace)
    requires Inv(t0, t)
    ensures t.id == t0.id
  {
    hide InsertAll, NthId, FreshPackets, Issued, OnceEach;
  }

  /** What the acting node hears is known to its sender. */
  lemma PacketKnown(net: Net, e: Event)
    requires Enabled(net, e) && forall c :: c in net.pending ==> SendersKnow(net.nodes, c.packet)
    ensures var a := ActionOf(net, e);
            a.Receive? ==>
              && SendersKnow(net.nodes, a.packet)
              && (|a.packet| >= HEADER_SIZE && KeyOf(a.packet).from == net.nodes[Actor(net, e)].id ==>
                    KeyOf(a.packet) in net.nodes[Actor(net, e)].seen)
  {
    hide KeyOf;
  }

  lemma BroadcastKnown(net: Net, e: Event, t': Trace, c: Copy)
    requires Enabled(net, e) && DistinctIds(net)
    requires forall c :: c in net.pending ==> SendersKnow(net.nodes, c.packet)
    requires var t := net.nodes[Actor(net, e)];
             && t'.id == t.id && t.seen <= t'.seen
             && OutKeys(NewOut(t, t'), t.id, t'.seen, if e.Heard? then net.pending[e.i].packet else [])
             && c in Broadcasts(NewOut(t, t'), Actor(net, e), e.masks, |net.nodes|)
    ensures SendersKnow(net.nodes[Actor(net, e) := t'], c.packet)
  {
    hide KeyOf, Broadcasts, NewOut, SendersKnow;
    var j := Actor(net, e);
    var out := NewOut(net.nodes[j], t');
    BroadcastsFrom(out, j, e.masks, |net.nodes|);
    var tx :| tx in out && tx.packet == c.packet;
    var p: Packet := if e.Heard? then net.pending[e.i].packet else [];
    assert SendersKnow(net.nodes, p) by {
      if !e.Heard? {
        NobodySent(net.nodes);
      }
    }
    NewlyKnown(net, j, t', p, tx);
  }

  lemma NobodySent(nodes: seq<Trace>)
    ensures SendersKnow(nodes, [])
  {
  }

  lemma ActSeenGrows(cfg: Config, t: Trace, a: Action)
    ensures |t.seen| <= |Act(cfg, t, a).seen|
  {
    hide Understood, MakePacket, PrepareForward, ShouldForward, Insert, Parse;
  }

  lemma StepSeenGrows(cfg: Config, net: Net, e: Event, j: nat)
    requires j < |net.nodes|
    ensures |net.nodes[j].seen| <= |Step(cfg, net, e).nodes[j].seen|
  {
    hide Act, Broadcasts, NewOut;
    if Enabled(net, e) {
      ActSeenGrows(cfg, net.nodes[Actor(net, e)], ActionOf(net, e));
    }
  }

  /** A run starts here: nobody has a history, and no packet under way names a node of the network as its sender. */
  predicate Start(net: Net) {
    && DistinctIds(net)
    && (forall j :: 0 <= j < |net.nodes| ==> net.nodes[j].seen == [] && net.nodes[j].out == [])
    && (forall c, j :: c in net.pending && 0 <= j < |net.nodes| ==>
          |c.packet| >= HEADER_SIZE ==> KeyOf(c.packet).from != net.nodes[j].id)
  }

  lemma StartInv(net: Net)
    requires Start(net)
    ensures NetInv(net, net)
  {
    hide KeyOf;
  }

  lemma {:induction false} RunKeepsInv(cfg: Config, net: Net, events: seq<Event>)
    requires Start(net) && forall e :: e in events ==> NoRenaming(e)
    requires forall j :: 0 <= j < |net.nodes| ==> |Run(cfg, net, events).nodes[j].seen| <= SEEN_SIZE
    ensures NetInv(net, Run(cfg, net, events)) && DistinctIds(Run(cfg, net, events))
  {
    hide Start, NetInv, Step, NoRenaming;
    if events == [] {
      StartInv(net);
      StartIds(net);
    } else {
      var init, e := events[..|events| - 1], events[|events| - 1];
      var final := Run(cfg, net, events);
      assert final == Step(cfg, Run(cfg, net, init), e);
      assert forall j :: 0 <= j < |net.nodes| ==> |final.nodes[j].seen| <= SEEN_SIZE;
      forall j | 0 <= j < |net.nodes|
        ensures |Run(cfg, net, init).nodes[j].seen| <= SEEN_SIZE
      {
        StepSeenGrows(cfg, Run(cfg, net, init), e, j);
      }
      RunKeepsInv(cfg, net, init);
      StepKeepsInv(cfg, net, Run(cfg, net, init), e);
    }
  }

  lemma StartIds(net: Net)
    requires Start(net)
    ensures DistinctIds(net)
  {
    hide KeyOf;
  }

  /** Transmissions of a key by all nodes. */
  function TotalCount(nodes: seq<Trace>, k: Key): nat {
    if nodes == [] then 0 else TotalCount(nodes[..|nodes| - 1], k) + Count(nodes[|nodes| - 1].out, k)
  }

  lemma {:induction false} TotalAtMost(nodes: seq<Trace>, k: Key)
    requires forall j :: 0 <= j < |nodes| ==> Count(nodes[j].out, k) <= 1
    ensures TotalCount(nodes, k) <= |nodes|
  {
    hide Count;
    if nodes != [] {
      TotalAtMost(nodes[..|nodes| - 1], k);
    }
  }

  /**
   * In a network of distinct ids that nobody changes, as long as no node registers more than 32 packets: each node
   * transmits a given packet at most once, never relays its own, and N nodes transmit it at most N times.
   */
  lemma LinearFloodCost(cfg: Config, net: Net, events: seq<Event>, k: Key)
    requires Start(net) && forall e :: e in events ==> NoRenaming(e)
    requires forall j :: 0 <= j < |net.nodes| ==> |Run(cfg, net, events).nodes[j].seen| <= SEEN_SIZE
    ensures var nodes := Run(cfg, net, events).nodes;
            && (forall j :: 0 <= j < |nodes| ==> Count(nodes[j].out, k) <= 1)
            && (forall j, tx :: 0 <= j < |nodes| && tx in nodes[j].out && tx.relayed ==>
                  |tx.packet| >= HEADER_SIZE && KeyOf(tx.packet).from != net.nodes[j].id)
            && TotalCount(nodes, k) <= |net.nodes|
  {
    hide Run, Start, KeyOf, Count, InsertAll, Issued, NthId, FreshPackets, NoRenaming, SendersKnow;
    RunKeepsInv(cfg, net, events);
    TotalAtMost(Run(cfg, net, events).nodes, k);
  }
}

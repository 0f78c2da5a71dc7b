/** A lossy broadcast network of nodes sharing one channel key, and how long its chatter can last. */
module Network {
  import opened Bytes
  import opened MeshPacket
  import opened FloodRouter
  import opened LineInput
  import opened MeshNode
  import opened Delivery

  /** A packet that node `dst` is about to receive. */
  datatype Copy = Copy(dst: nat, packet: Packet)

  datatype Net = Net(nodes: seq<Trace>, pending: seq<Copy>)

  /**
   * A line is completed at a node, or the i-th pending copy is received. The k-th packet this makes the node
   * transmit is heard by the other nodes whose bit is set in masks[k]; the rest lose it.
   */
  datatype Event =
    | Typed(node: nat, line: Line, sendEnv: SendEnv, masks: seq<seq<bool>>)
    | Heard(i: nat, hearEnv: HearEnv, masks: seq<seq<bool>>)

  function Actor(net: Net, e: Event): nat
    requires e.Heard? ==> e.i < |net.pending|
  {
    match e case Typed(node, _, _, _) => node case Heard(i, _, _) => net.pending[i].dst
  }

  /** The node exists and is still running. */
  predicate Enabled(net: Net, e: Event) {
    && (e.Heard? ==> e.i < |net.pending|)
    && Actor(net, e) < |net.nodes|
    && !net.nodes[Actor(net, e)].halted
  }

  function ActionOf(net: Net, e: Event): Action
    requires Enabled(net, e)
  {
    match e
    case Typed(_, line, env, _) => Type(line, env)
    case Heard(i, env, _) => Receive(net.pending[i].packet, env)
  }

  predicate Hears(mask: seq<bool>, sender: nat, node: nat) {
    node != sender && node < |mask| && mask[node]
  }

  /** Copies of a packet for the first n nodes. */
  function Copies(packet: Packet, sender: nat, mask: seq<bool>, n: nat): seq<Copy> {
    if n == 0 then []
    else Copies(packet, sender, mask, n - 1) + (if Hears(mask, sender, n - 1) then [Copy(n - 1, packet)] else [])
  }

  function Broadcasts(out: seq<Tx>, sender: nat, masks: seq<seq<bool>>, n: nat): seq<Copy> {
    if out == [] then []
    else
      var last := |out| - 1;
      Broadcasts(out[..last], sender, masks, n)
      + Copies(out[last].packet, sender, if last < |masks| then masks[last] else [], n)
  }

  /** The transmissions of one action, which come after those of the past. */
  function NewOut(before: Trace, after: Trace): seq<Tx> {
    if |before.out| <= |after.out| then after.out[|before.out|..] else []
  }

  function Remaining(net: Net, e: Event): seq<Copy>
    requires Enabled(net, e)
  {
    match e
    case Typed(_, _, _, _) => net.pending
    case Heard(i, _, _) => net.pending[..i] + net.pending[i + 1..]
  }

  /** Events that are not enabled have no effect. */
  function Step(cfg: Config, net: Net, e: Event): (net': Net)
    ensures |net'.nodes| == |net.nodes|
  {
    if !Enabled(net, e) then net
    else
      var j := Actor(net, e);
      var t := Act(cfg, net.nodes[j], ActionOf(net, e));
      Net(net.nodes[j := t],
          Remaining(net, e) + Broadcasts(NewOut(net.nodes[j], t), j, e.masks, |net.nodes|))
  }

  function Run(cfg: Config, net: Net, events: seq<Event>): (net': Net)
    ensures |net'.nodes| == |net.nodes|
  {
    if events == [] then net
    else Step(cfg, Run(cfg, net, events[..|events| - 1]), events[|events| - 1])
  }

  predicate DistinctIds(net: Net) {
    forall j, l :: 0 <= j < l < |net.nodes| ==> net.nodes[j].id != net.nodes[l].id
  }

  predicate NoRenaming(e: Event) {
    e.Typed? && e.line != [] ==> !RequestOf(e.line).SetNode?
  }

  // ---------------------------------------------------------------- who is in range of whom

  /** The second node is in radio range of the first. */
  datatype Link = Link(sender: nat, receiver: nat)

  /** Only nodes in range of the acting one hear what it transmits. */
  ghost predicate InRange(links: set<Link>, net: Net, e: Event) {
    Enabled(net, e) ==>
      forall k, j :: 0 <= k < |e.masks| && 0 <= j < |net.nodes| && Hears(e.masks[k], Actor(net, e), j) ==>
        Link(Actor(net, e), j) in links
  }

  ghost predicate AllInRange(cfg: Config, links: set<Link>, net: Net, events: seq<Event>) {
    events == []
    || (AllInRange(cfg, links, net, events[..|events| - 1])
        && InRange(links, Run(cfg, net, events[..|events| - 1]), events[|events| - 1]))
  }

  // ---------------------------------------------------------------- what actions transmit

  /** Every block operation that the reception of a packet by a node asks for succeeds. */
  predicate HearAnswered(cfg: Config, t: Trace, p: Packet, env: HearEnv) {
    |p| > HEADER_SIZE && Addressed(p, t.id) ==>
      Covers(env.decrypt, p) && (Answers(cfg, t, p, env) ==> env.encrypt >= 1)
  }

  predicate TypeAnswered(line: Line, env: SendEnv) {
    Sendable(line) ==> 4 + |line| <= 16 * env.blocks
  }

  /** Every block operation that an event asks for succeeds. */
  predicate Answered(cfg: Config, net: Net, e: Event) {
    Enabled(net, e) ==>
      match e
      case Typed(_, line, env, _) => TypeAnswered(line, env)
      case Heard(i, env, _) => HearAnswered(cfg, net.nodes[net.pending[i].dst], net.pending[i].packet, env)
  }

  /** Every block operation of a run succeeds. */
  predicate AllAnswered(cfg: Config, net: Net, events: seq<Event>) {
    events == []
    || (AllAnswered(cfg, net, events[..|events| - 1])
        && Answered(cfg, Run(cfg, net, events[..|events| - 1]), events[|events| - 1]))
  }

  lemma {:induction false} CopiesOf(packet: Packet, sender: nat, mask: seq<bool>, n: nat)
    ensures |Copies(packet, sender, mask, n)| <= if sender < n then n - 1 else n
    ensures forall c :: c in Copies(packet, sender, mask, n) ==> c.packet == packet && c.dst < n
  {
    if n > 0 {
      CopiesOf(packet, sender, mask, n - 1);
    }
  }

  lemma {:induction false} BroadcastsFrom(out: seq<Tx>, sender: nat, masks: seq<seq<bool>>, n: nat)
    ensures forall c :: c in Broadcasts(out, sender, masks, n) ==> exists tx :: tx in out && tx.packet == c.packet
  {
    hide Copies;
    if out != [] {
      var last := |out| - 1;
      BroadcastsFrom(out[..last], sender, masks, n);
      CopiesOf(out[last].packet, sender, if last < |masks| then masks[last] else [], n);
      assert out[last] in out;
    }
  }

  predicate Answers(cfg: Config, t: Trace, p: Packet, env: HearEnv) {
    |p| > HEADER_SIZE && Addressed(p, t.id)
    && var content := Understood(cfg, p, env);
       content.Text? && content.text != PONG
  }

  /** The reply of an action, if any, then the relay, if any. */
  function Reply(cfg: Config, t: Trace, p: Packet, env: HearEnv): seq<Tx>
    requires |p| > HEADER_SIZE
  {
    if Answers(cfg, t, p, env)
    then [Tx(MakePacket(cfg, t.id, t.nextId, Parse(p).fromId, PONG, env.encrypt), false)]
    else []
  }

  function Relay(cfg: Config, t: Trace, p: Packet, env: HearEnv): seq<Tx>
    requires |p| > HEADER_SIZE
  {
    if ShouldForward(t.ring, p) && !Hear(cfg, t, p, env).halted
    then [Tx(PrepareForward(p, t.id % 0x100), true)]
    else []
  }

  lemma HearTransmits(cfg: Config, t: Trace, p: Packet, env: HearEnv)
    ensures |p| <= HEADER_SIZE ==> Hear(cfg, t, p, env) == t
    ensures |p| > HEADER_SIZE ==>
              Hear(cfg, t, p, env).out == t.out + Reply(cfg, t, p, env) + Relay(cfg, t, p, env)
  {
    hide Understood, MakePacket, PrepareForward, ShouldForward, Insert, Parse;
  }

  // ---------------------------------------------------------------- a potential for packets

  /** The packet may make addressed nodes reply: it holds a text to be answered, or decoding it is undefined. */
  predicate Loud(cfg: Config, p: Packet)
    requires |p| >= HEADER_SIZE
  {
    var c := ContentOf(cfg, p, FULL);
    c.Unknown? || (c.Text? && c.text != PONG)
  }

  function Times(a: nat, b: nat): nat {
    a * b
  }

  lemma TimesMonotone(a: nat, a': nat, b: nat, b': nat)
    requires a <= a' && b <= b'
    ensures Times(a, b) <= Times(a', b')
  {
    assert a * b <= a' * b;
    assert a' * b <= a' * b';
  }

  lemma TimesAdds(a: nat, b: nat, c: nat)
    ensures Times(a, b + c) == Times(a, b) + Times(a, c)
    ensures Times(b + c, a) == Times(b, a) + Times(c, a)
  {
  }

  lemma TimesOne(a: nat)
    ensures Times(1, a) == a && Times(0, a) == 0 && Times(a, 0) == 0
  {
  }

  /** Bound on the receptions caused by one copy of a packet that nobody answers, with m other nodes. */
  function QuietCost(m: nat, hop: nat): nat {
    1 + if hop == 0 then 0 else Times(m, QuietCost(m, hop - 1))
  }

  /** The same for a packet that is answered wherever it arrives. */
  function LoudCost(m: nat, hop: nat): nat {
    1 + Times(m, QuietCost(m, 3)) + if hop == 0 then 0 else Times(m, LoudCost(m, hop - 1))
  }

  function Weight(cfg: Config, m: nat, p: Packet): nat {
    if |p| <= HEADER_SIZE then 1
    else if Loud(cfg, p) then LoudCost(m, Hop(p)) else QuietCost(m, Hop(p))
  }

  function CopiesWeight(cfg: Config, m: nat, copies: seq<Copy>): nat {
    if copies == [] then 0
    else CopiesWeight(cfg, m, copies[..|copies| - 1]) + Weight(cfg, m, copies[|copies| - 1].packet)
  }

  function OutWeight(cfg: Config, m: nat, out: seq<Tx>): nat {
    if out == [] then 0 else OutWeight(cfg, m, out[..|out| - 1]) + Weight(cfg, m, out[|out| - 1].packet)
  }

  lemma {:induction false} CopiesWeightAdds(cfg: Config, m: nat, a: seq<Copy>, b: seq<Copy>)
    ensures CopiesWeight(cfg, m, a + b) == CopiesWeight(cfg, m, a) + CopiesWeight(cfg, m, b)
    decreases |b|
  {
    hide Weight;
    if b == [] {
      assert a + b == a;
    } else {
      CopiesWeightAdds(cfg, m, a, b[..|b| - 1]);
      assert (a + b)[..|a + b| - 1] == a + b[..|b| - 1];
    }
  }

  lemma {:induction false} EqualCopiesWeight(cfg: Config, m: nat, copies: seq<Copy>, p: Packet)
    requires forall c :: c in copies ==> c.packet == p
    ensures CopiesWeight(cfg, m, copies) == Times(|copies|, Weight(cfg, m, p))
  {
    hide Weight, Times;
    var w := Weight(cfg, m, p);
    TimesOne(w);
    if copies != [] {
      EqualCopiesWeight(cfg, m, copies[..|copies| - 1], p);
      TimesAdds(w, |copies| - 1, 1);
    }
  }

  lemma {:induction false} BroadcastsWeight(cfg: Config, out: seq<Tx>, sender: nat, masks: seq<seq<bool>>, n: nat)
    requires sender < n
    ensures CopiesWeight(cfg, n - 1, Broadcasts(out, sender, masks, n)) <= Times(n - 1, OutWeight(cfg, n - 1, out))
  {
    hide Weight, Copies, Times, CopiesWeight;
    if out == [] {
      EqualCopiesWeight(cfg, n - 1, [], []);
      TimesOne(Weight(cfg, n - 1, []));
    } else {
      var m := n - 1;
      var last := |out| - 1;
      var mask := if last < |masks| then masks[last] else [];
      var p := out[last].packet;
      var copies := Copies(p, sender, mask, n);
      BroadcastsWeight(cfg, out[..last], sender, masks, n);
      CopiesOf(p, sender, mask, n);
      EqualCopiesWeight(cfg, m, copies, p);
      TimesMonotone(|copies|, m, Weight(cfg, m, p), Weight(cfg, m, p));
      CopiesWeightAdds(cfg, m, Broadcasts(out[..last], sender, masks, n), copies);
      TimesAdds(m, OutWeight(cfg, m, out[..last]), Weight(cfg, m, p));
    }
  }

  /** A pong is answered nowhere. */
  lemma PongWeight(cfg: Config, m: nat, id: u32, packetId: u32, to: u32, blocks: nat)
    requires blocks >= 1
    ensures Weight(cfg, m, MakePacket(cfg, id, packetId, to, PONG, blocks)) == QuietCost(m, 3)
  {
    SentContent(cfg, id, packetId, to, PONG, blocks);
    SentHeader(cfg, id, packetId, to, PONG, blocks);
    hide ContentOf, Parse, MakePacket, QuietCost, LoudCost;
  }

  lemma {:induction false} QuietIsCheaper(m: nat, hop: nat)
    ensures QuietCost(m, hop) <= LoudCost(m, hop)
  {
    hide Times;
    if hop > 0 {
      QuietIsCheaper(m, hop - 1);
      TimesMonotone(m, m, QuietCost(m, hop - 1), LoudCost(m, hop - 1));
    }
  }

  lemma TextWeight(cfg: Config, m: nat, id: u32, packetId: u32, to: u32, text: seq<byte>, blocks: nat)
    requires |text| <= MAX_TEXT
    ensures Weight(cfg, m, MakePacket(cfg, id, packetId, to, text, blocks)) <= LoudCost(m, 3)
  {
    SentHeader(cfg, id, packetId, to, text, blocks);
    QuietIsCheaper(m, 3);
    hide ContentOf, Parse, MakePacket, QuietCost, LoudCost;
  }

  lemma RelayWeight(cfg: Config, m: nat, p: Packet, me: byte)
    requires |p| > HEADER_SIZE && Hop(p) > 0
    ensures Weight(cfg, m, PrepareForward(p, me)) ==
              if Loud(cfg, p) then LoudCost(m, Hop(p) - 1) else QuietCost(m, Hop(p) - 1)
  {
    ForwardedContent(cfg, p, me, FULL);
    RelayRewrite(p, me);
    hide ContentOf, Parse, PrepareForward, QuietCost, LoudCost;
  }

  /** What replies and relays may weigh. */
  function ReplyBound(cfg: Config, m: nat, p: Packet): nat
    requires |p| > HEADER_SIZE
  {
    if Loud(cfg, p) then QuietCost(m, 3) else 0
  }

  function RelayBound(cfg: Config, m: nat, p: Packet): nat
    requires |p| > HEADER_SIZE
  {
    if Hop(p) == 0 then 0
    else if Loud(cfg, p) then LoudCost(m, Hop(p) - 1) else QuietCost(m, Hop(p) - 1)
  }

  lemma WeightIsBounds(cfg: Config, m: nat, p: Packet)
    requires |p| > HEADER_SIZE
    ensures Weight(cfg, m, p) == 1 + Times(m, ReplyBound(cfg, m, p)) + Times(m, RelayBound(cfg, m, p))
  {
    hide Loud, Hop, Times;
    TimesOne(m);
  }

  lemma ReplyWeight(cfg: Config, m: nat, t: Trace, p: Packet, env: HearEnv)
    requires |p| > HEADER_SIZE
    ensures OutWeight(cfg, m, Reply(cfg, t, p, env)) <= LoudCost(m, 3)
    ensures HearAnswered(cfg, t, p, env) ==> OutWeight(cfg, m, Reply(cfg, t, p, env)) <= ReplyBound(cfg, m, p)
  {
    hide ContentOf, MakePacket, Weight, QuietCost, LoudCost, Parse;
    TextWeight(cfg, m, t.id, t.nextId, Parse(p).fromId, PONG, env.encrypt);
    if Addressed(p, t.id) && Covers(env.decrypt, p) {
      ContentCovered(cfg, p, env.decrypt);
    }
    if env.encrypt >= 1 {
      PongWeight(cfg, m, t.id, t.nextId, Parse(p).fromId, env.encrypt);
    }
    var reply := Reply(cfg, t, p, env);
    assert |reply| == 1 ==> reply[..0] == [];
  }

  lemma RelaysWeight(cfg: Config, m: nat, t: Trace, p: Packet, env: HearEnv)
    requires |p| > HEADER_SIZE
    ensures OutWeight(cfg, m, Relay(cfg, t, p, env)) <= RelayBound(cfg, m, p)
  {
    if Hop(p) > 0 {
      RelayWeight(cfg, m, p, t.id % 0x100);
    }
    hide Hear, WasSeen, Weight, QuietCost, LoudCost, Parse, PrepareForward, Loud;
    var relay := Relay(cfg, t, p, env);
    assert |relay| == 1 ==> relay[..0] == [];
  }

  lemma AtMostOne(cfg: Config, t: Trace, p: Packet, env: HearEnv)
    requires |p| > HEADER_SIZE
    ensures |Reply(cfg, t, p, env)| <= 1 && |Relay(cfg, t, p, env)| <= 1
  {
    hide Understood, Hear, ShouldForward;
  }

  /** What a failing block operation may cost. */
  function Price(m: nat): nat {
    Times(m, LoudCost(m, 3))
  }

  /**
   * A reception pays for itself and for everything it makes the node transmit; if a block operation fails in it,
   * at most the price of one answered text is missing.
   */
  lemma HearWeight(cfg: Config, m: nat, t: Trace, p: Packet, env: HearEnv)
    ensures var out := NewOut(t, Hear(cfg, t, p, env));
            1 + Times(m, OutWeight(cfg, m, out)) <=
            Weight(cfg, m, p) + if HearAnswered(cfg, t, p, env) then 0 else Price(m)
  {
    hide Hear, Times, Reply, Relay, ReplyBound, RelayBound, Loud, Hop, QuietCost, LoudCost, HearAnswered;
    HearTransmits(cfg, t, p, env);
    TimesOne(m);
    if |p| > HEADER_SIZE {
      AtMostOne(cfg, t, p, env);
      var reply, relay := Reply(cfg, t, p, env), Relay(cfg, t, p, env);
      var out := NewOut(t, Hear(cfg, t, p, env));
      assert out == reply + relay;
      SplitOut(cfg, m, reply, relay);
      ReplyWeight(cfg, m, t, p, env);
      RelaysWeight(cfg, m, t, p, env);
      WeightIsBounds(cfg, m, p);
      TimesAdds(m, OutWeight(cfg, m, reply), OutWeight(cfg, m, relay));
      if HearAnswered(cfg, t, p, env) {
        TimesMonotone(m, m, OutWeight(cfg, m, reply), ReplyBound(cfg, m, p));
      } else {
        TimesMonotone(m, m, OutWeight(cfg, m, reply), LoudCost(m, 3));
      }
      TimesMonotone(m, m, OutWeight(cfg, m, relay), RelayBound(cfg, m, p));
    }
  }

  lemma SplitOut(cfg: Config, m: nat, a: seq<Tx>, b: seq<Tx>)
    requires |a| <= 1 && |b| <= 1
    ensures OutWeight(cfg, m, a + b) == OutWeight(cfg, m, a) + OutWeight(cfg, m, b)
  {
    hide Weight;
    if b == [] {
      assert a + b == a;
    } else {
      assert (a + b)[..|a + b| - 1] == a && b[..0] == [];
    }
  }

  // ---------------------------------------------------------------- quiescence

  /** Receptions that take place in a run. */
  function Receptions(cfg: Config, net: Net, events: seq<Event>): nat {
    if events == [] then 0
    else
      var init := events[..|events| - 1];
      var e := events[|events| - 1];
      Receptions(cfg, net, init) + (if e.Heard? && Enabled(Run(cfg, net, init), e) then 1 else 0)
  }

  /** The event adds to the chatter: it sends a typed text, or a block operation fails in it. */
  predicate Costs(cfg: Config, net: Net, e: Event) {
    Enabled(net, e) && ((e.Typed? && Sendable(e.line)) || !Answered(cfg, net, e))
  }

  /** Events of a run that add to the chatter. */
  function Costly(cfg: Config, net: Net, events: seq<Event>): nat {
    if events == [] then 0
    else
      var init := events[..|events| - 1];
      Costly(cfg, net, init) + if Costs(cfg, Run(cfg, net, init), events[|events| - 1]) then 1 else 0
  }

  lemma StepWeight(cfg: Config, net: Net, e: Event)
    requires Enabled(net, e)
    ensures var m := |net.nodes| - 1;
            CopiesWeight(cfg, m, Step(cfg, net, e).pending) + (if e.Heard? then 1 else 0) <=
            CopiesWeight(cfg, m, net.pending) + (if Costs(cfg, net, e) then Price(m) else 0)
  {
    hide HandleLine, Hear, Weight, Times, NewOut, OutWeight, Broadcasts, LoudCost, CopiesWeight, HearAnswered, Sendable;
    var m := |net.nodes| - 1;
    var j := Actor(net, e);
    var t := net.nodes[j];
    var t' := Act(cfg, t, ActionOf(net, e));
    var out := NewOut(t, t');
    BroadcastsWeight(cfg, out, j, e.masks, |net.nodes|);
    CopiesWeightAdds(cfg, m, Remaining(net, e), Broadcasts(out, j, e.masks, |net.nodes|));
    match e
    case Typed(_, line, env, _) =>
      TypedWeight(cfg, m, t, line, env);
      TimesOne(m);
      TimesMonotone(m, m, OutWeight(cfg, m, out), if Sendable(line) then LoudCost(m, 3) else 0);
    case Heard(i, env, _) =>
      HearWeight(cfg, m, t, net.pending[i].packet, env);
      RemovedWeight(cfg, m, net.pending, i);
  }

  lemma TypedWeight(cfg: Config, m: nat, t: Trace, line: Line, env: SendEnv)
    ensures OutWeight(cfg, m, NewOut(t, HandleLine(cfg, t, line, env))) <= if Sendable(line) then LoudCost(m, 3) else 0
  {
    hide MakePacket, LoudCost;
    if line != [] {
      LineIsSentIff(cfg, t, line, env);
      if Sendable(line) {
        TextWeight(cfg, m, t.id, t.nextId, BROADCAST, line, env.blocks);
        var tx := Tx(MakePacket(cfg, t.id, t.nextId, BROADCAST, line, env.blocks), false);
        assert NewOut(t, HandleLine(cfg, t, line, env)) == [tx];
        assert [tx][..0] == [];
      }
    }
  }

  lemma RemovedWeight(cfg: Config, m: nat, copies: seq<Copy>, i: nat)
    requires i < |copies|
    ensures CopiesWeight(cfg, m, copies) ==
            CopiesWeight(cfg, m, copies[..i] + copies[i + 1..]) + Weight(cfg, m, copies[i].packet)
  {
    hide Weight;
    var one := [copies[i]];
    assert copies == copies[..i] + one + copies[i + 1..];
    CopiesWeightAdds(cfg, m, copies[..i] + one, copies[i + 1..]);
    CopiesWeightAdds(cfg, m, copies[..i], one);
    CopiesWeightAdds(cfg, m, copies[..i], copies[i + 1..]);
    assert one[..0] == [];
  }

  /**
   * From any node states and any finite set of pending copies, whatever is lost and whatever block operations fail:
   * the receptions of a run are bounded by a number computed from the pending packets, plus a price for each text
   * typed and for each event in which a block operation fails.
   */
  lemma {:induction false} Quiescence(cfg: Config, net: Net, events: seq<Event>)
    requires |net.nodes| > 0
    ensures var m := |net.nodes| - 1;
            Receptions(cfg, net, events) + CopiesWeight(cfg, m, Run(cfg, net, events).pending) <=
            CopiesWeight(cfg, m, net.pending) + Times(Costly(cfg, net, events), Price(m))
  {
    hide Price, Step, Times, CopiesWeight, Costs;
    var m := |net.nodes| - 1;
    TimesOne(Price(m));
    if events != [] {
      var init, e := events[..|events| - 1], events[|events| - 1];
      Quiescence(cfg, net, init);
      var mid := Run(cfg, net, init);
      TimesAdds(Price(m), Costly(cfg, net, init), 1);
      if Enabled(mid, e) {
        StepWeight(cfg, mid, e);
      } else {
        IdleStep(cfg, mid, e);
      }
    }
  }

  function LinesTyped(events: seq<Event>): nat {
    if events == [] then 0
    else LinesTyped(events[..|events| - 1]) + (if events[|events| - 1].Typed? then 1 else 0)
  }

  lemma {:induction false} CostlyAreTyped(cfg: Config, net: Net, events: seq<Event>)
    requires AllAnswered(cfg, net, events)
    ensures Costly(cfg, net, events) <= LinesTyped(events)
  {
    hide Answered, Enabled, Sendable;
    if events != [] {
      CostlyAreTyped(cfg, net, events[..|events| - 1]);
    }
  }

  /** With a cipher that always answers, a network in which nobody types falls silent within its initial weight. */
  lemma QuiescenceWithCipher(cfg: Config, net: Net, events: seq<Event>)
    requires |net.nodes| > 0 && AllAnswered(cfg, net, events)
    ensures var m := |net.nodes| - 1;
            Receptions(cfg, net, events) <=
            CopiesWeight(cfg, m, net.pending) + Times(LinesTyped(events), Price(m))
    ensures LinesTyped(events) == 0 ==>
              Receptions(cfg, net, events) <= CopiesWeight(cfg, |net.nodes| - 1, net.pending)
  {
    hide Price, Times, CopiesWeight, Costly, AllAnswered, LinesTyped;
    var price := Price(|net.nodes| - 1);
    Quiescence(cfg, net, events);
    CostlyAreTyped(cfg, net, events);
    TimesMonotone(Costly(cfg, net, events), LinesTyped(events), price, price);
    TimesOne(price);
  }

  lemma IdleStep(cfg: Config, net: Net, e: Event)
    requires !Enabled(net, e)
    ensures Step(cfg, net, e) == net
  {
  }
}

/** How far a text gets when nothing is lost. */
module Reach {
  import opened Bytes
  import opened MeshPacket
  import opened FloodRouter
  import opened LineInput
  import opened MeshNode
  import opened Delivery
  import opened Network
  import opened Relaying

  /** Every packet that an event puts on the air is heard by every other node in range. */
  predicate Lossless(cfg: Config, links: set<Link>, net: Net, e: Event) {
    Enabled(net, e) ==>
      var j := Actor(net, e);
      var out := NewOut(net.nodes[j], Act(cfg, net.nodes[j], ActionOf(net, e)));
      forall k, d :: 0 <= k < |out| && 0 <= d < |net.nodes| && d != j && Link(j, d) in links ==>
        Reaches(e, k, j, d)
  }

  /** The k-th transmission of the event, made by node j, is heard by node d. */
  predicate Reaches(e: Event, k: nat, j: nat, d: nat) {
    k < |e.masks| && Hears(e.masks[k], j, d)
  }

  predicate AllLossless(cfg: Config, links: set<Link>, net: Net, events: seq<Event>) {
    events == []
    || (AllLossless(cfg, links, net, events[..|events| - 1])
        && Lossless(cfg, links, Run(cfg, net, events[..|events| - 1]), events[|events| - 1]))
  }

  // ---------------------------------------------------------------- one link is certain

  /** The packet is on its way to the node, or the node has shown its text. */
  predicate Underway(net: Net, d: nat, p: Packet, text: seq<byte>) {
    Copy(d, p) in net.pending || (d < |net.nodes| && Received(text) in net.nodes[d].shown)
  }

  /** A broadcast text that is read wherever decryption is not cut short. */
  predicate ToEverybody(cfg: Config, p: Packet, text: seq<byte>) {
    |p| > HEADER_SIZE && Parse(p).toId == BROADCAST && ContentOf(cfg, p, FULL) == Text(TEXT_PORT, text)
  }

  lemma ShownGrows(cfg: Config, t: Trace, a: Action)
    ensures t.shown <= Act(cfg, t, a).shown
  {
    hide Understood, MakePacket, PrepareForward, ShouldForward, Insert, Parse;
  }

  lemma StepKeepsUnderway(cfg: Config, net: Net, e: Event, d: nat, p: Packet, text: seq<byte>)
    requires Underway(net, d, p, text) && ToEverybody(cfg, p, text) && Answered(cfg, net, e)
    ensures Underway(Step(cfg, net, e), d, p, text)
  {
    hide Act, Broadcasts, NewOut, Parse, ContentOf, Answers;
    if Enabled(net, e) {
      var j := Actor(net, e);
      ShownGrows(cfg, net.nodes[j], ActionOf(net, e));
      if Copy(d, p) in net.pending && Copy(d, p) !in Remaining(net, e) {
        TakenCopy(net, e, Copy(d, p));
        ContentCovered(cfg, p, e.hearEnv.decrypt);
        HeardText(cfg, net.nodes[d], p, e.hearEnv, text);
        ShownLast(cfg, net.nodes[d], ActionOf(net, e), text);
      }
    }
  }

  lemma TakenCopy(net: Net, e: Event, c: Copy)
    requires Enabled(net, e) && c in net.pending && c !in Remaining(net, e)
    ensures e.Heard? && net.pending[e.i] == c
  {
    var k :| 0 <= k < |net.pending| && net.pending[k] == c;
    if !e.Heard? || k != e.i {
      OtherRemains(net, e, k);
    }
  }

  lemma OtherRemains(net: Net, e: Event, k: nat)
    requires Enabled(net, e) && k < |net.pending| && (e.Heard? ==> k != e.i)
    ensures net.pending[k] in Remaining(net, e)
  {
    if e.Heard? {
      var rest := Remaining(net, e);
      assert net.pending[k] == rest[if k < e.i then k else k - 1];
    }
  }

  lemma ShownLast(cfg: Config, t: Trace, a: Action, text: seq<byte>)
    requires a.Receive? && Hear(cfg, t, a.packet, a.hearEnv).shown == t.shown + [Received(text)]
    ensures Received(text) in Act(cfg, t, a).shown
  {
    hide Hear;
  }

  lemma {:induction false} CopyFor(packet: Packet, sender: nat, mask: seq<bool>, n: nat, d: nat)
    requires d < n && Hears(mask, sender, d)
    ensures Copy(d, packet) in Copies(packet, sender, mask, n)
  {
    if d < n - 1 {
      CopyFor(packet, sender, mask, n - 1, d);
    }
  }

  lemma FirstIsHeard(cfg: Config, links: set<Link>, net: Net, e: Event, d: nat)
    requires Enabled(net, e) && e.Typed? && d < |net.nodes| && d != e.node && Link(e.node, d) in links
    requires Lossless(cfg, links, net, e)
    requires NewOut(net.nodes[e.node], HandleLine(cfg, net.nodes[e.node], e.line, e.sendEnv)) != []
    ensures e.masks != [] && Hears(e.masks[0], e.node, d)
  {
    hide HandleLine, NewOut, Hears;
    assert Reaches(e, 0, e.node, d);
  }

  lemma TypedGoesOut(cfg: Config, links: set<Link>, net: Net, e: Event, d: nat)
    requires Enabled(net, e) && e.Typed? && Sendable(e.line) && Answered(cfg, net, e)
    requires Lossless(cfg, links, net, e) && d < |net.nodes| && d != e.node && Link(e.node, d) in links
    ensures var t := net.nodes[e.node];
            var p := MakePacket(cfg, t.id, t.nextId, BROADCAST, e.line, e.sendEnv.blocks);
            Underway(Step(cfg, net, e), d, p, e.line) && ToEverybody(cfg, p, e.line)
  {
    hide MakePacket, HandleLine, Parse, ContentOf, Copies, RequestOf;
    var t := net.nodes[e.node];
    var p := MakePacket(cfg, t.id, t.nextId, BROADCAST, e.line, e.sendEnv.blocks);
    SentHeader(cfg, t.id, t.nextId, BROADCAST, e.line, e.sendEnv.blocks);
    SentContent(cfg, t.id, t.nextId, BROADCAST, e.line, e.sendEnv.blocks);
    LineIsSentIff(cfg, t, e.line, e.sendEnv);
    var out := NewOut(t, HandleLine(cfg, t, e.line, e.sendEnv));
    assert out == [Tx(p, false)];
    FirstIsHeard(cfg, links, net, e, d);
    CopyFor(p, e.node, e.masks[0], |net.nodes|, d);
    assert out[..0] == [];
    assert Broadcasts(out, e.node, e.masks, |net.nodes|) ==
           Broadcasts([], e.node, e.masks, |net.nodes|) + Copies(p, e.node, e.masks[0], |net.nodes|);
  }

  lemma {:induction false} StaysUnderway(cfg: Config, links: set<Link>, net: Net, events: seq<Event>, i: nat, d: nat)
    requires AllAnswered(cfg, net, events) && i < |events|
    requires var before := Run(cfg, net, events[..i]);
             && Enabled(before, events[i]) && events[i].Typed? && Sendable(events[i].line)
             && Lossless(cfg, links, before, events[i])
             && d < |net.nodes| && d != events[i].node && Link(events[i].node, d) in links
    ensures var before, e := Run(cfg, net, events[..i]), events[i];
            var t := before.nodes[e.node];
            var p := MakePacket(cfg, t.id, t.nextId, BROADCAST, e.line, e.sendEnv.blocks);
            Underway(Run(cfg, net, events), d, p, e.line) && ToEverybody(cfg, p, e.line)
  {
    hide MakePacket, Step, RequestOf, Lossless, Answered, Underway, ToEverybody;
    var init, last := events[..|events| - 1], events[|events| - 1];
    if i == |events| - 1 {
      TypedGoesOut(cfg, links, Run(cfg, net, init), last, d);
    } else {
      assert init[..i] == events[..i];
      StaysUnderway(cfg, links, net, init, i, d);
      var e := events[i];
      var t := Run(cfg, net, events[..i]).nodes[e.node];
      var p := MakePacket(cfg, t.id, t.nextId, BROADCAST, e.line, e.sendEnv.blocks);
      StepKeepsUnderway(cfg, Run(cfg, net, init), last, d, p, e.line);
    }
  }

  /**
   * In every run in which no block operation fails and nothing is left on its way in the end: a text typed at a node
   * is shown by every other node that was in range when it was sent and heard all that was sent then.
   */
  lemma NeighboursShow(cfg: Config, links: set<Link>, net: Net, events: seq<Event>, i: nat, d: nat)
    requires AllAnswered(cfg, net, events) && i < |events|
    requires var before := Run(cfg, net, events[..i]);
             && Enabled(before, events[i]) && events[i].Typed? && Sendable(events[i].line)
             && Lossless(cfg, links, before, events[i])
             && d < |net.nodes| && d != events[i].node && Link(events[i].node, d) in links
    requires Run(cfg, net, events).pending == []
    ensures Received(events[i].line) in Run(cfg, net, events).nodes[d].shown
  {
    hide MakePacket, Run, RequestOf, Lossless, AllAnswered, ToEverybody;
    StaysUnderway(cfg, links, net, events, i, d);
  }

  // ---------------------------------------------------------------- two links are not

  /** Five nodes in a ring and a sixth, 5, beside node 4: two links from node 0. */
  const RING_AND_TAIL: set<Link> := {
    Link(0, 1), Link(1, 0), Link(1, 2), Link(2, 1), Link(2, 3), Link(3, 2), Link(3, 4), Link(4, 3),
    Link(4, 0), Link(0, 4), Link(4, 5), Link(5, 4)
  }

  lemma InsertedIsSeen(r: Ring, k: Key)
    ensures WasSeen(Insert(r, k), k)
  {
    assert Insert(r, k).slots[r.head] == k;
  }

  /** What the text "pong", which nobody answers, makes a node do. */
  lemma PongHeard(cfg: Config, t: Trace, p: Packet, env: HearEnv)
    requires |p| > HEADER_SIZE && Addressed(p, t.id) && !t.halted
    requires ContentOf(cfg, p, env.decrypt) == Text(TEXT_PORT, PONG)
    ensures var t' := Hear(cfg, t, p, env);
            && t'.id == t.id && !t'.halted && WasSeen(t'.ring, KeyOf(p)) && t'.shown == t.shown + [Received(PONG)]
            && !Answers(cfg, t, p, env)
            && NewOut(t, t') == if ShouldForward(t.ring, p) then [Tx(PrepareForward(p, t.id % 0x100), true)] else []
  {
    hide ContentOf, Parse, PrepareForward, ShouldForward, KeyOf, WasSeen, Insert;
    InsertedIsSeen(t.ring, KeyOf(p));
  }

  /** The same for a packet made by any node, after up to three relays. */
  lemma HearsPong(cfg: Config, t: Trace, id: u32, packetId: u32, relays: seq<byte>)
    requires !t.halted && |relays| <= 3
    ensures var p := RelayedBy(MakePacket(cfg, id, packetId, BROADCAST, PONG, FULL), relays);
            var t' := Hear(cfg, t, p, HearEnv(FULL, FULL, NoText));
            && t'.id == t.id && !t'.halted && WasSeen(t'.ring, Key(id, packetId))
            && t'.shown == t.shown + [Received(PONG)]
            && !Answers(cfg, t, p, HearEnv(FULL, FULL, NoText))
            && NewOut(t, t') ==
               if |relays| < 3 && !WasSeen(t.ring, Key(id, packetId))
               then [Tx(RelayedBy(MakePacket(cfg, id, packetId, BROADCAST, PONG, FULL), relays + [t.id % 0x100]), true)]
               else []
  {
    hide MakePacket, ContentOf, Parse, PrepareForward, Hop, KeyOf, WasSeen, Hear, NewOut, Answers;
    var first, env := MakePacket(cfg, id, packetId, BROADCAST, PONG, FULL), HearEnv(FULL, FULL, NoText);
    var p := RelayedBy(first, relays);
    SentHeader(cfg, id, packetId, BROADCAST, PONG, FULL);
    AlikeIsRead(cfg, id, packetId, BROADCAST, PONG, FULL, FULL);
    RelayChain(first, relays);
    RelayedContent(cfg, first, relays, FULL);
    PongHeard(cfg, t, p, env);
    assert (relays + [t.id % 0x100])[..|relays|] == relays;
  }

  /** A copy under way: to whom, and which relays it has passed. */
  datatype Waiting = Waiting(node: nat, relays: seq<byte>)

  function First(cfg: Config, net: Net): Packet
    requires |net.nodes| > 0
  {
    MakePacket(cfg, net.nodes[0].id, net.nodes[0].nextId, BROADCAST, PONG, FULL)
  }

  function CopiesOf(first: Packet, waiting: seq<Waiting>): seq<Copy> {
    seq(|waiting|, i requires 0 <= i < |waiting| => Copy(waiting[i].node, RelayedBy(first, waiting[i].relays)))
  }

  /** Six running nodes that have not seen the next packet of node 0, and silence. */
  predicate Fresh(net: Net) {
    && |net.nodes| == 6 && net.pending == []
    && forall j :: 0 <= j < 6 ==>
         !net.nodes[j].halted && !WasSeen(net.nodes[j].ring, Key(net.nodes[0].id, net.nodes[0].nextId))
  }

  /** Nodes in `heard` have seen the packet, the others are as they were; these copies are under way. */
  predicate Stage(cfg: Config, net: Net, now: Net, heard: set<nat>, waiting: seq<Waiting>)
    requires Fresh(net)
  {
    && |now.nodes| == 6 && now.pending == CopiesOf(First(cfg, net), waiting)
    && forall j :: 0 <= j < 6 ==>
         && !now.nodes[j].halted && now.nodes[j].id == net.nodes[j].id
         && (if j in heard then WasSeen(now.nodes[j].ring, Key(net.nodes[0].id, net.nodes[0].nextId))
             else now.nodes[j] == net.nodes[j])
  }

  function Mask(j: nat): seq<bool> {
    seq(6, d requires 0 <= d < 6 => Link(j, d) in RING_AND_TAIL)
  }

  /** Exactly a and b are in range of j. */
  predicate Beside(j: nat, a: nat, b: nat) {
    a < b < 6 && a != j && b != j && forall d: nat :: d < 6 ==> (Link(j, d) in RING_AND_TAIL <==> d == a || d == b)
  }

  lemma {:induction false} TwoHear(packet: Packet, j: nat, a: nat, b: nat, n: nat)
    requires Beside(j, a, b) && n <= 6
    ensures Copies(packet, j, Mask(j), n) ==
            (if a < n then [Copy(a, packet)] else []) + (if b < n then [Copy(b, packet)] else [])
  {
    if n > 0 {
      TwoHear(packet, j, a, b, n - 1);
    }
  }

  lemma BothHear(tx: Tx, j: nat, a: nat, b: nat)
    requires Beside(j, a, b)
    ensures Broadcasts([tx], j, [Mask(j)], 6) == [Copy(a, tx.packet), Copy(b, tx.packet)]
  {
    hide Mask, Beside, Copies;
    TwoHear(tx.packet, j, a, b, 6);
    assert Broadcasts([tx][..0], j, [Mask(j)], 6) == [];
    assert a < b < 6 by {
      BesideIs(j, a, b);
    }
  }

  lemma BesideIs(j: nat, a: nat, b: nat)
    requires Beside(j, a, b)
    ensures a < b < 6
  {
  }

  lemma MaskIsLossless(cfg: Config, net: Net, e: Event)
    requires |net.nodes| == 6 && Enabled(net, e) && e.masks == [Mask(Actor(net, e))]
    requires var t := net.nodes[Actor(net, e)]; |NewOut(t, Act(cfg, t, ActionOf(net, e)))| <= 1
    ensures Lossless(cfg, RING_AND_TAIL, net, e)
  {
    hide Act, NewOut, RING_AND_TAIL;
  }

  /** What one reception makes of the copies under way. */
  function Next(net: Net, heard: set<nat>, waiting: seq<Waiting>, i: nat, a: nat, b: nat): seq<Waiting>
    requires i < |waiting| && waiting[i].node < |net.nodes|
  {
    var w := waiting[i];
    var relays := w.relays + [net.nodes[w.node].id % 0x100];
    waiting[..i] + waiting[i + 1..]
    + if |w.relays| < 3 && w.node !in heard then [Waiting(a, relays), Waiting(b, relays)] else []
  }

  lemma StageGoesOn(cfg: Config, net: Net, now: Net, heard: set<nat>, waiting: seq<Waiting>, i: nat, a: nat, b: nat)
    requires Fresh(net) && Stage(cfg, net, now, heard, waiting)
    requires i < |waiting| && waiting[i].node < 6 && |waiting[i].relays| <= 3
    requires |waiting[i].relays| < 3 && waiting[i].node !in heard ==> Beside(waiting[i].node, a, b)
    ensures var j := waiting[i].node;
            var e := Heard(i, HearEnv(FULL, FULL, NoText), [Mask(j)]);
            && Stage(cfg, net, Step(cfg, now, e), heard + {j}, Next(net, heard, waiting, i, a, b))
            && Lossless(cfg, RING_AND_TAIL, now, e) && Answered(cfg, now, e)
  {
    hide MakePacket, Hear, RelayedBy, WasSeen, Mask, Beside, RING_AND_TAIL, Broadcasts, NewOut, Lossless, Answers;
    hide CopiesOf, Step, Addressed;
    var j, env := waiting[i].node, HearEnv(FULL, FULL, NoText);
    var e := Heard(i, env, [Mask(j)]);
    var t := now.nodes[j];
    CopyAt(First(cfg, net), waiting, i);
    HearsPong(cfg, t, net.nodes[0].id, net.nodes[0].nextId, waiting[i].relays);
    var out := NewOut(t, Hear(cfg, t, now.pending[i].packet, env));
    MaskIsLossless(cfg, now, e);
    HeardStep(cfg, now, e);
    if out != [] {
      BothHear(out[0], j, a, b);
      assert out == [out[0]];
    } else {
      NothingToHear(j, [Mask(j)]);
    }
    CopiesOfNext(First(cfg, net), net, heard, waiting, i, a, b);
  }

  lemma HeardStep(cfg: Config, now: Net, e: Event)
    requires Enabled(now, e) && e.Heard?
    ensures var j := now.pending[e.i].dst;
            var t' := Hear(cfg, now.nodes[j], now.pending[e.i].packet, e.hearEnv);
            Step(cfg, now, e) ==
            Net(now.nodes[j := t'], now.pending[..e.i] + now.pending[e.i + 1..]
                                    + Broadcasts(NewOut(now.nodes[j], t'), j, e.masks, |now.nodes|))
  {
    hide Hear, Broadcasts, NewOut;
  }

  lemma CopyAt(first: Packet, waiting: seq<Waiting>, i: nat)
    requires i < |waiting|
    ensures |CopiesOf(first, waiting)| == |waiting|
    ensures CopiesOf(first, waiting)[i] == Copy(waiting[i].node, RelayedBy(first, waiting[i].relays))
  {
  }

  lemma CopiesOfNext(first: Packet, net: Net, heard: set<nat>, waiting: seq<Waiting>, i: nat, a: nat, b: nat)
    requires i < |waiting| && waiting[i].node < |net.nodes|
    ensures var w := waiting[i];
            var p := RelayedBy(first, w.relays + [net.nodes[w.node].id % 0x100]);
            var copies := CopiesOf(first, waiting);
            && |copies| == |waiting|
            && CopiesOf(first, Next(net, heard, waiting, i, a, b)) ==
               copies[..i] + copies[i + 1..]
               + if |w.relays| < 3 && w.node !in heard then [Copy(a, p), Copy(b, p)] else []
  {
    hide RelayedBy;
  }

  lemma NothingToHear(j: nat, masks: seq<seq<bool>>)
    ensures Broadcasts([], j, masks, 6) == []
  {
  }

  /** A lossless run that has got this far, one "pong" having been typed at node 0. */
  predicate Going(cfg: Config, net: Net, events: seq<Event>, heard: set<nat>, waiting: seq<Waiting>)
    requires Fresh(net)
  {
    && Stage(cfg, net, Run(cfg, net, events), heard, waiting)
    && AllLossless(cfg, RING_AND_TAIL, net, events) && AllAnswered(cfg, net, events) && OneTyped(events, 0, PONG)
  }

  lemma PongTyped(cfg: Config, net: Net) returns (events: seq<Event>)
    requires Fresh(net)
    ensures Going(cfg, net, events, {0}, [Waiting(1, []), Waiting(4, [])])
  {
    hide MakePacket, HandleLine, Broadcasts, Mask, RING_AND_TAIL, Insert, Lossless, WasSeen;
    var t, env := net.nodes[0], SendEnv(FULL, true);
    var e := Typed(0, PONG, env, [Mask(0)]);
    events := [e];
    assert events[..0] == [] && Run(cfg, net, []) == net;
    TypedPong(cfg, t, env);
    MaskIsLossless(cfg, net, e);
    ZeroBeside();
    BothHear(Tx(First(cfg, net), false), 0, 1, 4);
    var now := Run(cfg, net, events);
    assert now == Step(cfg, net, e);
    assert now.pending == CopiesOf(First(cfg, net), [Waiting(1, []), Waiting(4, [])]);
    assert Stage(cfg, net, now, {0}, [Waiting(1, []), Waiting(4, [])]);
    assert AllAnswered(cfg, net, events);
    assert AllLossless(cfg, RING_AND_TAIL, net, events);
  }

  lemma ZeroBeside()
    ensures Beside(0, 1, 4) && Beside(1, 0, 2) && Beside(2, 1, 3) && Beside(3, 2, 4)
  {
  }

  lemma TypedPong(cfg: Config, t: Trace, env: SendEnv)
    ensures var t' := HandleLine(cfg, t, PONG, env);
            && t'.id == t.id && t'.halted == t.halted && WasSeen(t'.ring, Key(t.id, t.nextId)) && Sendable(PONG)
            && t'.shown == t.shown + [if env.txOk then SentOk else TxFailed]
            && NewOut(t, t') == [Tx(MakePacket(cfg, t.id, t.nextId, BROADCAST, PONG, env.blocks), false)]
  {
    hide MakePacket, WasSeen, Insert;
    InsertedIsSeen(t.ring, Key(t.id, t.nextId));
  }

  lemma GoOn(cfg: Config, net: Net, events: seq<Event>, heard: set<nat>, waiting: seq<Waiting>, i: nat, a: nat, b: nat)
    returns (events': seq<Event>)
    requires Fresh(net) && Going(cfg, net, events, heard, waiting)
    requires i < |waiting| && waiting[i].node < 6 && |waiting[i].relays| <= 3
    requires |waiting[i].relays| < 3 && waiting[i].node !in heard ==> Beside(waiting[i].node, a, b)
    ensures Going(cfg, net, events', heard + {waiting[i].node}, Next(net, heard, waiting, i, a, b))
  {
    hide Stage, Step, Fresh, Beside, Next, Lossless, Answered;
    var e := Heard(i, HearEnv(FULL, FULL, NoText), [Mask(waiting[i].node)]);
    StageGoesOn(cfg, net, Run(cfg, net, events), heard, waiting, i, a, b);
    events' := events + [e];
    assert events'[..|events|] == events;
  }

  function RelayByte(net: Net, j: nat): byte
    requires Fresh(net) && j < 6
  {
    net.nodes[j].id % 0x100
  }

  /** Nodes 1 and 2 relay, and 0 and 1 hear again what they have seen. */
  lemma HalfWay(cfg: Config, net: Net) returns (es: seq<Event>)
    requires Fresh(net)
    ensures var relays := [RelayByte(net, 1), RelayByte(net, 2)];
            Going(cfg, net, es, {0} + {1} + {0} + {2} + {1}, [Waiting(4, []), Waiting(3, relays)])
  {
    hide Going, Beside, Run, Stage;
    ZeroBeside();
    var b1, b2, far := RelayByte(net, 1), RelayByte(net, 2), Waiting(4, []);
    assert [] + [b1] == [b1] && [b1] + [b2] == [b1, b2];
    es := PongTyped(cfg, net);
    es := GoOn(cfg, net, es, {0}, [Waiting(1, []), far], 0, 0, 2);
    var w1 := [far, Waiting(0, [b1]), Waiting(2, [b1])];
    assert Next(net, {0}, [Waiting(1, []), far], 0, 0, 2) == w1;
    es := GoOn(cfg, net, es, {0} + {1}, w1, 1, 0, 0);
    var w2 := [far, Waiting(2, [b1])];
    assert Next(net, {0} + {1}, w1, 1, 0, 0) == w2;
    es := GoOn(cfg, net, es, {0} + {1} + {0}, w2, 1, 1, 3);
    var w3 := [far, Waiting(1, [b1, b2]), Waiting(3, [b1, b2])];
    assert Next(net, {0} + {1} + {0}, w2, 1, 1, 3) == w3;
    es := GoOn(cfg, net, es, {0} + {1} + {0} + {2}, w3, 1, 0, 0);
    assert Next(net, {0} + {1} + {0} + {2}, w3, 1, 0, 0) == [far, Waiting(3, [b1, b2])];
  }

  /** Node 3 relays, 2 has seen it, and 4 hears it twice: with no hops left, and then directly. */
  lemma OtherHalf(cfg: Config, net: Net, events: seq<Event>, heard: set<nat>, relays: seq<byte>)
    returns (es: seq<Event>)
    requires Fresh(net) && |relays| == 2 && 2 in heard && 3 !in heard && 4 !in heard
    requires Going(cfg, net, events, heard, [Waiting(4, []), Waiting(3, relays)])
    ensures Going(cfg, net, es, heard + {3} + {2} + {4} + {4}, [])
  {
    hide Going, Beside, Run, Stage;
    ZeroBeside();
    var far, all := Waiting(4, []), relays + [RelayByte(net, 3)];
    es := GoOn(cfg, net, events, heard, [far, Waiting(3, relays)], 1, 2, 4);
    var w1 := [far, Waiting(2, all), Waiting(4, all)];
    assert Next(net, heard, [far, Waiting(3, relays)], 1, 2, 4) == w1;
    es := GoOn(cfg, net, es, heard + {3}, w1, 1, 0, 0);
    var w2 := [far, Waiting(4, all)];
    assert Next(net, heard + {3}, w1, 1, 0, 0) == w2;
    es := GoOn(cfg, net, es, heard + {3} + {2}, w2, 1, 0, 0);
    assert Next(net, heard + {3} + {2}, w2, 1, 0, 0) == [far];
    es := GoOn(cfg, net, es, heard + {3} + {2} + {4}, [far], 0, 0, 0);
    assert Next(net, heard + {3} + {2} + {4}, [far], 0, 0, 0) == [];
  }

  /**
   * Two links are not certain, even if nothing is lost, no block operation fails and nobody else says anything: in
   * a ring of five nodes with a sixth behind node 4, there is a run in which node 4 first hears the text by the long
   * way, with no hops left, and therefore ignores the copy it gets directly; the sixth never hears of the text.
   */
  lemma TwoLinksAreNotCertain(cfg: Config, net: Net)
    requires Fresh(net)
    ensures Link(0, 4) in RING_AND_TAIL && Link(4, 5) in RING_AND_TAIL
    ensures exists events :: && OneTyped(events, 0, PONG) && AllLossless(cfg, RING_AND_TAIL, net, events)
                             && AllAnswered(cfg, net, events) && Run(cfg, net, events).pending == []
                             && Run(cfg, net, events).nodes[5] == net.nodes[5]
  {
    hide Going, Fresh;
    var heard := {0} + {1} + {0} + {2} + {1};
    var es := HalfWay(cfg, net);
    es := OtherHalf(cfg, net, es, heard, [RelayByte(net, 1), RelayByte(net, 2)]);
    Ends(cfg, net, es, heard + {3} + {2} + {4} + {4});
  }

  lemma Ends(cfg: Config, net: Net, events: seq<Event>, heard: set<nat>)
    requires Fresh(net) && Going(cfg, net, events, heard, []) && 5 !in heard
    ensures && OneTyped(events, 0, PONG) && AllLossless(cfg, RING_AND_TAIL, net, events)
            && AllAnswered(cfg, net, events) && Run(cfg, net, events).pending == []
            && Run(cfg, net, events).nodes[5] == net.nodes[5]
  {
    hide Run, AllLossless, AllAnswered, OneTyped, MakePacket;
  }
}

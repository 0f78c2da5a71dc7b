/** Which packets a node relays, and how far a text travels. */
module Relaying {
  import opened Bytes
  import opened MeshPacket
  import opened FloodRouter
  import opened LineInput
  import opened MeshNode
  import opened Delivery
  import opened Network

  lemma ActFollowsLog(cfg: Config, r: Ring, t: Trace, a: Action)
    requires t.ring == InsertAll(r, t.seen)
    ensures Act(cfg, t, a).ring == InsertAll(r, Act(cfg, t, a).seen)
  {
    hide Understood, MakePacket, PrepareForward, ShouldForward, Insert, InsertAll, Parse;
    InsertOne(r, t.seen, Key(t.id, t.nextId));
    if a.Receive? && |a.packet| > HEADER_SIZE {
      var key := KeyOf(a.packet);
      InsertOne(r, t.seen, key);
      InsertOne(r, t.seen + [key], Key(t.id, t.nextId));
    }
  }

  lemma {:induction false} LifeFollowsLog(cfg: Config, t0: Trace, actions: seq<Action>)
    requires t0.seen == []
    ensures Live(cfg, t0, actions).ring == InsertAll(t0.ring, Live(cfg, t0, actions).seen)
  {
    hide Act;
    if actions != [] {
      LifeFollowsLog(cfg, t0, actions[..|actions| - 1]);
      ActFollowsLog(cfg, t0.ring, Live(cfg, t0, actions[..|actions| - 1]), actions[|actions| - 1]);
    }
  }

  /** The key is among the last 32 registered since boot, or is the zero key of a ring not yet full. */
  predicate Remembered(seen: seq<Key>, k: Key) {
    || k in seen[if |seen| < 32 then 0 else |seen| - 32..]
    || (k == Key(0, 0) && |seen| < 32)
  }

  /** A reception relays at most the packet heard, and does so last. */
  lemma HearRelays(cfg: Config, t: Trace, p: Packet, env: HearEnv)
    requires !t.halted
    ensures var t' := Hear(cfg, t, p, env);
            (exists tx :: tx in NewOut(t, t') && tx.relayed) <==>
              |p| > HEADER_SIZE && ShouldForward(t.ring, p) && !t'.halted
    ensures var out := NewOut(t, Hear(cfg, t, p, env));
            forall tx :: tx in out && tx.relayed ==>
              |p| > HEADER_SIZE && tx == out[|out| - 1] && tx.packet == PrepareForward(p, t.id % 0x100)
  {
    hide Hear, PrepareForward, ShouldForward, Reply, KeyOf;
    HearTransmits(cfg, t, p, env);
    var out := NewOut(t, Hear(cfg, t, p, env));
    if |p| > HEADER_SIZE {
      NoRelayInReply(cfg, t, p, env);
      var reply, relay := Reply(cfg, t, p, env), Relay(cfg, t, p, env);
      assert out == reply + relay;
      assert relay != [] ==> relay[0] in out && out[|out| - 1] == relay[0];
    } else {
      assert out == [];
    }
  }

  /**
   * At any point of a node's life since boot: a packet it hears goes on the air again exactly if it has a payload
   * and hops left, is not remembered, and its decoding ends.
   */
  lemma RelayDecision(cfg: Config, t0: Trace, actions: seq<Action>, p: Packet, env: HearEnv)
    requires t0.seen == [] && t0.ring == BootRing()
    requires !Live(cfg, t0, actions).halted
    ensures var t := Live(cfg, t0, actions);
            var t' := Hear(cfg, t, p, env);
            (exists tx :: tx in NewOut(t, t') && tx.relayed) <==>
              |p| > 16 && p[12] % 16 != 0 && !t'.halted
              && !Remembered(t.seen, Key(LeWord(p[4..8]), LeWord(p[8..12])))
  {
    hide Live, Insert, InsertAll, Hear, NewOut;
    var t := Live(cfg, t0, actions);
    LifeFollowsLog(cfg, t0, actions);
    HearRelays(cfg, t, p, env);
    if |p| > HEADER_SIZE {
      RingRefinesLog(t.seen, KeyOf(p));
      GateOnWire(t.ring, p);
    }
  }

  // ---------------------------------------------------------------- relays cost registrations

  function RelayCount(out: seq<Tx>, k: Key): nat {
    if out == [] then 0
    else
      var last := out[|out| - 1];
      RelayCount(out[..|out| - 1], k)
      + if last.relayed && |last.packet| >= HEADER_SIZE && KeyOf(last.packet) == k then 1 else 0
  }

  lemma {:induction false} RelayCountAdds(a: seq<Tx>, b: seq<Tx>, k: Key)
    ensures RelayCount(a + b, k) == RelayCount(a, k) + RelayCount(b, k)
    decreases |b|
  {
    hide KeyOf;
    if b == [] {
      assert a + b == a;
    } else {
      RelayCountAdds(a, b[..|b| - 1], k);
      assert (a + b)[..|a + b| - 1] == a + b[..|b| - 1];
    }
  }

  /** The latest relay of the key was registered after 33 registrations for each relay before it. */
  ghost predicate Paid(r: Ring, t: Trace, k: Key) {
    var n := RelayCount(t.out, k);
    && t.ring == InsertAll(r, t.seen)
    && (n > 0 ==> exists i :: 33 * (n - 1) <= i < |t.seen| && t.seen[i] == k)
  }

  lemma FreshIsNoRelay(out: seq<Tx>, k: Key)
    requires |out| <= 1 && forall tx :: tx in out ==> !tx.relayed
    ensures RelayCount(out, k) == 0
  {
    if out != [] {
      assert out[0] in out;
    }
  }

  lemma ActSeen(cfg: Config, t: Trace, a: Action)
    ensures t.seen <= Act(cfg, t, a).seen
    ensures a.Receive? && |a.packet| > HEADER_SIZE ==>
              |t.seen| < |Act(cfg, t, a).seen| && Act(cfg, t, a).seen[|t.seen|] == KeyOf(a.packet)
  {
    hide Understood, MakePacket, PrepareForward, ShouldForward, Insert, Parse, KeyOf;
  }

  /** Either no relay of the key is added, or it is one of a packet with that key that the ring did not hold. */
  lemma ActRelays(cfg: Config, t: Trace, a: Action, k: Key)
    ensures var n, n' := RelayCount(t.out, k), RelayCount(Act(cfg, t, a).out, k);
            n' == n || (n' == n + 1 && a.Receive? && |a.packet| > HEADER_SIZE && KeyOf(a.packet) == k
                        && !WasSeen(t.ring, k))
  {
    hide Hear, Understood, MakePacket, Parse, KeyOf, RelayCount, WasSeen, Hop, PrepareForward;
    match a
    case Type(line, env) =>
      if line != [] {
        LineIsSentIff(cfg, t, line, env);
        var packet := if |line| <= MAX_TEXT then MakePacket(cfg, t.id, t.nextId, BROADCAST, line, env.blocks) else [];
        var tx := Tx(packet, false);
        RelayCountAdds(t.out, [tx], k);
        FreshIsNoRelay([tx], k);
      }
    case Receive(p, env) =>
      HearTransmits(cfg, t, p, env);
      if |p| > HEADER_SIZE {
        var reply, relay := Reply(cfg, t, p, env), Relay(cfg, t, p, env);
        NoRelayInReply(cfg, t, p, env);
        FreshIsNoRelay(reply, k);
        RelayCountAdds(t.out, reply, k);
        RelayCountAdds(t.out + reply, relay, k);
        RelayRewrite(p, t.id % 0x100);
        RelayCountOfOne(relay, k);
      }
  }

  lemma RelayCountOfOne(out: seq<Tx>, k: Key)
    requires |out| <= 1
    ensures RelayCount(out, k) ==
            if out != [] && out[0].relayed && |out[0].packet| >= HEADER_SIZE && KeyOf(out[0].packet) == k then 1 else 0
  {
    hide KeyOf;
    if out != [] {
      assert RelayCount(out[..0], k) == 0;
    }
  }

  lemma ActKeepsPaid(cfg: Config, r: Ring, t: Trace, a: Action, k: Key)
    requires Paid(r, t, k)
    ensures Paid(r, Act(cfg, t, a), k)
  {
    hide Act, InsertAll, RelayCount, KeyOf;
    ActFollowsLog(cfg, r, t, a);
    ActSeen(cfg, t, a);
    ActRelays(cfg, t, a, k);
    var n := RelayCount(t.out, k);
    var t' := Act(cfg, t, a);
    if n > 0 {
      var i :| 33 * (n - 1) <= i < |t.seen| && t.seen[i] == k;
      assert t'.seen[i] == k;
      if RelayCount(t'.out, k) == n + 1 {
        RelaysAreSeparated(r, t.seen, i);
        assert 33 * n <= |t.seen| && t'.seen[|t.seen|] == k;
      }
    } else if RelayCount(t'.out, k) == 1 {
      assert t'.seen[|t.seen|] == k;
    }
  }

  lemma {:induction false} LifeIsPaid(cfg: Config, t0: Trace, actions: seq<Action>, k: Key)
    requires t0.seen == [] && t0.out == []
    ensures Paid(t0.ring, Live(cfg, t0, actions), k)
  {
    hide Act;
    if actions != [] {
      LifeIsPaid(cfg, t0, actions[..|actions| - 1], k);
      ActKeepsPaid(cfg, t0.ring, Live(cfg, t0, actions[..|actions| - 1]), actions[|actions| - 1], k);
    }
  }

  /**
   * Over a node's whole life, id changes included, a given key is relayed at most once in every 33 registrations,
   * counted from the start.
   */
  lemma RelaysPerRegistrations(cfg: Config, t0: Trace, actions: seq<Action>, k: Key)
    requires t0.seen == [] && t0.out == []
    ensures var t := Live(cfg, t0, actions);
            RelayCount(t.out, k) <= (|t.seen| + 32) / 33
  {
    hide Live, RelayCount, InsertAll;
    LifeIsPaid(cfg, t0, actions, k);
  }

  // ---------------------------------------------------------------- how far a text travels

  /** Node numbers written into the relay byte. */
  function RelayBytes(ts: seq<Trace>): (r: seq<byte>)
    ensures |r| == |ts|
  {
    seq(|ts|, i requires 0 <= i < |ts| => ts[i].id % 0x100)
  }

  /**
   * A text sent with three hops passes along any path of nodes that have not seen it, each hearing what the one
   * before put on the air. The first three put it on the air again, a fourth does not, so that only the first four
   * hear it at all; addressed nodes show it.
   */
  lemma FloodReach(cfg: Config, sender: Trace, to: u32, text: seq<byte>, blocks: nat,
                   path: seq<Trace>, env: HearEnv, i: nat)
    requires 1 <= |text| <= MAX_TEXT && blocks >= FULL && env.decrypt >= FULL && i < |path|
    requires forall t :: t in path ==> !t.halted && !WasSeen(t.ring, Key(sender.id, sender.nextId))
    ensures var first := MakePacket(cfg, sender.id, sender.nextId, to, text, blocks);
            var heard := RelayedBy(first, RelayBytes(path[..i]));
            var t := path[i];
            var t' := Hear(cfg, t, heard, env);
            && (i < 3 <==> exists tx :: tx in NewOut(t, t') && tx.relayed)
            && (i < 3 ==> NewOut(t, t') != [] &&
                          NewOut(t, t')[|NewOut(t, t')| - 1].packet == RelayedBy(first, RelayBytes(path[..i + 1])))
            && (to == BROADCAST || to == t.id ==> t'.shown == t.shown + [Received(text)])
  {
    hide MakePacket, Hear, ContentOf, Parse, KeyOf, Reply, PrepareForward, Hop, WasSeen;
    var first := MakePacket(cfg, sender.id, sender.nextId, to, text, blocks);
    var ids := RelayBytes(path[..i]);
    var heard := RelayedBy(first, ids);
    var t := path[i];
    SentHeader(cfg, sender.id, sender.nextId, to, text, blocks);
    SentContent(cfg, sender.id, sender.nextId, to, text, blocks);
    RelayChain(first, ids);
    RelayedContent(cfg, first, ids, FULL);
    ContentCovered(cfg, heard, env.decrypt);
    assert t in path;
    HearTransmits(cfg, t, heard, env);
    NoRelayInReply(cfg, t, heard, env);
    HeardGoesOn(cfg, t, heard, env, text);
    var reply, relay := Reply(cfg, t, heard, env), Relay(cfg, t, heard, env);
    var out := NewOut(t, Hear(cfg, t, heard, env));
    assert out == reply + relay;
    assert relay != [] ==> out[|reply|] == relay[0] && relay[0].relayed && relay[0] in out;
    assert RelayBytes(path[..i + 1])[..i] == ids;
    if to == BROADCAST || to == t.id {
      HeardText(cfg, t, heard, env, text);
    }
  }

  // ---------------------------------------------------------------- a run that floods a path

  function NodesOf(net: Net, path: seq<nat>): (ts: seq<Trace>)
    requires forall i :: 0 <= i < |path| ==> path[i] < |net.nodes|
    ensures |ts| == |path| && forall i :: 0 <= i < |path| ==> ts[i] == net.nodes[path[i]]
  {
    seq(|path|, i requires 0 <= i < |path| => net.nodes[path[i]])
  }

  function Only(next: nat): (mask: seq<bool>)
    ensures |mask| == next + 1 && forall k :: 0 <= k < |mask| ==> (mask[k] <==> k == next)
  {
    seq(next + 1, k => k == next)
  }

  lemma {:induction false} OneHears(packet: Packet, sender: nat, next: nat, n: nat)
    requires next != sender
    ensures Copies(packet, sender, Only(next), n) == if next < n then [Copy(next, packet)] else []
  {
    hide Only;
    if n > 0 {
      OneHears(packet, sender, next, n - 1);
    }
  }

  lemma {:induction false} NobodyHears(out: seq<Tx>, sender: nat, masks: seq<seq<bool>>, n: nat)
    requires forall k :: 0 <= k < |out| && k < |masks| ==> masks[k] == []
    ensures Broadcasts(out, sender, masks, n) == []
  {
    if out != [] {
      NobodyHears(out[..|out| - 1], sender, masks, n);
      NoCopies(out[|out| - 1].packet, sender, n);
    }
  }

  lemma {:induction false} NoCopies(packet: Packet, sender: nat, n: nat)
    ensures Copies(packet, sender, [], n) == []
  {
    if n > 0 {
      NoCopies(packet, sender, n - 1);
    }
  }

  /** Of the transmissions of an action, only the last is heard, by one node. */
  function LastTo(count: nat, next: nat): (masks: seq<seq<bool>>)
    ensures |masks| == count
  {
    seq(count, k => if k == count - 1 then Only(next) else [])
  }

  lemma LastIsHeard(out: seq<Tx>, sender: nat, next: nat, n: nat)
    requires out != [] && next != sender && next < n
    ensures Broadcasts(out, sender, LastTo(|out|, next), n) == [Copy(next, out[|out| - 1].packet)]
  {
    hide Copies, Only;
    NobodyHears(out[..|out| - 1], sender, LastTo(|out|, next), n);
    OneHears(out[|out| - 1].packet, sender, next, n);
  }

  /** Distinct running nodes that have not seen the sender's next packet. */
  predicate Open(net: Net, sender: nat, path: seq<nat>) {
    && sender < |net.nodes| && !net.nodes[sender].halted && sender !in path
    && (forall i, k :: 0 <= i < k < |path| ==> path[i] != path[k])
    && (forall i :: 0 <= i < |path| ==>
          && path[i] < |net.nodes| && !net.nodes[path[i]].halted
          && !WasSeen(net.nodes[path[i]].ring, Key(net.nodes[sender].id, net.nodes[sender].nextId)))
  }

  /**
   * After the text has passed along the first i nodes of the path: they have shown it, the others are as they were,
   * and it is on its way to the next.
   */
  predicate Passed(net: Net, now: Net, sender: nat, path: seq<nat>, i: nat, text: seq<byte>, first: Packet)
    requires i <= |path| && Open(net, sender, path) && |first| >= HEADER_SIZE
  {
    && |now.nodes| == |net.nodes|
    && (forall k :: 0 <= k < i ==> now.nodes[path[k]].shown == net.nodes[path[k]].shown + [Received(text)])
    && (forall k :: i <= k < |path| ==> now.nodes[path[k]] == net.nodes[path[k]])
    && (i < |path| ==>
          now.pending == net.pending + [Copy(path[i], RelayedBy(first, RelayBytes(NodesOf(net, path)[..i])))])
  }

  /** Each node of the path is in range of the one before it, and of no other. */
  function PathLinks(sender: nat, path: seq<nat>): set<Link>
    decreases |path|
  {
    if path == [] then {} else {Link(sender, path[0])} + PathLinks(path[0], path[1..])
  }

  lemma {:induction false} PathLinked(sender: nat, path: seq<nat>, i: nat)
    requires i < |path|
    ensures Link(if i == 0 then sender else path[i - 1], path[i]) in PathLinks(sender, path)
    decreases |path|
  {
    if i > 0 {
      PathLinked(path[0], path[1..], i - 1);
    }
  }

  lemma LastInRange(links: set<Link>, net: Net, e: Event, count: nat, next: nat)
    requires Enabled(net, e) && e.masks == LastTo(count, next) && Link(Actor(net, e), next) in links
    ensures InRange(links, net, e)
  {
    forall k, j | 0 <= k < |e.masks| && 0 <= j < |net.nodes| && Hears(e.masks[k], Actor(net, e), j)
      ensures Link(Actor(net, e), j) in links
    {
      assert e.masks[k] == if k == count - 1 then Only(next) else [];
    }
  }

  lemma TypedPasses(cfg: Config, net: Net, sender: nat, path: seq<nat>, text: Line, env: SendEnv)
    requires Open(net, sender, path) && path != [] && Sendable(text)
    ensures var t := net.nodes[sender];
            var first := MakePacket(cfg, t.id, t.nextId, BROADCAST, text, env.blocks);
            var e := Typed(sender, text, env, LastTo(1, path[0]));
            Passed(net, Step(cfg, net, e), sender, path, 0, text, first) && InRange(PathLinks(sender, path), net, e)
  {
    hide MakePacket, HandleLine, Broadcasts, LastTo, WasSeen, InRange;
    var t := net.nodes[sender];
    var tx := Tx(MakePacket(cfg, t.id, t.nextId, BROADCAST, text, env.blocks), false);
    LineIsSentIff(cfg, t, text, env);
    assert NewOut(t, HandleLine(cfg, t, text, env)) == [tx];
    LastIsHeard([tx], sender, path[0], |net.nodes|);
    PathLinked(sender, path, 0);
    LastInRange(PathLinks(sender, path), net, Typed(sender, text, env, LastTo(1, path[0])), 1, path[0]);
    assert RelayBytes(NodesOf(net, path)[..0]) == [];
  }

  lemma HeardPasses(cfg: Config, net: Net, now: Net, sender: nat, path: seq<nat>, i: nat, text: seq<byte>,
                    blocks: nat, env: HearEnv)
    returns (e: Event)
    requires Open(net, sender, path) && i < |path| <= 4
    requires 1 <= |text| <= MAX_TEXT && blocks >= FULL && env.decrypt >= FULL
    requires var t := net.nodes[sender];
             Passed(net, now, sender, path, i, text, MakePacket(cfg, t.id, t.nextId, BROADCAST, text, blocks))
    ensures var t := net.nodes[sender];
            var first := MakePacket(cfg, t.id, t.nextId, BROADCAST, text, blocks);
            Passed(net, Step(cfg, now, e), sender, path, i + 1, text, first)
    ensures e.Heard? && e.hearEnv == env && InRange(PathLinks(sender, path), now, e)
  {
    hide MakePacket, Hear, Broadcasts, LastTo, WasSeen, RelayBytes, RelayedBy, PathLinks, Hears;
    var t := net.nodes[sender];
    var ts := NodesOf(net, path);
    FloodReach(cfg, t, BROADCAST, text, blocks, ts, env, i);
    var j := path[i];
    assert now.nodes[j] == ts[i];
    var heard := now.pending[|net.pending|].packet;
    var out := NewOut(ts[i], Hear(cfg, ts[i], heard, env));
    e := Heard(|net.pending|, env, if i + 1 < |path| then LastTo(|out|, path[i + 1]) else []);
    assert Remaining(now, e) == net.pending;
    if i + 1 < |path| {
      LastIsHeard(out, j, path[i + 1], |net.nodes|);
      PathLinked(sender, path, i + 1);
      LastInRange(PathLinks(sender, path), now, e, |out|, path[i + 1]);
    }
  }

  lemma {:induction false} PathIsFlooded(cfg: Config, net: Net, sender: nat, path: seq<nat>, i: nat, text: Line,
                                         sendEnv: SendEnv, env: HearEnv)
    returns (events: seq<Event>)
    requires Open(net, sender, path) && path != [] && i <= |path| <= 4
    requires Sendable(text) && sendEnv.blocks >= FULL && env.decrypt >= FULL
    ensures var t := net.nodes[sender];
            var first := MakePacket(cfg, t.id, t.nextId, BROADCAST, text, sendEnv.blocks);
            Passed(net, Run(cfg, net, events), sender, path, i, text, first)
    ensures |events| == i + 1 && OneTyped(events, sender, text)
    ensures AllInRange(cfg, PathLinks(sender, path), net, events)
  {
    hide MakePacket, Passed, Step, Open, RequestOf;
    if i == 0 {
      var e := Typed(sender, text, sendEnv, LastTo(1, path[0]));
      TypedPasses(cfg, net, sender, path, text, sendEnv);
      events := [e];
      assert events[..0] == [] && Run(cfg, net, events[..0]) == net;
    } else {
      var init := PathIsFlooded(cfg, net, sender, path, i - 1, text, sendEnv, env);
      var e := HeardPasses(cfg, net, Run(cfg, net, init), sender, path, i - 1, text, sendEnv.blocks, env);
      events := init + [e];
      assert events[..|events| - 1] == init;
    }
  }

  /** One text is typed, at the start; all else is reception. */
  predicate OneTyped(events: seq<Event>, node: nat, text: Line) {
    && events != [] && events[0].Typed? && events[0].node == node && events[0].line == text
    && forall k :: 1 <= k < |events| ==> events[k].Heard?
  }

  /**
   * In any network, along any path of up to four distinct running nodes that have not seen the sender's next packet
   * id: there is a run, one text typed and one reception for each node of the path, in which nobody is in range but
   * of the node before it on the path, and each of them shows the text.
   */
  lemma SomeRunReaches(cfg: Config, net: Net, sender: nat, path: seq<nat>, text: Line)
    requires Open(net, sender, path) && 1 <= |path| <= 4 && Sendable(text)
    ensures exists events :: && |events| == |path| + 1 && OneTyped(events, sender, text)
                             && AllInRange(cfg, PathLinks(sender, path), net, events)
                             && forall i :: 0 <= i < |path| ==>
                                  Run(cfg, net, events).nodes[path[i]].shown ==
                                  net.nodes[path[i]].shown + [Received(text)]
  {
    hide Run, RelayedBy, RelayBytes, WasSeen, MakePacket, Sendable;
    var events := PathIsFlooded(cfg, net, sender, path, |path|, text, SendEnv(FULL, true), HearEnv(FULL, FULL, NoText));
    assert OneTyped(events, sender, text);
  }

  lemma NoRelayInReply(cfg: Config, t: Trace, p: Packet, env: HearEnv)
    requires |p| > HEADER_SIZE
    ensures forall tx :: tx in Reply(cfg, t, p, env) ==> !tx.relayed
  {
    hide Understood, MakePacket, Parse;
  }

  lemma HeardGoesOn(cfg: Config, t: Trace, p: Packet, env: HearEnv, text: seq<byte>)
    requires |p| > HEADER_SIZE && !t.halted && ContentOf(cfg, p, env.decrypt) == Text(TEXT_PORT, text)
    ensures !Hear(cfg, t, p, env).halted
  {
    hide ContentOf, MakePacket, PrepareForward, ShouldForward, Insert, Parse;
  }
}

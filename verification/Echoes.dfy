/** How often one node hears, and shows, the same packet: reception is not deduplicated. */
module Echoes {
  import opened Bytes
  import opened MeshPacket
  import opened FloodRouter
  import opened LineInput
  import opened MeshNode
  import opened Delivery
  import opened Network
  import opened FloodCost
  import opened Reach
  import opened Relaying

  predicate HasKey(p: Packet, k: Key) {
    |p| >= HEADER_SIZE && KeyOf(p) == k
  }

  /** Copies of the packet on their way to node j. */
  function CopiesTo(copies: seq<Copy>, j: nat, k: Key): nat {
    if copies == [] then 0
    else
      var last := copies[|copies| - 1];
      CopiesTo(copies[..|copies| - 1], j, k) + if last.dst == j && HasKey(last.packet, k) then 1 else 0
  }

  /** Transmissions of the packet by the nodes other than j. */
  function CountElsewhere(nodes: seq<Trace>, j: nat, k: Key): nat {
    if nodes == [] then 0
    else
      var l := |nodes| - 1;
      CountElsewhere(nodes[..l], j, k) + if l == j then 0 else Count(nodes[l].out, k)
  }

  /** The event is a reception of the packet by node j. */
  predicate IsHearing(net: Net, e: Event, j: nat, k: Key) {
    Enabled(net, e) && e.Heard? && net.pending[e.i].dst == j && HasKey(net.pending[e.i].packet, k)
  }

  function Hearings(cfg: Config, net: Net, events: seq<Event>, j: nat, k: Key): nat {
    if events == [] then 0
    else
      var init, e := events[..|events| - 1], events[|events| - 1];
      Hearings(cfg, net, init, j, k) + if IsHearing(Run(cfg, net, init), e, j, k) then 1 else 0
  }

  /** Lines that receptions of the packet make node j print. */
  function Showings(cfg: Config, net: Net, events: seq<Event>, j: nat, k: Key): nat
    requires j < |net.nodes|
  {
    if events == [] then 0
    else
      var init, e := events[..|events| - 1], events[|events| - 1];
      var before, after := Run(cfg, net, init), Run(cfg, net, events);
      var lines := |after.nodes[j].shown| - |before.nodes[j].shown|;
      Showings(cfg, net, init, j, k) + if IsHearing(before, e, j, k) && lines > 0 then lines else 0
  }

  lemma {:induction false} CopiesToAdds(a: seq<Copy>, b: seq<Copy>, j: nat, k: Key)
    ensures CopiesTo(a + b, j, k) == CopiesTo(a, j, k) + CopiesTo(b, j, k)
    decreases |b|
  {
    hide HasKey;
    if b == [] {
      assert a + b == a;
    } else {
      CopiesToAdds(a, b[..|b| - 1], j, k);
      assert (a + b)[..|a + b| - 1] == a + b[..|b| - 1];
    }
  }

  lemma {:induction false} CountAdds(a: seq<Tx>, b: seq<Tx>, k: Key)
    ensures Count(a + b, k) == Count(a, k) + Count(b, k)
    decreases |b|
  {
    hide KeyOf;
    if b == [] {
      assert a + b == a;
    } else {
      CountAdds(a, b[..|b| - 1], k);
      assert (a + b)[..|a + b| - 1] == a + b[..|b| - 1];
    }
  }

  lemma {:induction false} OneCopyEach(p: Packet, sender: nat, mask: seq<bool>, n: nat, j: nat, k: Key)
    ensures CopiesTo(Copies(p, sender, mask, n), j, k) <= if j < n && j != sender && HasKey(p, k) then 1 else 0
  {
    hide HasKey;
    if n > 0 {
      OneCopyEach(p, sender, mask, n - 1, j, k);
      var more := if Hears(mask, sender, n - 1) then [Copy(n - 1, p)] else [];
      CopiesToAdds(Copies(p, sender, mask, n - 1), more, j, k);
      OneCopy(more, j, k);
    }
  }

  lemma OneCopy(copies: seq<Copy>, j: nat, k: Key)
    requires |copies| <= 1
    ensures CopiesTo(copies, j, k) ==
            if copies != [] && copies[0].dst == j && HasKey(copies[0].packet, k) then 1 else 0
  {
    hide HasKey;
    if copies != [] {
      assert CopiesTo(copies[..0], j, k) == 0;
    }
  }

  lemma {:induction false} BroadcastOnce(out: seq<Tx>, sender: nat, masks: seq<seq<bool>>, n: nat, j: nat, k: Key)
    ensures CopiesTo(Broadcasts(out, sender, masks, n), j, k) <= if j == sender then 0 else Count(out, k)
  {
    hide KeyOf, Copies;
    if out != [] {
      var last := |out| - 1;
      var mask := if last < |masks| then masks[last] else [];
      BroadcastOnce(out[..last], sender, masks, n, j, k);
      OneCopyEach(out[last].packet, sender, mask, n, j, k);
      CopiesToAdds(Broadcasts(out[..last], sender, masks, n), Copies(out[last].packet, sender, mask, n), j, k);
    }
  }

  lemma {:induction false} OneNodeActs(nodes: seq<Trace>, a: nat, t: Trace, j: nat, k: Key)
    requires a < |nodes|
    ensures CountElsewhere(nodes[a := t], j, k) + (if a == j then 0 else Count(nodes[a].out, k)) ==
            CountElsewhere(nodes, j, k) + if a == j then 0 else Count(t.out, k)
  {
    hide Count;
    var l := |nodes| - 1;
    if a < l {
      OneNodeActs(nodes[..l], a, t, j, k);
      assert nodes[a := t][..l] == nodes[..l][a := t];
    } else {
      assert nodes[a := t][..l] == nodes[..l];
    }
  }

  lemma OutGrows(cfg: Config, t: Trace, a: Action)
    ensures t.out <= Act(cfg, t, a).out
  {
    hide Understood, MakePacket, PrepareForward, ShouldForward, Insert, Parse;
  }

  lemma TakenOut(copies: seq<Copy>, i: nat, j: nat, k: Key)
    requires i < |copies|
    ensures CopiesTo(copies, j, k) == CopiesTo(copies[..i] + copies[i + 1..], j, k)
                                      + if copies[i].dst == j && HasKey(copies[i].packet, k) then 1 else 0
  {
    hide HasKey;
    var one := [copies[i]];
    OneCopy(one, j, k);
    assert copies == copies[..i] + one + copies[i + 1..];
    CopiesToAdds(copies[..i] + one, copies[i + 1..], j, k);
    CopiesToAdds(copies[..i], one, j, k);
    CopiesToAdds(copies[..i], copies[i + 1..], j, k);
  }

  lemma StepHearings(cfg: Config, net: Net, e: Event, j: nat, k: Key)
    ensures var net' := Step(cfg, net, e);
            (if IsHearing(net, e, j, k) then 1 else 0) + CopiesTo(net'.pending, j, k)
            + CountElsewhere(net.nodes, j, k) <= CopiesTo(net.pending, j, k) + CountElsewhere(net'.nodes, j, k)
  {
    hide Act, CopiesTo, CountElsewhere, Count, Broadcasts, HasKey;
    if Enabled(net, e) {
      var a := Actor(net, e);
      var t := net.nodes[a];
      var t' := Act(cfg, t, ActionOf(net, e));
      var out := NewOut(t, t');
      OutGrows(cfg, t, ActionOf(net, e));
      assert t'.out == t.out + out;
      CountAdds(t.out, out, k);
      BroadcastOnce(out, a, e.masks, |net.nodes|, j, k);
      CopiesToAdds(Remaining(net, e), Broadcasts(out, a, e.masks, |net.nodes|), j, k);
      OneNodeActs(net.nodes, a, t', j, k);
      if e.Heard? {
        TakenOut(net.pending, e.i, j, k);
      }
    }
  }

  /** In any run: who hears a packet k times, or has copies of it coming, has others that sent it as often. */
  lemma {:induction false} HearingsArePaid(cfg: Config, net: Net, events: seq<Event>, j: nat, k: Key)
    ensures var final := Run(cfg, net, events);
            Hearings(cfg, net, events, j, k) + CopiesTo(final.pending, j, k) + CountElsewhere(net.nodes, j, k) <=
            CopiesTo(net.pending, j, k) + CountElsewhere(final.nodes, j, k)
  {
    hide Step, CopiesTo, CountElsewhere, IsHearing;
    if events != [] {
      var init := events[..|events| - 1];
      HearingsArePaid(cfg, net, init, j, k);
      StepHearings(cfg, Run(cfg, net, init), events[|events| - 1], j, k);
    }
  }

  lemma {:induction false} ElsewhereAtMost(nodes: seq<Trace>, j: nat, k: Key, most: nat)
    requires forall l :: 0 <= l < |nodes| ==> Count(nodes[l].out, k) <= most
    ensures most == 1 ==> CountElsewhere(nodes, j, k) <= if j < |nodes| then |nodes| - 1 else |nodes|
    ensures most == 0 ==> CountElsewhere(nodes, j, k) == 0
  {
    hide Count;
    if nodes != [] {
      ElsewhereAtMost(nodes[..|nodes| - 1], j, k, most);
    }
  }

  lemma {:induction false} NoneUnderway(copies: seq<Copy>, j: nat, k: Key)
    requires forall c :: c in copies ==> !HasKey(c.packet, k)
    ensures CopiesTo(copies, j, k) == 0
  {
    hide HasKey;
    if copies != [] {
      NoneUnderway(copies[..|copies| - 1], j, k);
    }
  }

  lemma ActShows(cfg: Config, t: Trace, a: Action)
    ensures a.Receive? ==> |Act(cfg, t, a).shown| <= |t.shown| + 1
  {
    hide Understood, MakePacket, PrepareForward, ShouldForward, Insert, Parse;
  }

  lemma StepShows(cfg: Config, net: Net, e: Event, j: nat, k: Key)
    requires IsHearing(net, e, j, k)
    ensures j < |net.nodes| && |Step(cfg, net, e).nodes[j].shown| <= |net.nodes[j].shown| + 1
  {
    hide Act, Broadcasts, HasKey;
    ActShows(cfg, net.nodes[j], ActionOf(net, e));
  }

  lemma {:induction false} ShowingsAreHearings(cfg: Config, net: Net, events: seq<Event>, j: nat, k: Key)
    requires j < |net.nodes|
    ensures Showings(cfg, net, events, j, k) <= Hearings(cfg, net, events, j, k)
  {
    hide Step, IsHearing;
    if events != [] {
      var init, e := events[..|events| - 1], events[|events| - 1];
      ShowingsAreHearings(cfg, net, init, j, k);
      if IsHearing(Run(cfg, net, init), e, j, k) {
        StepShows(cfg, Run(cfg, net, init), e, j, k);
      }
    }
  }

  /**
   * In a network of N nodes with distinct ids that nobody changes, as long as no node registers more than 32 packets:
   * a node hears a packet of one of them, and prints its text, at most N - 1 times, its origin included.
   */
  lemma EchoesAtMost(cfg: Config, net: Net, events: seq<Event>, j: nat, k: Key)
    requires Start(net) && forall e :: e in events ==> NoRenaming(e)
    requires forall l :: 0 <= l < |net.nodes| ==> |Run(cfg, net, events).nodes[l].seen| <= SEEN_SIZE
    requires j < |net.nodes| && exists l :: 0 <= l < |net.nodes| && net.nodes[l].id == k.from
    ensures Showings(cfg, net, events, j, k) <= Hearings(cfg, net, events, j, k) <= |net.nodes| - 1
  {
    hide Run, KeyOf, NoRenaming, Showings, Hearings;
    LinearFloodCost(cfg, net, events, k);
    HearingsArePaid(cfg, net, events, j, k);
    ElsewhereAtMost(Run(cfg, net, events).nodes, j, k, 1);
    NoneUnderway(net.pending, j, k);
    ShowingsAreHearings(cfg, net, events, j, k);
  }

  lemma NoRelays(p: Packet)
    ensures RelayedBy(p, []) == p
  {
  }

  /** Node 1, alone with node 0, relays the text. */
  lemma OtherRelays(cfg: Config, t: Trace, u: Trace, id: u32, packetId: u32)
    requires !u.halted && !WasSeen(u.ring, Key(id, packetId))
    ensures var first := MakePacket(cfg, id, packetId, BROADCAST, PONG, FULL);
            var now, e := Net([t, u], [Copy(1, first)]), Heard(0, HearEnv(FULL, FULL, NoText), LastTo(1, 0));
            && Answered(cfg, now, e)
            && Step(cfg, now, e).nodes[0] == t
            && Step(cfg, now, e).pending == [Copy(0, RelayedBy(first, [] + [u.id % 0x100]))]
  {
    hide MakePacket, Hear, Broadcasts, LastTo, NewOut, RelayedBy, WasSeen, Answers;
    var first := MakePacket(cfg, id, packetId, BROADCAST, PONG, FULL);
    NoRelays(first);
    HearsPong(cfg, u, id, packetId, []);
    var out := NewOut(u, Hear(cfg, u, first, HearEnv(FULL, FULL, NoText)));
    assert |out| == 1;
    LastIsHeard(out, 1, 0, 2);
  }

  lemma OriginShows(cfg: Config, now: Net, id: u32, packetId: u32, relay: byte)
    requires |now.nodes| == 2 && !now.nodes[0].halted
    requires now.pending == [Copy(0, RelayedBy(MakePacket(cfg, id, packetId, BROADCAST, PONG, FULL), [] + [relay]))]
    ensures var e := Heard(0, HearEnv(FULL, FULL, NoText), []);
            Answered(cfg, now, e) && Step(cfg, now, e).nodes[0].shown == now.nodes[0].shown + [Received(PONG)]
  {
    hide MakePacket, Hear, Broadcasts, NewOut, RelayedBy, WasSeen, Answers;
    HearsPong(cfg, now.nodes[0], id, packetId, [] + [relay]);
  }

  lemma OriginSends(cfg: Config, net: Net)
    requires |net.nodes| == 2 && net.pending == [] && !net.nodes[0].halted
    ensures var e := Typed(0, PONG, SendEnv(FULL, true), LastTo(1, 1));
            var t' := HandleLine(cfg, net.nodes[0], PONG, SendEnv(FULL, true));
            && Answered(cfg, net, e) && Step(cfg, net, e) == Net([t', net.nodes[1]], [Copy(1, First(cfg, net))])
            && t'.shown == net.nodes[0].shown + [SentOk] && !t'.halted
  {
    hide MakePacket, HandleLine, Broadcasts, LastTo, NewOut, WasSeen;
    TypedPong(cfg, net.nodes[0], SendEnv(FULL, true));
    LastIsHeard([Tx(First(cfg, net), false)], 0, 1, 2);
  }

  /** With two nodes the bound is reached at the origin: it shows its own text when the other relays it. */
  lemma OriginHearsItself(cfg: Config, net: Net)
    requires |net.nodes| == 2 && net.pending == [] && !net.nodes[0].halted && !net.nodes[1].halted
    requires !WasSeen(net.nodes[1].ring, Key(net.nodes[0].id, net.nodes[0].nextId))
    ensures exists events :: && OneTyped(events, 0, PONG) && AllAnswered(cfg, net, events)
                             && Run(cfg, net, events).nodes[0].shown ==
                                net.nodes[0].shown + [SentOk, Received(PONG)]
  {
    hide Step, MakePacket, HandleLine, RelayedBy, LastTo, Run, AllAnswered, Answered, WasSeen;
    var t, u := net.nodes[0], net.nodes[1];
    var env := HearEnv(FULL, FULL, NoText);
    var e0, e1, e2 := Typed(0, PONG, SendEnv(FULL, true), LastTo(1, 1)), Heard(0, env, LastTo(1, 0)), Heard(0, env, []);
    var t' := HandleLine(cfg, t, PONG, SendEnv(FULL, true));
    OriginSends(cfg, net);
    OtherRelays(cfg, t', u, t.id, t.nextId);
    OriginShows(cfg, Step(cfg, Step(cfg, net, e0), e1), t.id, t.nextId, u.id % 0x100);
    ThreeSteps(cfg, net, e0, e1, e2);
    assert OneTyped([e0, e1, e2], 0, PONG);
    assert t.shown + [SentOk] + [Received(PONG)] == t.shown + [SentOk, Received(PONG)];
  }

  lemma ThreeSteps(cfg: Config, net: Net, e0: Event, e1: Event, e2: Event)
    ensures var n1 := Step(cfg, net, e0);
            var n2 := Step(cfg, n1, e1);
            && Run(cfg, net, [e0, e1, e2]) == Step(cfg, n2, e2)
            && (AllAnswered(cfg, net, [e0, e1, e2]) <==>
                  Answered(cfg, net, e0) && Answered(cfg, n1, e1) && Answered(cfg, n2, e2))
  {
    hide Step, Answered;
    var n1 := Step(cfg, net, e0);
    assert [e0][..0] == [] && [e0, e1][..1] == [e0] && [e0, e1, e2][..2] == [e0, e1];
    assert Run(cfg, net, [e0]) == n1;
    assert Run(cfg, net, [e0, e1]) == Step(cfg, n1, e1);
    assert AllAnswered(cfg, net, [e0]) <==> Answered(cfg, net, e0);
    assert AllAnswered(cfg, net, [e0, e1]) <==> Answered(cfg, net, e0) && Answered(cfg, n1, e1);
  }
}

/** In a closed network nothing appears on a console that nobody typed within four links. */
module Integrity {
  import opened Bytes
  import opened MeshPacket
  import opened FloodRouter
  import opened LineInput
  import opened MeshNode
  import opened Delivery
  import opened Network

  /** A text that a node was asked to send, and could. */
  datatype Post = Post(node: nat, text: seq<byte>)

  /** At most n links lead from one node to another. */
  ghost predicate Within(links: set<Link>, origin: nat, node: nat, n: nat)
    decreases n
  {
    origin == node || (n > 0 && exists m :: Link(m, node) in links && Within(links, origin, m, n - 1))
  }

  /** The text was posted at most n links away, or is "pong". */
  ghost predicate Known(links: set<Link>, posts: set<Post>, node: nat, text: seq<byte>, n: nat) {
    text == PONG || exists origin :: Post(origin, text) in posts && Within(links, origin, node, n)
  }

  lemma {:induction false} WithinMore(links: set<Link>, origin: nat, node: nat, n: nat)
    requires Within(links, origin, node, n)
    ensures Within(links, origin, node, n + 1)
    decreases n
  {
    if origin != node {
      var m :| Link(m, node) in links && Within(links, origin, m, n - 1);
      WithinMore(links, origin, m, n - 1);
    }
  }

  lemma {:induction false} KnownAtAll(links: set<Link>, posts: set<Post>, node: nat, text: seq<byte>, n: nat)
    requires Known(links, posts, node, text, n) && n <= 4
    ensures Known(links, posts, node, text, 4)
    decreases 4 - n
  {
    if n < 4 && text != PONG {
      var origin :| Post(origin, text) in posts && Within(links, origin, node, n);
      WithinMore(links, origin, node, n);
      KnownAtAll(links, posts, node, text, n + 1);
    }
  }

  /** The packet holds a text which, hops left included, may be `reach` links from home at this node. */
  ghost predicate Genuine(cfg: Config, links: set<Link>, posts: set<Post>, node: nat, p: Packet, reach: nat) {
    |p| > HEADER_SIZE && Hop(p) <= reach
    && var c := ContentOf(cfg, p, FULL);
       c.Text? && c.port == TEXT_PORT && Known(links, posts, node, c.text, reach - Hop(p))
  }

  ghost predicate OnlyShows(t: Trace, links: set<Link>, posts: set<Post>, node: nat) {
    forall s :: s in t.shown && s.Received? ==> Known(links, posts, node, s.text, 4)
  }

  ghost predicate AllGenuine(cfg: Config, links: set<Link>, posts: set<Post>, node: nat, out: seq<Tx>) {
    forall tx :: tx in out ==> Genuine(cfg, links, posts, node, tx.packet, 3)
  }

  ghost predicate Sound(cfg: Config, links: set<Link>, posts: set<Post>, net: Net) {
    && (forall c :: c in net.pending ==> Genuine(cfg, links, posts, c.dst, c.packet, 4))
    && (forall j :: 0 <= j < |net.nodes| ==> !net.nodes[j].halted && OnlyShows(net.nodes[j], links, posts, j))
  }

  /** What the nodes of a run were asked to send, and could. */
  function Posts(cfg: Config, net: Net, events: seq<Event>): set<Post> {
    if events == [] then {}
    else
      var init := events[..|events| - 1];
      Posts(cfg, net, init) + PostOf(Run(cfg, net, init), events[|events| - 1])
  }

  function PostOf(net: Net, e: Event): set<Post> {
    if Enabled(net, e) && e.Typed? && Sendable(e.line) then {Post(e.node, e.line)} else {}
  }

  lemma {:induction false} CopiesInRange(packet: Packet, sender: nat, mask: seq<bool>, n: nat)
    ensures forall c :: c in Copies(packet, sender, mask, n) ==>
              c.packet == packet && c.dst < n && Hears(mask, sender, c.dst)
  {
    if n > 0 {
      CopiesInRange(packet, sender, mask, n - 1);
    }
  }

  /** One more link takes what node j transmits to those who hear it. */
  lemma {:induction false} BroadcastsGenuine(cfg: Config, links: set<Link>, posts: set<Post>, out: seq<Tx>, j: nat,
                                             masks: seq<seq<bool>>, n: nat)
    requires AllGenuine(cfg, links, posts, j, out)
    requires forall k, d :: 0 <= k < |masks| && 0 <= d < n && Hears(masks[k], j, d) ==> Link(j, d) in links
    ensures forall c :: c in Broadcasts(out, j, masks, n) ==> Genuine(cfg, links, posts, c.dst, c.packet, 4)
  {
    hide Copies, Genuine;
    if out != [] {
      var last := |out| - 1;
      var mask := if last < |masks| then masks[last] else [];
      BroadcastsGenuine(cfg, links, posts, out[..last], j, masks, n);
      CopiesInRange(out[last].packet, j, mask, n);
      assert out[last] in out;
      forall c | c in Copies(out[last].packet, j, mask, n)
        ensures Genuine(cfg, links, posts, c.dst, c.packet, 4)
      {
        LinkedGenuine(cfg, links, posts, j, c.dst, c.packet);
      }
    }
  }

  lemma LinkedGenuine(cfg: Config, links: set<Link>, posts: set<Post>, j: nat, d: nat, p: Packet)
    requires Genuine(cfg, links, posts, j, p, 3) && Link(j, d) in links
    ensures Genuine(cfg, links, posts, d, p, 4)
  {
    hide ContentOf, Hop;
    var text, n := ContentOf(cfg, p, FULL).text, 3 - Hop(p);
    if text != PONG {
      var origin :| Post(origin, text) in posts && Within(links, origin, j, n);
      assert Within(links, origin, d, n + 1);
    }
  }

  lemma SentIsGenuine(cfg: Config, links: set<Link>, posts: set<Post>, node: nat,
                      id: u32, packetId: u32, to: u32, text: seq<byte>, blocks: nat)
    requires 1 <= |text| <= MAX_TEXT && 4 + |text| <= 16 * blocks && Known(links, posts, node, text, 0)
    ensures Genuine(cfg, links, posts, node, MakePacket(cfg, id, packetId, to, text, blocks), 3)
  {
    SentContent(cfg, id, packetId, to, text, blocks);
    SentHeader(cfg, id, packetId, to, text, blocks);
    hide MakePacket, ContentOf, Parse, Known;
  }

  lemma RelayedIsGenuine(cfg: Config, links: set<Link>, posts: set<Post>, node: nat, p: Packet, me: byte)
    requires Genuine(cfg, links, posts, node, p, 4) && Hop(p) > 0
    ensures Genuine(cfg, links, posts, node, PrepareForward(p, me), 3)
  {
    hide ContentOf, Known;
    ForwardedContent(cfg, p, me, FULL);
    RelayRewrite(p, me);
  }

  lemma HearKeepsSound(cfg: Config, links: set<Link>, posts: set<Post>, node: nat, t: Trace, p: Packet, env: HearEnv)
    requires !t.halted && OnlyShows(t, links, posts, node)
    requires Genuine(cfg, links, posts, node, p, 4) && HearAnswered(cfg, t, p, env)
    ensures var t' := Hear(cfg, t, p, env);
            !t'.halted && OnlyShows(t', links, posts, node) && AllGenuine(cfg, links, posts, node, NewOut(t, t'))
  {
    hide ContentOf, MakePacket, PrepareForward, Insert, Parse, KeyOf, Hop, WasSeen, Known;
    HearTransmits(cfg, t, p, env);
    var text := ContentOf(cfg, p, FULL).text;
    KnownAtAll(links, posts, node, text, 4 - Hop(p));
    if Hop(p) > 0 {
      RelayedIsGenuine(cfg, links, posts, node, p, t.id % 0x100);
    }
    if Addressed(p, t.id) {
      ContentCovered(cfg, p, env.decrypt);
      PongIsKnown(links, posts, node);
      if env.encrypt >= 1 {
        SentIsGenuine(cfg, links, posts, node, t.id, t.nextId, Parse(p).fromId, PONG, env.encrypt);
      }
    }
  }

  lemma PongIsKnown(links: set<Link>, posts: set<Post>, node: nat)
    ensures Known(links, posts, node, PONG, 0)
  {
  }

  lemma TypeKeepsSound(cfg: Config, links: set<Link>, posts: set<Post>, node: nat, t: Trace, line: Line, env: SendEnv)
    requires !t.halted && OnlyShows(t, links, posts, node) && TypeAnswered(line, env)
    requires Sendable(line) ==> Post(node, line) in posts
    ensures var t' := HandleLine(cfg, t, line, env);
            !t'.halted && OnlyShows(t', links, posts, node) && AllGenuine(cfg, links, posts, node, NewOut(t, t'))
  {
    hide MakePacket, Insert, Genuine;
    if Sendable(line) {
      assert Within(links, node, node, 0);
      SentIsGenuine(cfg, links, posts, node, t.id, t.nextId, BROADCAST, line, env.blocks);
    }
  }

  lemma StepKeepsSound(cfg: Config, links: set<Link>, posts: set<Post>, net: Net, e: Event)
    requires Sound(cfg, links, posts, net) && Answered(cfg, net, e) && InRange(links, net, e) && PostOf(net, e) <= posts
    ensures Sound(cfg, links, posts, Step(cfg, net, e))
  {
    hide Genuine, OnlyShows, HandleLine, Hear, Broadcasts, NewOut, Sendable, HearAnswered, Hears, AllGenuine;
    if Enabled(net, e) {
      var j := Actor(net, e);
      var t := net.nodes[j];
      var t' := Act(cfg, t, ActionOf(net, e));
      match e {
        case Typed(_, line, env, _) => TypeKeepsSound(cfg, links, posts, j, t, line, env);
        case Heard(i, env, _) => HearKeepsSound(cfg, links, posts, j, t, net.pending[i].packet, env);
      }
      BroadcastsGenuine(cfg, links, posts, NewOut(t, t'), j, e.masks, |net.nodes|);
    }
  }

  lemma KnownToMore(links: set<Link>, posts: set<Post>, more: set<Post>, node: nat, text: seq<byte>, n: nat)
    requires posts <= more && Known(links, posts, node, text, n)
    ensures Known(links, more, node, text, n)
  {
  }

  lemma MorePosts(cfg: Config, links: set<Link>, posts: set<Post>, more: set<Post>, net: Net)
    requires Sound(cfg, links, posts, net) && posts <= more
    ensures Sound(cfg, links, more, net)
  {
    hide ContentOf, Known, Hop;
    forall node: nat, text: seq<byte>, n: nat | Known(links, posts, node, text, n)
      ensures Known(links, more, node, text, n)
    {
      KnownToMore(links, posts, more, node, text, n);
    }
  }

  /**
   * From silence, with a common key and as long as every block operation asked for succeeds: no decoder ever fails
   * to return, and every text shown on any console was typed during the run at a node at most four links away, or is
   * "pong".
   */
  lemma {:induction false} ConsoleLocality(cfg: Config, links: set<Link>, net: Net, events: seq<Event>)
    requires net.pending == [] && AllAnswered(cfg, net, events) && AllInRange(cfg, links, net, events)
    requires forall j :: 0 <= j < |net.nodes| ==> !net.nodes[j].halted && net.nodes[j].shown == []
    ensures Sound(cfg, links, Posts(cfg, net, events), Run(cfg, net, events))
  {
    hide Genuine, Step, Answered, PostOf, Known;
    if events != [] {
      var init, e := events[..|events| - 1], events[|events| - 1];
      var posts := Posts(cfg, net, events);
      ConsoleLocality(cfg, links, net, init);
      MorePosts(cfg, links, Posts(cfg, net, init), posts, Run(cfg, net, init));
      StepKeepsSound(cfg, links, posts, Run(cfg, net, init), e);
    }
  }

  function AllLinks(n: nat): set<Link> {
    set i, j | 0 <= i < n && 0 <= j < n :: Link(i, j)
  }

  lemma {:induction false} EverythingInRange(cfg: Config, net: Net, events: seq<Event>)
    ensures AllInRange(cfg, AllLinks(|net.nodes|), net, events)
  {
    hide Step, Hears;
    if events != [] {
      EverythingInRange(cfg, net, events[..|events| - 1]);
    }
  }

  /** Whoever is in range of whom: a text shown on any console was typed at some node during the run, or is "pong". */
  lemma ConsoleIntegrity(cfg: Config, net: Net, events: seq<Event>)
    requires net.pending == [] && AllAnswered(cfg, net, events)
    requires forall j :: 0 <= j < |net.nodes| ==> !net.nodes[j].halted && net.nodes[j].shown == []
    ensures forall t :: t in Run(cfg, net, events).nodes ==>
              && !t.halted
              && forall s :: s in t.shown && s.Received? ==>
                   s.text == PONG || exists node :: Post(node, s.text) in Posts(cfg, net, events)
  {
    hide Run, Posts, AllLinks, AllInRange, AllAnswered, Within;
    EverythingInRange(cfg, net, events);
    ConsoleLocality(cfg, AllLinks(|net.nodes|), net, events);
  }
}

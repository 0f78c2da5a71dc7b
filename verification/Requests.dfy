/** From the bytes on the serial line to the packets on the air. */
module Requests {
  import opened Bytes
  import opened MeshPacket
  import opened LineInput
  import opened MeshNode
  import opened Delivery
  import opened Network
  import opened Keystream
  import S = SerialIo

  function SendableOf(lines: seq<Line>): seq<Line> {
    if lines == [] then []
    else
      var n := |lines| - 1;
      SendableOf(lines[..n]) + (if Sendable(lines[n]) then [lines[n]] else [])
  }

  lemma {:induction false} SendableAdds(a: seq<Line>, b: seq<Line>)
    ensures SendableOf(a + b) == SendableOf(a) + SendableOf(b)
    decreases |b|
  {
    hide Sendable;
    if b == [] {
      assert a + b == a;
    } else {
      SendableAdds(a, b[..|b| - 1]);
      assert (a + b)[..|a + b| - 1] == a + b[..|b| - 1];
    }
  }

  /** A packet of the node's own, to everybody, with the line as its text. */
  predicate Carries(cfg: Config, tx: Tx, line: Line) {
    !tx.relayed && |tx.packet| >= HEADER_SIZE && Parse(tx.packet).toId == BROADCAST
    && ContentOf(cfg, tx.packet, FULL) == Text(TEXT_PORT, line)
  }

  lemma HandleOneLine(cfg: Config, t: Trace, line: Line, env: SendEnv)
    ensures var t' := HandleLine(cfg, t, line, env);
            if Sendable(line)
            then |t'.out| == |t.out| + 1 && t'.out[..|t.out|] == t.out
                 && (TypeAnswered(line, env) ==> Carries(cfg, t'.out[|t.out|], line))
            else t'.out == t.out
  {
    hide ContentOf, MakePacket, Parse;
    if line != [] {
      LineIsSentIff(cfg, t, line, env);
      if Sendable(line) {
        SentHeader(cfg, t.id, t.nextId, BROADCAST, line, env.blocks);
        if TypeAnswered(line, env) {
          SentContent(cfg, t.id, t.nextId, BROADCAST, line, env.blocks);
        }
      }
    }
  }

  /**
   * A list of lines makes the node transmit exactly the sendable ones, in order: the new packets number as many, and
   * where the cipher answers, the i-th of them decodes to the i-th sendable line.
   */
  lemma {:induction false} LinesBecomePackets(cfg: Config, t: Trace, lines: seq<Line>, env: nat -> SendEnv)
    ensures var t' := HandleLines(cfg, t, lines, env);
            var wanted := SendableOf(lines);
            && |t'.out| == |t.out| + |wanted|
            && t'.out[..|t.out|] == t.out
            && ((forall i :: 0 <= i < |lines| ==> TypeAnswered(lines[i], env(i))) ==>
                  forall i :: 0 <= i < |wanted| ==> Carries(cfg, t'.out[|t.out| + i], wanted[i]))
  {
    hide Carries, HandleLine, Sendable, TypeAnswered;
    if lines != [] {
      var n := |lines| - 1;
      LinesBecomePackets(cfg, t, lines[..n], env);
      HandleOneLine(cfg, HandleLines(cfg, t, lines[..n], env), lines[n], env(n));
    }
  }

  // ---------------------------------------------------------------- with receptions in between

  /** The lines completed in a life, in order. */
  function LinesOf(actions: seq<Action>): seq<Line> {
    if actions == [] then []
    else
      var last := actions[|actions| - 1];
      LinesOf(actions[..|actions| - 1]) + (if last.Type? then [last.line] else [])
  }

  function TypedTexts(sendings: seq<Sending>): seq<Line> {
    if sendings == [] then []
    else
      var last := sendings[|sendings| - 1];
      TypedTexts(sendings[..|sendings| - 1]) + (if last.typed then [last.text] else [])
  }

  lemma OneMoreSending(sendings: seq<Sending>, more: seq<Sending>)
    requires |more| <= 1
    ensures TypedTexts(sendings + more) ==
            TypedTexts(sendings) + if more != [] && more[0].typed then [more[0].text] else []
  {
    if more == [] {
      assert sendings + more == sendings;
    } else {
      assert (sendings + more)[..|sendings|] == sendings;
    }
  }

  lemma OneMoreAction(actions: seq<Action>, a: Action)
    requires actions != [] && a == actions[|actions| - 1]
    ensures SendableOf(LinesOf(actions)) ==
            SendableOf(LinesOf(actions[..|actions| - 1])) + if a.Type? && Sendable(a.line) then [a.line] else []
  {
    hide Sendable, SendableOf;
    if a.Type? {
      OneMoreSendable(LinesOf(actions[..|actions| - 1]), a.line);
    } else {
      assert LinesOf(actions) == LinesOf(actions[..|actions| - 1]);
    }
  }

  lemma OneMoreSendable(lines: seq<Line>, line: Line)
    ensures SendableOf(lines + [line]) == SendableOf(lines) + if Sendable(line) then [line] else []
  {
    hide Sendable;
    assert (lines + [line])[..|lines|] == lines;
  }

  /** Of what a life sends, the typed texts are the sendable lines, in order; everything else is a pong. */
  lemma {:induction false} SendingsAreRequested(cfg: Config, t0: Trace, actions: seq<Action>)
    ensures TypedTexts(Sendings(cfg, t0, actions)) == SendableOf(LinesOf(actions))
    ensures forall s :: s in Sendings(cfg, t0, actions) ==>
              if s.typed then s.to == BROADCAST && s.text != [] else s.text == PONG
  {
    hide Live, Answers, LinesOf, TypedTexts, Parse, RequestOf;
    if actions == [] {
      NothingTyped();
    } else {
      var init, a := actions[..|actions| - 1], actions[|actions| - 1];
      SendingsAreRequested(cfg, t0, init);
      OneMoreSending(Sendings(cfg, t0, init), SendingsOf(cfg, Live(cfg, t0, init), a));
      OneMoreAction(actions, a);
    }
  }

  lemma NothingTyped()
    ensures TypedTexts([]) == [] && LinesOf([]) == []
  {
  }

  /** The packet says what was to be sent, to whom it was to be sent. */
  predicate Says(cfg: Config, p: Packet, s: Sending) {
    && |p| >= HEADER_SIZE && Parse(p).toId == s.to && Parse(p).fromId == s.id
    && (4 + |s.text| <= 16 * s.blocks ==> ContentOf(cfg, p, FULL) == Text(TEXT_PORT, s.text))
  }

  /**
   * Over any life of a node, whatever it receives in between: the packets it sends itself are, one for one and in
   * order, a broadcast for each sendable line and pongs in between; each of them decodes to its text if enough block
   * operations succeeded.
   */
  lemma LifeSendsRequested(cfg: Config, t0: Trace, actions: seq<Action>)
    requires t0.out == []
    ensures var sent, sendings := FreshPackets(Live(cfg, t0, actions).out), Sendings(cfg, t0, actions);
            && |sent| == |sendings|
            && (forall i :: 0 <= i < |sent| ==> Says(cfg, sent[i], sendings[i]))
            && TypedTexts(sendings) == SendableOf(LinesOf(actions))
            && forall s :: s in sendings ==> if s.typed then s.to == BROADCAST else s.text == PONG
  {
    hide Live, Sendings, FreshPackets, PacketOf, NthId, TypedTexts, SendableOf, LinesOf, Says;
    LifeIsNumbered(cfg, t0, actions);
    SendingsAreRequested(cfg, t0, actions);
    var sent, sendings := FreshPackets(Live(cfg, t0, actions).out), Sendings(cfg, t0, actions);
    forall i | 0 <= i < |sent|
      ensures Says(cfg, sent[i], sendings[i])
    {
      PacketSays(cfg, sendings[i], NthId(t0.nextId, i));
    }
  }

  lemma PacketSays(cfg: Config, s: Sending, packetId: u32)
    requires s.text != []
    ensures Says(cfg, PacketOf(cfg, s, packetId), s)
  {
    hide MakePacket, ContentOf, Parse;
    SentHeader(cfg, s.id, packetId, s.to, s.text, s.blocks);
    if 4 + |s.text| <= 16 * s.blocks {
      SentContent(cfg, s.id, packetId, s.to, s.text, s.blocks);
    }
  }

  /**
   * Composed with the receive ring: under any interleaving of interrupts with the main loop, and whatever the loop
   * receives between the lines it reads, the texts it sends for lines are the first of those that the accepted bytes
   * ask for, and all of them once the ring is empty; its packets say these and pongs.
   */
  lemma AcceptedBytesBecomePackets(cfg: Config, t0: Trace, actions: seq<Action>, buf: seq<byte>, events: seq<S.Event>)
    requires t0.out == [] && |buf| == 256
    requires LinesOf(actions) == FeedAll([], S.DoAll(S.Boot(buf), events).delivered).lines
    ensures var s := S.DoAll(S.Boot(buf), events);
            var sent, sendings := FreshPackets(Live(cfg, t0, actions).out), Sendings(cfg, t0, actions);
            var wanted := SendableOf(Lines(s.accepted));
            && TypedTexts(sendings) <= wanted && (s.head == s.tail ==> TypedTexts(sendings) == wanted)
            && |sent| == |sendings| && (forall i :: 0 <= i < |sent| ==> Says(cfg, sent[i], sendings[i]))
            && forall s :: s in sendings ==> if s.typed then s.to == BROADCAST else s.text == PONG
  {
    hide Says, S.DoAll, FeedAll, Lines, SendableOf, LinesOf, Live, Sendings, FreshPackets, TypedTexts;
    var lines, all := LinesOf(actions), Lines(S.DoAll(S.Boot(buf), events).accepted);
    LinesOfAcceptedBytes(buf, events);
    LifeSendsRequested(cfg, t0, actions);
    SendableAdds(lines, all[|lines|..]);
    assert all == lines + all[|lines|..];
  }

  // ---------------------------------------------------------------- the main loop leads such a life

  /** One turn of the main loop: the lines polled, then what the radio received. */
  datatype Turn = Turn(lines: seq<Line>, lineEnv: nat -> SendEnv, packet: Packet, hearEnv: HearEnv)

  function DoTurn(cfg: Config, t: Trace, turn: Turn): Trace {
    Hear(cfg, HandleLines(cfg, t, turn.lines, turn.lineEnv), turn.packet, turn.hearEnv)
  }

  function Loop(cfg: Config, t: Trace, turns: seq<Turn>): Trace {
    if turns == [] then t else DoTurn(cfg, Loop(cfg, t, turns[..|turns| - 1]), turns[|turns| - 1])
  }

  function LinesPolled(turns: seq<Turn>): seq<Line> {
    if turns == [] then [] else LinesPolled(turns[..|turns| - 1]) + turns[|turns| - 1].lines
  }

  function Typing(lines: seq<Line>, env: nat -> SendEnv): seq<Action> {
    seq(|lines|, i requires 0 <= i < |lines| => Type(lines[i], env(i)))
  }

  function ActionsIn(turns: seq<Turn>): seq<Action> {
    if turns == [] then []
    else
      var last := turns[|turns| - 1];
      ActionsIn(turns[..|turns| - 1]) + Typing(last.lines, last.lineEnv) + [Receive(last.packet, last.hearEnv)]
  }

  lemma OneMoreOf(cfg: Config, t: Trace, actions: seq<Action>, a: Action)
    ensures Live(cfg, t, actions + [a]) == Act(cfg, Live(cfg, t, actions), a)
    ensures LinesOf(actions + [a]) == LinesOf(actions) + if a.Type? then [a.line] else []
  {
    hide Act;
    assert (actions + [a])[..|actions|] == actions;
  }

  lemma {:induction false} TypingIsLife(cfg: Config, t: Trace, actions: seq<Action>, lines: seq<Line>,
                                       env: nat -> SendEnv)
    ensures Live(cfg, t, actions + Typing(lines, env)) == HandleLines(cfg, Live(cfg, t, actions), lines, env)
    ensures LinesOf(actions + Typing(lines, env)) == LinesOf(actions) + lines
    decreases |lines|
  {
    hide HandleLine, Live, LinesOf;
    if lines == [] {
      assert actions + Typing(lines, env) == actions;
    } else {
      var n := |lines| - 1;
      TypingIsLife(cfg, t, actions, lines[..n], env);
      OneMoreOf(cfg, t, actions + Typing(lines[..n], env), Type(lines[n], env(n)));
      assert actions + Typing(lines, env) == actions + Typing(lines[..n], env) + [Type(lines[n], env(n))];
    }
  }

  /** Turns of the main loop are a life whose lines are those polled. */
  lemma {:induction false} LoopIsLife(cfg: Config, t: Trace, turns: seq<Turn>)
    ensures Loop(cfg, t, turns) == Live(cfg, t, ActionsIn(turns))
    ensures LinesOf(ActionsIn(turns)) == LinesPolled(turns)
  {
    hide HandleLines, Hear, Typing;
    if turns != [] {
      var init, last := turns[..|turns| - 1], turns[|turns| - 1];
      LoopIsLife(cfg, t, init);
      TypingIsLife(cfg, t, ActionsIn(init), last.lines, last.lineEnv);
      OneMoreOf(cfg, t, ActionsIn(init) + Typing(last.lines, last.lineEnv), Receive(last.packet, last.hearEnv));
    }
  }

  // ---------------------------------------------------------------- however the lines are cut into polls

  function Joined(first: nat -> SendEnv, n: nat, rest: nat -> SendEnv): nat -> SendEnv {
    (i: nat) => if i < n then first(i) else rest(i - n)
  }

  lemma {:induction false} SameEnvironment(cfg: Config, t: Trace, lines: seq<Line>, env: nat -> SendEnv,
                                           env': nat -> SendEnv)
    requires forall i: nat :: i < |lines| ==> env(i) == env'(i)
    ensures HandleLines(cfg, t, lines, env) == HandleLines(cfg, t, lines, env')
  {
    hide HandleLine;
    if lines != [] {
      SameEnvironment(cfg, t, lines[..|lines| - 1], env, env');
    }
  }

  /** Two polls in a row handle the lines of both as one poll would. */
  lemma {:induction false} PollsJoin(cfg: Config, t: Trace, a: seq<Line>, b: seq<Line>, env: nat -> SendEnv,
                                     env': nat -> SendEnv)
    ensures HandleLines(cfg, HandleLines(cfg, t, a, env), b, env') ==
            HandleLines(cfg, t, a + b, Joined(env, |a|, env'))
    decreases |b|
  {
    hide HandleLine;
    var joined := Joined(env, |a|, env');
    if b == [] {
      assert a + b == a;
      SameEnvironment(cfg, t, a, env, joined);
    } else {
      var n := |b| - 1;
      PollsJoin(cfg, t, a, b[..n], env, env');
      assert (a + b)[..|a + b| - 1] == a + b[..n];
    }
  }

  /** A poll goes on where the one before stopped, unfinished line included. */
  lemma PollsResume(cfg: Config, v: View, k: nat, l: nat, env: nat -> SendEnv, env': nat -> SendEnv)
    requires k + l <= |v.waiting|
    ensures TakeBytes(cfg, TakeBytes(cfg, v, k, env), l, env') ==
            TakeBytes(cfg, v, k + l, Joined(env, LinesIn(v, k), env'))
  {
    hide FeedAll, HandleLines;
    var first, rest := v.waiting[..k], v.waiting[k..][..l];
    assert v.waiting[..k + l] == first + rest && v.waiting[k..][l..] == v.waiting[k + l..];
    PollsCompose(v.partial, first, rest);
    var fed := FeedAll(v.partial, first);
    PollsJoin(cfg, v.trace, fed.lines, FeedAll(fed.partial, rest).lines, env, env');
  }
}

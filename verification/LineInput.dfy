/** Assembling lines from the serial input (uart_rx_line_poll in firmware/Core/main_loop.c). */
module LineInput {
  import opened Bytes
  import S = SerialIo

  const CR: byte := 13
  const LF: byte := 10
  /** One byte of the 200-byte line buffer is kept for the terminator. */
  const LINE_MAX := 199

  predicate Ends(b: byte) {
    b == CR || b == LF
  }

  type Line = s: seq<byte> | |s| <= LINE_MAX witness []

  /** The line buffer after some bytes, and the lines completed by them. */
  datatype Fed = Fed(partial: Line, lines: seq<Line>)

  function Feed(partial: Line, b: byte): Fed {
    if Ends(b) then (if partial == [] then Fed([], []) else Fed([], [partial]))
    else Fed(if |partial| < LINE_MAX then partial + [b] else partial, [])
  }

  function FeedAll(partial: Line, bytes: seq<byte>): Fed {
    if bytes == [] then Fed(partial, [])
    else
      var init := FeedAll(partial, bytes[..|bytes| - 1]);
      var last := Feed(init.partial, bytes[|bytes| - 1]);
      Fed(last.partial, init.lines + last.lines)
  }

  // ---------------------------------------------------------------- lines as pieces of the stream

  function Clip(piece: seq<byte>): Line {
    if |piece| <= LINE_MAX then piece else piece[..LINE_MAX]
  }

  function EndOfPiece(s: seq<byte>): (i: nat)
    ensures i <= |s|
    ensures forall k :: 0 <= k < i ==> !Ends(s[k])
    ensures i < |s| ==> Ends(s[i])
  {
    if s == [] || Ends(s[0]) then 0 else 1 + EndOfPiece(s[1..])
  }

  /** The non-empty pieces ended by a CR or LF, clipped. */
  function Lines(s: seq<byte>): seq<Line>
    decreases |s|
  {
    var i := EndOfPiece(s);
    if i == |s| then []
    else (if i == 0 then [] else [Clip(s[..i])]) + Lines(s[i + 1..])
  }

  /** What follows the last CR or LF. */
  function Unfinished(s: seq<byte>): seq<byte>
    decreases |s|
  {
    var i := EndOfPiece(s);
    if i == |s| then s else Unfinished(s[i + 1..])
  }

  lemma {:induction false} PieceEndIs(s: seq<byte>, i: nat)
    requires i <= |s| && (forall k :: 0 <= k < i ==> !Ends(s[k])) && (i < |s| ==> Ends(s[i]))
    ensures EndOfPiece(s) == i
  {
    if i > 0 {
      PieceEndIs(s[1..], i - 1);
    }
  }

  /** Appending one byte to the stream. */
  lemma {:induction false} AppendByte(s: seq<byte>, b: byte)
    ensures Lines(s + [b]) == Lines(s) + Feed(Clip(Unfinished(s)), b).lines
    ensures Clip(Unfinished(s + [b])) == Feed(Clip(Unfinished(s)), b).partial
    decreases |s|
  {
    hide EndOfPiece, Ends;
    var i := EndOfPiece(s);
    var t := s + [b];
    if i < |s| {
      PieceEndIs(t, i);
      assert t[i + 1..] == s[i + 1..] + [b] && t[..i] == s[..i];
      AppendByte(s[i + 1..], b);
    } else if Ends(b) {
      PieceEndIs(t, i);
      assert t[..i] == s && t[i + 1..] == [];
    } else {
      PieceEndIs(t, i + 1);
    }
  }

  /** From an empty buffer, the lines handled are the clipped non-empty pieces of the stream, in order. */
  lemma {:induction false} AssemblerSplitsStream(s: seq<byte>)
    ensures FeedAll([], s) == Fed(Clip(Unfinished(s)), Lines(s))
  {
    if s == [] {
    } else {
      var init := s[..|s| - 1];
      AssemblerSplitsStream(init);
      AppendByte(init, s[|s| - 1]);
      assert s == init + [s[|s| - 1]];
    }
  }

  /** However the stream is cut into polls. */
  lemma {:induction false} PollsCompose(partial: Line, a: seq<byte>, b: seq<byte>)
    ensures var first := FeedAll(partial, a);
            var rest := FeedAll(first.partial, b);
            FeedAll(partial, a + b) == Fed(rest.partial, first.lines + rest.lines)
    decreases |b|
  {
    if b == [] {
      assert a + b == a;
    } else {
      PollsCompose(partial, a, b[..|b| - 1]);
      assert (a + b)[..|a + b| - 1] == a + b[..|b| - 1];
    }
  }

  lemma LinesArePrefix(a: seq<byte>, b: seq<byte>)
    ensures Lines(a) <= Lines(a + b)
  {
    AssemblerSplitsStream(a);
    AssemblerSplitsStream(a + b);
    PollsCompose([], a, b);
  }

  /**
   * Composed with the receive ring: under any interleaving of interrupts, the lines handled so far begin the lines
   * of the accepted bytes, and they are all of them once the ring is empty.
   */
  lemma LinesOfAcceptedBytes(buf: seq<byte>, events: seq<S.Event>)
    requires |buf| == 256
    ensures var s := S.DoAll(S.Boot(buf), events);
            && FeedAll([], s.delivered).lines <= Lines(s.accepted)
            && (s.head == s.tail ==> FeedAll([], s.delivered).lines == Lines(s.accepted))
  {
    S.InterruptSafeFifo(buf, events);
    var s := S.DoAll(S.Boot(buf), events);
    AssemblerSplitsStream(s.delivered);
    LinesArePrefix(s.delivered, s.accepted[|s.delivered|..]);
    assert s.accepted == s.delivered + s.accepted[|s.delivered|..];
    if s.head == s.tail {
      assert s.accepted == s.delivered;
    }
  }

  // ---------------------------------------------------------------- lines typed are lines handled

  /** Carriage returns and line feeds. */
  predicate OnlyEnds(s: seq<byte>) {
    forall i :: 0 <= i < |s| ==> s[i] == 0x0D || s[i] == 0x0A
  }

  predicate NoEnds(s: seq<byte>) {
    forall i :: 0 <= i < |s| ==> s[i] != 0x0D && s[i] != 0x0A
  }

  /** Each line with what ends it. */
  function Keyed(lines: seq<seq<byte>>, ends: seq<seq<byte>>): seq<byte>
    requires |ends| == |lines|
  {
    if lines == [] then []
    else
      var n := |lines| - 1;
      Keyed(lines[..n], ends[..n]) + lines[n] + ends[n]
  }

  /** What is kept of a line of any length. */
  function First199(s: seq<byte>): Line {
    if |s| <= 199 then s else s[..199]
  }

  function Kept(lines: seq<seq<byte>>): (r: seq<Line>)
    ensures |r| == |lines|
  {
    seq(|lines|, i requires 0 <= i < |lines| => First199(lines[i]))
  }

  lemma {:induction false} FeedPlain(s: seq<byte>)
    requires NoEnds(s)
    ensures FeedAll([], s) == Fed(First199(s), [])
  {
    hide NoEnds, Feed, First199;
    FirstOfNone();
    if s != [] {
      var init, b := s[..|s| - 1], s[|s| - 1];
      PlainParts(s);
      FeedPlain(init);
      FeedPlainByte(init, b);
      assert init + [b] == s;
    }
  }

  lemma FirstOfNone()
    ensures First199([]) == []
  {
  }

  lemma PlainParts(s: seq<byte>)
    requires NoEnds(s) && s != []
    ensures NoEnds(s[..|s| - 1]) && s[|s| - 1] != 0x0D && s[|s| - 1] != 0x0A
  {
  }

  lemma FeedPlainByte(init: seq<byte>, b: byte)
    requires b != 0x0D && b != 0x0A
    ensures Feed(First199(init), b) == Fed(First199(init + [b]), [])
  {
  }

  lemma {:induction false} FeedEnds(partial: Line, s: seq<byte>)
    requires OnlyEnds(s) && s != []
    ensures FeedAll(partial, s) == Fed([], if partial == [] then [] else [partial])
  {
    var init := s[..|s| - 1];
    if init != [] {
      FeedEnds(partial, init);
    }
  }

  lemma FeedNothing()
    ensures FeedAll([], []) == Fed([], [])
  {
  }

  /**
   * Non-empty lines of any bytes but 0x0D and 0x0A, each ended by one or more of these two, are handled one for one
   * and in order, cut to 199 bytes.
   */
  lemma {:induction false} LinesAreHandled(lines: seq<seq<byte>>, ends: seq<seq<byte>>)
    requires |ends| == |lines|
    requires forall i :: 0 <= i < |lines| ==> lines[i] != [] && NoEnds(lines[i]) && ends[i] != [] && OnlyEnds(ends[i])
    ensures FeedAll([], Keyed(lines, ends)) == Fed([], Kept(lines))
  {
    hide Feed, FeedAll, NoEnds, OnlyEnds;
    if lines == [] {
      FeedNothing();
    } else {
      var n := |lines| - 1;
      LinesAreHandled(lines[..n], ends[..n]);
      FeedPlain(lines[n]);
      var line := Kept(lines)[n];
      FeedEnds(line, ends[n]);
      PollsCompose([], Keyed(lines[..n], ends[..n]), lines[n]);
      PollsCompose([], Keyed(lines[..n], ends[..n]) + lines[n], ends[n]);
      assert Kept(lines) == Kept(lines[..n]) + [line];
    }
  }

  // ---------------------------------------------------------------- what a line asks for

  const HELP: Line := [0x68, 0x65, 0x6C, 0x70]
  const INFO: Line := [0x69, 0x6E, 0x66, 0x6F]

  datatype Request = SetNode(id: u32) | Ignore | ShowHelp | ShowInfo | SendText

  predicate IsN(b: byte) {
    b == 0x4E || b == 0x6E
  }

  function RequestOf(line: Line): Request
    requires line != []
  {
    if |line| >= 2 && IsN(line[0]) then (if 0x31 <= line[1] <= 0x39 then SetNode(line[1] - 0x30) else Ignore)
    else if line == HELP then ShowHelp
    else if line == INFO then ShowInfo
    else SendText
  }
}

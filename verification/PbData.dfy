/** The minimal protobuf codec of the Data message (firmware/Core/main_loop.c). */
module PbData {
  import opened Bytes

  // ---------------------------------------------------------------- the decoder, one loop body at a time

  datatype Varint = Varint(value: u32, next: nat) | TooLong

  /**
   * The varint loop from `pos`, with `val` gathered below bit `shift`. Running off the end keeps what was gathered;
   * reaching a shift of 32 or more has no meaning in C.
   */
  function ReadVarint(data: seq<byte>, pos: nat, val: u32, shift: nat): (r: Varint)
    requires pos <= |data|
    ensures r.Varint? ==> pos <= r.next <= |data| && (pos < |data| ==> pos < r.next)
    decreases |data| - pos
  {
    if pos == |data| then Varint(val, pos)
    else if shift >= 32 then TooLong
    else
      var val' := (val + Shl(data[pos] as int % 128, shift)) % 0x1_0000_0000;
      if data[pos] < 128 then Varint(val', pos + 1) else ReadVarint(data, pos + 1, val', shift + 7)
  }

  datatype Found = NoPayload | At(start: nat, len: nat)

  datatype Cursor = Cursor(pos: nat, port: byte, found: Found)

  datatype Iteration = Again(next: Cursor) | Exit(last: Cursor) | Breaks

  /** One pass through the body of the field loop. The position is a 16-bit variable. */
  function Iterate(data: seq<byte>, c: Cursor): Iteration
    requires c.pos < |data|
  {
    var tag, pos := data[c.pos], c.pos + 1;
    var field, wire := tag / 8, tag % 8;
    if wire == 0 then
      match ReadVarint(data, pos, 0, 0)
      case TooLong => Breaks
      case Varint(val, p) => Again(Cursor(p, if field == 1 then val % 0x100 else c.port, c.found))
    else if wire == 2 then
      if pos == |data| then Exit(c.(pos := pos))
      else
        match ReadVarint(data, pos, 0, 0)
        case TooLong => Breaks
        case Varint(len, p) =>
          Again(Cursor((p + len) % 0x1_0000, c.port, if field == 2 && len <= |data| - p then At(p, len) else c.found))
    else if wire == 5 then Again(c.(pos := (pos + 4) % 0x1_0000))
    else if wire == 1 then Again(c.(pos := (pos + 8) % 0x1_0000))
    else Exit(c.(pos := pos))
  }

  datatype Outcome = Done(port: byte, found: Found) | Undefined | Hangs

  /** At most `fuel` passes of the field loop. */
  function Run(data: seq<byte>, c: Cursor, fuel: nat): Outcome
    decreases fuel
  {
    if c.pos >= |data| then Done(c.port, c.found)
    else if fuel == 0 then Hangs
    else
      match Iterate(data, c)
      case Breaks => Undefined
      case Exit(last) => Done(last.port, last.found)
      case Again(next) => Run(data, next, fuel - 1)
  }

  const START := Cursor(0, 0, NoPayload)

  /** What the decoder does with a buffer. As many passes as there are bytes decide whether it ever returns. */
  function Decode(data: seq<byte>): Outcome {
    Run(data, START, |data|)
  }

  // ---------------------------------------------------------------- when the decoder returns

  /** The loop's next position, if it goes round again from `pos`. */
  function NextPos(data: seq<byte>, pos: nat): Option<nat> {
    if pos >= |data| then None
    else
      match Iterate(data, Cursor(pos, 0, NoPayload))
      case Again(next) => if next.pos < |data| then Some(next.pos) else None
      case _ => None
  }

  /** The position at the start of pass n (counting from 0), if there is such a pass. */
  function Visit(data: seq<byte>, pos: nat, n: nat): Option<nat>
    decreases n
  {
    if n == 0 then (if pos < |data| then Some(pos) else None)
    else match NextPos(data, pos)
      case None => None
      case Some(p) => Visit(data, p, n - 1)
  }

  /** What has been found so far has no say in where the loop goes. */
  lemma NextIgnoresFindings(data: seq<byte>, c: Cursor)
    requires c.pos < |data|
    ensures var r, r' := Iterate(data, c), Iterate(data, Cursor(c.pos, 0, NoPayload));
            (r.Again? <==> r'.Again?) && (r.Again? ==> r.next.pos == r'.next.pos)
  {
    hide ReadVarint;
  }

  lemma {:induction false} HangsIffVisits(data: seq<byte>, c: Cursor, n: nat)
    ensures Run(data, c, n).Hangs? <==> Visit(data, c.pos, n).Some?
    decreases n
  {
    hide Iterate;
    if c.pos < |data| && n > 0 {
      NextIgnoresFindings(data, c);
      match Iterate(data, c)
      case Again(next) => HangsIffVisits(data, next, n - 1);
      case _ =>
    }
  }

  lemma {:induction false} VisitSplits(data: seq<byte>, pos: nat, a: nat, b: nat)
    ensures Visit(data, pos, a + b) ==
            (match Visit(data, pos, a) case None => None case Some(p) => Visit(data, p, b))
    decreases a
  {
    if a == 0 {
    } else if NextPos(data, pos).Some? {
      VisitSplits(data, NextPos(data, pos).value, a - 1, b);
    }
  }

  /** More numbers than values they can take: two agree. */
  lemma {:induction false} Pigeonhole(s: seq<nat>, n: nat) returns (i: nat, j: nat)
    requires |s| > n && forall k :: 0 <= k < |s| ==> s[k] < n
    ensures i < j < |s| && s[i] == s[j]
    decreases |s|
  {
    if k :| 0 <= k < |s| - 1 && s[k] == s[|s| - 1] {
      return k, |s| - 1;
    }
    var last := s[|s| - 1];
    // Rename the value n - 1 to the last one, which no other entry has.
    var t := seq(|s| - 1, k requires 0 <= k < |s| - 1 => if s[k] == n - 1 then last else s[k]);
    i, j := Pigeonhole(t, n - 1);
  }

  /** Positions only repeat by going round for ever. */
  lemma {:induction false} RevisitLoops(data: seq<byte>, i: nat, j: nat, n: nat)
    requires i < j && Visit(data, 0, i).Some? && Visit(data, 0, i) == Visit(data, 0, j)
    ensures Visit(data, 0, n).Some?
  {
    if n <= j {
      VisitSplits(data, 0, n, j - n);
    } else {
      VisitSplits(data, 0, j, n - j);
      VisitSplits(data, 0, i, n - j);
      RevisitLoops(data, i, j, n - (j - i));
    }
  }

  lemma {:induction false} MoreFuel(data: seq<byte>, c: Cursor, n: nat, m: nat)
    requires n <= m && !Run(data, c, n).Hangs?
    ensures Run(data, c, m) == Run(data, c, n)
    decreases n
  {
    if c.pos < |data| {
      match Iterate(data, c)
      case Again(next) => MoreFuel(data, next, n - 1, m - 1);
      case _ =>
    }
  }

  predicate Revisits(data: seq<byte>) {
    exists i, j :: 0 <= i < j <= |data| && Visit(data, 0, i).Some? && Visit(data, 0, i) == Visit(data, 0, j)
  }

  /**
   * The decoder fails to return exactly when it comes back to a position it has already decoded a tag at, which
   * shows within |data| passes; and then no number of passes is enough. Otherwise more passes change nothing.
   */
  lemma HangsIffRevisits(data: seq<byte>)
    ensures Decode(data).Hangs? <==> Revisits(data)
    ensures Decode(data).Hangs? ==> forall n: nat :: Run(data, START, n).Hangs?
    ensures !Decode(data).Hangs? ==> forall n: nat :: n >= |data| ==> Run(data, START, n) == Decode(data)
  {
    HangsIffVisits(data, START, |data|);
    if Decode(data).Hangs? {
      forall k: nat | k <= |data|
        ensures Visit(data, 0, k).Some? && Visit(data, 0, k).value < |data|
      {
        VisitSplits(data, 0, k, |data| - k);
        VisitInside(data, 0, k);
      }
      var s := seq(|data| + 1, k requires 0 <= k <= |data| => Visit(data, 0, k).value);
      var i, j := Pigeonhole(s, |data|);
      assert Visit(data, 0, i) == Visit(data, 0, j);
      forall n: nat
        ensures Run(data, START, n).Hangs?
      {
        RevisitLoops(data, i, j, n);
        HangsIffVisits(data, START, n);
      }
    } else {
      if Revisits(data) {
        var i, j :| 0 <= i < j <= |data| && Visit(data, 0, i).Some? && Visit(data, 0, i) == Visit(data, 0, j);
        RevisitLoops(data, i, j, |data|);
      }
      forall n: nat | n >= |data|
        ensures Run(data, START, n) == Decode(data)
      {
        MoreFuel(data, START, |data|, n);
      }
    }
  }

  lemma {:induction false} VisitInside(data: seq<byte>, pos: nat, n: nat)
    requires Visit(data, pos, n).Some?
    ensures Visit(data, pos, n).value < |data|
    decreases n
  {
    if n > 0 {
      VisitInside(data, NextPos(data, pos).value, n - 1);
    }
  }

  const HANG: seq<byte> := [0x12, 0xFC, 0xFF, 0x03]

  lemma HangLength()
    ensures ReadVarint(HANG, 1, 0, 0) == Varint(65532, 4)
  {
    hide Shl;
    HangShifts();
    assert ReadVarint(HANG, 3, 0x3FFC, 14) == Varint(65532, 4);
    assert ReadVarint(HANG, 2, 0x7C, 7) == Varint(65532, 4);
  }

  lemma HangShifts()
    ensures Shl(0x7C, 0) == 0x7C && Shl(0x7F, 7) == 0x3F80 && Shl(0x03, 14) == 0xC000
  {
    ShlSeven(0x7F);
    ShlSeven(0x03);
    ShlTwice(0x03, 7, 7);
    ShlSeven(0x180);
  }

  /** Four bytes on which the decoder never returns: the length 65532 takes the position from 4 back to 0. */
  lemma HangExample()
    ensures Decode(HANG).Hangs?
  {
    HangLength();
    hide ReadVarint;
    assert Iterate(HANG, START) == Again(START);
    assert Visit(HANG, 0, 1) == Some(0) == Visit(HANG, 0, 0);
    RevisitLoops(HANG, 0, 1, 4);
    HangsIffVisits(HANG, START, 4);
  }

  predicate Inside(data: seq<byte>, f: Found) {
    f.At? ==> f.start + f.len <= |data|
  }

  /** The tag at p is followed by a varint of six or more bytes. */
  predicate OverLong(data: seq<byte>, p: nat) {
    p < |data| && data[p] % 8 in {0, 2} && p + 6 < |data| && forall i :: p < i < p + 6 ==> data[i] >= 128
  }

  /** Skipping the field with its tag at p takes the position past 16 bits. */
  predicate WrapsAt(data: seq<byte>, p: nat) {
    p < |data|
    && match data[p] % 8
       case 1 => p + 9 > 0xFFFF
       case 2 => var r := ReadVarint(data, p + 1, 0, 0); r.Varint? && r.next + r.value as int > 0xFFFF
       case 5 => p + 5 > 0xFFFF
       case _ => false
  }

  lemma {:induction false} TooLongIff(data: seq<byte>, pos: nat, val: u32, k: nat)
    requires pos <= |data| && k <= 5
    ensures ReadVarint(data, pos, val, 7 * k).TooLong? <==>
              pos + 5 - k < |data| && forall i :: pos <= i < pos + 5 - k ==> data[i] >= 128
    decreases 5 - k
  {
    hide Shl;
    if k < 5 && pos < |data| {
      TooLongIff(data, pos + 1, (val + Shl(data[pos] as int % 128, 7 * k)) % 0x1_0000_0000, k + 1);
    }
  }

  lemma OverLongIff(data: seq<byte>, p: nat)
    requires p < |data| && data[p] % 8 in {0, 2}
    ensures OverLong(data, p) <==> ReadVarint(data, p + 1, 0, 0).TooLong?
  {
    hide ReadVarint;
    TooLongIff(data, p + 1, 0, 0);
  }

  /** One pass: when it goes wrong, and where it leads. */
  lemma IterateMoves(data: seq<byte>, c: Cursor)
    requires c.pos < |data|
    ensures var r := Iterate(data, c);
            && (r.Breaks? <==> OverLong(data, c.pos))
            && (r.Again? && !WrapsAt(data, c.pos) ==> r.next.pos > c.pos)
            && NextPos(data, c.pos) == (if r.Again? && r.next.pos < |data| then Some(r.next.pos) else None)
            && (Inside(data, c.found) ==>
                  (r.Again? ==> Inside(data, r.next.found)) && (r.Exit? ==> Inside(data, r.last.found)))
  {
    hide ReadVarint, OverLong;
    if data[c.pos] % 8 in {0, 2} {
      OverLongIff(data, c.pos);
      ReadAtEnd(data);
    } else {
      NoVarint(data, c.pos);
    }
  }

  lemma ReadAtEnd(data: seq<byte>)
    ensures ReadVarint(data, |data|, 0, 0) == Varint(0, |data|)
  {
  }

  lemma NoVarint(data: seq<byte>, p: nat)
    requires p < |data| && data[p] % 8 !in {0, 2}
    ensures !OverLong(data, p)
  {
  }

  /** Some tag the loop decodes, within n passes from pos, is one of those. */
  predicate VisitsOverLong(data: seq<byte>, pos: nat, n: nat) {
    exists k :: 0 <= k < n && Visit(data, pos, k).Some? && OverLong(data, Visit(data, pos, k).value)
  }

  predicate VisitsWrap(data: seq<byte>, pos: nat, n: nat) {
    exists k :: 0 <= k < n && Visit(data, pos, k).Some? && WrapsAt(data, Visit(data, pos, k).value)
  }

  /** What is visited from a tag is that tag and what is visited from the next one. */
  lemma VisitsFrom(data: seq<byte>, pos: nat, n: nat)
    requires pos < |data| && n > 0
    ensures VisitsOverLong(data, pos, n) <==>
              OverLong(data, pos)
              || (NextPos(data, pos).Some? && VisitsOverLong(data, NextPos(data, pos).value, n - 1))
    ensures VisitsWrap(data, pos, n) <==>
              WrapsAt(data, pos)
              || (NextPos(data, pos).Some? && VisitsWrap(data, NextPos(data, pos).value, n - 1))
  {
    hide OverLong, WrapsAt, NextPos;
    assert Visit(data, pos, 0) == Some(pos);
    if NextPos(data, pos).Some? {
      var next := NextPos(data, pos).value;
      assert forall k: nat :: k > 0 ==> Visit(data, pos, k) == Visit(data, next, k - 1);
      assert forall k: nat :: Visit(data, next, k) == Visit(data, pos, k + 1);
    } else {
      assert forall k: nat :: k > 0 ==> Visit(data, pos, k) == None;
    }
  }

  lemma {:induction false} RunOutcome(data: seq<byte>, c: Cursor, fuel: nat)
    ensures var r := Run(data, c, fuel);
            && (r.Undefined? <==> c.pos < |data| && VisitsOverLong(data, c.pos, fuel))
            && (r.Hangs? && fuel + c.pos >= |data| ==> c.pos < |data| && VisitsWrap(data, c.pos, fuel))
            && (r.Done? && Inside(data, c.found) ==> Inside(data, r.found))
    decreases fuel
  {
    hide Iterate, NextPos, OverLong, WrapsAt, Inside;
    if c.pos < |data| && fuel > 0 {
      IterateMoves(data, c);
      VisitsFrom(data, c.pos, fuel);
      match Iterate(data, c)
      case Again(next) => RunOutcome(data, next, fuel - 1); VisitsFromEnd(data, next.pos, fuel - 1);
      case _ =>
    }
  }

  lemma VisitsFromEnd(data: seq<byte>, pos: nat, n: nat)
    ensures pos >= |data| ==> !VisitsOverLong(data, pos, n) && !VisitsWrap(data, pos, n)
  {
    if pos >= |data| {
      forall k: nat
        ensures Visit(data, pos, k) == None
      {
      }
    }
  }

  /**
   * For every buffer: a payload that is returned lies inside it. The decoder does something undefined exactly if it
   * comes to a tag with a varint of six or more bytes, and it fails to return only if it comes to a tag whose skip
   * passes 16 bits; bytes it never takes for tags do not matter.
   */
  lemma DecodeIsSafe(data: seq<byte>)
    ensures Decode(data).Done? ==> Inside(data, Decode(data).found)
    ensures Decode(data).Undefined? <==> VisitsOverLong(data, 0, |data|)
    ensures Decode(data).Hangs? ==> VisitsWrap(data, 0, |data|)
    ensures !VisitsOverLong(data, 0, |data|) && !VisitsWrap(data, 0, |data|) ==> Decode(data).Done?
  {
    hide OverLong, WrapsAt, Run;
    RunOutcome(data, START, |data|);
    VisitsFromEnd(data, 0, |data|);
  }

  /**
   * The encoding of "r" and the euro sign holds a byte that would wrap if it were a tag; it is none, and is passed
   * over.
   */
  lemma PassedOverExample()
    ensures var data := Encoded(1, [0x72, 0xE2, 0x82, 0xAC]);
            (exists p :: WrapsAt(data, p) || OverLong(data, p)) && Decode(data).Done?
  {
    hide ReadVarint, Decode, OverLong, PayloadOf;
    var data := Encoded(1, [0x72, 0xE2, 0x82, 0xAC]);
    EncodeThenDecode(1, [0x72, 0xE2, 0x82, 0xAC]);
    EuroLength();
    assert WrapsAt(data, 4);
  }

  lemma EuroLength()
    ensures var data := Encoded(1, [0x72, 0xE2, 0x82, 0xAC]);
            ReadVarint(data, 5, 0, 0) == Varint(0xB0162, 8)
  {
    hide Shl;
    var data := Encoded(1, [0x72, 0xE2, 0x82, 0xAC]);
    EuroShifts();
    assert ReadVarint(data, 8, 0xB0162, 21) == Varint(0xB0162, 8);
    assert ReadVarint(data, 7, 0x162, 14) == Varint(0xB0162, 8);
    assert ReadVarint(data, 6, 0x62, 7) == Varint(0xB0162, 8);
  }

  lemma EuroShifts()
    ensures Shl(0x62, 0) == 0x62 && Shl(0x02, 7) == 0x100 && Shl(0x2C, 14) == 0xB_0000
  {
  }

  // ---------------------------------------------------------------- the wire format as a grammar

  datatype Field =
    | VarintField(num: nat, value: seq<byte>)
    | Fixed64Field(num: nat, bits: seq<byte>)
    | LenField(num: nat, prefix: seq<byte>, body: seq<byte>)
    | Fixed32Field(num: nat, bits: seq<byte>)

  /** Base-128 groups, least significant first. */
  function VarintValue(s: seq<byte>): nat {
    if s == [] then 0 else s[0] as int % 128 + 128 * VarintValue(s[1..])
  }

  /** A varint of at most n bytes: a continuation bit on every byte but the last. */
  predicate IsVarint(s: seq<byte>, n: nat) {
    && 1 <= |s| <= n
    && (forall i :: 0 <= i < |s| - 1 ==> s[i] >= 128)
    && s[|s| - 1] < 128
  }

  predicate WellFormed(f: Field) {
    && 1 <= f.num <= 15
    && match f
       case VarintField(_, value) => IsVarint(value, 5)
       case Fixed64Field(_, bits) => |bits| == 8
       case LenField(_, prefix, body) => IsVarint(prefix, 5) && VarintValue(prefix) == |body|
       case Fixed32Field(_, bits) => |bits| == 4
  }

  function Serialize(f: Field): (s: seq<byte>)
    requires WellFormed(f)
    ensures |s| > 0
  {
    match f
    case VarintField(num, value) => [num * 8] + value
    case Fixed64Field(num, bits) => [num * 8 + 1] + bits
    case LenField(num, prefix, body) => [num * 8 + 2] + prefix + body
    case Fixed32Field(num, bits) => [num * 8 + 5] + bits
  }

  function SerializeAll(fs: seq<Field>): seq<byte>
    requires forall f :: f in fs ==> WellFormed(f)
  {
    if fs == [] then [] else Serialize(fs[0]) + SerializeAll(fs[1..])
  }

  /** The last occurrence of field 1, its low eight bits; `port` if there is none. */
  function LastPort(fs: seq<Field>, port: byte): byte {
    if fs == [] then port
    else LastPort(fs[1..], if fs[0].VarintField? && fs[0].num == 1 then VarintValue(fs[0].value) % 0x100 else port)
  }

  /** The last occurrence of field 2; `payload` if there is none. */
  function LastPayload(fs: seq<Field>, payload: Option<seq<byte>>): Option<seq<byte>> {
    if fs == [] then payload
    else LastPayload(fs[1..], if fs[0].LenField? && fs[0].num == 2 then Some(fs[0].body) else payload)
  }

  function PayloadOf(data: seq<byte>, f: Found): Option<seq<byte>>
    requires Inside(data, f)
  {
    match f case NoPayload => None case At(start, len) => Some(data[start..start + len])
  }

  /** The varint loop reads the value of a well-formed varint, modulo 2^32. */
  lemma {:induction false} ReadVarintValue(data: seq<byte>, pos: nat, s: seq<byte>, val: u32, shift: nat)
    requires pos + |s| <= |data| && data[pos..pos + |s|] == s
    requires IsVarint(s, 5) && (shift == 0 || shift + 7 * |s| <= 35)
    ensures ReadVarint(data, pos, val, shift) == Varint((val + Shl(VarintValue(s), shift)) % 0x1_0000_0000, pos + |s|)
    decreases |s|
  {
    hide Shl;
    assert data[pos] == s[0];
    var group := s[0] as int % 128;
    var val' := (val + Shl(group, shift)) % 0x1_0000_0000;
    if |s| == 1 {
      assert VarintValue(s) == group;
    } else {
      var rest := VarintValue(s[1..]);
      assert data[pos + 1..pos + 1 + |s[1..]|] == s[1..];
      ReadVarintValue(data, pos + 1, s[1..], val', shift + 7);
      ShlSeven(rest);
      ShlTwice(rest, shift, 7);
      ShlAdds(group, 128 * rest, shift);
      ModularSum(val + Shl(group, shift), Shl(rest, shift + 7));
    }
  }

  /** Where the varint at p ends: behind the first byte without a continuation bit, or at the end of the buffer. */
  function VarintEnd(data: seq<byte>, p: nat): (end: nat)
    requires p <= |data|
    ensures p <= end <= |data|
    decreases |data| - p
  {
    if p == |data| then p else if data[p] < 128 then p + 1 else VarintEnd(data, p + 1)
  }

  lemma {:induction false} ReadsTo(data: seq<byte>, p: nat, val: u32, k: nat)
    requires p <= |data| && k <= 5
    ensures var end := VarintEnd(data, p);
            ReadVarint(data, p, val, 7 * k) ==
            if end - p > 5 - k then TooLong
            else Varint((val + Shl(VarintValue(data[p..end]), 7 * k)) % 0x1_0000_0000, end)
    decreases 5 - k
  {
    hide Shl;
    var shift := 7 * k;
    if p < |data| && k < 5 {
      var group := data[p] as int % 128;
      var val' := (val + Shl(group, shift)) % 0x1_0000_0000;
      var end := VarintEnd(data, p);
      var rest := VarintValue(data[p + 1..end]);
      assert data[p..end][1..] == data[p + 1..end];
      if data[p] >= 128 {
        ReadsTo(data, p + 1, val', k + 1);
        ShlSeven(rest);
        ShlTwice(rest, shift, 7);
        ShlAdds(group, 128 * rest, shift);
        ModularSum(val + Shl(group, shift), Shl(rest, shift + 7));
      }
    } else if p == |data| {
      ShlIs(0, shift);
    }
  }

  /** The varint loop on every buffer, truncated varints included. */
  lemma VarintAt(data: seq<byte>, p: nat)
    requires p <= |data|
    ensures var end := VarintEnd(data, p);
            ReadVarint(data, p, 0, 0) ==
            if end - p > 5 then TooLong else Varint(VarintValue(data[p..end]) % 0x1_0000_0000, end)
  {
    ReadsTo(data, p, 0, 0);
  }

  lemma ReadWholeVarint(data: seq<byte>, pos: nat, s: seq<byte>)
    requires pos + |s| <= |data| && data[pos..pos + |s|] == s && IsVarint(s, 5)
    ensures ReadVarint(data, pos, 0, 0) == Varint(VarintValue(s) % 0x1_0000_0000, pos + |s|)
  {
    ReadVarintValue(data, pos, s, 0, 0);
  }

  lemma ModularSum(a: nat, b: nat)
    ensures (a % 0x1_0000_0000 + b) % 0x1_0000_0000 == (a + b) % 0x1_0000_0000
  {
    assert a == a / 0x1_0000_0000 * 0x1_0000_0000 + a % 0x1_0000_0000;
    assert a + b == a / 0x1_0000_0000 * 0x1_0000_0000 + (a % 0x1_0000_0000 + b);
  }

  lemma LowByte(x: nat)
    ensures x % 0x1_0000_0000 % 0x100 == x % 0x100
  {
    var q, r := x / 0x1_0000_0000, x % 0x1_0000_0000;
    BytesAbove(q * 0x100_0000, r);
    assert x == 0x100 * (q * 0x100_0000) + r;
  }

  lemma BytesAbove(q: nat, r: nat)
    ensures (0x100 * q + r) % 0x100 == r % 0x100
  {
    QuotientIs(0x100 * q + r, q + r / 0x100, r % 0x100);
  }

  lemma QuotientIs(x: nat, q: nat, r: nat)
    requires x == 0x100 * q + r && r < 0x100
    ensures x % 0x100 == r
  {
  }

  lemma IterateVarint(data: seq<byte>, pos: nat, num: nat, val: u32, p: nat, port: byte, found: Found)
    requires pos < |data| && data[pos] == num * 8 && ReadVarint(data, pos + 1, 0, 0) == Varint(val, p)
    ensures Iterate(data, Cursor(pos, port, found)) == Again(Cursor(p, if num == 1 then val % 0x100 else port, found))
  {
    hide ReadVarint;
  }

  lemma IterateLen(data: seq<byte>, pos: nat, num: nat, len: u32, p: nat, port: byte, found: Found)
    requires pos + 1 < |data| <= 0xFFFF && data[pos] == num * 8 + 2
    requires ReadVarint(data, pos + 1, 0, 0) == Varint(len, p) && p + len as int <= |data|
    ensures Iterate(data, Cursor(pos, port, found)) ==
            Again(Cursor(p + len, port, if num == 2 then At(p, len) else found))
  {
    hide ReadVarint;
    assert data[pos] / 8 == num && data[pos] % 8 == 2;
  }

  lemma IterateFixed(data: seq<byte>, pos: nat, num: nat, port: byte, found: Found)
    requires pos < |data| <= 0xFFFF && (data[pos] == num * 8 + 1 || data[pos] == num * 8 + 5)
    ensures var width := if data[pos] == num * 8 + 1 then 8 else 4;
            pos + 1 + width <= |data| ==>
              Iterate(data, Cursor(pos, port, found)) == Again(Cursor(pos + 1 + width, port, found))
  {
    hide ReadVarint;
  }

  lemma SliceOfSlice(s: seq<byte>, a: nat, b: nat, i: nat, j: nat)
    requires a <= b <= |s| && i <= j <= b - a
    ensures s[a..b][i..j] == s[a + i..a + j]
  {
    assert forall k :: 0 <= k < j - i ==> s[a..b][i..j][k] == s[a + i..a + j][k];
  }

  /** A concatenation found at `pos` lies there part by part. */
  lemma PartsInPlace(data: seq<byte>, pos: nat, tag: byte, a: seq<byte>, b: seq<byte>)
    requires pos + 1 + |a| + |b| <= |data| && data[pos..pos + 1 + |a| + |b|] == [tag] + a + b
    ensures data[pos] == tag && data[pos + 1..pos + 1 + |a|] == a
    ensures data[pos + 1 + |a|..pos + 1 + |a| + |b|] == b
  {
    var end := pos + 1 + |a| + |b|;
    assert data[pos] == data[pos..end][0];
    SliceOfSlice(data, pos, end, 1, 1 + |a|);
    SliceOfSlice(data, pos, end, 1 + |a|, end - pos);
    assert ([tag] + a + b)[1..1 + |a|] == a && ([tag] + a + b)[1 + |a|..] == b;
  }

  predicate InPlace(data: seq<byte>, pos: nat, f: Field)
    requires WellFormed(f)
  {
    |data| <= 0xFFFF && pos + |Serialize(f)| <= |data| && data[pos..pos + |Serialize(f)|] == Serialize(f)
  }

  lemma IterateLenField(data: seq<byte>, pos: nat, f: Field, port: byte, found: Found)
    requires f.LenField? && WellFormed(f) && InPlace(data, pos, f)
    ensures var p := pos + 1 + |f.prefix|;
            && data[p..p + |f.body|] == f.body
            && Iterate(data, Cursor(pos, port, found)) ==
               Again(Cursor(p + |f.body|, port, if f.num == 2 then At(p, |f.body|) else found))
  {
    hide ReadVarint, VarintValue, Iterate;
    PartsInPlace(data, pos, f.num * 8 + 2, f.prefix, f.body);
    ReadWholeVarint(data, pos + 1, f.prefix);
    IterateLen(data, pos, f.num, |f.body|, pos + 1 + |f.prefix|, port, found);
  }

  lemma IterateScalarField(data: seq<byte>, pos: nat, f: Field, port: byte, found: Found)
    requires !f.LenField? && WellFormed(f) && InPlace(data, pos, f)
    ensures Iterate(data, Cursor(pos, port, found)) ==
            Again(Cursor(pos + |Serialize(f)|,
                         if f.VarintField? && f.num == 1 then VarintValue(f.value) % 0x100 else port, found))
  {
    hide ReadVarint, VarintValue, Iterate;
    var content := if f.VarintField? then f.value else f.bits;
    assert Serialize(f) == [Serialize(f)[0]] + content + [];
    PartsInPlace(data, pos, Serialize(f)[0], content, []);
    if f.VarintField? {
      ReadWholeVarint(data, pos + 1, f.value);
      IterateVarint(data, pos, f.num, VarintValue(f.value) % 0x1_0000_0000, pos + 1 + |f.value|, port, found);
      LowByte(VarintValue(f.value));
    } else {
      IterateFixed(data, pos, f.num, port, found);
    }
  }

  /** One field in its place: one pass of the loop steps over it and records it. */
  lemma IterateField(data: seq<byte>, pos: nat, f: Field, port: byte, found: Found)
    requires WellFormed(f) && InPlace(data, pos, f) && Inside(data, found)
    ensures var r := Iterate(data, Cursor(pos, port, found));
            && r.Again? && r.next.pos == pos + |Serialize(f)| && Inside(data, r.next.found)
            && r.next.port == LastPort([f], port)
            && PayloadOf(data, r.next.found) == LastPayload([f], PayloadOf(data, found))
  {
    hide Iterate, VarintValue;
    assert [f][1..] == [];
    if f.LenField? {
      IterateLenField(data, pos, f, port, found);
    } else {
      IterateScalarField(data, pos, f, port, found);
    }
  }

  lemma {:induction false} RunFields(data: seq<byte>, pos: nat, fs: seq<Field>, port: byte, found: Found, fuel: nat)
    requires (forall f :: f in fs ==> WellFormed(f)) && |data| <= 0xFFFF
    requires pos <= |data| && data[pos..] == SerializeAll(fs) && fuel + pos >= |data|
    requires Inside(data, found)
    ensures var r := Run(data, Cursor(pos, port, found), fuel);
            && r.Done? && Inside(data, r.found)
            && r.port == LastPort(fs, port)
            && PayloadOf(data, r.found) == LastPayload(fs, PayloadOf(data, found))
    decreases |fs|
  {
    hide Iterate, Serialize, WellFormed;
    if fs != [] {
      var n := |Serialize(fs[0])|;
      SliceOfSlice(data, pos, |data|, 0, n);
      SliceOfSlice(data, pos, |data|, n, |data| - pos);
      assert SerializeAll(fs)[..n] == Serialize(fs[0]) && SerializeAll(fs)[n..] == SerializeAll(fs[1..]);
      IterateField(data, pos, fs[0], port, found);
      var next := Iterate(data, Cursor(pos, port, found)).next;
      RunFields(data, pos + n, fs[1..], next.port, next.found, fuel - 1);
      assert Run(data, Cursor(pos, port, found), fuel) == Run(data, next, fuel - 1);
    }
  }

  /** On every well-formed message the loop agrees with the grammar: the last portnum and the last payload win. */
  lemma DecodeMessage(fs: seq<Field>)
    requires (forall f :: f in fs ==> WellFormed(f)) && |SerializeAll(fs)| <= 0xFFFF
    ensures var data := SerializeAll(fs);
            && Decode(data).Done? && Inside(data, Decode(data).found)
            && Decode(data).port == LastPort(fs, 0)
            && PayloadOf(data, Decode(data).found) == LastPayload(fs, None)
  {
    var data := SerializeAll(fs);
    assert data[0..] == data;
    RunFields(data, 0, fs, 0, NoPayload, |data|);
  }

  // ---------------------------------------------------------------- what the decoder returns, for every buffer

  /** Where the loop goes from a tag: one line for each wire type. The position is a 16-bit variable. */
  lemma SkipTable(data: seq<byte>, pos: nat)
    requires pos < |data|
    ensures var wire := data[pos] % 8;
            var end := VarintEnd(data, pos + 1);
            var long := end - (pos + 1) > 5;
            var length := VarintValue(data[pos + 1..end]) % 0x1_0000_0000;
            var next: Option<nat> :=
              if wire == 0 then (if long then None else Some(end))
              else if wire == 1 then Some((pos + 9) % 0x1_0000)
              else if wire == 2 then (if long || pos + 1 == |data| then None else Some((end + length) % 0x1_0000))
              else if wire == 5 then Some((pos + 5) % 0x1_0000)
              else None;
            NextPos(data, pos) == if next.Some? && next.value < |data| then next else None
  {
    hide ReadVarint, VarintValue, VarintEnd;
    VarintAt(data, pos + 1);
  }

  /** A tag 0x12 at q declares a payload of n bytes at `start`, all of them in the buffer. */
  predicate Declares(data: seq<byte>, q: nat, start: nat, n: nat) {
    && q + 1 < |data| && data[q] == 0x12 && start == VarintEnd(data, q + 1) && start - (q + 1) <= 5
    && n == VarintValue(data[q + 1..start]) % 0x1_0000_0000 && start + n <= |data|
  }

  /** The payload that a tag 0x12 at q gives, if its declared length fits. */
  function PayloadAt(data: seq<byte>, q: nat): Option<Found> {
    if q + 1 < |data| && data[q] == 0x12 then
      var start := VarintEnd(data, q + 1);
      var n := VarintValue(data[q + 1..start]) % 0x1_0000_0000;
      if Declares(data, q, start, n) then Some(At(start, n)) else None
    else None
  }

  /** The portnum that a tag 0x08 at q gives: the low byte of its varint. */
  function PortAt(data: seq<byte>, q: nat): Option<byte> {
    if q < |data| && data[q] == 0x08 then Some(VarintValue(data[q + 1..VarintEnd(data, q + 1)]) % 0x100) else None
  }

  function Payloads(data: seq<byte>): nat -> Option<Found> {
    (q: nat) => PayloadAt(data, q)
  }

  function Ports(data: seq<byte>): nat -> Option<byte> {
    (q: nat) => PortAt(data, q)
  }

  function Latest<T>(now: Option<T>, before: T): T {
    if now.Some? then now.value else before
  }

  /** What one pass over a tag keeps or replaces. */
  lemma IterateFinds(data: seq<byte>, c: Cursor)
    requires c.pos < |data|
    ensures var r := Iterate(data, c);
            var last := if r.Again? then r.next else if r.Exit? then r.last else c;
            !r.Breaks? ==>
              && last.port == Latest(Ports(data)(c.pos), c.port)
              && last.found == Latest(Payloads(data)(c.pos), c.found)
  {
    hide ReadVarint, VarintValue;
    var end := VarintEnd(data, c.pos + 1);
    VarintAt(data, c.pos + 1);
    LowByte(VarintValue(data[c.pos + 1..end]));
    TagIs(data[c.pos]);
  }

  lemma TagIs(tag: byte)
    ensures tag == 0x08 <==> tag / 8 == 1 && tag % 8 == 0
    ensures tag == 0x12 <==> tag / 8 == 2 && tag % 8 == 2
  {
  }

  function Given<T>(data: seq<byte>, pos: nat, k: nat, what: nat -> Option<T>): Option<T> {
    match Visit(data, pos, k) case None => None case Some(q) => what(q)
  }

  /** What the last of the first n visited tags gives that gives anything; `before` if none does. */
  ghost predicate LastGiven<T(!new)>(data: seq<byte>, pos: nat, n: nat, what: nat -> Option<T>, before: T, result: T) {
    || (result == before && forall k :: 0 <= k < n ==> Given(data, pos, k, what).None?)
    || (exists k :: && 0 <= k < n && Given(data, pos, k, what) == Some(result)
                    && forall k' :: k < k' < n ==> Given(data, pos, k', what).None?)
  }

  lemma GivenAfter<T>(data: seq<byte>, pos: nat, what: nat -> Option<T>)
    requires pos < |data|
    ensures Given(data, pos, 0, what) == what(pos)
    ensures NextPos(data, pos).Some? ==>
              && (forall k: nat :: k > 0 ==>
                    Given(data, pos, k, what) == Given(data, NextPos(data, pos).value, k - 1, what))
              && (forall k: nat :: Given(data, NextPos(data, pos).value, k, what) == Given(data, pos, k + 1, what))
    ensures NextPos(data, pos).None? ==> forall k: nat :: k > 0 ==> Given(data, pos, k, what).None?
  {
    hide NextPos;
  }

  lemma LastGivenFrom<T(!new)>(data: seq<byte>, pos: nat, n: nat, what: nat -> Option<T>, before: T, result: T)
    requires pos < |data| && n > 0
    requires match NextPos(data, pos)
             case None => result == Latest(what(pos), before)
             case Some(p) => LastGiven(data, p, n - 1, what, Latest(what(pos), before), result)
    ensures LastGiven(data, pos, n, what, before, result)
  {
    hide NextPos, Given;
    GivenAfter(data, pos, what);
    if NextPos(data, pos).Some? {
      var p := NextPos(data, pos).value;
      if k :| 0 <= k < n - 1 && Given(data, p, k, what) == Some(result)
              && forall k' :: k < k' < n - 1 ==> Given(data, p, k', what).None? {
        assert Given(data, pos, k + 1, what) == Some(result);
      }
    }
  }

  lemma {:induction false} RunFinds(data: seq<byte>, c: Cursor, fuel: nat)
    ensures var r := Run(data, c, fuel);
            r.Done? ==> && LastGiven(data, c.pos, fuel, Payloads(data), c.found, r.found)
                        && LastGiven(data, c.pos, fuel, Ports(data), c.port, r.port)
    decreases fuel
  {
    hide Iterate, Payloads, Ports, LastGiven, Visit, Latest;
    var r := Run(data, c, fuel);
    if r.Done? {
      if c.pos >= |data| {
        NothingGiven(data, c.pos, fuel, Payloads(data), c.found);
        NothingGiven(data, c.pos, fuel, Ports(data), c.port);
      } else {
        IterateFinds(data, c);
        NextIgnoresFindings(data, c);
        if Iterate(data, c).Again? {
          RunFinds(data, Iterate(data, c).next, fuel - 1);
        }
        LastGivenFrom(data, c.pos, fuel, Payloads(data), c.found, r.found);
        LastGivenFrom(data, c.pos, fuel, Ports(data), c.port, r.port);
      }
    }
  }

  lemma NothingGiven<T(!new)>(data: seq<byte>, pos: nat, n: nat, what: nat -> Option<T>, before: T)
    requires pos >= |data|
    ensures LastGiven(data, pos, n, what, before, before)
  {
    forall k: nat
      ensures Visit(data, pos, k) == None
    {
      assert NextPos(data, pos) == None;
    }
  }

  /**
   * Whatever the buffer: if the decoder returns, the payload is that of the last visited tag 0x12 whose declared
   * length fits, and there is none if none fits; the portnum is the low byte of the last visited varint with tag 0x08,
   * and 0 if there is none.
   */
  lemma DecodesLastVisited(data: seq<byte>)
    ensures var r := Decode(data);
            r.Done? ==>
              && LastGiven(data, 0, |data|, Payloads(data), NoPayload, r.found)
              && LastGiven(data, 0, |data|, Ports(data), 0, r.port)
              && (r.found.At? ==> exists q :: Declares(data, q, r.found.start, r.found.len))
  {
    hide Run, PortAt, Visit, VarintValue;
    RunFinds(data, START, |data|);
    var r := Decode(data);
    if r.Done? && r.found.At? {
      var k :| 0 <= k < |data| && Given(data, 0, k, Payloads(data)) == Some(r.found);
      assert Declares(data, Visit(data, 0, k).value, r.found.start, r.found.len);
    }
  }

  /** A payload field cut short by the end of the buffer is refused: here five bytes are declared and two are there. */
  lemma TruncatedIsRefused()
    ensures Decode([0x08, 0x01, 0x12, 0x05, 0x68, 0x69]) == Done(1, NoPayload)
  {
    var data: seq<byte> := [0x08, 0x01, 0x12, 0x05, 0x68, 0x69];
    hide ReadVarint, VarintValue, Run;
    OneByteVarint(1);
    OneByteVarint(5);
    ReadWholeVarint(data, 1, [1]);
    ReadWholeVarint(data, 3, [5]);
    assert Iterate(data, START) == Again(Cursor(2, 1, NoPayload));
    assert Iterate(data, Cursor(2, 1, NoPayload)) == Again(Cursor(9, 1, NoPayload));
    TwoPasses(data, Cursor(2, 1, NoPayload), Cursor(9, 1, NoPayload));
  }

  lemma TwoPasses(data: seq<byte>, second: Cursor, last: Cursor)
    requires 2 <= |data| && second.pos < |data| <= last.pos
    requires Iterate(data, START) == Again(second) && Iterate(data, second) == Again(last)
    ensures Decode(data) == Done(last.port, last.found)
  {
    hide Iterate;
    assert Run(data, last, |data| - 2) == Done(last.port, last.found);
    assert Run(data, second, |data| - 1) == Done(last.port, last.found);
  }

  // ---------------------------------------------------------------- the encoder

  function Encoded(port: byte, payload: seq<byte>): (s: seq<byte>)
    requires |payload| <= 127
    ensures |s| == 4 + |payload|
  {
    [0x08, port, 0x12, |payload|] + payload
  }

  predicate DecodesTo(data: seq<byte>, port: byte, payload: seq<byte>) {
    var r := Decode(data);
    r.Done? && r.port == port && Inside(data, r.found) && PayloadOf(data, r.found) == Some(payload)
  }

  lemma EncodeThenDecode(port: byte, payload: seq<byte>)
    requires port < 128 && |payload| <= 127
    ensures DecodesTo(Encoded(port, payload), port, payload)
  {
    hide Decode, Serialize, Inside;
    var fs := FieldsOf(port, payload);
    FieldsAreEncoded(port, payload);
    FieldsHold(port, payload);
    DecodeMessage(fs);
  }

  /** The two fields of a Data message. */
  function FieldsOf(port: byte, payload: seq<byte>): (fs: seq<Field>)
    requires port < 128 && |payload| <= 127
    ensures forall f :: f in fs ==> WellFormed(f)
  {
    OneByteVarint(port);
    OneByteVarint(|payload|);
    [VarintField(1, [port]), LenField(2, [|payload|], payload)]
  }

  lemma OneByteVarint(b: byte)
    requires b < 128
    ensures IsVarint([b], 5) && VarintValue([b]) == b as nat
  {
  }

  lemma FieldsAreEncoded(port: byte, payload: seq<byte>)
    requires port < 128 && |payload| <= 127
    ensures SerializeAll(FieldsOf(port, payload)) == Encoded(port, payload)
  {
    hide WellFormed;
    var fs := FieldsOf(port, payload);
    assert fs[1..][1..] == [];
    assert SerializeAll(fs[1..]) == Serialize(fs[1]) + [];
  }

  lemma FieldsHold(port: byte, payload: seq<byte>)
    requires port < 128 && |payload| <= 127
    ensures LastPort(FieldsOf(port, payload), 0) == port
    ensures LastPayload(FieldsOf(port, payload), None) == Some(payload)
  {
    hide WellFormed;
    var fs := FieldsOf(port, payload);
    OneByteVarint(port);
    assert fs[1..][1..] == [];
    assert LastPort(fs[1..], port) == LastPort([], port);
    assert LastPayload(fs[1..], None) == LastPayload([], Some(payload));
  }

  /** The round trip covers every payload exactly for portnums of one varint byte. */
  lemma RoundTripIffOneByte(port: byte)
    ensures (forall payload: seq<byte> :: |payload| <= 127 ==> DecodesTo(Encoded(port, payload), port, payload))
            <==> port < 128
  {
    if port < 128 {
      forall payload: seq<byte> | |payload| <= 127
        ensures DecodesTo(Encoded(port, payload), port, payload)
      {
        EncodeThenDecode(port, payload);
      }
    } else {
      var data := Encoded(port, []);
      ReadWholeVarint(data, 1, [port, 0x12]);
      hide VarintValue;
      var second := Iterate(data, START).next;
      assert second.pos == 3 && second.found == NoPayload;
      assert Iterate(data, second) == Again(Cursor(4, second.port, NoPayload));
      assert Run(data, second, 3) == Done(second.port, NoPayload);
      assert Decode(data) == Done(second.port, NoPayload);
      assert !DecodesTo(data, port, []);
    }
  }

  // ---------------------------------------------------------------- the code

  /** Returns the encoded length, or 0 if it refuses. */
  method EncodeData(out: array<byte>, maxOut: u16, port: byte, payload: seq<byte>) returns (n: u16)
    requires maxOut as int <= out.Length && |payload| <= 0xFFFF
    modifies out
    ensures n == 0 <==> |payload| > 127 || 4 + |payload| > maxOut
    ensures n == 0 ==> out[..] == old(out[..])
    ensures n as int <= out.Length
    ensures n > 0 ==> out[..n] == Encoded(port, payload) && out[n..] == old(out[n..])
  {
    var need := (4 + |payload|) % 0x1_0000;
    if need > maxOut || |payload| > 127 {
      return 0;
    }
    out[0] := 0x08;
    out[1] := port;
    out[2] := 0x12;
    out[3] := |payload|;
    forall i | 0 <= i < |payload| {
      out[4 + i] := payload[i];
    }
    assert out[..need] == Encoded(port, payload);
    return need;
  }

  method VarintLoop(data: array<byte>, len: u16, start: nat) returns (val: u32, pos: nat)
    requires start <= len as int <= data.Length
    requires ReadVarint(data[..len], start, 0, 0).Varint?
    ensures ReadVarint(data[..len], start, 0, 0) == Varint(val, pos)
  {
    var shift := 0;
    val, pos := 0, start;
    while pos < len
      invariant start <= pos <= len
      invariant ReadVarint(data[..len], pos, val, shift) == ReadVarint(data[..len], start, 0, 0)
    {
      var b := data[pos];
      pos := pos + 1;
      val := (val + Shl(b as int % 128, shift)) % 0x1_0000_0000;
      if b < 128 {
        break;
      }
      shift := shift + 7;
    }
  }

  /** The decoder, for the inputs on which it returns. */
  method DecodeData(data: array<byte>, len: u16) returns (ok: bool, port: byte, start: nat, n: nat)
    requires len as int <= data.Length
    requires Decode(data[..len]).Done?
    ensures Decode(data[..len]) == Done(port, if ok then At(start, n) else NoPayload)
    ensures ok ==> start + n <= len as int
  {
    hide ReadVarint;
    ok, port, start, n := false, 0, 0, 0;
    var pos: nat := 0;
    ghost var input := data[..len];
    ghost var fuel: nat := |input|;
    ghost var found := NoPayload;
    DecodeIsSafe(input);
    while pos < len
      invariant found == (if ok then At(start, n) else NoPayload)
      invariant fuel >= 0 && Run(input, Cursor(pos, port, found), fuel) == Decode(input)
      decreases fuel
    {
      var tag := data[pos];
      pos := pos + 1;
      var field, wire := tag / 8, tag % 8;
      if wire == 0 {
        var val;
        val, pos := VarintLoop(data, len, pos);
        if field == 1 {
          port := val % 0x100;
        }
      } else if wire == 2 {
        if pos >= len {
          break;
        }
        var flen;
        flen, pos := VarintLoop(data, len, pos);
        if field == 2 && flen <= len as int - pos {
          ok, start, n := true, pos, flen;
        }
        pos := (pos + flen) % 0x1_0000;
      } else if wire == 5 {
        pos := (pos + 4) % 0x1_0000;
      } else if wire == 1 {
        pos := (pos + 8) % 0x1_0000;
      } else {
        break;
      }
      found := if ok then At(start, n) else NoPayload;
      fuel := fuel - 1;
    }
  }
}

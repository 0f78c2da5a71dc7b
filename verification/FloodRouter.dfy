/** Relay decisions: the dedup ring and the header rewrite (firmware/Mesh/flood_router.c). */
module FloodRouter {
  import opened Bytes
  import opened MeshPacket

  const SEEN_SIZE := 32

  datatype Key = Key(from: u32, id: u32)

  const ZERO_KEY := Key(0, 0)

  datatype RingState = RingState(slots: seq<Key>, head: nat)

  type Ring = r: RingState | |r.slots| == SEEN_SIZE && r.head < SEEN_SIZE
    witness RingState(seq(32, _ => Key(0, 0)), 0)

  /** The zero-initialised ring of a freshly booted node. */
  function BootRing(): Ring {
    RingState(seq(SEEN_SIZE, _ => ZERO_KEY), 0)
  }

  function Insert(r: Ring, k: Key): Ring {
    RingState(r.slots[r.head := k], (r.head + 1) % SEEN_SIZE)
  }

  predicate WasSeen(r: Ring, k: Key) {
    k in r.slots
  }

  function InsertAll(r: Ring, log: seq<Key>): Ring {
    if log == [] then r else Insert(InsertAll(r, log[..|log| - 1]), log[|log| - 1])
  }

  lemma InsertOne(r: Ring, log: seq<Key>, k: Key)
    ensures InsertAll(r, log + [k]) == Insert(InsertAll(r, log), k)
  {
    assert (log + [k])[..|log|] == log;
  }

  // ---------------------------------------------------------------- the ring as a window on a log

  /** The slots read from the oldest to the newest. */
  function Recent(r: Ring): (s: seq<Key>)
    ensures |s| == SEEN_SIZE
  {
    seq(SEEN_SIZE, j requires 0 <= j < SEEN_SIZE => r.slots[(r.head + j) % SEEN_SIZE])
  }

  lemma Wraps(x: nat)
    requires x < 64
    ensures x % 32 == if x < 32 then x else x - 32
  {
  }

  lemma RecentAt(r: Ring, j: nat)
    requires j < SEEN_SIZE
    ensures Recent(r)[j] == r.slots[if r.head + j < 32 then r.head + j else r.head + j - 32]
  {
    Wraps(r.head + j);
  }

  lemma InsertShiftsWindow(r: Ring, k: Key)
    ensures Recent(Insert(r, k)) == Recent(r)[1..] + [k]
  {
    hide Recent;
    var r' := Insert(r, k);
    Wraps(r.head + 1);
    forall j | 0 <= j < SEEN_SIZE
      ensures Recent(r')[j] == (Recent(r)[1..] + [k])[j]
    {
      RecentAt(r', j);
      if j < SEEN_SIZE - 1 {
        RecentAt(r, j + 1);
      }
    }
  }

  lemma SeenIffInWindow(r: Ring, k: Key)
    ensures WasSeen(r, k) <==> k in Recent(r)
  {
    if WasSeen(r, k) {
      var i :| 0 <= i < SEEN_SIZE && r.slots[i] == k;
      var j := if i >= r.head then i - r.head else i + SEEN_SIZE - r.head;
      RecentAt(r, j);
      assert Recent(r)[j] == k;
    }
  }

  lemma {:induction false} WindowOfLog(r: Ring, log: seq<Key>)
    ensures Recent(InsertAll(r, log)) == (Recent(r) + log)[|log|..]
  {
    if log != [] {
      var init := log[..|log| - 1];
      WindowOfLog(r, init);
      InsertShiftsWindow(InsertAll(r, init), log[|log| - 1]);
      assert log == init + [log[|log| - 1]];
    }
  }

  /** The part of `w + log` that is left after |log| shifts, when `w` is full of zero keys. */
  lemma ZeroWindow(w: seq<Key>, log: seq<Key>, k: Key)
    requires |w| == SEEN_SIZE && forall j :: 0 <= j < |w| ==> w[j] == ZERO_KEY
    ensures k in (w + log)[|log|..] <==>
              k in log[if |log| < SEEN_SIZE then 0 else |log| - SEEN_SIZE..]
              || (k == ZERO_KEY && |log| < SEEN_SIZE)
  {
    if |log| < SEEN_SIZE {
      assert (w + log)[|log|..] == w[|log|..] + log;
      assert log[0..] == log;
      assert w[|log|..][0] == ZERO_KEY;
    } else {
      assert (w + log)[|log|..] == log[|log| - SEEN_SIZE..];
    }
  }

  lemma BootWindow()
    ensures forall j :: 0 <= j < 32 ==> Recent(BootRing())[j] == ZERO_KEY
  {
  }

  /** From boot, a key tests as seen exactly when it is among the last 32 insertions, or is the zero key early on. */
  lemma RingRefinesLog(log: seq<Key>, k: Key)
    ensures WasSeen(InsertAll(BootRing(), log), k) <==>
              k in log[if |log| < 32 then 0 else |log| - 32..]
              || (k == Key(0, 0) && |log| < 32)
  {
    hide BootRing, WasSeen, InsertAll, Recent;
    BootWindow();
    WindowOfLog(BootRing(), log);
    SeenIffInWindow(InsertAll(BootRing(), log), k);
    ZeroWindow(Recent(BootRing()), log, k);
  }

  /** If a key tests as new, then its latest insertion (wherever the ring started) is at least 32 insertions back. */
  lemma RelaysAreSeparated(r: Ring, log: seq<Key>, j: nat)
    requires j < |log| && !WasSeen(InsertAll(r, log), log[j])
    ensures |log| - j > 32
  {
    WindowOfLog(r, log);
    SeenIffInWindow(InsertAll(r, log), log[j]);
    var window := (Recent(r) + log)[|log|..];
    assert forall i :: |log| - SEEN_SIZE <= i < |log| && i >= 0 ==> window[i + SEEN_SIZE - |log|] == log[i];
  }

  /** The bound is tight: 32 insertions of other keys make the ring forget, so a 33rd could be relayed again. */
  lemma ForgottenAfter32(r: Ring, k: Key, others: seq<Key>)
    requires |others| == 32 && k !in others
    ensures !WasSeen(InsertAll(r, [k] + others), k)
    ensures forall n: nat :: n < 32 ==> WasSeen(InsertAll(r, [k] + others[..n]), k)
  {
    WindowOfLog(r, [k] + others);
    SeenIffInWindow(InsertAll(r, [k] + others), k);
    assert (Recent(r) + ([k] + others))[33..] == others;
    forall n: nat | n < SEEN_SIZE
      ensures WasSeen(InsertAll(r, [k] + others[..n]), k)
    {
      if !WasSeen(InsertAll(r, [k] + others[..n]), k) {
        RelaysAreSeparated(r, [k] + others[..n], 0);
      }
    }
  }

  // ---------------------------------------------------------------- the relay gate and the rewrite

  function KeyOf(packet: seq<byte>): Key
    requires |packet| >= HEADER_SIZE
  {
    Key(Parse(packet).fromId, Parse(packet).packetId)
  }

  function Hop(packet: seq<byte>): byte
    requires |packet| >= HEADER_SIZE
  {
    HopLimit(Parse(packet).flags)
  }

  predicate ShouldForward(r: Ring, packet: seq<byte>) {
    |packet| >= HEADER_SIZE && !WasSeen(r, KeyOf(packet)) && Hop(packet) > 0
  }

  function Decremented(flags: byte): byte {
    var hop := HopLimit(flags);
    var hop' := if hop > 0 then hop - 1 else hop;
    flags / 16 * 16 + hop' % 16
  }

  function PrepareForward(packet: seq<byte>, me: byte): (p: seq<byte>)
    ensures |p| == |packet|
  {
    if |packet| < HEADER_SIZE then packet
    else
      var h := Parse(packet);
      Build(h.(flags := Decremented(h.flags), relay := me)) + packet[HEADER_SIZE..]
  }

  /** What the gate looks at, in the bytes of the packet. */
  lemma GateOnWire(r: Ring, packet: seq<byte>)
    requires |packet| >= 16
    ensures Hop(packet) == packet[12] % 16
    ensures KeyOf(packet) == Key(LeWord(packet[4..8]), LeWord(packet[8..12]))
    ensures ShouldForward(r, packet) <==>
              packet[12] % 16 != 0 && Key(LeWord(packet[4..8]), LeWord(packet[8..12])) !in r.slots
  {
  }

  /** A relay lowers the hop limit by one and rewrites nothing but bytes 12 (low nibble) and 15. */
  lemma RelayRewrite(packet: seq<byte>, me: byte)
    requires |packet| >= HEADER_SIZE
    ensures var p := PrepareForward(packet, me);
            && Hop(p) == (if Hop(packet) > 0 then Hop(packet) - 1 else 0)
            && p[12] / 16 == packet[12] / 16
            && p[15] == me
            && (forall i :: 0 <= i < |packet| && i != 12 && i != 15 ==> p[i] == packet[i])
            && KeyOf(p) == KeyOf(packet)
            && Parse(p) == Parse(packet).(flags := p[12], relay := me)
            && p[HEADER_SIZE..] == packet[HEADER_SIZE..]
  {
    hide LeBytes, LeWord, HopLimit, Decremented, Build;
    var h := Parse(packet);
    var h' := h.(flags := Decremented(h.flags), relay := me);
    DecrementedIs(h.flags);
    ParseAfterBuild(h', packet[HEADER_SIZE..]);
    RewrittenHeader(h, h');
    BuildAfterParse(packet);
    var p := PrepareForward(packet, me);
    forall i | 0 <= i < |packet| && i != 12 && i != 15
      ensures p[i] == packet[i]
    {
      if i < 16 {
        assert p[i] == Build(h')[i] && packet[i] == packet[..16][i];
      } else {
        assert p[i] == packet[HEADER_SIZE..][i - HEADER_SIZE];
      }
    }
  }

  lemma DecrementedIs(flags: byte)
    ensures Decremented(flags) / 16 == flags / 16
    ensures HopLimit(Decremented(flags)) == if HopLimit(flags) > 0 then HopLimit(flags) - 1 else 0
  {
  }

  lemma RewrittenHeader(h: Header, h': Header)
    requires h' == h.(flags := h'.flags, relay := h'.relay)
    ensures forall i :: 0 <= i < 16 && i != 12 && i != 15 ==> Build(h')[i] == Build(h)[i]
  {
    hide LeBytes;
  }

  /** The packet after being relayed by each of the given nodes in turn. */
  function RelayedBy(packet: seq<byte>, relays: seq<byte>): (p: seq<byte>)
    ensures |p| == |packet|
  {
    if relays == [] then packet
    else PrepareForward(RelayedBy(packet, relays[..|relays| - 1]), relays[|relays| - 1])
  }

  /** Every relay of the chain passed the hop test on what it received (its own ring aside). */
  predicate ChainPassesGate(packet: seq<byte>, relays: seq<byte>)
    requires |packet| >= HEADER_SIZE
  {
    relays == [] || (ChainPassesGate(packet, relays[..|relays| - 1])
                     && Hop(RelayedBy(packet, relays[..|relays| - 1])) > 0)
  }

  /** A chain of n relays is possible exactly when n is at most the low four bits of the flags. */
  lemma {:induction false} RelayChain(packet: seq<byte>, relays: seq<byte>)
    requires |packet| >= HEADER_SIZE
    ensures ChainPassesGate(packet, relays) <==> |relays| <= Hop(packet)
    ensures Hop(packet) == packet[12] % 16
    ensures var p := RelayedBy(packet, relays);
            && Hop(p) == (if |relays| <= Hop(packet) then Hop(packet) - |relays| else 0)
            && p[12] / 16 == packet[12] / 16
            && (forall i :: 0 <= i < |packet| && i != 12 && i != 15 ==> p[i] == packet[i])
            && (relays != [] ==> p[15] == relays[|relays| - 1])
            && Parse(p) == Parse(packet).(flags := p[12], relay := p[15])
            && p[HEADER_SIZE..] == packet[HEADER_SIZE..]
  {
    if relays != [] {
      var init := relays[..|relays| - 1];
      RelayChain(packet, init);
      RelayRewrite(RelayedBy(packet, init), relays[|relays| - 1]);
    }
  }

  // ---------------------------------------------------------------- the code

  class Router {
    const slots: array<Key>
    var head: byte

    ghost predicate Valid()
      reads this
    {
      slots.Length == SEEN_SIZE && head < SEEN_SIZE
    }

    ghost function State(): Ring
      requires Valid()
      reads this, slots
    {
      RingState(slots[..], head)
    }

    constructor ()
      ensures Valid() && fresh(slots)
      ensures State() == BootRing()
    {
      slots := new Key[SEEN_SIZE](_ => ZERO_KEY);
      head := 0;
    }

    method Seen(k: Key)
      requires Valid()
      modifies this, slots
      ensures Valid()
      ensures State() == Insert(old(State()), k)
    {
      slots[head] := k;
      head := (head + 1) % SEEN_SIZE;
    }

    method IsSeen(k: Key) returns (seen: bool)
      requires Valid()
      ensures seen <==> WasSeen(State(), k)
    {
      var i := 0;
      while i < SEEN_SIZE
        invariant 0 <= i <= SEEN_SIZE
        invariant k !in slots[..i]
      {
        if slots[i] == k {
          return true;
        }
        i := i + 1;
      }
      assert slots[..i] == slots[..];
      return false;
    }

    /** Only tests: neither registers the packet nor lowers its hop limit. */
    method Gate(packet: array<byte>, len: u16) returns (forward: bool)
      requires Valid() && len as int <= packet.Length
      ensures forward <==> ShouldForward(State(), packet[..len])
      ensures len >= 16 ==>
                (forward <==> packet[12] % 16 != 0 && !WasSeen(State(), KeyOf(packet[..len])))
    {
      if len < HEADER_SIZE {
        return false;
      }
      var h := HeaderFromBuf(packet);
      assert Parse(packet[..]) == Parse(packet[..len]) by {
        assert packet[..len] == packet[..][..len];
      }
      var seen := IsSeen(Key(h.fromId, h.packetId));
      if seen {
        return false;
      }
      return HopLimit(h.flags) != 0;
    }
  }

  method RewriteForRelay(packet: array<byte>, len: u16, me: byte)
    requires len as int <= packet.Length
    modifies packet
    ensures packet[..len] == PrepareForward(old(packet[..len]), me)
    ensures packet[len..] == old(packet[len..])
  {
    if len < HEADER_SIZE {
      return;
    }
    var h := HeaderFromBuf(packet);
    ghost var whole := packet[..];
    assert Parse(whole) == Parse(whole[..len]);
    var hop := HopLimit(h.flags);
    if hop > 0 {
      hop := hop - 1;
    }
    h := h.(flags := h.flags / 16 * 16 + hop % 16);
    h := h.(relay := me);
    HeaderToBuf(h, packet);
    assert packet[..len] == Build(h) + whole[..len][HEADER_SIZE..];
  }
}

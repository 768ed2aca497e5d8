/**
 Snowflake IDs (apps/pkg/utils/snowflake.go) under a clock that may stall and jump backwards.
 The source works on 64-bit words with shifts, masks and ors, which are defined here bit by bit
 and shown to be the sums, quotients and remainders that the rest of the model uses, on the
 ranges that occur, with milliseconds below 2^41.
 */
module Snowflake {
  import opened Options

  const NODE_LIMIT: nat := 1024
  const SEQUENCE_LIMIT: nat := 4096
  const TIME_LIMIT: nat := 0x200_0000_0000
  const EPOCH: nat := 1288834974657

  // ----- the state and the layout -----

  /** The fields that Generate updates. */
  datatype State = State(lastTimestamp: nat, sequence: nat)

  function Compose(ms: nat, node: nat, sequence: nat): nat {
    ms * 0x40_0000 + node * 0x1000 + sequence
  }

  datatype Info = Info(timestamp: nat, nodeID: nat, sequence: nat)

  function Parse(id: nat): Info {
    Info(id / 0x40_0000 + EPOCH, (id / 0x1000) % 1024, id % 4096)
  }

  // ----- the source's expressions on words -----

  function Pow2(k: nat): nat { if k == 0 then 1 else 2 * Pow2(k - 1) }

  const WORD: nat := 0x1_0000_0000_0000_0000

  function Bit(b: bool): nat { if b then 1 else 0 }

  /** Bitwise or and and of two words that are not negative. */
  function Or(a: nat, b: nat): nat {
    if a == 0 && b == 0 then 0 else 2 * Or(a / 2, b / 2) + Bit(a % 2 == 1 || b % 2 == 1)
  }

  function And(a: nat, b: nat): nat {
    if a == 0 || b == 0 then 0 else 2 * And(a / 2, b / 2) + Bit(a % 2 == 1 && b % 2 == 1)
  }

  /** A shift to the left loses what leaves the word. */
  function Shl(a: nat, k: nat): nat { a * Pow2(k) % WORD }

  function Shr(a: nat, k: nat): nat { if k == 0 then a else Shr(a / 2, k - 1) }

  lemma {:induction false} OrNothing(a: nat)
    ensures Or(a, 0) == a
  {
    if a > 0 {
      OrNothing(a / 2);
    }
  }

  lemma Doubled(a: nat, p: nat)
    ensures a * (2 * p) == 2 * (a * p)
  {
  }

  /** An or of bits above and below position k is a sum. */
  lemma {:induction false} OrIsSum(a: nat, k: nat, b: nat)
    requires b < Pow2(k)
    ensures Or(a * Pow2(k), b) == a * Pow2(k) + b
  {
    if k == 0 {
      OrNothing(a);
    } else {
      OrIsSum(a, k - 1, b / 2);
      Doubled(a, Pow2(k - 1));
    }
  }

  /** A mask of k bits takes away what the shift leaves: quotient and remainder. */
  lemma {:induction false} ShiftAndMask(a: nat, k: nat)
    ensures Pow2(k) > 0 && And(a, Pow2(k) - 1) < Pow2(k)
    ensures a == Shr(a, k) * Pow2(k) + And(a, Pow2(k) - 1)
  {
    if k > 0 {
      ShiftAndMask(a / 2, k - 1);
      Doubled(Shr(a, k), Pow2(k - 1));
      if a > 0 {
        assert (Pow2(k) - 1) / 2 == Pow2(k - 1) - 1 && (Pow2(k) - 1) % 2 == 1;
      }
    }
  }

  lemma Pow2Values()
    ensures Pow2(10) == 1024 && Pow2(12) == 0x1000 && Pow2(22) == 0x40_0000
  {
    assert Pow2(10) == 1024;
    assert Pow2(12) == 4 * Pow2(10);
    assert Pow2(22) == 1024 * Pow2(12);
  }

  lemma HighBits(ms: nat, node: nat)
    requires ms < TIME_LIMIT && node < NODE_LIMIT
    ensures Or(Shl(ms, 22), Shl(node, 12)) == ms * 0x40_0000 + node * 0x1000
  {
    Pow2Values();
    var low := node * 0x1000;
    OrIsSum(ms, 22, low);
    assert Shl(node, 12) == low;
  }

  /** The words that Generate returns. */
  lemma WordsCompose(ms: nat, node: nat, sequence: nat)
    requires ms < TIME_LIMIT && node < NODE_LIMIT && sequence < SEQUENCE_LIMIT
    ensures Or(Or(Shl(ms, 22), Shl(node, 12)), sequence) == Compose(ms, node, sequence)
  {
    HighBits(ms, node);
    Pow2Values();
    var high := ms * 1024 + node;
    OrIsSum(high, 12, sequence);
  }

  lemma DividedBy1024(a: nat, q: nat, r: nat)
    requires a == q * 1024 + r && r < 1024
    ensures r == a % 1024
  {
  }

  lemma DividedBy4096(a: nat, q: nat, r: nat)
    requires a == q * 0x1000 + r && r < 0x1000
    ensures q == a / 0x1000 && r == a % 0x1000
  {
  }

  lemma DividedBy4194304(a: nat, q: nat, r: nat)
    requires a == q * 0x40_0000 + r && r < 0x40_0000
    ensures q == a / 0x40_0000
  {
  }

  lemma ShiftAndMaskAre(a: nat, k: nat, mask: nat)
    requires mask + 1 == Pow2(k)
    ensures mask + 1 == 1024 ==> And(a, mask) == a % 1024
    ensures mask + 1 == 0x1000 ==> Shr(a, k) == a / 0x1000 && And(a, mask) == a % 0x1000
    ensures mask + 1 == 0x40_0000 ==> Shr(a, k) == a / 0x40_0000
  {
    ShiftAndMask(a, k);
    var q, r := Shr(a, k), And(a, mask);
    if mask + 1 == 1024 {
      DividedBy1024(a, q, r);
    } else if mask + 1 == 0x1000 {
      DividedBy4096(a, q, r);
    } else if mask + 1 == 0x40_0000 {
      DividedBy4194304(a, q, r);
    }
  }

  /** The fields that ParseSnowflakeID takes from a word, and the next sequence number. */
  lemma WordsParse(id: nat)
    ensures Parse(id) == Info(Shr(id, 22) + EPOCH, And(Shr(id, 12), 0x3FF), And(id, 0xFFF))
    ensures And(id + 1, 0xFFF) == NextSequence(id)
  {
    Pow2Values();
    ShiftAndMaskAre(id, 22, 0x3F_FFFF);
    ShiftAndMaskAre(id, 12, 0xFFF);
    ShiftAndMaskAre(id / 0x1000, 10, 0x3FF);
    ShiftAndMaskAre(id + 1, 12, 0xFFF);
  }

  predicate GoodClock(clock: seq<nat>) {
    forall i :: 0 <= i < |clock| ==> clock[i] < TIME_LIMIT
  }

  predicate Good(s: State) {
    s.lastTimestamp < TIME_LIMIT && s.sequence < SEQUENCE_LIMIT
  }

  /** The ID that the state produced last. */
  function LastId(s: State, node: nat): nat { Compose(s.lastTimestamp, node, s.sequence) }

  function NextSequence(sequence: nat): nat { (sequence + 1) % SEQUENCE_LIMIT }

  /** The first reading from `from` on that is past `last`, or the number of readings. */
  function FirstPast(clock: seq<nat>, last: nat, from: nat): (i: nat)
    requires from <= |clock|
    ensures from <= i <= |clock|
    ensures i < |clock| ==> clock[i] > last
    ensures forall k :: from <= k < i ==> clock[k] <= last
    decreases |clock| - from
  {
    if from == |clock| || clock[from] > last then from else FirstPast(clock, last, from + 1)
  }

  /** The end of a call that waits for a new millisecond: the new state and the readings used. */
  function Waited(clock: seq<nat>, last: nat): Option<(State, nat)>
    requires clock != []
  {
    var i := FirstPast(clock, last, 1);
    if i == |clock| then None else Some((State(clock[i], 0), i + 1))
  }

  /** One call on the given clock readings; `None` when they end while it is still waiting. */
  function Generated(s: State, clock: seq<nat>): Option<(State, nat)> {
    if clock == [] then None
    else if clock[0] < s.lastTimestamp then Waited(clock, s.lastTimestamp)
    else if clock[0] > s.lastTimestamp then Some((State(clock[0], 0), 1))
    else if NextSequence(s.sequence) == 0 then Waited(clock, s.lastTimestamp)
    else Some((State(s.lastTimestamp, NextSequence(s.sequence)), 1))
  }

  class Generator {
    const nodeID: nat
    var lastTimestamp: nat
    var sequence: nat

    function View(): State
      reads this
    {
      State(lastTimestamp, sequence)
    }

    constructor (nodeID: nat)
      ensures this.nodeID == nodeID && View() == State(0, 0)
    {
      this.nodeID := nodeID;
      lastTimestamp, sequence := 0, 0;
    }

    /** Reads the clock until it is past the last timestamp. */
    method WaitPast(clock: seq<nat>, from: nat) returns (next: nat, current: nat, done: bool)
      requires from <= |clock|
      ensures done == (FirstPast(clock, lastTimestamp, from) < |clock|)
      ensures done ==> next == FirstPast(clock, lastTimestamp, from) + 1 && current == clock[next - 1]
    {
      next, current, done := from, lastTimestamp, false;
      while current <= lastTimestamp
        invariant from <= next <= |clock|
        invariant current <= lastTimestamp ==> FirstPast(clock, lastTimestamp, from) == FirstPast(clock, lastTimestamp, next)
        invariant current > lastTimestamp ==>
                    next == FirstPast(clock, lastTimestamp, from) + 1 && current == clock[next - 1]
        decreases |clock| - next
      {
        if next == |clock| {
          return;
        }
        current := clock[next];
        next := next + 1;
      }
      done := true;
    }

    /** The lock is held throughout, so a call that still waits blocks every other one. */
    method Generate(clock: seq<nat>) returns (id: Option<nat>, used: nat)
      modifies this
      ensures id.Some? <==> Generated(old(View()), clock).Some?
      ensures id.Some? ==> Generated(old(View()), clock) == Some((View(), used)) && id.value == LastId(View(), nodeID)
    {
      if |clock| == 0 {
        return None, 0;
      }
      var current, done := clock[0], true;
      used := 1;
      if current < lastTimestamp {
        used, current, done := WaitPast(clock, used);
        if !done {
          return None, used;
        }
      }
      if current == lastTimestamp {
        sequence := NextSequence(sequence);
        if sequence == 0 {
          used, current, done := WaitPast(clock, used);
          if !done {
            return None, used;
          }
        }
      } else {
        sequence := 0;
      }
      lastTimestamp := current;
      return Some(Compose(current, nodeID, sequence)), used;
    }
  }

  // ----- the layout -----

  /** The parts of an ID can be read back; the timestamp comes back with the epoch added, which
      Generate never took away. IDs are positive as signed 64-bit numbers. */
  lemma ParseRecovers(ms: nat, node: nat, sequence: nat)
    requires ms < TIME_LIMIT && node < NODE_LIMIT && sequence < SEQUENCE_LIMIT
    ensures Parse(Compose(ms, node, sequence)) == Info(ms + EPOCH, node, sequence)
    ensures Parse(Compose(ms, node, sequence)).timestamp != ms
    ensures Compose(ms, node, sequence) < 0x8000_0000_0000_0000
  {
    var id := Compose(ms, node, sequence);
    assert id / 0x1000 == ms * 1024 + node;
  }

  lemma SequenceStep(x: nat)
    requires x < SEQUENCE_LIMIT
    ensures NextSequence(x) == 0 || NextSequence(x) == x + 1 < SEQUENCE_LIMIT
  {
  }

  /** Timestamps never go back, and within a millisecond the sequence goes up. */
  predicate Later(s: State, t: State) {
    s.lastTimestamp < t.lastTimestamp || (s.lastTimestamp == t.lastTimestamp && s.sequence < t.sequence)
  }

  lemma LaterTimeGreaterId(a: nat, b: nat, node: nat, x: nat, y: nat)
    requires a < b < TIME_LIMIT && node < NODE_LIMIT && x < SEQUENCE_LIMIT && y < SEQUENCE_LIMIT
    ensures Compose(a, node, x) < Compose(b, node, y)
  {
  }

  lemma LaterSequenceGreaterId(a: nat, node: nat, x: nat, y: nat)
    requires a < TIME_LIMIT && node < NODE_LIMIT && x < y < SEQUENCE_LIMIT
    ensures Compose(a, node, x) < Compose(a, node, y)
  {
  }

  lemma LaterStateGreaterId(s: State, t: State, node: nat)
    requires Good(s) && Good(t) && node < NODE_LIMIT && Later(s, t)
    ensures LastId(s, node) < LastId(t, node)
  {
    if s.lastTimestamp < t.lastTimestamp {
      LaterTimeGreaterId(s.lastTimestamp, t.lastTimestamp, node, s.sequence, t.sequence);
    } else {
      LaterSequenceGreaterId(s.lastTimestamp, node, s.sequence, t.sequence);
    }
  }

  // ----- whole lives of generators -----

  /** A call ends on a reading it used, never goes back, and numbers the IDs of a millisecond from
      0 without gaps. */
  lemma GeneratedIsLater(s: State, clock: seq<nat>)
    requires Good(s) && GoodClock(clock) && Generated(s, clock).Some?
    ensures var (t, used) := Generated(s, clock).value;
            && Good(t) && Later(s, t) && 0 < used <= |clock|
            && t.lastTimestamp == clock[used - 1]
            && t.sequence == if t.lastTimestamp == s.lastTimestamp then s.sequence + 1 else 0
  {
    SequenceStep(s.sequence);
  }

  /** A call need not wait: the clock is past the last timestamp, or shows it with numbers left. */
  predicate Immediate(s: State, reading: nat) {
    reading > s.lastTimestamp || (reading == s.lastTimestamp && s.sequence + 1 < SEQUENCE_LIMIT)
  }

  /** A call ends as early as it can: with its first reading if it need not wait, and otherwise with
      the first later reading past the last timestamp. It goes on waiting only without one. */
  lemma GeneratedIsPrompt(s: State, clock: seq<nat>)
    requires Good(s)
    ensures Generated(s, clock).None? <==>
            clock == [] || (!Immediate(s, clock[0]) && forall i :: 1 <= i < |clock| ==> clock[i] <= s.lastTimestamp)
    ensures Generated(s, clock).Some? ==>
              var used := Generated(s, clock).value.1;
              && (used == 1 <==> Immediate(s, clock[0]))
              && (used > 1 ==> used <= |clock| && clock[used - 1] > s.lastTimestamp
                               && forall i :: 1 <= i < used - 1 ==> clock[i] <= s.lastTimestamp)
  {
    SequenceStep(s.sequence);
  }

  /** All IDs that one generator makes while the clock shows the given readings. */
  function Ids(s: State, node: nat, clock: seq<nat>): seq<nat>
    requires Good(s) && GoodClock(clock)
    decreases |clock|
  {
    match Generated(s, clock)
    case None => []
    case Some(r) =>
      GeneratedIsLater(s, clock);
      [LastId(r.0, node)] + Ids(r.0, node, clock[r.1..])
  }

  /** Whatever the clock does, one generator's IDs strictly increase. */
  lemma {:induction false} IdsIncrease(s: State, node: nat, clock: seq<nat>)
    requires Good(s) && GoodClock(clock) && node < NODE_LIMIT
    ensures forall i :: 0 <= i < |Ids(s, node, clock)| ==> LastId(s, node) < Ids(s, node, clock)[i]
    ensures forall i, j :: 0 <= i < j < |Ids(s, node, clock)| ==> Ids(s, node, clock)[i] < Ids(s, node, clock)[j]
    decreases |clock|
  {
    if Generated(s, clock).Some? {
      var (t, used) := Generated(s, clock).value;
      GeneratedIsLater(s, clock);
      LaterStateGreaterId(s, t, node);
      IdsIncrease(t, node, clock[used..]);
      var tail := Ids(t, node, clock[used..]);
      assert Ids(s, node, clock) == [LastId(t, node)] + tail;
    }
  }

  lemma {:induction false} IdsCarryNode(s: State, node: nat, clock: seq<nat>)
    requires Good(s) && GoodClock(clock) && node < NODE_LIMIT
    ensures forall i :: 0 <= i < |Ids(s, node, clock)| ==> Parse(Ids(s, node, clock)[i]).nodeID == node
    decreases |clock|
  {
    if Generated(s, clock).Some? {
      var (t, used) := Generated(s, clock).value;
      GeneratedIsLater(s, clock);
      ParseRecovers(t.lastTimestamp, node, t.sequence);
      IdsCarryNode(t, node, clock[used..]);
    }
  }

  /** Generators with different node IDs never make the same ID, on any two clocks. */
  lemma NodesNeverShareIds(a: nat, b: nat, clockA: seq<nat>, clockB: seq<nat>)
    requires a < NODE_LIMIT && b < NODE_LIMIT && a != b && GoodClock(clockA) && GoodClock(clockB)
    ensures forall i, j :: 0 <= i < |Ids(State(0, 0), a, clockA)| && 0 <= j < |Ids(State(0, 0), b, clockB)| ==>
              Ids(State(0, 0), a, clockA)[i] != Ids(State(0, 0), b, clockB)[j]
  {
    IdsCarryNode(State(0, 0), a, clockA);
    IdsCarryNode(State(0, 0), b, clockB);
  }
}

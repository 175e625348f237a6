/** The hybrid logical clock (src/common/clock/hlc.cpp, hlc.h): 48 bits of microseconds over a 16-bit counter. */
module Hlcs {

  const WORD: nat := 0x1_0000_0000_0000_0000
  const COUNTER: nat := 0x1_0000
  /** Readings fit the 48 bits reserved for them. */
  const READING_LIMIT: nat := 0x1_0000_0000_0000

  type Time = t: nat | t < WORD

  function Physical(t: Time): nat {
    t / COUNTER
  }

  function Logical(t: Time): nat {
    t % COUNTER
  }

  /** `(physical << 16) | logical` on 64 bits, where `logical` is at most 65536: see `ShiftOr`. */
  function Pack(physical: nat, logical: nat): Time
    requires logical <= COUNTER
  {
    var high := (physical * COUNTER) % WORD;
    if logical < COUNTER || physical % 2 == 0 then (high + logical) % WORD else high
  }

  const BITS: bv64 := 16

  /** On machine words: a counter below 65536 fills the low bits, and 65536 itself adds one to an even physical part
      but is absorbed by an odd one. */
  lemma ShiftOr(physical: bv64, logical: bv64)
    requires logical <= 0x1_0000
    ensures (physical << BITS) | logical == if logical < 0x1_0000
        || physical & 1 == 0 then (physical << BITS) + logical else physical << BITS
  {
  }

  /** The next timestamp after `t` when the physical clock shows `reading`. */
  function Tick(t: Time, reading: nat): Time {
    if reading > Physical(t) then Pack(reading, 0) else Pack(Physical(t), Logical(t) + 1)
  }

  function Max(a: nat, b: nat): nat {
    if a < b then b else a
  }

  class Hlc {
    var currentTime: Time

    constructor ()
      ensures currentTime == 0
    {
      currentTime := 0;
    }

    method Now(reading: nat) returns (t: Time)
      modifies this
      ensures t == currentTime == Tick(old(currentTime), reading)
      ensures reading < READING_LIMIT ==>
        (Earliest(old(currentTime), reading, t) <==> Room(old(currentTime), reading))
    {
      if reading < READING_LIMIT {
        TickIsEarliestExactly(currentTime, reading);
      }
      hide Earliest, Room;
      var physical, logical := Physical(currentTime), Logical(currentTime);
      if reading > physical {
        currentTime := Pack(reading, 0);
      } else {
        currentTime := Pack(physical, logical + 1);
      }
      t := currentTime;
    }

    /** Receiving a timestamp is a tick of the later of the two clocks. */
    method Update(remote: Time, reading: nat) returns (t: Time)
      modifies this
      ensures t == currentTime == Tick(Max(old(currentTime), remote), reading)
      ensures reading < READING_LIMIT ==>
        (Earliest(Max(old(currentTime), remote), reading, t) <==> Room(Max(old(currentTime), remote), reading))
    {
      if reading < READING_LIMIT {
        TickIsEarliestExactly(Max(currentTime, remote), reading);
      }
      hide Pack, Physical, Logical, Earliest, Room;
      var physical, logical := Physical(currentTime), Logical(currentTime);
      var remotePhysical, remoteLogical := Physical(remote), Logical(remote);
      LaterParts(currentTime, remote);
      var maxPhysical := Max(Max(reading, physical), remotePhysical);
      if maxPhysical == reading {
        if reading > physical && reading > remotePhysical {
          currentTime := Pack(reading, 0);
          return currentTime;
        }
      }
      var maxLogical := 0;
      if maxPhysical == physical {
        maxLogical := Max(maxLogical, logical);
      }
      if maxPhysical == remotePhysical {
        maxLogical := Max(maxLogical, remoteLogical);
      }
      currentTime := Pack(maxPhysical, maxLogical + 1);
      t := currentTime;
    }
  }

  /** The later of two timestamps has the later physical part and, if those are equal, the higher counter. */
  lemma LaterParts(a: Time, b: Time)
    ensures Physical(Max(a, b)) == Max(Physical(a), Physical(b)) && Logical(a) < COUNTER && Logical(b) < COUNTER
    ensures Logical(Max(a, b)) ==
      if Physical(a) < Physical(b) then Logical(b) else if Physical(b) < Physical(a) then Logical(a)
          else Max(Logical(a), Logical(b))
  {
  }

  // ---- one tick ----

  /** The counter is full, and the next tick cannot add to it. */
  predicate Full(t: Time) {
    Logical(t) == COUNTER - 1
  }

  lemma PackReading(reading: nat)
    requires reading < READING_LIMIT
    ensures Pack(reading, 0) == reading * COUNTER && Physical(Pack(reading, 0)) == reading
  {
  }

  lemma PackCounter(t: Time)
    ensures Pack(Physical(t), Logical(t) + 1) ==
      if !Full(t) then t + 1 else if Physical(t) % 2 == 1 then t - (COUNTER - 1) else t + 1
  {
  }

  /** A tick moves forward exactly if the physical clock is ahead, the counter has room, or its carry does not meet
      a bit already set. */
  lemma TickAdvancesExactly(t: Time, reading: nat)
    requires reading < READING_LIMIT
    ensures Tick(t, reading) > t <==> reading > Physical(t) || !Full(t) || Physical(t) % 2 == 0
  {
    hide Pack;
    PackCounter(t);
    if reading > Physical(t) {
      PackReading(reading);
    }
  }

  /** The reading is ahead of `t`, or `t` can still be counted up. */
  predicate Room(t: Time, reading: nat) {
    reading > Physical(t) || !Full(t) || Physical(t) % 2 == 0
  }

  /** Of all timestamps after `t` whose physical part has reached the reading, `u` is the first. */
  ghost predicate Earliest(t: Time, reading: nat, u: Time) {
    && u > t && Physical(u) >= reading
    && forall v: Time :: v > t && Physical(v) >= reading ==> u <= v
  }

  /** A tick is the earliest timestamp after its own with the reading reached, exactly if there is room. */
  lemma TickIsEarliestExactly(t: Time, reading: nat)
    requires reading < READING_LIMIT
    ensures Earliest(t, reading, Tick(t, reading)) <==> Room(t, reading)
  {
    hide Pack;
    PackCounter(t);
    TickAdvancesExactly(t, reading);
    if reading > Physical(t) {
      PackReading(reading);
    }
  }

  /** A tick takes its physical part from the clock or the timestamp exactly if the counter does not carry into it. */
  lemma TickPhysicalExactly(t: Time, reading: nat)
    requires reading < READING_LIMIT
    ensures Physical(Tick(t, reading)) <= Max(reading, Physical(t)) <==>
      reading > Physical(t) || !Full(t) || Physical(t) % 2 == 1
  {
    hide Pack;
    PackCounter(t);
    if reading > Physical(t) {
      PackReading(reading);
    }
  }

  // ---- runs of many nodes ----

  /** An event of a run: a node stamps it with its clock, or with the stamp of an earlier event it received. The
      physical clock shows anything, also less than before. */
  datatype Event =
    | Local(node: int, reading: nat)
    | Receive(node: int, from: nat, reading: nat)

  ghost predicate IsRun(run: seq<Event>) {
    forall i :: 0 <= i < |run| ==> run[i].reading < READING_LIMIT && (run[i].Receive? ==> run[i].from < i)
  }

  /** The clock of `node` after the first `n` events. */
  function Clock(run: seq<Event>, n: nat, node: int): Time
    requires n <= |run| && IsRun(run)
    decreases n, 0
  {
    if n == 0 then 0 else if run[n - 1].node == node then Stamp(run, n - 1) else Clock(run, n - 1, node)
  }

  /** The later of what the node and the message bring to event `i`. */
  function Base(run: seq<Event>, i: nat): Time
    requires i < |run| && IsRun(run)
    decreases i, 1
  {
    var own := Clock(run, i, run[i].node);
    if run[i].Receive? then Max(own, Stamp(run, run[i].from)) else own
  }

  /** The timestamp of event `i`: what `Now` or `Update` returns there. */
  function Stamp(run: seq<Event>, i: nat): Time
    requires i < |run| && IsRun(run)
    decreases i, 2
  {
    Tick(Base(run, i), run[i].reading)
  }

  /** Event `i` comes earlier at the same node, or is the one whose stamp `j` received. */
  ghost predicate Direct(run: seq<Event>, i: nat, j: nat) {
    i < j < |run| && (run[i].node == run[j].node || (run[j].Receive? && run[j].from == i))
  }

  ghost predicate HappensBefore(run: seq<Event>, i: nat, j: nat)
    decreases j - i
  {
    Direct(run, i, j) || exists k :: i < k < j && Direct(run, i, k) && HappensBefore(run, k, j)
  }

  lemma {:induction false} HappensBeforeStep(run: seq<Event>, i: nat, j: nat, k: nat)
    requires HappensBefore(run, i, j) && Direct(run, j, k)
    ensures HappensBefore(run, i, k)
    decreases j - i
  {
    if Direct(run, i, j) {
      assert i < j < k && HappensBefore(run, j, k);
    } else {
      var m :| i < m < j && Direct(run, i, m) && HappensBefore(run, m, j);
      HappensBeforeStep(run, m, j, k);
      assert i < m < k;
    }
  }

  /** Event `j` gets past what it starts from. */
  ghost predicate Advances(run: seq<Event>, j: nat)
    requires j < |run| && IsRun(run)
  {
    Room(Base(run, j), run[j].reading)
  }

  /** A node's clock is the stamp of its last event, so it is no earlier than any of them. */
  lemma {:induction false} ClockPassesStamps(run: seq<Event>, n: nat, i: nat)
    requires IsRun(run) && i < n <= |run| && AllAdvance(run)
    ensures Stamp(run, i) <= Clock(run, n, run[i].node)
    decreases n
  {
    hide Tick, Advances, Stamp;
    if i < n - 1 {
      ClockPassesStamps(run, n - 1, i);
      if run[n - 1].node == run[i].node {
        StampPassesBase(run, n - 1);
      }
    }
  }

  lemma StampPassesBase(run: seq<Event>, j: nat)
    requires IsRun(run) && j < |run|
    ensures Stamp(run, j) > Base(run, j) <==> Advances(run, j)
    ensures Base(run, j) >= Clock(run, j, run[j].node)
  {
    hide Tick, Full, Physical, Base, Clock;
    TickAdvancesExactly(Base(run, j), run[j].reading);
    BaseCovers(run, j);
  }

  lemma BaseCovers(run: seq<Event>, j: nat)
    requires IsRun(run) && j < |run|
    ensures Base(run, j) >= Clock(run, j, run[j].node)
    ensures run[j].Receive? ==> Base(run, j) >= Stamp(run, run[j].from)
  {
    hide Tick, Clock, Stamp;
  }

  /** If every event advances, a cause has a smaller timestamp than its effect. */
  lemma {:induction false} CausesComeFirst(run: seq<Event>, i: nat, j: nat)
    requires IsRun(run) && HappensBefore(run, i, j) && AllAdvance(run)
    ensures i < j < |run| && Stamp(run, i) < Stamp(run, j)
    decreases j - i
  {
    hide Tick, Advances, Stamp, Base, Clock;
    if Direct(run, i, j) {
      StampPassesBase(run, j);
      BaseCovers(run, j);
      if run[i].node == run[j].node {
        ClockPassesStamps(run, j, i);
      }
    } else {
      var k :| i < k < j && Direct(run, i, k) && HappensBefore(run, k, j);
      CausesComeFirst(run, i, k);
      CausesComeFirst(run, k, j);
    }
  }

  /** What an event starts from is the stamp of a direct cause, or nothing. */
  lemma {:induction false} ClockIsStamp(run: seq<Event>, n: nat, node: int) returns (i: int)
    requires IsRun(run) && n <= |run|
    ensures i == -1 ==> Clock(run, n, node) == 0
    ensures i != -1 ==> 0 <= i < n && run[i].node == node && Clock(run, n, node) == Stamp(run, i)
    decreases n
  {
    hide Stamp;
    if n == 0 {
      i := -1;
    } else if run[n - 1].node == node {
      i := n - 1;
    } else {
      i := ClockIsStamp(run, n - 1, node);
    }
  }

  lemma BaseIsStamp(run: seq<Event>, j: nat) returns (i: int)
    requires IsRun(run) && j < |run|
    ensures i == -1 ==> Base(run, j) == 0
    ensures i != -1 ==> 0 <= i && Direct(run, i, j) && Base(run, j) == Stamp(run, i)
  {
    hide Stamp, Clock;
    i := ClockIsStamp(run, j, run[j].node);
    if run[j].Receive? && (i == -1 || Stamp(run, run[j].from) > Stamp(run, i)) {
      i := run[j].from;
    }
  }

  ghost predicate AllAdvance(run: seq<Event>)
    requires IsRun(run)
  {
    forall j :: 0 <= j < |run| ==> Advances(run, j)
  }

  ghost predicate CausallyOrdered(run: seq<Event>)
    requires IsRun(run)
  {
    forall i: nat, j: nat :: HappensBefore(run, i, j) ==> i < |run| && j < |run| && Stamp(run, i) < Stamp(run, j)
  }

  /** In every run of any number of nodes, causes always have smaller timestamps than effects exactly if every event
      advances: its reading is ahead, or the counter it starts from has room or carries cleanly. */
  lemma CausalOrderExactly(run: seq<Event>)
    requires IsRun(run)
    ensures CausallyOrdered(run) <==> AllAdvance(run)
  {
    hide Tick, Advances, Stamp, Base, Clock, Full, Physical;
    if AllAdvance(run) {
      forall i: nat, j: nat | HappensBefore(run, i, j) ensures i < |run| && j < |run| && Stamp(run, i) < Stamp(run, j) {
        CausesComeFirst(run, i, j);
      }
    }
    if CausallyOrdered(run) {
      forall j | 0 <= j < |run| ensures Advances(run, j) {
        var i := BaseIsStamp(run, j);
        StampPassesBase(run, j);
        if i == -1 {
          StartAdvances(run, j);
        } else {
          assert HappensBefore(run, i, j);
        }
      }
    }
  }

  lemma StartAdvances(run: seq<Event>, j: nat)
    requires IsRun(run) && j < |run| && Base(run, j) == 0
    ensures Advances(run, j)
  {
    hide Tick, Stamp, Base, Clock;
  }

  /** No carry: the counter never reaches its end on an event whose reading is behind. */
  ghost predicate NoCarry(run: seq<Event>) {
    IsRun(run) && forall j :: 0 <= j < |run| ==> run[j].reading > Physical(Base(run, j)) || !Full(Base(run, j))
  }

  /** Without a carry, the physical part of a timestamp is at most some reading in its causal past. */
  lemma {:induction false} PhysicalWasRead(run: seq<Event>, j: nat) returns (i: nat)
    requires NoCarry(run) && j < |run|
    ensures i == j || HappensBefore(run, i, j)
    ensures i <= j && Physical(Stamp(run, j)) <= run[i].reading
    decreases j
  {
    hide Tick, Base, Clock, Full;
    TickPhysicalExactly(Base(run, j), run[j].reading);
    assert run[j].reading > Physical(Base(run, j)) || !Full(Base(run, j));
    i := j;
    if run[j].reading < Physical(Base(run, j)) {
      var b := BaseIsStamp(run, j);
      if b != -1 {
        i := PhysicalWasRead(run, b);
        if i != b {
          HappensBeforeStep(run, i, b, j);
        }
      }
    }
  }

  /** The overflow: a full counter over an odd physical part falls back to the start of its microsecond. */
  lemma OverflowGoesBack()
    ensures Tick(0x1_FFFF, 0) == 0x1_0000 < 0x1_FFFF
  {
  }
}

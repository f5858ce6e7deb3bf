/**
 The blink driver: an intrusive list of blinkers threaded through a static pool, newest
 first.  This module has the driver's steps as functions and what they keep over runs.
 */
module Blink {
  import opened Types

  const LOCATIONS := 80 * 25
  const NULL := -1

  /** A pool slot; `next` is the number of another slot or NULL. */
  datatype Blinker = Blinker(location: u16, onChar: byte, offChar: byte, onLength: u16, offLength: u16,
                             countdown: u16, status: u16, next: int)

  const ZERO := Blinker(0, 0, 0, 0, 0, 0, 0, NULL)

  predicate IsOn(b: Blinker) {
    b.status % 2 == 1
  }

  /** The pool, the list threaded through it as slot numbers, and the video memory. */
  datatype Pool = Pool(slots: seq<Blinker>, list: seq<nat>, vmem: seq<byte>)

  function Head(list: seq<nat>): int {
    if list == [] then NULL else list[0]
  }

  /** What the link of the i-th listed slot must be. */
  function Successor(list: seq<nat>, i: nat): int
    requires i < |list|
  {
    if i + 1 < |list| then list[i + 1] else NULL
  }

  /** The links of the listed slots spell the list, which visits no slot twice. */
  ghost predicate Linked(slots: seq<Blinker>, list: seq<nat>) {
    && (forall i | 0 <= i < |list| :: list[i] < |slots|)
    && (forall i, j | 0 <= i < j < |list| :: list[i] != list[j])
    && (forall i {:trigger Successor(list, i)} | 0 <= i < |list| :: slots[list[i]].next == Successor(list, i))
  }

  /** Slots that differ in neither link nor location are linked alike. */
  lemma SameLinks(slots: seq<Blinker>, slots1: seq<Blinker>, list: seq<nat>)
    requires Linked(slots, list) && |slots1| == |slots|
    requires forall u | 0 <= u < |slots| :: slots1[u].next == slots[u].next
    ensures Linked(slots1, list)
  {
  }

  ghost predicate Shape(p: Pool) {
    && |p.slots| == LOCATIONS
    && |p.vmem| == 2 * LOCATIONS
    && Linked(p.slots, p.list)
    && (forall i | 0 <= i < |p.list| :: p.slots[p.list[i]].location < LOCATIONS)
  }

  /** The listed slots are exactly the slots in use. */
  ghost predicate ListsUsedSlots(p: Pool) {
    forall s | 0 <= s < |p.slots| :: s in p.list <==> p.slots[s].location != 0
  }

  ghost predicate Ok(p: Pool) {
    Shape(p) && ListsUsedSlots(p)
  }

  /** The lowest slot at or above `from` whose location is 0, as mp1_malloc() finds it. */
  function FreeSlot(slots: seq<Blinker>, from: nat): (r: int)
    requires from <= |slots|
    ensures r == NULL ==> forall s | from <= s < |slots| :: slots[s].location != 0
    ensures r != NULL ==> from <= r < |slots| && slots[r].location == 0
    ensures r != NULL ==> forall s | from <= s < r :: slots[s].location != 0
    decreases |slots| - from
  {
    if from == |slots| then NULL
    else if slots[from].location == 0 then from
    else FreeSlot(slots, from + 1)
  }

  /** The place in the list of the newest blinker at a location. */
  function Place(slots: seq<Blinker>, list: seq<nat>, location: nat): (k: nat)
    requires forall i | 0 <= i < |list| :: list[i] < |slots|
    ensures k <= |list|
    ensures k < |list| ==> slots[list[k]].location == location
    ensures forall i | 0 <= i < k :: slots[list[i]].location != location
  {
    if list == [] || slots[list[0]].location == location then 0
    else 1 + Place(slots, list[1..], location)
  }

  datatype Op = Add(b: Blinker) | Remove(location: u16) | Sync(source: u16, target: u16) | Tick

  predicate Adds(p: Pool, b: Blinker) {
    b.location < LOCATIONS && FreeSlot(p.slots, 0) != NULL
  }

  function Added(p: Pool, b: Blinker): Pool
    requires |p.slots| == LOCATIONS && |p.vmem| == 2 * LOCATIONS
  {
    if !Adds(p, b) then p
    else
      var s := FreeSlot(p.slots, 0);
      Pool(p.slots[s := b.(countdown := b.onLength, status := 1, next := Head(p.list))],
           [s] + p.list,
           p.vmem[2 * b.location := b.onChar])
  }

  /** Taking the k-th blinker out of the list and freeing its slot. */
  function Unlink(p: Pool, k: nat): Pool
    requires k < |p.list|
    requires forall i | 0 <= i < |p.list| :: p.list[i] < |p.slots|
  {
    var s := p.list[k];
    p.(slots := Bypassed(p.slots, p.list, k)[s := ZERO], list := p.list[..k] + p.list[k + 1..])
  }

  function Removed(p: Pool, location: u16): Pool
    requires forall i | 0 <= i < |p.list| :: p.list[i] < |p.slots|
  {
    var k := Place(p.slots, p.list, location);
    if k == |p.list| then p else Unlink(p, k)
  }

  function CopyTiming(source: Blinker, target: Blinker): Blinker {
    target.(onLength := source.onLength, offLength := source.offLength,
            countdown := source.countdown, status := source.status)
  }

  predicate Syncs(p: Pool, source: u16, target: u16)
    requires forall i | 0 <= i < |p.list| :: p.list[i] < |p.slots|
  {
    Place(p.slots, p.list, source) < |p.list| && Place(p.slots, p.list, target) < |p.list|
  }

  /** The character that a sync draws is the off character, whatever the status. */
  function Synced(p: Pool, source: u16, target: u16): Pool
    requires |p.vmem| == 2 * LOCATIONS
    requires forall i | 0 <= i < |p.list| :: p.list[i] < |p.slots| && p.slots[p.list[i]].location < LOCATIONS
  {
    if !Syncs(p, source, target) then p
    else
      var s, t := p.list[Place(p.slots, p.list, source)], p.list[Place(p.slots, p.list, target)];
      p.(slots := p.slots[t := CopyTiming(p.slots[s], p.slots[t])],
         vmem := p.vmem[2 * p.slots[t].location := p.slots[t].offChar])
  }

  /** The countdown as the 16-bit decrement leaves it. */
  function Decremented(b: Blinker): u16 {
    if b.countdown == 0 then 0xFFFF else b.countdown - 1
  }

  /** The decremented countdown is not positive as a signed word. */
  predicate Toggles(b: Blinker) {
    !(0 < Decremented(b) < 0x8000)
  }

  function Ticked(b: Blinker): Blinker {
    if !Toggles(b) then b.(countdown := Decremented(b))
    else if IsOn(b) then b.(countdown := b.offLength, status := b.status - 1)
    else b.(countdown := b.onLength, status := b.status + 1)
  }

  function Drawn(vmem: seq<byte>, b: Blinker): (r: seq<byte>)
    requires |vmem| == 2 * LOCATIONS && b.location < LOCATIONS
    ensures |r| == |vmem|
  {
    if Toggles(b) then vmem[2 * b.location := if IsOn(b) then b.offChar else b.onChar] else vmem
  }

  function DrawnAll(vmem: seq<byte>, slots: seq<Blinker>, list: seq<nat>): (r: seq<byte>)
    requires |vmem| == 2 * LOCATIONS
    requires forall i | 0 <= i < |list| :: list[i] < |slots| && slots[list[i]].location < LOCATIONS
    ensures |r| == |vmem|
  {
    if list == [] then vmem
    else Drawn(DrawnAll(vmem, slots, list[..|list| - 1]), slots[list[|list| - 1]])
  }

  /** The pool after a tick has walked the listed slots in order. */
  function Walked(slots: seq<Blinker>, list: seq<nat>): (r: seq<Blinker>)
    requires forall i | 0 <= i < |list| :: list[i] < |slots|
    ensures |r| == |slots|
  {
    if list == [] then slots
    else
      var before, s := Walked(slots, list[..|list| - 1]), list[|list| - 1];
      before[s := Ticked(before[s])]
  }

  lemma {:induction false} WalkedAt(slots: seq<Blinker>, list: seq<nat>, u: nat)
    requires forall i | 0 <= i < |list| :: list[i] < |slots|
    requires forall i, j | 0 <= i < j < |list| :: list[i] != list[j]
    requires u < |slots|
    ensures Walked(slots, list)[u] == if u in list then Ticked(slots[u]) else slots[u]
  {
    if list != [] {
      var front, s := list[..|list| - 1], list[|list| - 1];
      assert list == front + [s];
      WalkedAt(slots, front, u);
    }
  }

  function TickedAll(p: Pool): (r: Pool)
    requires |p.vmem| == 2 * LOCATIONS
    requires forall i | 0 <= i < |p.list| :: p.list[i] < |p.slots| && p.slots[p.list[i]].location < LOCATIONS
  {
    p.(slots := seq(|p.slots|, s requires 0 <= s < |p.slots| =>
                  if s in p.list then Ticked(p.slots[s]) else p.slots[s]),
       vmem := DrawnAll(p.vmem, p.slots, p.list))
  }

  function Step(p: Pool, op: Op): Pool
    requires |p.slots| == LOCATIONS && |p.vmem| == 2 * LOCATIONS
    requires forall i | 0 <= i < |p.list| :: p.list[i] < |p.slots| && p.slots[p.list[i]].location < LOCATIONS
  {
    match op
    case Add(b) => Added(p, b)
    case Remove(location) => Removed(p, location)
    case Sync(source, target) => Synced(p, source, target)
    case Tick => TickedAll(p)
  }

  predicate UsesLocation(op: Op) {
    op.Add? ==> op.b.location != 0
  }

  lemma PushLinks(slots: seq<Blinker>, list: seq<nat>, s: nat, b: Blinker)
    requires Linked(slots, list) && s < |slots| && s !in list && b.next == Head(list)
    ensures Linked(slots[s := b], [s] + list)
  {
    var slots1, list1 := slots[s := b], [s] + list;
    assert forall i | 0 < i < |list1| :: list1[i] == list[i - 1];
    forall i | 0 <= i < |list1|
      ensures slots1[list1[i]].next == Successor(list1, i)
    {
      if i > 0 {
        assert slots[list[i - 1]].next == Successor(list, i - 1);
      }
    }
  }

  /** Adding keeps the pool and the list in step exactly if the location is not the free mark. */
  lemma AddKeepsOkIff(p: Pool, b: Blinker)
    requires Ok(p)
    ensures Shape(Added(p, b))
    ensures Ok(Added(p, b)) <==> (Adds(p, b) ==> b.location != 0)
  {
    var q := Added(p, b);
    if Adds(p, b) {
      var s := FreeSlot(p.slots, 0);
      PushLinks(p.slots, p.list, s, q.slots[s]);
      assert q.list[0] == s && q.slots[s].location == b.location;
      forall i | 0 <= i < |q.list|
        ensures q.slots[q.list[i]].location < LOCATIONS
      {
        assert i > 0 ==> q.list[i] == p.list[i - 1];
      }
      assert forall u | 0 <= u < |q.slots| && u != s :: u in q.list <==> u in p.list;
    }
  }

  /** The k-th slot bypassed by its predecessor, or by the list head if it is the first. */
  function Bypassed(slots: seq<Blinker>, list: seq<nat>, k: nat): (r: seq<Blinker>)
    requires k < |list| && forall i | 0 <= i < |list| :: list[i] < |slots|
    ensures |r| == |slots|
  {
    if k == 0 then slots else slots[list[k - 1] := slots[list[k - 1]].(next := slots[list[k]].next)]
  }

  lemma CutLink(slots: seq<Blinker>, list: seq<nat>, k: nat, i: nat)
    requires Linked(slots, list) && k < |list| && i < |list| - 1
    ensures var list1 := list[..k] + list[k + 1..];
      && list1[i] == list[if i < k then i else i + 1]
      && list1[i] != list[k]
      && Bypassed(slots, list, k)[list1[i]].next == Successor(list1, i)
  {
    var j, list1 := if i < k then i else i + 1, list[..k] + list[k + 1..];
    assert list1[i] == list[j];
    assert slots[list[j]].next == Successor(list, j) && slots[list[k]].next == Successor(list, k);
    if i + 1 < |list1| {
      assert list1[i + 1] == list[if i + 1 < k then i + 1 else i + 2];
    }
    if k > 0 && j != k - 1 {
      assert list[j] != list[k - 1];
    }
  }

  lemma CutLinks(slots: seq<Blinker>, list: seq<nat>, k: nat)
    requires Linked(slots, list) && k < |list|
    ensures Linked(Bypassed(slots, list, k)[list[k] := ZERO], list[..k] + list[k + 1..])
  {
    var slots1, list1 := Bypassed(slots, list, k)[list[k] := ZERO], list[..k] + list[k + 1..];
    forall i | 0 <= i < |list1|
      ensures list1[i] == list[if i < k then i else i + 1]
      ensures slots1[list1[i]].next == Successor(list1, i)
    {
      CutLink(slots, list, k, i);
    }
  }

  lemma UnlinkKeepsOk(p: Pool, k: nat)
    requires Ok(p) && k < |p.list|
    ensures Ok(Unlink(p, k))
  {
    var q := Unlink(p, k);
    CutLinks(p.slots, p.list, k);
    forall i | 0 <= i < |q.list| ensures q.slots[q.list[i]].location < LOCATIONS {
      UnlinkAddsNone(p, k, q.list[i]);
    }
    forall u: nat | u < |q.slots|
      ensures u in q.list <==> q.slots[u].location != 0
    {
      UnlinkedAt(p, k, u);
    }
  }

  lemma CutAt(list: seq<nat>, k: nat, u: nat) returns (j: nat)
    requires k < |list| && u in list[..k] + list[k + 1..]
    ensures j < |list| && j != k && list[j] == u
  {
    var list1 := list[..k] + list[k + 1..];
    var i: nat :| i < |list1| && list1[i] == u;
    j := if i < k then i else i + 1;
  }

  lemma UnlinkAddsNone(p: Pool, k: nat, u: nat)
    requires Ok(p) && k < |p.list| && u in Unlink(p, k).list
    ensures u < |p.slots| && u in p.list && u != p.list[k] && Unlink(p, k).slots[u].location == p.slots[u].location
  {
    var j := CutAt(p.list, k, u);
    assert u != p.list[k];
  }

  lemma UnlinkedAt(p: Pool, k: nat, u: nat)
    requires Ok(p) && k < |p.list| && u < |p.slots|
    ensures u in Unlink(p, k).list <==> Unlink(p, k).slots[u].location != 0
  {
    if u != p.list[k] {
      UnlinkKeepsOthers(p, k, u);
    }
    if u in Unlink(p, k).list {
      UnlinkAddsNone(p, k, u);
    }
  }

  /** Unlinking changes no other blinker but for the link of the one before. */
  lemma UnlinkKeepsOthers(p: Pool, k: nat, u: nat)
    requires Ok(p) && k < |p.list| && u < |p.slots| && u != p.list[k]
    ensures Unlink(p, k).slots[u].(next := p.slots[u].next) == p.slots[u]
    ensures u in p.list ==> u in Unlink(p, k).list
  {
  }

  lemma StepKeepsOk(p: Pool, op: Op)
    requires Ok(p) && UsesLocation(op)
    ensures Ok(Step(p, op))
  {
    match op
    case Add(b) => AddKeepsOkIff(p, b);
    case Remove(location) =>
      if Place(p.slots, p.list, location) < |p.list| {
        UnlinkKeepsOk(p, Place(p.slots, p.list, location));
      }
    case Sync(source, target) => SyncKeepsOk(p, source, target);
    case Tick => TickKeepsOk(p);
  }

  lemma TickKeepsOk(p: Pool)
    requires Ok(p)
    ensures Ok(TickedAll(p))
  {
    var q := TickedAll(p);
    assert forall u | 0 <= u < |p.slots| ::
      q.slots[u].next == p.slots[u].next && q.slots[u].location == p.slots[u].location;
    SameLinks(p.slots, q.slots, p.list);
  }

  lemma SyncKeepsOk(p: Pool, source: u16, target: u16)
    requires Ok(p)
    ensures Ok(Synced(p, source, target))
  {
  }

  /** A removal frees the newest blinker at its location, keeps the order of the rest, and changes nothing else. */
  lemma RemoveTakesTheNewest(p: Pool, location: u16, k: nat)
    requires Ok(p) && k < |p.list| && p.slots[p.list[k]].location == location
    requires forall i | 0 <= i < k :: p.slots[p.list[i]].location != location
    ensures var q := Removed(p, location);
      && q.list == p.list[..k] + p.list[k + 1..]
      && q.slots[p.list[k]] == ZERO
      && (forall u | 0 <= u < LOCATIONS && u != p.list[k] :: q.slots[u].(next := p.slots[u].next) == p.slots[u])
      && q.vmem == p.vmem
  {
  }

  function Elements(list: seq<nat>): set<nat> {
    set s | s in list
  }

  lemma {:induction false} SetOfDistinct(list: seq<nat>)
    requires forall i, j | 0 <= i < j < |list| :: list[i] != list[j]
    ensures |Elements(list)| == |list|
  {
    if list != [] {
      SetOfDistinct(list[1..]);
      assert list[0] !in Elements(list[1..]);
      assert Elements(list) == Elements(list[1..]) + {list[0]};
    }
  }

  function Below(n: nat): (r: set<nat>)
    ensures |r| == n
    ensures forall s: nat :: s in r <==> s < n
  {
    if n == 0 then {} else Below(n - 1) + {n - 1}
  }

  function FreeSlots(p: Pool): set<nat> {
    set s | s in Below(|p.slots|) && p.slots[s].location == 0
  }

  /** Listed and free slots add up to the pool. */
  lemma ListAndFreeSlotsFillThePool(p: Pool)
    requires Ok(p)
    ensures |p.list| + |FreeSlots(p)| == LOCATIONS
  {
    SetOfDistinct(p.list);
    UsedOrFree(p);
  }

  lemma ListedAt(p: Pool, s: nat)
    requires Ok(p)
    ensures s in p.list <==> s < |p.slots| && p.slots[s].location != 0
  {
    if s in p.list {
      var i: nat :| i < |p.list| && p.list[i] == s;
    }
  }

  lemma UsedAt(p: Pool, s: nat)
    requires s in p.list <==> s < |p.slots| && p.slots[s].location != 0
    ensures s in Elements(p.list) <==> s < |p.slots| && s !in FreeSlots(p)
  {
  }

  lemma TwoParts(used: set<nat>, free: set<nat>, n: nat)
    requires forall s: nat :: s in used <==> s < n && s !in free
    requires free <= Below(n)
    ensures used + free == Below(n) && used !! free
  {
  }

  lemma UsedOrFree(p: Pool)
    requires Ok(p)
    ensures Elements(p.list) + FreeSlots(p) == Below(|p.slots|) && Elements(p.list) !! FreeSlots(p)
  {
    forall s: nat ensures s in Elements(p.list) <==> s < |p.slots| && s !in FreeSlots(p) {
      ListedAt(p, s);
      UsedAt(p, s);
    }
    TwoParts(Elements(p.list), FreeSlots(p), |p.slots|);
  }

  ghost predicate RunOk(p: Pool, ops: seq<Op>) {
    Ok(p) && forall i | 0 <= i < |ops| :: UsesLocation(ops[i])
  }

  ghost function Run(p: Pool, ops: seq<Op>): (q: Pool)
    requires RunOk(p, ops)
    ensures Ok(q)
    decreases ops
  {
    if ops == [] then p
    else
      assert UsesLocation(ops[0]);
      StepKeepsOk(p, ops[0]);
      Run(Step(p, ops[0]), ops[1..])
  }

  function Ticks(ops: seq<Op>): nat {
    if ops == [] then 0 else (if ops[0].Tick? then 1 else 0) + Ticks(ops[1..])
  }

  /** The operation frees the slot or overwrites its timing. */
  ghost predicate Disturbs(p: Pool, op: Op, s: nat)
    requires Ok(p)
  {
    match op
    case Remove(location) =>
      Place(p.slots, p.list, location) < |p.list| && p.list[Place(p.slots, p.list, location)] == s
    case Sync(source, target) => Syncs(p, source, target) && p.list[Place(p.slots, p.list, target)] == s
    case _ => false
  }

  ghost predicate Undisturbed(p: Pool, ops: seq<Op>, s: nat)
    requires RunOk(p, ops)
    decreases ops
  {
    ops == [] ||
    (!Disturbs(p, ops[0], s)
     && (assert UsesLocation(ops[0]); StepKeepsOk(p, ops[0]);
         Undisturbed(Step(p, ops[0]), ops[1..], s)))
  }

  /** An undisturbed blinker stays listed, and only ticks change it. */
  lemma StepOnOne(p: Pool, op: Op, s: nat)
    requires Ok(p) && UsesLocation(op) && s in p.list && !Disturbs(p, op, s)
    ensures Ok(Step(p, op)) && s in Step(p, op).list
    ensures Step(p, op).slots[s].(next := p.slots[s].next)
         == if op.Tick? then Ticked(p.slots[s]) else p.slots[s]
  {
    StepKeepsOk(p, op);
    match op
    case Add(b) =>
      if Adds(p, b) {
        assert FreeSlot(p.slots, 0) !in p.list;
      }
    case Remove(location) =>
      if Place(p.slots, p.list, location) < |p.list| {
        UnlinkKeepsOthers(p, Place(p.slots, p.list, location), s);
      }
    case Sync(source, target) =>
    case Tick =>
  }

  function TickedTimes(b: Blinker, n: nat): Blinker
    decreases n
  {
    if n == 0 then b else TickedTimes(Ticked(b), n - 1)
  }

  /** A blinker but for its link. */
  function Bare(b: Blinker): Blinker {
    b.(next := NULL)
  }

  lemma StepOnBare(p: Pool, op: Op, s: nat)
    requires Ok(p) && UsesLocation(op) && s in p.list && !Disturbs(p, op, s)
    ensures Ok(Step(p, op)) && s in Step(p, op).list && s < |p.slots| == |Step(p, op).slots|
    ensures Bare(Step(p, op).slots[s]) == if op.Tick? then Ticked(Bare(p.slots[s])) else Bare(p.slots[s])
  {
    StepOnOne(p, op, s);
    var b, c := p.slots[s], Step(p, op).slots[s];
    assert c == if op.Tick? then Ticked(b).(next := c.next) else b.(next := c.next);
  }

  /** The pool after the first operation of a run. */
  lemma FirstStep(p: Pool, ops: seq<Op>, s: nat) returns (q: Pool)
    requires ops != [] && RunOk(p, ops) && s in p.list && Undisturbed(p, ops, s)
    ensures RunOk(q, ops[1..]) && Run(p, ops) == Run(q, ops[1..]) && Undisturbed(q, ops[1..], s)
    ensures s in q.list && s < |p.slots| == |q.slots|
    ensures Bare(q.slots[s]) == if ops[0].Tick? then Ticked(Bare(p.slots[s])) else Bare(p.slots[s])
  {
    assert UsesLocation(ops[0]);
    StepOnBare(p, ops[0], s);
    q := Step(p, ops[0]);
  }

  /** Over any run that leaves it alone a blinker goes through its own ticks, whatever happens to the others. */
  lemma {:induction false} RunOnOne(p: Pool, ops: seq<Op>, s: nat, r: Pool)
    requires RunOk(p, ops) && s in p.list && Undisturbed(p, ops, s) && r == Run(p, ops)
    ensures s in r.list && s < |p.slots| == |r.slots|
    ensures Bare(r.slots[s]) == TickedTimes(Bare(p.slots[s]), Ticks(ops))
    decreases ops
  {
    if ops != [] {
      var q := FirstStep(p, ops, s);
      RunOnOne(q, ops[1..], s, r);
    }
  }

  /** Status and countdown of a blinker with lengths on and off, m ticks into its period. */
  predicate Phase(b: Blinker, on: nat, off: nat, m: nat) {
    && b.onLength == on
    && b.offLength == off
    && m < on + off
    && (IsOn(b) <==> m < on)
    && b.countdown == (if m < on then on else on + off) - m
  }

  /** Lengths whose countdowns the signed test of the 16-bit word follows. */
  predicate TimesFit(on: nat, off: nat) {
    1 <= on <= 0x8000 && 1 <= off <= 0x8000
  }

  function Next(m: nat, period: nat): nat {
    if m + 1 == period then 0 else m + 1
  }

  lemma TickAdvancesPhase(b: Blinker, on: nat, off: nat, m: nat)
    requires TimesFit(on, off) && Phase(b, on, off, m)
    ensures Phase(Ticked(b), on, off, Next(m, on + off))
  {
  }

  function After(m: nat, ticks: nat, period: nat): nat
    decreases ticks
  {
    if ticks == 0 then m else After(Next(m, period), ticks - 1, period)
  }

  lemma {:induction false} AfterIsModulo(n: nat, ticks: nat, period: nat)
    requires period > 0
    ensures After(n % period, ticks, period) == (n + ticks) % period
    decreases ticks
  {
    if ticks > 0 {
      ModSuccessor(n, period);
      AfterIsModulo(n + 1, ticks - 1, period);
    }
  }

  lemma {:induction false} PhaseAfter(b: Blinker, on: nat, off: nat, m: nat, n: nat)
    requires TimesFit(on, off) && Phase(b, on, off, m)
    ensures Phase(TickedTimes(b, n), on, off, After(m, n, on + off))
    decreases n
  {
    if n > 0 {
      TickAdvancesPhase(b, on, off, m);
      PhaseAfter(Ticked(b), on, off, Next(m, on + off), n - 1);
    }
  }

  lemma TimeFromPhase(b: Blinker, on: nat, off: nat, n: nat)
    requires TimesFit(on, off) && Phase(b, on, off, 0)
    ensures IsOn(TickedTimes(b, n)) <==> n % (on + off) < on
  {
    PhaseAfter(b, on, off, 0, n);
    AfterIsModulo(0, n, on + off);
  }

  /**
   A blinker with lengths a and b is on, n ticks after it was lit, exactly if n modulo a + b
   is below a, whatever else is added, removed or synced meanwhile.
   */
  lemma {:induction false} BlinkerKeepsTime(p: Pool, ops: seq<Op>, s: nat, on: nat, off: nat)
    requires RunOk(p, ops) && s in p.list && Undisturbed(p, ops, s)
    requires TimesFit(on, off) && Phase(p.slots[s], on, off, 0)
    ensures s in Run(p, ops).list
    ensures IsOn(Run(p, ops).slots[s]) <==> Ticks(ops) % (on + off) < on
  {
    RunOnOne(p, ops, s, Run(p, ops));
    TimeFromPhase(Bare(p.slots[s]), on, off, Ticks(ops));
  }

  /** An added blinker is listed first, just lit, and shows its on character. */
  lemma AddedStartsLit(p: Pool, b: Blinker)
    requires Ok(p) && Adds(p, b) && b.location != 0
    ensures var s, q := FreeSlot(p.slots, 0), Added(p, b);
      && Ok(q)
      && q.list[..1] == [s]
      && q.slots[s] == b.(countdown := b.onLength, status := 1, next := Head(p.list))
      && (Phase(q.slots[s], b.onLength, b.offLength, 0) <==> b.onLength > 0)
      && Displays(q, s)
  {
    AddKeepsOkIff(p, b);
    assert Added(p, b).list[0] == FreeSlot(p.slots, 0);
  }

  // ----- when an added blinker keeps time -----

  /** Over every run that leaves it alone, slot s is on after n ticks exactly if n modulo the period is below `on`. */
  ghost predicate KeepsTime(p: Pool, s: nat, on: nat, off: nat)
    requires Ok(p) && s < LOCATIONS && on + off > 0
  {
    forall ops | RunOk(p, ops) && Undisturbed(p, ops, s) ::
      IsOn(Run(p, ops).slots[s]) <==> Ticks(ops) % (on + off) < on
  }

  function OnlyTicks(n: nat): seq<Op> {
    if n == 0 then [] else [Tick] + OnlyTicks(n - 1)
  }

  lemma OneTickMore(ops: seq<Op>)
    ensures Ticks([Tick] + ops) == 1 + Ticks(ops)
  {
    var all := [Tick] + ops;
    assert all[0] == Tick && all[1..] == ops;
  }

  lemma {:induction false} TicksOnly(n: nat)
    ensures Ticks(OnlyTicks(n)) == n
  {
    if n > 0 {
      TicksOnly(n - 1);
      OneTickMore(OnlyTicks(n - 1));
    }
  }

  lemma {:induction false} OnlyTicksRun(p: Pool, s: nat, n: nat)
    requires Ok(p)
    ensures RunOk(p, OnlyTicks(n)) && Undisturbed(p, OnlyTicks(n), s)
    decreases n
  {
    if n > 0 {
      var q := TickFirst(p, s, OnlyTicks(n - 1), OnlyTicks(n));
      OnlyTicksRun(q, s, n - 1);
    }
  }

  lemma TickFirst(p: Pool, s: nat, ops: seq<Op>, all: seq<Op>) returns (q: Pool)
    requires Ok(p) && all == [Tick] + ops
    ensures Ok(q)
    ensures RunOk(q, ops) && Undisturbed(q, ops, s) ==> RunOk(p, all) && Undisturbed(p, all, s)
  {
    q := Step(p, Tick);
    StepKeepsOk(p, Tick);
    assert all[0] == Tick && all[1..] == ops;
    assert !Disturbs(p, Tick, s);
  }

  /** A countdown of up to 0x8000 is counted down to 1. */
  lemma {:induction false} CountsDown(b: Blinker, m: nat)
    requires m < b.countdown <= 0x8000
    ensures TickedTimes(b, m) == b.(countdown := b.countdown - m)
    decreases m
  {
    if m > 0 {
      CountsDown(Ticked(b), m - 1);
    }
  }

  lemma {:induction false} OneMoreTick(b: Blinker, n: nat)
    ensures TickedTimes(b, n + 1) == Ticked(TickedTimes(b, n))
    decreases n
  {
    if n > 0 {
      OneMoreTick(Ticked(b), n - 1);
    }
  }

  /** Lengths that do not fit go wrong: at once, at the first tick, or when the character first goes off. */
  lemma GoesWrong(b: Blinker) returns (n: nat)
    requires IsOn(b) && b.countdown == b.onLength && b.onLength + b.offLength > 0 && !TimesFit(b.onLength, b.offLength)
    ensures IsOn(TickedTimes(b, n)) <==> !(n % (b.onLength + b.offLength) < b.onLength)
  {
    var on: nat, off: nat := b.onLength, b.offLength;
    if on == 0 {
      n := 0;
    } else if on > 0x8000 {
      n := 1;
      OneMoreTick(b, 0);
      DivModIs(1, on + off, 0, 1);
    } else {
      CountsDown(b, on - 1);
      OneMoreTick(b, on - 1);
      if off == 0 {
        n := on;
        DivModIs(on, on, 1, 0);
      } else {
        n := on + 1;
        OneMoreTick(b, on);
        DivModIs(n, on + off, 0, n);
      }
    }
  }

  lemma FittingTimesAreKept(q: Pool, s: nat, on: nat, off: nat)
    requires Ok(q) && s in q.list && TimesFit(on, off) && Phase(q.slots[s], on, off, 0)
    ensures KeepsTime(q, s, on, off)
  {
    forall ops | RunOk(q, ops) && Undisturbed(q, ops, s)
      ensures IsOn(Run(q, ops).slots[s]) <==> Ticks(ops) % (on + off) < on
    {
      BlinkerKeepsTime(q, ops, s, on, off);
    }
  }

  lemma OtherTimesAreNotKept(q: Pool, s: nat, on: nat, off: nat)
    requires Ok(q) && s in q.list && on + off > 0 && !TimesFit(on, off)
    requires var b := q.slots[s]; IsOn(b) && b.countdown == b.onLength == on && b.offLength == off
    ensures !KeepsTime(q, s, on, off)
  {
    var n := GoesWrong(Bare(q.slots[s]));
    OnlyTicksRun(q, s, n);
    TicksOnly(n);
    RunOnOne(q, OnlyTicks(n), s, Run(q, OnlyTicks(n)));
  }

  /** An added blinker keeps time over all runs if and only if both of its lengths are from 1 to 0x8000. */
  lemma AddedKeepsTimeIff(p: Pool, b: Blinker)
    requires Ok(p) && Adds(p, b) && b.location != 0 && b.onLength + b.offLength > 0
    ensures Ok(Added(p, b))
    ensures KeepsTime(Added(p, b), FreeSlot(p.slots, 0), b.onLength, b.offLength) <==> TimesFit(b.onLength, b.offLength)
  {
    var s, q := FreeSlot(p.slots, 0), Added(p, b);
    AddedStartsLit(p, b);
    assert q.list[..1][0] == q.list[0];
    if TimesFit(b.onLength, b.offLength) {
      FittingTimesAreKept(q, s, b.onLength, b.offLength);
    } else {
      OtherTimesAreNotKept(q, s, b.onLength, b.offLength);
    }
  }

  predicate InStep(b: Blinker, c: Blinker) {
    b.onLength == c.onLength && b.offLength == c.offLength && b.countdown == c.countdown && b.status == c.status
  }

  lemma {:induction false} TicksKeepInStep(b: Blinker, c: Blinker, n: nat)
    requires InStep(b, c)
    ensures InStep(TickedTimes(b, n), TickedTimes(c, n))
    decreases n
  {
    if n > 0 {
      TicksKeepInStep(Ticked(b), Ticked(c), n - 1);
    }
  }

  /** Two blinkers just synced stay in step until one of them is removed or synced again. */
  lemma {:induction false} SyncedBlinkersStayInStep(p: Pool, ops: seq<Op>, s: nat, t: nat)
    requires RunOk(p, ops) && s in p.list && t in p.list && InStep(p.slots[s], p.slots[t])
    requires Undisturbed(p, ops, s) && Undisturbed(p, ops, t)
    ensures var q := Run(p, ops);
      s in q.list && t in q.list && InStep(q.slots[s], q.slots[t])
  {
    RunOnOne(p, ops, s, Run(p, ops));
    RunOnOne(p, ops, t, Run(p, ops));
    TicksKeepInStep(Bare(p.slots[s]), Bare(p.slots[t]), Ticks(ops));
  }

  lemma SyncPutsInStep(p: Pool, source: u16, target: u16)
    requires Ok(p) && Syncs(p, source, target)
    ensures var q := Synced(p, source, target);
      InStep(q.slots[p.list[Place(p.slots, p.list, source)]], q.slots[p.list[Place(p.slots, p.list, target)]])
  {
  }

  /** No other listed blinker has the location of slot s. */
  ghost predicate Alone(p: Pool, s: nat)
    requires Ok(p) && s < LOCATIONS
  {
    forall i | 0 <= i < |p.list| && p.list[i] != s :: p.slots[p.list[i]].location != p.slots[s].location
  }

  /** The screen shows what the status of slot s says. */
  ghost predicate Displays(p: Pool, s: nat)
    requires Ok(p) && s in p.list
  {
    p.vmem[2 * p.slots[s].location] == if IsOn(p.slots[s]) then p.slots[s].onChar else p.slots[s].offChar
  }

  lemma {:induction false} DrawnAllAt(vmem: seq<byte>, slots: seq<Blinker>, list: seq<nat>, s: nat)
    requires |vmem| == 2 * LOCATIONS && s < |slots| && slots[s].location < LOCATIONS
    requires forall i | 0 <= i < |list| :: list[i] < |slots| && slots[list[i]].location < LOCATIONS
    requires forall i, j | 0 <= i < j < |list| :: list[i] != list[j]
    requires forall i | 0 <= i < |list| && list[i] != s :: slots[list[i]].location != slots[s].location
    ensures DrawnAll(vmem, slots, list)[2 * slots[s].location]
         == if s in list then Drawn(vmem, slots[s])[2 * slots[s].location] else vmem[2 * slots[s].location]
  {
    if list != [] {
      var front, last := list[..|list| - 1], list[|list| - 1];
      assert list == front + [last];
      DrawnAllAt(vmem, slots, front, s);
    }
  }

  /** A tick draws no byte but the characters at the listed locations. */
  lemma {:induction false} DrawnElsewhere(vmem: seq<byte>, slots: seq<Blinker>, list: seq<nat>, x: nat)
    requires |vmem| == 2 * LOCATIONS && x < |vmem|
    requires forall i | 0 <= i < |list| :: list[i] < |slots| && slots[list[i]].location < LOCATIONS
    requires forall i | 0 <= i < |list| :: x != 2 * slots[list[i]].location
    ensures DrawnAll(vmem, slots, list)[x] == vmem[x]
  {
    if list != [] {
      DrawnElsewhere(vmem, slots, list[..|list| - 1], x);
    }
  }

  /** A byte of the video memory that an operation has no business with. */
  ghost predicate Elsewhere(p: Pool, op: Op, x: nat)
    requires Ok(p)
  {
    match op
    case Add(b) => x != 2 * b.location
    case Remove(_) => true
    case Sync(_, target) => x != 2 * target
    case Tick => forall i | 0 <= i < |p.list| :: x != 2 * p.slots[p.list[i]].location
  }

  lemma StepDrawsOnly(p: Pool, op: Op, x: nat)
    requires Ok(p) && x < 2 * LOCATIONS && Elsewhere(p, op, x)
    ensures |Step(p, op).vmem| == 2 * LOCATIONS && Step(p, op).vmem[x] == p.vmem[x]
  {
    match op
    case Add(b) =>
    case Remove(location) =>
    case Sync(source, target) =>
    case Tick => DrawnElsewhere(p.vmem, p.slots, p.list, x);
  }

  lemma OddIsElsewhere(p: Pool, op: Op, x: nat)
    requires Ok(p) && x % 2 == 1
    ensures Elsewhere(p, op, x)
  {
  }

  lemma FirstDraws(p: Pool, ops: seq<Op>, x: nat) returns (q: Pool)
    requires RunOk(p, ops) && ops != [] && x < 2 * LOCATIONS && x % 2 == 1
    ensures RunOk(q, ops[1..]) && Run(p, ops) == Run(q, ops[1..])
    ensures |q.vmem| == 2 * LOCATIONS && q.vmem[x] == p.vmem[x]
  {
    assert UsesLocation(ops[0]);
    StepKeepsOk(p, ops[0]);
    OddIsElsewhere(p, ops[0], x);
    StepDrawsOnly(p, ops[0], x);
    q := Step(p, ops[0]);
  }

  /** Over every run the colours of the screen, which are the odd bytes, stay as they are. */
  lemma {:induction false} ColoursStay(p: Pool, ops: seq<Op>, x: nat)
    requires RunOk(p, ops) && x < 2 * LOCATIONS && x % 2 == 1
    ensures |Run(p, ops).vmem| == 2 * LOCATIONS && Run(p, ops).vmem[x] == p.vmem[x]
    decreases ops
  {
    if ops != [] {
      var q := FirstDraws(p, ops, x);
      ColoursStay(q, ops[1..], x);
    }
  }

  /** A sync leaves its target shown rightly exactly if the source is off or the target looks the same on and off. */
  lemma SyncDisplaysIff(p: Pool, source: u16, target: u16)
    requires Ok(p) && Syncs(p, source, target)
    ensures Ok(Synced(p, source, target))
    ensures var s, t := p.list[Place(p.slots, p.list, source)], p.list[Place(p.slots, p.list, target)];
      Displays(Synced(p, source, target), t) <==> !IsOn(p.slots[s]) || p.slots[t].onChar == p.slots[t].offChar
  {
    SyncKeepsOk(p, source, target);
  }

  lemma StepStaysAlone(p: Pool, op: Op, s: nat)
    requires Ok(p) && UsesLocation(op) && s in p.list && !Disturbs(p, op, s) && Alone(p, s)
    requires op.Add? ==> op.b.location != p.slots[s].location
    ensures Ok(Step(p, op)) && Alone(Step(p, op), s)
  {
    var q := Step(p, op);
    StepOnOne(p, op, s);
    forall i | 0 <= i < |q.list| && q.list[i] != s
      ensures q.slots[q.list[i]].location != q.slots[s].location
    {
      StepAddsOnly(p, op, q.list[i]);
    }
  }

  lemma SyncMissesCell(p: Pool, source: u16, target: u16, s: nat)
    requires Ok(p) && s in p.list && !Disturbs(p, Sync(source, target), s) && Alone(p, s)
    ensures Synced(p, source, target).vmem[2 * p.slots[s].location] == p.vmem[2 * p.slots[s].location]
  {
  }

  /** Only a tick of its own blinker writes the cell of a blinker alone at its location. */
  lemma StepAtCell(p: Pool, op: Op, s: nat)
    requires Ok(p) && UsesLocation(op) && s in p.list && !Disturbs(p, op, s) && Alone(p, s)
    requires op.Add? ==> op.b.location != p.slots[s].location
    ensures |Step(p, op).vmem| == |p.vmem|
    ensures Step(p, op).vmem[2 * p.slots[s].location]
         == (if op.Tick? then Drawn(p.vmem, p.slots[s]) else p.vmem)[2 * p.slots[s].location]
  {
    match op
    case Add(b) =>
    case Remove(location) =>
    case Sync(source, target) => SyncMissesCell(p, source, target, s);
    case Tick => DrawnAllAt(p.vmem, p.slots, p.list, s);
  }

  lemma StepDisplays(p: Pool, op: Op, s: nat)
    requires Ok(p) && UsesLocation(op) && s in p.list && !Disturbs(p, op, s)
    requires Alone(p, s) && Displays(p, s)
    requires op.Add? ==> op.b.location != p.slots[s].location
    ensures Ok(Step(p, op)) && s in Step(p, op).list
    ensures Displays(Step(p, op), s)
  {
    StepOnOne(p, op, s);
    StepAtCell(p, op, s);
    CellFollowsStatus(p, Step(p, op), s, op.Tick?);
  }

  lemma CellFollowsStatus(p: Pool, q: Pool, s: nat, tick: bool)
    requires Ok(p) && Ok(q) && s in p.list && s in q.list && Displays(p, s)
    requires q.slots[s].(next := p.slots[s].next) == if tick then Ticked(p.slots[s]) else p.slots[s]
    requires q.vmem[2 * p.slots[s].location]
          == (if tick then Drawn(p.vmem, p.slots[s]) else p.vmem)[2 * p.slots[s].location]
    ensures Displays(q, s)
  {
  }

  lemma AddAddsOne(p: Pool, b: Blinker, u: nat)
    requires Ok(p) && u in Added(p, b).list
    ensures var q := Added(p, b);
      u < |q.slots| == |p.slots| && if u in p.list then q.slots[u].location == p.slots[u].location else q.slots[u].location == b.location
  {
    if Adds(p, b) {
      assert FreeSlot(p.slots, 0) !in p.list;
    }
  }

  lemma RemoveAddsNone(p: Pool, location: u16, u: nat)
    requires Ok(p) && u in Removed(p, location).list
    ensures |Removed(p, location).slots| == |p.slots|
    ensures u < |p.slots| && u in p.list && Removed(p, location).slots[u].location == p.slots[u].location
  {
    var k := Place(p.slots, p.list, location);
    if k < |p.list| {
      UnlinkAddsNone(p, k, u);
    }
  }

  /** A slot listed after a step was listed before, at the same location, or was just added. */
  lemma StepAddsOnly(p: Pool, op: Op, u: nat)
    requires Ok(p)
    ensures u in Step(p, op).list ==>
              && u < |Step(p, op).slots| == |p.slots|
              && (|| (u in p.list && Step(p, op).slots[u].location == p.slots[u].location)
                  || (op.Add? && Step(p, op).slots[u].location == op.b.location))
  {
    match op
    case Add(b) =>
      if u in Added(p, b).list {
        AddAddsOne(p, b, u);
      }
    case Remove(location) =>
      if u in Removed(p, location).list {
        RemoveAddsNone(p, location, u);
      }
    case Sync(source, target) =>
    case Tick =>
  }

  /** No operation of the run adds a blinker at a location. */
  predicate Avoids(ops: seq<Op>, location: u16) {
    forall i | 0 <= i < |ops| :: ops[i].Add? ==> ops[i].b.location != location
  }

  lemma {:induction false} DisplayOverRun(p: Pool, ops: seq<Op>, s: nat)
    requires RunOk(p, ops) && s in p.list && Undisturbed(p, ops, s)
    requires Alone(p, s) && Displays(p, s) && Avoids(ops, p.slots[s].location)
    ensures s in Run(p, ops).list && Displays(Run(p, ops), s)
    ensures var b, c := p.slots[s], Run(p, ops).slots[s];
      b.location == c.location && b.onChar == c.onChar && b.offChar == c.offChar
    decreases ops
  {
    if ops != [] {
      assert UsesLocation(ops[0]);
      StepOnOne(p, ops[0], s);
      StepStaysAlone(p, ops[0], s);
      StepDisplays(p, ops[0], s);
      DisplayOverRun(Step(p, ops[0]), ops[1..], s);
    }
  }

  /** A blinker alone at its location shows its on character exactly while n modulo a + b is below a. */
  lemma {:induction false} BlinkerShowsTime(p: Pool, ops: seq<Op>, s: nat, on: nat, off: nat)
    requires RunOk(p, ops) && s in p.list && Undisturbed(p, ops, s)
    requires TimesFit(on, off) && Phase(p.slots[s], on, off, 0)
    requires Alone(p, s) && Displays(p, s) && Avoids(ops, p.slots[s].location)
    ensures |Run(p, ops).vmem| == 2 * LOCATIONS
    ensures Run(p, ops).vmem[2 * p.slots[s].location]
         == if Ticks(ops) % (on + off) < on then p.slots[s].onChar else p.slots[s].offChar
  {
    BlinkerKeepsTime(p, ops, s, on, off);
    DisplayOverRun(p, ops, s);
  }
}

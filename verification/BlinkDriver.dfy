/** The blink driver's code, each entry point proved to be the step of the pool it stands for. */
module BlinkDriver {
  import opened Types
  import opened Blink

  class BlinkDriver {
    const blinkArray: array<Blinker>
    const vmem: array<byte>
    var listHead: int
    ghost var list: seq<nat>

    ghost function Model(): Pool
      reads this, blinkArray, vmem
    {
      Pool(blinkArray[..], list, vmem[..])
    }

    ghost predicate Valid()
      reads this, blinkArray, vmem
    {
      listHead == Head(list) && Ok(Model())
    }

    constructor (vmemBase: array<byte>)
      requires vmemBase.Length == 2 * LOCATIONS
      ensures Valid() && vmem == vmemBase && fresh(blinkArray)
      ensures list == []
    {
      blinkArray := new Blinker[LOCATIONS](_ => ZERO);
      vmem := vmemBase;
      listHead := NULL;
      list := [];
    }

    /** mp1_malloc() */
    method Malloc() returns (s: int)
      requires blinkArray.Length == LOCATIONS
      ensures s == FreeSlot(blinkArray[..], 0)
    {
      for i := 0 to LOCATIONS
        invariant FreeSlot(blinkArray[..], 0) == FreeSlot(blinkArray[..], i)
      {
        if blinkArray[i].location == 0 {
          return i;
        }
      }
      return NULL;
    }

    /** mp1_ioctl_add(); `b` is the structure that the caller passes. */
    method Add(b: Blinker) returns (r: int)
      requires Valid()
      modifies this, blinkArray, vmem
      ensures r == if Adds(old(Model()), b) then 0 else -1
      ensures Model() == Added(old(Model()), b)
      ensures Valid() <==> (r == 0 ==> b.location != 0)
    {
      AddKeepsOkIff(Model(), b);
      if b.location >= LOCATIONS {
        return -1;
      }
      var temp := b.(status := 1, countdown := b.onLength);
      var s := Malloc();
      if s == NULL {
        return -1;
      }
      blinkArray[s] := temp;
      blinkArray[s] := blinkArray[s].(next := listHead);
      listHead := s;
      list := [s] + list;
      vmem[2 * b.location] := b.onChar;
      r := 0;
    }

    /** mp1_find_helper() */
    method FindHelper(location: u16) returns (s: int, ghost k: nat)
      requires Valid()
      ensures k == Place(blinkArray[..], list, location)
      ensures var found := Place(blinkArray[..], list, location); s == if found < |list| then list[found] else NULL
    {
      s, k := listHead, 0;
      while s != NULL && blinkArray[s].location != location
        invariant k <= |list| && s == (if k < |list| then list[k] else NULL)
        invariant Place(blinkArray[..], list, location) == k + Place(blinkArray[..], list[k..], location)
        decreases |list| - k
      {
        assert list[k..][1..] == list[k + 1..];
        assert Model().slots[list[k]].next == Successor(list, k);
        s, k := blinkArray[s].next, k + 1;
      }
    }

    /** mp1_ioctl_find() */
    method Find(location: u16) returns (r: int, found: Blinker)
      requires Valid()
      ensures var k := Place(blinkArray[..], list, location);
        if k < |list| then r == 0 && found == blinkArray[list[k]] else r == -1
    {
      var s, k := FindHelper(location);
      if s == NULL {
        return -1, ZERO;
      }
      return 0, blinkArray[s];
    }

    /** The word at a link: the list head, or the next field of a slot. */
    function Link(prev: int): int
      requires prev == NULL || 0 <= prev < blinkArray.Length
      reads this, blinkArray
    {
      if prev == NULL then listHead else blinkArray[prev].next
    }

    /** The search for the link that points to the k-th listed slot. */
    method FindPrevious(s: nat, ghost k: nat) returns (prev: int)
      requires Valid() && k < |list| && list[k] == s
      ensures prev == if k == 0 then NULL else list[k - 1]
    {
      prev := NULL;
      ghost var i := 0;
      while Link(prev) != s
        invariant i <= k && prev == (if i == 0 then NULL else list[i - 1]) && Link(prev) == list[i]
        decreases k - i
      {
        assert Model().slots[list[i]].next == Successor(list, i);
        prev := Link(prev);
        i := i + 1;
      }
      assert i == k;
    }

    /** The slot is taken out of the list and freed. */
    method TakeOut(s: nat, prev: int, ghost k: nat)
      requires Valid() && k < |list| && list[k] == s && prev == if k == 0 then NULL else list[k - 1]
      modifies this, blinkArray
      ensures listHead == Head(list) && Model() == Unlink(old(Model()), k)
    {
      assert Model().slots[list[k]].next == Successor(list, k);
      if prev == NULL {
        listHead := blinkArray[s].next;
      } else {
        blinkArray[prev] := blinkArray[prev].(next := blinkArray[s].next);
      }
      blinkArray[s] := ZERO;
      list := list[..k] + list[k + 1..];
    }

    /** mp1_ioctl_remove() */
    method Remove(arg: u32) returns (r: int)
      requires Valid()
      modifies this, blinkArray
      ensures Valid()
      ensures var location := arg % 0x1_0000;
        && r == (if Place(old(blinkArray[..]), old(list), location) < |old(list)| then 0 else -1)
        && Model() == Removed(old(Model()), location)
    {
      var s, k := FindHelper(arg % 0x1_0000);
      if s == NULL {
        return -1;
      }
      UnlinkKeepsOk(Model(), k);
      var prev := FindPrevious(s, k);
      TakeOut(s, prev, k);
      r := 0;
    }

    /** mp1_ioctl_sync(): the source's location is the high half of the argument. */
    method Sync(arg: u32) returns (r: int)
      requires Valid()
      modifies blinkArray, vmem
      ensures Valid()
      ensures var source, target := arg / 0x1_0000, arg % 0x1_0000;
        && r == (if Syncs(old(Model()), source, target) then 0 else -1)
        && Model() == Synced(old(Model()), source, target)
    {
      SyncKeepsOk(Model(), arg / 0x1_0000, arg % 0x1_0000);
      var s, i := FindHelper(arg / 0x1_0000);
      if s == NULL {
        return -1;
      }
      var t, j := FindHelper(arg % 0x1_0000);
      if t == NULL {
        return -1;
      }
      blinkArray[t] := blinkArray[t].(onLength := blinkArray[s].onLength, offLength := blinkArray[s].offLength,
                                      countdown := blinkArray[s].countdown, status := blinkArray[s].status);
      vmem[2 * blinkArray[t].location] := blinkArray[t].offChar;
      r := 0;
    }

    /** The loop body of mp1_rtc_tasklet(). */
    method TickSlot(s: nat)
      requires s < blinkArray.Length && vmem.Length == 2 * LOCATIONS && blinkArray[s].location < LOCATIONS
      modifies blinkArray, vmem
      ensures blinkArray[..] == old(blinkArray[..])[s := Ticked(old(blinkArray[s]))]
      ensures vmem[..] == Drawn(old(vmem[..]), old(blinkArray[s]))
    {
      blinkArray[s] := blinkArray[s].(countdown := Decremented(blinkArray[s]));
      if 0 < blinkArray[s].countdown < 0x8000 {
        return;
      }
      var b := blinkArray[s];
      if b.status % 2 == 1 {
        vmem[2 * b.location] := b.offChar;
        blinkArray[s] := b.(countdown := b.offLength, status := b.status - 1);
      } else {
        vmem[2 * b.location] := b.onChar;
        blinkArray[s] := b.(countdown := b.onLength, status := b.status + 1);
      }
    }

    /** The loop of mp1_rtc_tasklet() from the head of the list l. */
    method TickList(ghost l: seq<nat>)
      requires blinkArray.Length == LOCATIONS && vmem.Length == 2 * LOCATIONS
      requires listHead == Head(l) && Linked(blinkArray[..], l)
      requires forall i | 0 <= i < |l| :: blinkArray[l[i]].location < LOCATIONS
      modifies blinkArray, vmem
      ensures blinkArray[..] == Walked(old(blinkArray[..]), l)
      ensures vmem[..] == DrawnAll(old(vmem[..]), old(blinkArray[..]), l)
    {
      ghost var before, screen, k := blinkArray[..], vmem[..], 0;
      assert Linked(before, l);
      var s := listHead;
      while s != NULL
        invariant k <= |l| && s == (if k < |l| then l[k] else NULL)
        invariant blinkArray[..] == Walked(before, l[..k])
        invariant vmem[..] == DrawnAll(screen, before, l[..k])
        decreases |l| - k
      {
        assert l[..k + 1][..k] == l[..k];
        WalkedAt(before, l[..k], s);
        assert before[l[k]].next == Successor(l, k);
        TickSlot(s);
        s, k := blinkArray[s].next, k + 1;
      }
      assert l[..k] == l;
    }

    /** mp1_rtc_tasklet() */
    method RtcTasklet()
      requires Valid()
      modifies blinkArray, vmem
      ensures Valid()
      ensures Model() == TickedAll(old(Model()))
    {
      TickKeepsOk(Model());
      TickList(list);
      forall u: nat | u < LOCATIONS
        ensures blinkArray[u] == TickedAll(old(Model())).slots[u]
      {
        WalkedAt(old(blinkArray[..]), list, u);
      }
      assert blinkArray[..] == TickedAll(old(Model())).slots;
    }
  }
}

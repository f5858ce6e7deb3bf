/** Round-robin choice among any number of terminals, some of them active. */
module RoundRobin {
  /** The terminal after t, which get_next_process() writes as (t + 1) modulo the number of terminals. */
  function After(n: nat, t: nat): (r: nat)
    requires t < n
    ensures r < n
  {
    if t + 1 == n then 0 else t + 1
  }

  lemma AfterIsModulo(n: nat, t: nat)
    requires t < n
    ensures After(n, t) == (t + 1) % n
  {
  }

  /** The search of get_next_process(): at most `searches` terminals after t, the first active one wins. */
  function Search(active: seq<bool>, t: nat, searches: nat): (r: nat)
    requires t < |active|
    ensures r < |active|
    decreases searches
  {
    if searches == 0 then t
    else if active[After(|active|, t)] then After(|active|, t)
    else Search(active, After(|active|, t), searches - 1)
  }

  function Next(active: seq<bool>, t: nat): (r: nat)
    requires t < |active|
    ensures r < |active|
  {
    Search(active, t, |active|)
  }

  /** The terminals picked by consecutive ticks. */
  function Picks(active: seq<bool>, t: nat, ticks: nat): (r: seq<nat>)
    requires t < |active|
    ensures |r| == ticks
    decreases ticks
  {
    if ticks == 0 then [] else [Next(active, t)] + Picks(active, Next(active, t), ticks - 1)
  }

  /** The terminal after k picks. */
  function PickAfter(active: seq<bool>, t: nat, k: nat): (r: nat)
    requires t < |active|
    ensures r < |active|
    decreases k
  {
    if k == 0 then t else PickAfter(active, Next(active, t), k - 1)
  }

  lemma {:induction false} PickAfterIsLast(active: seq<bool>, t: nat, k: nat)
    requires t < |active| && k > 0
    ensures PickAfter(active, t, k) == Picks(active, t, k)[k - 1]
    decreases k
  {
    if k > 1 {
      PickAfterIsLast(active, Next(active, t), k - 1);
    }
  }

  /** The picks of fewer ticks are the first ones of more. */
  lemma {:induction false} PicksPrefix(active: seq<bool>, t: nat, k: nat, ticks: nat)
    requires t < |active| && k <= ticks
    ensures Picks(active, t, ticks)[..k] == Picks(active, t, k)
    decreases ticks
  {
    if k > 0 {
      PicksPrefix(active, Next(active, t), k - 1, ticks - 1);
    }
  }

  /** The terminal k places after t. */
  function Advance(n: nat, t: nat, k: nat): (r: nat)
    requires t < n && k <= n
    ensures r < n
  {
    if t + k < n then t + k else t + k - n
  }

  /** The active terminals among the k that follow t, in order. */
  function Passed(active: seq<bool>, t: nat, k: nat): seq<nat>
    requires t < |active|
    decreases k
  {
    if k == 0 then []
    else
      var u := After(|active|, t);
      IfActive(active, u) + Passed(active, u, k - 1)
  }

  function IfActive(active: seq<bool>, u: nat): seq<nat>
    requires u < |active|
  {
    if active[u] then [u] else []
  }

  lemma {:induction false} PassedConcat(active: seq<bool>, t: nat, j: nat, k: nat)
    requires t < |active| && j <= |active|
    ensures Passed(active, t, j + k) == Passed(active, t, j) + Passed(active, Advance(|active|, t, j), k)
    decreases j
  {
    if j == 0 {
      assert [] + Passed(active, t, k) == Passed(active, t, k);
    } else {
      var u, v := After(|active|, t), Advance(|active|, t, j);
      PassedConcat(active, u, j - 1, k);
      assert Advance(|active|, u, j - 1) == v;
      PassedFirst(active, t, j + k, u);
      PassedFirst(active, t, j, u);
      Associate(IfActive(active, u), Passed(active, u, j - 1), Passed(active, v, k));
    }
  }

  lemma PassedFirst(active: seq<bool>, t: nat, k: nat, u: nat)
    requires t < |active| && k > 0 && u == After(|active|, t)
    ensures Passed(active, t, k) == IfActive(active, u) + Passed(active, u, k - 1)
  {
  }

  lemma Associate(a: seq<nat>, b: seq<nat>, c: seq<nat>)
    ensures a + (b + c) == a + b + c
  {
  }

  /** The search stops at the first active terminal that it passes. */
  lemma {:induction false} SearchStops(active: seq<bool>, t: nat, searches: nat) returns (k: nat)
    requires t < |active| && searches <= |active| && Passed(active, t, searches) != []
    ensures 1 <= k <= searches
    ensures Search(active, t, searches) == Advance(|active|, t, k)
    ensures Passed(active, t, k) == [Search(active, t, searches)]
    ensures active[Search(active, t, searches)]
    decreases searches
  {
    var u := After(|active|, t);
    if active[u] {
      k := 1;
      assert Passed(active, u, 0) == [];
    } else {
      PassedFirst(active, t, searches, u);
      k := SearchStops(active, u, searches - 1);
      PassedFirst(active, t, k + 1, u);
      assert [] + Passed(active, u, k) == Passed(active, u, k);
      k := k + 1;
    }
  }

  /** All active terminals, in the order in which they follow t. */
  function Rotation(active: seq<bool>, t: nat): seq<nat>
    requires t < |active|
  {
    Passed(active, t, |active|)
  }

  lemma {:induction false} RotationAdvances(active: seq<bool>, t: nat)
    requires t < |active| && Rotation(active, t) != []
    ensures var r := Rotation(active, t);
      && Next(active, t) == r[0]
      && r[0] < |active| && active[r[0]]
      && Rotation(active, r[0]) == r[1..] + [r[0]]
  {
    var n := |active|;
    var k := SearchStops(active, t, n);
    var u := Next(active, t);
    PassedConcat(active, t, k, n - k);
    PassedConcat(active, u, n - k, k);
    assert Advance(n, u, n - k) == t;
  }

  /** The search returns an inactive terminal exactly if there is no active one. */
  lemma {:induction false} NextIsActiveIff(active: seq<bool>, t: nat)
    requires t < |active|
    ensures active[Next(active, t)] <==> exists u: nat :: u < |active| && active[u]
  {
    if u: nat :| u < |active| && active[u] {
      PassedOnce(active, t, |active|);
      assert u == Advance(|active|, t, if u > t then u - t else u + |active| - t);
      assert u in Rotation(active, t);
      RotationAdvances(active, t);
    }
  }

  lemma {:induction false} PicksFollowRotation(active: seq<bool>, t: nat, ticks: nat)
    requires t < |active| && ticks <= |Rotation(active, t)|
    ensures Picks(active, t, ticks) == Rotation(active, t)[..ticks]
    decreases ticks
  {
    if ticks > 0 {
      RotationAdvances(active, t);
      PicksFollowRotation(active, Next(active, t), ticks - 1);
    }
  }

  function Active(active: seq<bool>): set<nat> {
    set t: nat | t < |active| && active[t]
  }

  /** The active terminals at distances 1 to k from t. */
  function ActiveWithin(active: seq<bool>, t: nat, k: nat): set<nat>
    requires t < |active| && k <= |active|
  {
    set u: nat | u < |active| && active[u] && exists d | 1 <= d <= k :: u == Advance(|active|, t, d)
  }

  /** A walk of at most one turn passes exactly the active terminals on its way, none of them twice. */
  lemma {:induction false} PassedOnce(active: seq<bool>, t: nat, k: nat)
    requires t < |active| && k <= |active|
    ensures forall u :: u in Passed(active, t, k) <==> u in ActiveWithin(active, t, k)
    ensures forall i, j | 0 <= i < j < |Passed(active, t, k)| :: Passed(active, t, k)[i] != Passed(active, t, k)[j]
    decreases k
  {
    if k > 0 {
      var n, u := |active|, After(|active|, t);
      PassedOnce(active, u, k - 1);
      var rest := Passed(active, u, k - 1);
      forall v
        ensures v in Passed(active, t, k) <==> v in ActiveWithin(active, t, k)
      {
        if v in ActiveWithin(active, t, k) {
          var d :| 1 <= d <= k && v == Advance(n, t, d);
          assert d > 1 ==> v == Advance(n, u, d - 1);
        }
        if v in rest {
          var d :| 1 <= d <= k - 1 && v == Advance(n, u, d);
          assert v == Advance(n, t, d + 1);
        }
        assert u == Advance(n, t, 1);
      }
      assert u !in rest;
    }
  }

  /**
   While the k active terminals stay the same, any k consecutive ticks pick every active
   terminal exactly once and no other terminal.
   */
  lemma {:induction false} EveryActiveTerminalGetsItsTurn(active: seq<bool>, t: nat)
    requires t < |active|
    ensures var k := |Active(active)|;
      var picks := Picks(active, t, k);
      && (forall i | 0 <= i < k :: picks[i] < |active| && active[picks[i]])
      && (forall u: nat | u < |active| && active[u] :: u in picks)
      && (forall i, j | 0 <= i < j < k :: picks[i] != picks[j])
  {
    var n, rotation := |active|, Rotation(active, t);
    PassedOnce(active, t, n);
    forall u: nat
      ensures u in rotation <==> u in Active(active)
    {
      if u < n {
        var d := if u > t then u - t else u + n - t;
        assert u == Advance(n, t, d);
      }
    }
    CountDistinct(rotation, Active(active));
    PicksFollowRotation(active, t, |rotation|);
    var picks := Picks(active, t, |rotation|);
    assert picks == rotation;
    forall i | 0 <= i < |picks|
      ensures picks[i] in Active(active)
    {
      assert picks[i] in rotation;
    }
    assert forall u: nat | u < n && active[u] :: u in Active(active);
  }

  lemma {:induction false} CountDistinct(s: seq<nat>, elements: set<nat>)
    requires forall i, j | 0 <= i < j < |s| :: s[i] != s[j]
    requires forall u: nat :: u in s <==> u in elements
    ensures |s| == |elements|
  {
    if s != [] {
      assert s == [s[0]] + s[1..];
      assert s[0] !in s[1..];
      CountDistinct(s[1..], elements - {s[0]});
    } else {
      assert elements == {};
    }
  }
}

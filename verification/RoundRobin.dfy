/** How the pool picks a slot: scan from the shared index, leave it right behind the slot that is returned. */
module RoundRobin {
  import opened Bytes

  lemma SmallMod(x: nat, n: nat)
    requires x < n
    ensures x % n == x
  {
  }

  lemma SelfMod(n: nat)
    requires n > 0
    ensures n % n == 0
  {
  }

  lemma ModAfter(idx: nat, n: nat)
    requires idx < n
    ensures (idx + 1) % n == Wrap(idx + 1, n)
  {
    if idx + 1 == n {
      SelfMod(n);
    } else {
      SmallMod(idx + 1, n);
    }
  }

  /** The index behind `idx`, back at 0 past the end. */
  function After(idx: nat, n: nat): (r: nat)
    requires idx < n
    ensures r == Wrap(idx + 1, n) && r < n
  {
    ModAfter(idx, n);
    (idx + 1) % n
  }

  function Wrap(x: nat, n: nat): nat {
    if x < n then x else x - n
  }

  /** Up to `steps` looks, starting at `idx`: the slot found, if any, and the index left behind. */
  function Scan(live: seq<bool>, idx: nat, steps: nat): (r: (Option<nat>, nat))
    requires idx < |live| || steps == 0
    ensures r.0.Some? ==> r.0.value < |live| && live[r.0.value]
    ensures idx < |live| ==> r.1 < |live|
    decreases steps
  {
    if steps == 0 then (None, idx)
    else if live[idx] then (Some(idx), After(idx, |live|))
    else Scan(live, After(idx, |live|), steps - 1)
  }

  lemma ScanStep(live: seq<bool>, idx: nat, steps: nat)
    requires idx < |live|
    ensures Scan(live, idx, 0) == (None, idx)
    ensures steps > 0 && live[idx] ==> Scan(live, idx, steps) == (Some(idx), After(idx, |live|))
    ensures steps > 0 && !live[idx] ==> Scan(live, idx, steps) == Scan(live, After(idx, |live|), steps - 1)
  {
  }

  /** One call of `next_connection`. */
  function Pick(live: seq<bool>, idx: nat): (r: (Option<nat>, nat))
    requires idx < |live| || live == []
    ensures r.0.Some? ==> r.0.value < |live| && live[r.0.value]
    ensures idx < |live| ==> r.1 < |live|
  {
    Scan(live, idx, |live|)
  }

  /** What `m` successive calls return while no slot changes, and the index they leave. */
  function Picks(live: seq<bool>, idx: nat, m: nat): (seq<Option<nat>>, nat)
    requires idx < |live|
    decreases m
  {
    if m == 0 then ([], idx)
    else
      var (found, next) := Pick(live, idx);
      var (more, last) := Picks(live, next, m - 1);
      ([found] + more, last)
  }

  /** The live slots among `steps` consecutive ones, the first being `idx`, wrapping around. */
  function Cycle(live: seq<bool>, idx: nat, steps: nat): (r: seq<nat>)
    requires idx < |live|
    ensures forall x :: x in r ==> x < |live| && live[x]
    decreases steps
  {
    if steps == 0 then []
    else (if live[idx] then [idx] else []) + Cycle(live, After(idx, |live|), steps - 1)
  }

  lemma CycleStep(live: seq<bool>, idx: nat, steps: nat)
    requires idx < |live| && steps > 0
    ensures Cycle(live, idx, steps) == (if live[idx] then [idx] else []) + Cycle(live, After(idx, |live|), steps - 1)
  {
  }

  lemma WrapOn(idx: nat, a: nat, n: nat)
    requires idx < n && 0 < a < n
    ensures Wrap(After(idx, n) + (a - 1), n) == Wrap(idx + a, n) < n
  {
  }

  lemma {:induction false} CycleSplits(live: seq<bool>, idx: nat, a: nat, b: nat)
    requires idx < |live| && a + b <= |live| && b > 0
    ensures Cycle(live, idx, a + b) == Cycle(live, idx, a) + Cycle(live, Wrap(idx + a, |live|), b)
    decreases a
  {
    if a == 0 {
      assert [] + Cycle(live, idx, b) == Cycle(live, idx, b);
    } else {
      hide Cycle;
      var head, next := if live[idx] then [idx] else [], After(idx, |live|);
      WrapOn(idx, a, |live|);
      CycleSplits(live, next, a - 1, b);
      SplitStep(head, Cycle(live, next, a + b - 1), Cycle(live, next, a - 1), Cycle(live, Wrap(idx + a, |live|), b));
      CycleStep(live, idx, a + b);
      CycleStep(live, idx, a);
    }
  }

  lemma SplitStep<T>(head: seq<T>, tail: seq<T>, x: seq<T>, y: seq<T>)
    requires tail == x + y
    ensures head + tail == head + x + y
  {
  }

  /** Either nothing is live in reach, or the scan returns the first live slot and stops right behind it. */
  lemma {:induction false} ScanFindsFirst(live: seq<bool>, idx: nat, steps: nat) returns (d: nat)
    requires idx < |live| && steps <= |live|
    ensures Scan(live, idx, steps).0.None? ==>
              Cycle(live, idx, steps) == [] && Scan(live, idx, steps).1 == Wrap(idx + steps, |live|)
    ensures Scan(live, idx, steps).0.Some? ==>
              d < steps && Cycle(live, idx, d + 1) == [Scan(live, idx, steps).0.value]
              && Scan(live, idx, steps).1 == Wrap(idx + d + 1, |live|)
    decreases steps
  {
    hide Cycle;
    d := 0;
    CycleOfNone(live, idx);
    if steps > 0 {
      var next := After(idx, |live|);
      CycleStep(live, idx, steps);
      CycleStep(live, idx, 1);
      CycleOfNone(live, next);
      if !live[idx] {
        d := ScanFindsFirst(live, next, steps - 1);
        if Scan(live, next, steps - 1).0.Some? {
          CycleStep(live, idx, d + 2);
          d := d + 1;
        }
      }
    }
  }

  lemma CycleOfNone(live: seq<bool>, idx: nat)
    requires idx < |live|
    ensures Cycle(live, idx, 0) == []
  {
  }

  /** One call takes the head of the cyclic list of live slots and moves it to the back. */
  lemma PickRotates(live: seq<bool>, idx: nat)
    requires idx < |live|
    ensures Pick(live, idx).0.None? <==> Cycle(live, idx, |live|) == []
    ensures Pick(live, idx).0.None? ==> Pick(live, idx).1 == idx
    ensures Pick(live, idx).0.Some? ==>
              && Cycle(live, idx, |live|)[0] == Pick(live, idx).0.value
              && Cycle(live, Pick(live, idx).1, |live|)
              == Cycle(live, idx, |live|)[1..] + [Cycle(live, idx, |live|)[0]]
  {
    hide Cycle, Scan;
    var n := |live|;
    var d := ScanFindsFirst(live, idx, n);
    if Pick(live, idx).0.Some? {
      var next := Pick(live, idx).1;
      if d + 1 < n {
        CycleSplits(live, idx, d + 1, n - d - 1);
        CycleSplits(live, next, n - d - 1, d + 1);
      }
    }
  }

  predicate Distinct(xs: seq<nat>) {
    forall i, j :: 0 <= i < j < |xs| ==> xs[i] != xs[j]
  }

  lemma {:induction false} CycleCoversRange(live: seq<bool>, idx: nat, steps: nat)
    requires idx + steps <= |live| && idx < |live|
    ensures forall x :: x in Cycle(live, idx, steps) <==> idx <= x < idx + steps && live[x]
    ensures Distinct(Cycle(live, idx, steps))
    decreases steps
  {
    if steps > 1 {
      hide Cycle, Distinct;
      var rest := Cycle(live, idx + 1, steps - 1);
      CycleCoversRange(live, idx + 1, steps - 1);
      CycleStep(live, idx, steps);
      DistinctConcat([idx], rest);
    } else if steps == 1 {
      assert Cycle(live, After(idx, |live|), 0) == [];
    }
  }

  lemma DistinctConcat(xs: seq<nat>, ys: seq<nat>)
    requires |xs| == 1 || Distinct(xs)
    requires Distinct(ys) && forall x :: x in xs ==> x !in ys
    ensures Distinct(xs + ys)
  {
    var zs := xs + ys;
    forall i, j | 0 <= i < j < |zs|
      ensures zs[i] != zs[j]
    {
      if i < |xs| <= j {
        assert xs[i] in xs && ys[j - |xs|] in ys;
      }
    }
  }

  /** The cyclic list holds every live slot once and nothing else, wherever it starts. */
  lemma CycleListsLiveSlotsOnce(live: seq<bool>, idx: nat)
    requires idx < |live|
    ensures forall x :: x in Cycle(live, idx, |live|) <==> 0 <= x < |live| && live[x]
    ensures Distinct(Cycle(live, idx, |live|))
  {
    hide Cycle, Distinct;
    CycleCoversRange(live, idx, |live| - idx);
    if idx > 0 {
      CycleCoversRange(live, 0, idx);
      CycleSplits(live, idx, |live| - idx, idx);
      DistinctConcat(Cycle(live, idx, |live| - idx), Cycle(live, 0, idx));
    }
  }

  function Found(slots: seq<nat>): (r: seq<Option<nat>>)
    ensures |r| == |slots| && forall i :: 0 <= i < |r| ==> r[i] == Some(slots[i])
  {
    seq(|slots|, i requires 0 <= i < |slots| => Some(slots[i]))
  }

  /**
   * Fairness: while no slot changes, `m <= L` successive calls return the first `m` entries of the cyclic list of the
   * L live slots and rotate it by `m`. So any L calls in a row return each live slot once, and the order repeats.
   */
  lemma {:induction false} PicksAreFair(live: seq<bool>, idx: nat, m: nat)
    requires idx < |live| && m <= |Cycle(live, idx, |live|)|
    ensures Picks(live, idx, m).0 == Found(Cycle(live, idx, |live|)[..m]) && Picks(live, idx, m).1 < |live|
    ensures Cycle(live, Picks(live, idx, m).1, |live|)
         == Cycle(live, idx, |live|)[m..] + Cycle(live, idx, |live|)[..m]
    decreases m
  {
    hide Cycle, Pick;
    var slots := Cycle(live, idx, |live|);
    if m == 0 {
      assert slots[0..] + slots[..0] == slots;
    } else {
      var next := Pick(live, idx).1;
      PickRotates(live, idx);
      PicksAreFair(live, next, m - 1);
      Rotate(slots, m);
      assert Found(slots[..m]) == [Some(slots[0])] + Found((slots[1..] + [slots[0]])[..m - 1]);
    }
  }

  lemma Rotate<T>(xs: seq<T>, m: nat)
    requires 0 < m <= |xs|
    ensures var ys := xs[1..] + [xs[0]];
            xs[..m] == [xs[0]] + ys[..m - 1] && ys[m - 1..] + ys[..m - 1] == xs[m..] + xs[..m]
  {
  }

  /** No call finds a slot exactly when none is live. */
  lemma NoneIffNoneLive(live: seq<bool>, idx: nat)
    requires idx < |live| || live == []
    ensures Pick(live, idx).0.None? <==> forall x :: 0 <= x < |live| ==> !live[x]
  {
    if live != [] {
      PickRotates(live, idx);
      CycleListsLiveSlotsOnce(live, idx);
      if Cycle(live, idx, |live|) != [] {
        assert Cycle(live, idx, |live|)[0] in Cycle(live, idx, |live|);
      }
    }
  }

  // ---- Without the scan ----

  /** How many slots ahead of `idx` the slot `x` is, going around. */
  function Ahead(idx: nat, x: nat, n: nat): int {
    if x >= idx then x - idx else x - idx + n
  }

  lemma {:induction false} ScanNearest(live: seq<bool>, idx: nat, steps: nat)
    requires idx < |live| && steps <= |live|
    ensures var n, (found, next) := |live|, Scan(live, idx, steps);
            && (forall x :: 0 <= x < n && live[x] ==>
                  Ahead(idx, x, n) >= if found.Some? then Ahead(idx, found.value, n) else steps)
            && (found.Some? ==>
                  Ahead(idx, found.value, n) < steps
                  && next == (if found.value + 1 == n then 0 else found.value + 1))
    decreases steps
  {
    ScanStep(live, idx, steps);
    hide Scan;
    if steps > 0 && !live[idx] {
      ScanNearest(live, After(idx, |live|), steps - 1);
    }
  }

  /** The slot returned is the nearest live one from the index on, and the index is left right behind it. */
  lemma PicksNearestLive(live: seq<bool>, idx: nat)
    requires idx < |live| && Pick(live, idx).0.Some?
    ensures var i, n := Pick(live, idx).0.value, |live|;
            && i < n && live[i] && (forall x :: 0 <= x < n && live[x] ==> Ahead(idx, i, n) <= Ahead(idx, x, n))
            && Pick(live, idx).1 == (if i + 1 == n then 0 else i + 1)
  {
    ScanNearest(live, idx, |live|);
  }
}

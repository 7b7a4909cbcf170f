/**
 Which representatives ci/record_rep_weights.py records: the descending sort, the
 supply threshold, and the prefix it takes. Weights are unbounded naturals, as in
 the script; --limit is an exact fraction num / den.
 */
module RepSelect {
  import opened Digits

  datatype Rep = Rep(account: seq<char>, weight: nat)

  // ------------------------------------------------- reps.sort(key=weight, reverse=True)

  function Insert(r: Rep, s: seq<Rep>): seq<Rep> {
    if s == [] || s[0].weight <= r.weight then [r] + s else [s[0]] + Insert(r, s[1..])
  }

  function Sorted(s: seq<Rep>): seq<Rep> {
    if s == [] then [] else Insert(s[0], Sorted(s[1..]))
  }

  ghost predicate Descending(s: seq<Rep>) {
    forall i, j :: 0 <= i <= j < |s| ==> s[i].weight >= s[j].weight
  }

  /** The entries of one weight, in order. */
  function OfWeight(s: seq<Rep>, w: nat): seq<Rep> {
    if s == [] then [] else (if s[0].weight == w then [s[0]] else []) + OfWeight(s[1..], w)
  }

  lemma {:induction false} InsertContents(r: Rep, s: seq<Rep>)
    ensures multiset(Insert(r, s)) == multiset(s) + multiset{r}
  {
    if s != [] && s[0].weight > r.weight {
      InsertContents(r, s[1..]);
      assert s == [s[0]] + s[1..];
    }
  }

  lemma OfWeightCons(x: Rep, t: seq<Rep>, w: nat)
    ensures OfWeight([x] + t, w) == (if x.weight == w then [x] else []) + OfWeight(t, w)
  {
    assert ([x] + t)[1..] == t;
  }

  lemma {:induction false} InsertOrder(r: Rep, s: seq<Rep>, w: nat)
    ensures OfWeight(Insert(r, s), w) == (if r.weight == w then [r] else []) + OfWeight(s, w)
  {
    if s == [] || s[0].weight <= r.weight {
      OfWeightCons(r, s, w);
    } else {
      var x, t := s[0], s[1..];
      InsertOrder(r, t, w);
      OfWeightCons(x, Insert(r, t), w);
      var rest := OfWeight(t, w);
      assert OfWeight(s, w) == (if x.weight == w then [x] else []) + rest;
      if r.weight == w { assert [] + ([r] + rest) == [r] + ([] + rest); }
      else { assert [] + rest == rest; }
    }
  }

  ghost predicate AtMost(s: seq<Rep>, w: nat) {
    forall i :: 0 <= i < |s| ==> s[i].weight <= w
  }

  lemma {:induction false} InsertDescends(r: Rep, s: seq<Rep>, w: nat)
    requires Descending(s) && AtMost(s, w) && r.weight <= w
    ensures Descending(Insert(r, s)) && AtMost(Insert(r, s), w)
  {
    if s != [] && s[0].weight > r.weight {
      assert AtMost(s[1..], s[0].weight);
      InsertDescends(r, s[1..], s[0].weight);
    }
  }

  /** The sort is descending, keeps every entry, and keeps the order of equal weights. */
  lemma {:induction false} SortedKeeps(s: seq<Rep>)
    ensures Descending(Sorted(s)) && multiset(Sorted(s)) == multiset(s)
    ensures forall w :: OfWeight(Sorted(s), w) == OfWeight(s, w)
  {
    if s != [] {
      var t := Sorted(s[1..]);
      SortedKeeps(s[1..]);
      InsertContents(s[0], t);
      assert s == [s[0]] + s[1..];
      forall w ensures OfWeight(Sorted(s), w) == OfWeight(s, w) { InsertOrder(s[0], t, w); }
      var top := if t != [] && t[0].weight > s[0].weight then t[0].weight else s[0].weight;
      InsertDescends(s[0], t, top);
    }
  }

  // ------------------------------------------------- the threshold

  const UNIT: nat := 1000000000000000000000000000000

  function Total(s: seq<Rep>): nat {
    if s == [] then 0 else Total(s[..|s| - 1]) + s[|s| - 1].weight
  }

  function Goal(supply: nat, num: nat, den: nat): nat
    requires den > 0
  {
    ((supply / UNIT) * num / den) * UNIT
  }

  method SupplyMax(reps: seq<Rep>, num: nat, den: nat) returns (supplymax: nat)
    requires 0 < den
    ensures supplymax == Goal(Total(reps), num, den) && supplymax % UNIT == 0
    ensures forall k: nat :: k * UNIT <= supplymax <==> k * den <= (Total(reps) / UNIT) * num
  {
    supplymax := 0;
    for i := 0 to |reps|
      invariant supplymax == Total(reps[..i])
    {
      supplymax := supplymax + reps[i].weight;
      assert reps[..i + 1][..i] == reps[..i];
    }
    assert reps[..|reps|] == reps;
    supplymax := supplymax / UNIT;
    supplymax := supplymax * num / den;
    supplymax := supplymax * UNIT;
    forall k: nat ensures k * UNIT <= supplymax <==> k * den <= (Total(reps) / UNIT) * num {
      GoalExactly(Total(reps), num, den, k);
    }
    GoalExactly(Total(reps), num, den, 0);
  }

  /** The threshold is the largest whole number of units that is at most limit times the supply's whole units. */
  lemma GoalExactly(supply: nat, num: nat, den: nat, k: nat)
    requires 0 < den
    ensures Goal(supply, num, den) % UNIT == 0
    ensures k * UNIT <= Goal(supply, num, den) <==> k * den <= (supply / UNIT) * num
  {
    var x := (supply / UNIT) * num;
    var m := x / den;
    DivUnique(m * UNIT, UNIT, m, 0);
    AtMostQuotient(x, den, k);
    if k <= m { MulMono(k, m, UNIT); } else { MulMono(m + 1, k, UNIT); }
  }

  lemma AtMostQuotient(x: nat, den: nat, k: nat)
    requires 0 < den
    ensures k <= x / den <==> k * den <= x
  {
    var m, r := x / den, x % den;
    assert x == den * m + r;
    if k <= m { MulMono(k, m, den); } else { MulMono(m + 1, k, den); }
  }

  /** The threshold never exceeds limit times supply, and falls short of it by less than two units. */
  lemma GoalBounds(supply: nat, num: nat, den: nat)
    requires 0 < den && num <= den
    ensures den * Goal(supply, num, den) <= num * supply < den * (Goal(supply, num, den) + 2 * UNIT)
    ensures Goal(supply, num, den) <= supply
  {
    var q, g := supply / UNIT, Goal(supply, num, den);
    var k := q * num / den;
    Scale(supply, q, supply % UNIT, num, den, k, q * num % den);
    assert g == k * UNIT;
    MulMono(num, den, supply);
    Cancel(den, g, supply);
  }

  lemma Cancel(m: nat, x: nat, y: nat)
    requires m > 0 && m * x <= m * y
    ensures x <= y
  {
    if x > y {
      MulMono(1, x - y, m);
    }
  }

  lemma Scale(supply: nat, q: nat, r: nat, num: nat, den: nat, k: nat, t: nat)
    requires supply == q * UNIT + r && r < UNIT && q * num == den * k + t && t < den && num <= den
    ensures den * (k * UNIT) <= num * supply < den * (k * UNIT + 2 * UNIT)
  {
    assert num * supply == (q * num) * UNIT + num * r by {
      assert num * (q * UNIT + r) == num * (q * UNIT) + num * r;
      assert num * (q * UNIT) == (q * num) * UNIT;
    }
    assert (den * k + t) * UNIT == den * (k * UNIT) + t * UNIT by { assert (den * k) * UNIT == den * (k * UNIT); }
    MulMono(num, den, r);
    assert den * r == r * den;
    assert den * r < den * UNIT by { MulMono(r + 1, UNIT, den); }
    assert t * UNIT < den * UNIT;
    assert den * (k * UNIT + 2 * UNIT) == den * (k * UNIT) + den * UNIT + den * UNIT;
  }

  // ------------------------------------------------- the loop

  /** Where the loop stops, having come to index k: before a zero weight, after reaching the goal, or at the end. */
  function Stop(s: seq<Rep>, goal: nat, k: nat): (n: nat)
    requires k <= |s|
    ensures k <= n <= |s|
    decreases |s| - k
  {
    if k == |s| || s[k].weight == 0 then k
    else if Total(s[..k + 1]) >= goal then k + 1
    else Stop(s, goal, k + 1)
  }

  function Taken(s: seq<Rep>, goal: nat): nat { Stop(s, goal, 0) }

  lemma TotalNext(s: seq<Rep>, k: nat)
    requires k < |s|
    ensures Total(s[..k + 1]) == Total(s[..k]) + s[k].weight
  {
    assert s[..k + 1][..k] == s[..k];
  }

  lemma {:induction false} TotalMono(s: seq<Rep>, i: nat, j: nat)
    requires i <= j <= |s|
    ensures Total(s[..i]) <= Total(s[..j])
    decreases j
  {
    if i < j {
      TotalMono(s, i, j - 1);
      TotalNext(s, j - 1);
    }
  }

  lemma {:induction false} ZerosAddNothing(s: seq<Rep>, k: nat, j: nat)
    requires Descending(s) && k <= j <= |s| && (k < |s| ==> s[k].weight == 0)
    ensures Total(s[..j]) == Total(s[..k])
    decreases j
  {
    if k < j {
      ZerosAddNothing(s, k, j - 1);
      TotalNext(s, j - 1);
    }
  }

  /** The loop stops with the goal reached, and not a record earlier. */
  lemma {:induction false} StopReaches(s: seq<Rep>, goal: nat, k: nat)
    requires Descending(s) && k <= |s| && goal <= Total(s)
    requires k > 0 ==> Total(s[..k]) < goal
    ensures var n := Stop(s, goal, k);
            && Total(s[..n]) >= goal
            && (goal > 0 ==> n > 0 && Total(s[..n - 1]) < goal)
            && (forall i :: 0 <= i < n ==> s[i].weight > 0 || i < k)
    decreases |s| - k
  {
    assert s[..|s|] == s;
    if k == |s| || s[k].weight == 0 {
      ZerosAddNothing(s, k, |s|);
      assert s[..0] == [];
    } else if Total(s[..k + 1]) >= goal {
      assert k == 0 ==> s[..k] == [];
    } else {
      StopReaches(s, goal, k + 1);
    }
  }

  /**
   n records are due: all of positive weight, none after the first to reach the goal, and stopping there only
   because of that, of a zero weight, or of the end.
   */
  ghost predicate Due(s: seq<Rep>, goal: nat, n: nat) {
    && n <= |s|
    && (forall i :: 0 <= i < n ==> s[i].weight > 0)
    && (forall i :: 0 < i < n ==> Total(s[..i]) < goal)
    && (n == |s| || s[n].weight == 0 || (n > 0 && Total(s[..n]) >= goal))
  }

  lemma {:induction false} StopIsDue(s: seq<Rep>, goal: nat, k: nat)
    requires k <= |s| && (forall i :: 0 <= i < k ==> s[i].weight > 0)
    requires forall i :: 0 < i <= k ==> Total(s[..i]) < goal
    ensures Due(s, goal, Stop(s, goal, k))
    decreases |s| - k
  {
    if k < |s| && s[k].weight > 0 && Total(s[..k + 1]) < goal { StopIsDue(s, goal, k + 1); }
  }

  /** On every list and for every goal, the number of records written is the one that is due. */
  lemma TakenExactly(s: seq<Rep>, goal: nat, n: nat)
    ensures n == Taken(s, goal) <==> Due(s, goal, n)
  {
    StopIsDue(s, goal, 0);
  }

  /** For every limit at most 1 the recorded weights reach the threshold; without the last record they fall short. */
  lemma TakenReaches(reps: seq<Rep>, num: nat, den: nat)
    requires 0 < den && num <= den
    ensures var s := Sorted(reps); var goal := Goal(Total(reps), num, den); var n := Taken(s, goal);
            && Total(s[..n]) >= goal
            && (goal > 0 ==> n > 0 && Total(s[..n - 1]) < goal)
  {
    var s := Sorted(reps);
    SortedKeeps(reps);
    TotalOfPermutation(s, reps);
    GoalBounds(Total(reps), num, den);
    StopReaches(s, Goal(Total(reps), num, den), 0);
  }

  /** The sum of weights does not depend on the order. */
  lemma {:induction false} TotalOfPermutation(s: seq<Rep>, t: seq<Rep>)
    requires multiset(s) == multiset(t)
    ensures Total(s) == Total(t)
    decreases |s|
  {
    if s == [] {
      assert |multiset(t)| == 0;
    } else {
      var r := s[|s| - 1];
      assert r in multiset(t);
      var i :| 0 <= i < |t| && t[i] == r;
      var s', t' := s[..|s| - 1], t[..i] + t[i + 1..];
      assert s == s' + [r];
      ContentsWithout(t, i);
      assert multiset(s') == multiset(s) - multiset{r} && multiset(t') == multiset(t) - multiset{r};
      TotalOfPermutation(s', t');
      TotalWithout(t, i);
    }
  }

  lemma ContentsWithout(t: seq<Rep>, i: nat)
    requires i < |t|
    ensures multiset(t) == multiset(t[..i] + t[i + 1..]) + multiset{t[i]}
  {
    assert t == t[..i] + [t[i]] + t[i + 1..];
  }

  lemma {:induction false} TotalWithout(t: seq<Rep>, i: nat)
    requires i < |t|
    ensures Total(t) == Total(t[..i] + t[i + 1..]) + t[i].weight
    decreases |t|
  {
    var n := |t| - 1;
    if i == n {
      assert t[..i] + t[i + 1..] == t[..n];
    } else {
      TotalWithout(t[..n], i);
      var u := t[..i] + t[i + 1..];
      assert u[..|u| - 1] == t[..n][..i] + t[..n][i + 1..];
    }
  }

  // ------------------------------------------------- fewest records

  /** Number and weight of the chosen positions below n. */
  function Members(chosen: set<nat>, n: nat): nat {
    if n == 0 then 0 else Members(chosen, n - 1) + (if n - 1 in chosen then 1 else 0)
  }

  function Weight(s: seq<Rep>, chosen: set<nat>, n: nat): nat
    requires n <= |s|
  {
    if n == 0 then 0 else Weight(s, chosen, n - 1) + (if n - 1 in chosen then s[n - 1].weight else 0)
  }

  lemma {:induction false} MembersIsSize(chosen: set<nat>, n: nat)
    requires forall i :: i in chosen ==> i < n
    ensures Members(chosen, n) == |chosen|
    decreases n
  {
    if n == 0 {
      assert chosen == {};
    } else {
      var rest := chosen - {n - 1};
      MembersIsSize(rest, n - 1);
      MembersOfRest(chosen, n - 1, n - 1);
      assert n - 1 in chosen ==> chosen == rest + {n - 1};
    }
  }

  lemma {:induction false} MembersOfRest(chosen: set<nat>, k: nat, n: nat)
    requires n <= k
    ensures Members(chosen, n) == Members(chosen - {k}, n)
    decreases n
  {
    if n > 0 { MembersOfRest(chosen, k, n - 1); }
  }

  /** No choice of m representatives outweighs the m heaviest. */
  lemma {:induction false} HeaviestFirst(s: seq<Rep>, chosen: set<nat>, n: nat)
    requires Descending(s) && n <= |s|
    ensures Members(chosen, n) <= n && Weight(s, chosen, n) <= Total(s[..Members(chosen, n)])
    decreases n
  {
    if n > 0 {
      HeaviestFirst(s, chosen, n - 1);
      if n - 1 in chosen { TotalNext(s, Members(chosen, n - 1)); }
    }
  }

  /** chosen is a set of representatives that reaches the goal. */
  predicate Reaches(s: seq<Rep>, chosen: set<nat>, goal: nat) {
    (forall i :: i in chosen ==> i < |s|) && Weight(s, chosen, |s|) >= goal
  }

  ghost predicate FewestRecords(s: seq<Rep>, goal: nat) {
    forall chosen: set<nat> :: Reaches(s, chosen, goal) ==> |chosen| >= Taken(s, goal)
  }

  lemma TakenIsFewest(s: seq<Rep>, goal: nat, chosen: set<nat>)
    requires Descending(s) && 0 < goal <= Total(s) && Reaches(s, chosen, goal)
    ensures |chosen| >= Taken(s, goal)
  {
    StopReaches(s, goal, 0);
    MembersIsSize(chosen, |s|);
    HeaviestFirst(s, chosen, |s|);
    if |chosen| < Taken(s, goal) { TotalMono(s, |chosen|, Taken(s, goal) - 1); }
  }

  /** A goal above the total is reached by nobody. */
  lemma NobodyReaches(s: seq<Rep>, goal: nat, chosen: set<nat>)
    requires Descending(s) && goal > Total(s)
    ensures !Reaches(s, chosen, goal)
  {
    HeaviestFirst(s, chosen, |s|);
    TotalMono(s, Members(chosen, |s|), |s|);
    assert s[..|s|] == s;
  }

  lemma PositiveGoalIsFewest(s: seq<Rep>, goal: nat)
    requires Descending(s) && goal > 0
    ensures FewestRecords(s, goal)
  {
    forall chosen: set<nat> | Reaches(s, chosen, goal)
      ensures |chosen| >= Taken(s, goal)
    {
      if goal > Total(s) { NobodyReaches(s, goal, chosen); } else { TakenIsFewest(s, goal, chosen); }
    }
  }

  /** With nothing to reach, any record is one too many. */
  lemma ZeroGoalIsFewest(s: seq<Rep>)
    requires Descending(s)
    ensures FewestRecords(s, 0) <==> Total(s) == 0
  {
    var none: set<nat> := {};
    assert Reaches(s, none, 0) && |none| == 0;
    assert s[..|s|] == s;
    if s != [] {
      TotalMono(s, 1, |s|);
      TotalNext(s, 0);
      if s[0].weight == 0 { ZerosAddNothing(s, 0, |s|); }
    }
  }

  lemma QuotientZero(x: nat, den: nat)
    requires den > 0
    ensures x / den == 0 <==> x < den
  {
    if x < den { DivUnique(x, den, 0, x); }
  }

  lemma GoalZero(supply: nat, num: nat, den: nat)
    requires den > 0
    ensures Goal(supply, num, den) == 0 <==> (supply / UNIT) * num < den
  {
    QuotientZero((supply / UNIT) * num, den);
  }

  /**
   The selection uses the fewest records exactly when limit times the whole units of the supply is at
   least one unit, or there is no weight at all.
   */
  lemma FewestExactly(reps: seq<Rep>, num: nat, den: nat)
    requires 0 < den
    ensures FewestRecords(Sorted(reps), Goal(Total(reps), num, den)) <==>
            (Total(reps) / UNIT) * num >= den || Total(reps) == 0
  {
    var s := Sorted(reps);
    SortedKeeps(reps);
    TotalOfPermutation(s, reps);
    GoalZero(Total(reps), num, den);
    if Goal(Total(reps), num, den) > 0 {
      PositiveGoalIsFewest(s, Goal(Total(reps), num, den));
    } else {
      ZeroGoalIsFewest(s);
    }
  }

  /** One representative of weight 1: the threshold is 0, which needs no record, and one is written. */
  lemma OneRecordTooMany(account: seq<char>, num: nat, den: nat)
    requires 0 < den
    ensures var reps := [Rep(account, 1)]; var goal := Goal(Total(reps), num, den);
            goal == 0 && Taken(Sorted(reps), goal) == 1 && !FewestRecords(Sorted(reps), goal)
  {
    var reps := [Rep(account, 1)];
    assert reps[..0] == [] && reps[1..] == [] && Total(reps) == 1;
    assert Sorted(reps) == reps;
    assert (1 / UNIT) * num == 0;
    GoalZero(1, num, den);
    FewestExactly(reps, num, den);
    assert reps[..1] == reps;
  }
}

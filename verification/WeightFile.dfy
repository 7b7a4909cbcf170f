/**
 The weight file: written by ci/record_rep_weights.py, read by the node when it
 starts (nano/node/node.cpp) and consulted by ledger::weight (nano/secure/ledger.cpp).
 A byte is a number below 256; both sides use most significant byte first.
 */
module WeightFile {
  import opened Basics
  import opened Digits
  import opened Accounts
  import opened Base32
  import opened RepSelect

  // ------------------------------------------------- unhexlify("%0nX" % v)

  function HexLength(v: nat): (n: nat)
    ensures n >= 1
  {
    if v < 16 then 1 else 1 + HexLength(v / 16)
  }

  /** None stands for the TypeError on an odd number of hex digits; wider values are not cut. */
  function HexBytes(width: nat, v: nat): Option<seq<nat>> {
    var digits := if HexLength(v) > 2 * width then HexLength(v) else 2 * width;
    if digits % 2 == 1 then None else Some(ToDigits(256, digits / 2, v))
  }

  lemma {:induction false} HexLengthBound(v: nat, k: nat)
    requires k > 0 && v < Pow(16, k)
    ensures HexLength(v) <= k
    decreases v
  {
    if v >= 16 {
      assert Pow(16, 1) == 16;
      DivBound(v, 16, Pow(16, k - 1));
      HexLengthBound(v / 16, k - 1);
    }
  }

  /** A value that fits is written in exactly the given number of bytes. */
  lemma HexFits(width: nat, v: nat)
    requires width > 0 && v < Pow(256, width)
    ensures HexBytes(width, v) == Some(ToDigits(256, width, v)) && Value(256, ToDigits(256, width, v)) == v
  {
    assert Pow(16, 2) == 256;
    PowPow(16, 2, width);
    HexLengthBound(v, 2 * width);
    DigitsValue(256, width, v);
    ModSmall(v, Pow(256, width));
  }

  lemma {:induction false} HexLengthExactly(v: nat, k: nat)
    requires k > 0 && Pow(16, k - 1) <= v < Pow(16, k)
    ensures HexLength(v) == k
    decreases k
  {
    if k == 1 {
      assert Pow(16, 0) == 1 && Pow(16, 1) == 16;
    } else {
      var p := Pow(16, k - 2);
      assert Pow(16, k - 1) == 16 * p && Pow(16, k) == 16 * Pow(16, k - 1);
      DivBound(v, 16, Pow(16, k - 1));
      PowPositive(k - 2);
      HexLengthExactly(v / 16, k - 1);
    }
  }

  lemma {:induction false} PowPositive(k: nat)
    ensures Pow(16, k) > 0
  {
    if k > 0 { PowPositive(k - 1); }
  }

  /** A value that does not fit takes as many hex digits as it needs, which must be an even number. */
  lemma HexWide(width: nat, v: nat, k: nat)
    requires k > 2 * width && Pow(16, k - 1) <= v < Pow(16, k)
    ensures HexBytes(width, v) == if k % 2 == 1 then None else Some(ToDigits(256, k / 2, v))
  {
    HexLengthExactly(v, k);
  }

  // ------------------------------------------------- the writer

  function Record(r: Rep): Option<seq<nat>> {
    var account := AddressNumber(r.account);
    if account.None? then None else
    var a := HexBytes(32, account.value);
    var w := HexBytes(16, r.weight);
    if a.None? || w.None? then None else Some(a.value + w.value)
  }

  /** The record each representative would be given; None where building it raises. */
  function Encoded(build: Rep -> Option<seq<nat>>, s: seq<Rep>): (recs: seq<Option<seq<nat>>>)
    ensures |recs| == |s| && forall i :: 0 <= i < |s| ==> recs[i] == build(s[i])
  {
    seq(|s|, i requires 0 <= i < |s| => build(s[i]))
  }

  predicate AllBuilt(recs: seq<Option<seq<nat>>>) {
    forall i :: 0 <= i < |recs| ==> recs[i].Some?
  }

  function Joined(recs: seq<Option<seq<nat>>>): seq<nat>
    requires AllBuilt(recs)
  {
    if recs == [] then [] else Joined(recs[..|recs| - 1]) + recs[|recs| - 1].value
  }

  /** A finished run of the script, or one ended by an exception, with what was written by then. */
  datatype Outcome = Written(file: seq<nat>, count: nat) | Raised(file: seq<nat>)

  /** The first position from k, below n, whose record cannot be built; n if there is none. */
  function FirstBad(recs: seq<Option<seq<nat>>>, k: nat, n: nat): (m: nat)
    requires k <= n <= |recs|
    ensures k <= m <= n && (m < n ==> recs[m].None?)
    ensures forall i :: k <= i < m ==> recs[i].Some?
    decreases n - k
  {
    if k == n || recs[k].None? then k else FirstBad(recs, k + 1, n)
  }

  /** The file when n records are due: all of them, or those before the first that cannot be built. */
  function Finished(file: seq<nat>, recs: seq<Option<seq<nat>>>, n: nat): Outcome
    requires n <= |recs|
  {
    var m := FirstBad(recs, 0, n);
    if m < n then Raised(file + Joined(recs[..m])) else Written(file + Joined(recs[..n]), n)
  }

  function Output(s: seq<Rep>, goal: nat, height: nat): Outcome {
    var header := HexBytes(16, height);
    if header.None? then Raised([]) else Finished(header.value, Encoded(Record, s), Taken(s, goal))
  }

  lemma JoinNext(recs: seq<Option<seq<nat>>>, k: nat)
    requires k < |recs| && AllBuilt(recs[..k]) && recs[k].Some?
    ensures AllBuilt(recs[..k + 1]) && Joined(recs[..k + 1]) == Joined(recs[..k]) + recs[k].value
  {
    assert recs[..k + 1][..k] == recs[..k];
  }

  /** The selection loop. */
  method WriteRecords(reps: seq<Rep>, supplymax: nat, build: Rep -> Option<seq<nat>>, header: seq<nat>)
    returns (r: Outcome)
    ensures r == Finished(header, Encoded(build, reps), Taken(reps, supplymax))
  {
    ghost var recs, n := Encoded(build, reps), Taken(reps, supplymax);
    var file, total, count := header, 0, 0;
    while count < |reps|
      invariant 0 <= count <= |reps| && total == Total(reps[..count])
      invariant n == Stop(reps, supplymax, count) && FirstBad(recs, 0, n) == FirstBad(recs, count, n)
      invariant AllBuilt(recs[..count]) && file == header + Joined(recs[..count])
    {
      var rep := reps[count];
      if rep.weight == 0 { break; }
      TotalNext(reps, count);
      var record := build(rep);
      if record.None? { return Raised(file); }
      JoinNext(recs, count);
      file := file + record.value;
      total := total + rep.weight;
      count := count + 1;
      if total >= supplymax { break; }
    }
    r := Written(file, count);
  }

  method WriteWeights(reps: seq<Rep>, supplymax: nat, height: nat) returns (r: Outcome)
    ensures r == Output(reps, supplymax, height)
  {
    var header := HexBytes(16, height);
    if header.None? {
      r := Raised([]);
    } else {
      r := WriteRecords(reps, supplymax, Record, header.value);
    }
  }

  // ------------------------------------------------- the reader

  /** Complete records only. */
  function Pairs(bytes: seq<nat>): (pairs: seq<(nat, nat)>)
    ensures |pairs| == |bytes| / 48
    decreases |bytes|
  {
    if |bytes| < 48 then []
    else [(Value(256, bytes[..32]), Value(256, bytes[32..48]))] + Pairs(bytes[48..])
  }

  /** Later entries replace earlier ones. */
  function Stored(weights: map<nat, nat>, pairs: seq<(nat, nat)>): map<nat, nat>
    decreases |pairs|
  {
    if pairs == [] then weights else Stored(weights[pairs[0].0 := pairs[0].1], pairs[1..])
  }

  /** What the cast of a 128-bit number to uint64_t gives. */
  type Cast = nat -> nat

  class Ledger {
    var bootstrapWeights: map<nat, nat>
    var bootstrapWeightMaxBlocks: nat
    var checkBootstrapWeights: bool

    /** The constructor leaves bootstrap_weight_max_blocks as it finds it. */
    constructor (garbage: nat)
      ensures bootstrapWeights == map[] && bootstrapWeightMaxBlocks == garbage && checkBootstrapWeights
    {
      bootstrapWeights, bootstrapWeightMaxBlocks, checkBootstrapWeights := map[], garbage, true;
    }

    /** The part of the node's constructor that reads the weight file. */
    method ReadWeights(file: seq<nat>, blocks: nat, cast: Cast)
      modifies this
      ensures checkBootstrapWeights == old(checkBootstrapWeights)
      ensures if |file| >= 16 && blocks < cast(Value(256, file[..16])) then
                && bootstrapWeightMaxBlocks == cast(Value(256, file[..16]))
                && bootstrapWeights == Stored(old(bootstrapWeights), Pairs(file[16..]))
              else
                && bootstrapWeightMaxBlocks == old(bootstrapWeightMaxBlocks)
                && bootstrapWeights == old(bootstrapWeights)
    {
      if |file| < 16 { return; }
      var maxBlocks := cast(Value(256, file[..16]));
      if blocks < maxBlocks {
        bootstrapWeightMaxBlocks := maxBlocks;
        var rest := file[16..];
        while true
          invariant bootstrapWeightMaxBlocks == maxBlocks && checkBootstrapWeights == old(checkBootstrapWeights)
          invariant Stored(bootstrapWeights, Pairs(rest)) == Stored(old(bootstrapWeights), Pairs(file[16..]))
          decreases |rest|
        {
          if |rest| < 32 { break; }
          var account := Value(256, rest[..32]);
          if |rest| - 32 < 16 { break; }
          var weight := Value(256, rest[32..48]);
          assert Pairs(rest)[1..] == Pairs(rest[48..]);
          bootstrapWeights := bootstrapWeights[account := weight];
          rest := rest[48..];
        }
      }
    }

    /** ledger::weight: the bootstrap weight below the block limit, otherwise the stored representation. */
    method VoteWeight(account: nat, blocks: nat, representation: nat) returns (w: nat)
      modifies this`checkBootstrapWeights
      ensures w == (if old(checkBootstrapWeights) && blocks < bootstrapWeightMaxBlocks && account in bootstrapWeights
                    then bootstrapWeights[account] else representation)
      ensures checkBootstrapWeights <==> old(checkBootstrapWeights) && blocks < bootstrapWeightMaxBlocks
    {
      if checkBootstrapWeights {
        if blocks < bootstrapWeightMaxBlocks {
          if account in bootstrapWeights { return bootstrapWeights[account]; }
        } else {
          checkBootstrapWeights := false;
        }
      }
      w := representation;
    }
  }

  // ------------------------------------------------- writer and reader together

  /** Representative r is the account a, printed behind prefix p. */
  predicate Names(h: Hash, p: seq<char>, r: Rep, a: nat) {
    a < ACCOUNT_SPAN && r.account == p + Body(h, a)
  }

  ghost predicate AllNamed(h: Hash, p: seq<char>, s: seq<Rep>, accounts: seq<nat>) {
    |accounts| == |s| && forall i :: 0 <= i < |s| ==> Names(h, p, s[i], accounts[i])
  }

  const WEIGHT_SPAN: nat := 0x1_0000_0000_0000_0000_0000_0000_0000_0000   // 2 to the 128

  predicate Weighed(s: seq<Rep>) {
    forall i :: 0 <= i < |s| ==> s[i].weight < WEIGHT_SPAN
  }

  lemma ByteSpans()
    ensures Pow(256, 16) == WEIGHT_SPAN && Pow(256, 32) == ACCOUNT_SPAN
  {
    assert Pow(256, 8) == 0x1_0000_0000_0000_0000;
    PowAdd(256, 8, 8);
    PowAdd(256, 16, 16);
  }

  /** A record cannot be built exactly when the address does not decode or the weight has an odd number of digits. */
  lemma RecordRaises(r: Rep)
    ensures Record(r).None? <==> AddressNumber(r.account).None? || HexBytes(16, r.weight).None?
  {
    if AddressNumber(r.account).Some? {
      ByteSpans();
      HexFits(32, AddressNumber(r.account).value);
    }
  }

  /** A record of a well-formed representative is 48 bytes that read back as its account and weight. */
  lemma RecordReads(h: Hash, r: Rep, a: nat)
    requires Names(h, "xrb_", r, a) && r.weight < WEIGHT_SPAN
    ensures Record(r).Some? && |Record(r).value| == 48
    ensures Value(256, Record(r).value[..32]) == a && Value(256, Record(r).value[32..48]) == r.weight
  {
    RecoversOldPrefix(h, a);
    ByteSpans();
    HexFits(32, a);
    HexFits(16, r.weight);
    var x, y := ToDigits(256, 32, a), ToDigits(256, 16, r.weight);
    assert Record(r) == Some(x + y) && (x + y)[..32] == x && (x + y)[32..48] == y;
  }

  function Zip(accounts: seq<nat>, s: seq<Rep>): (pairs: seq<(nat, nat)>)
    requires |accounts| == |s|
    ensures |pairs| == |s| && forall i :: 0 <= i < |s| ==> pairs[i] == (accounts[i], s[i].weight)
  {
    seq(|s|, i requires 0 <= i < |s| => (accounts[i], s[i].weight))
  }

  /** A record of 48 bytes that reads as the pair. */
  ghost predicate ReadsAs(rec: Option<seq<nat>>, pair: (nat, nat)) {
    rec.Some? && |rec.value| == 48 && pair == (Value(256, rec.value[..32]), Value(256, rec.value[32..48]))
  }

  ghost predicate Reads(recs: seq<Option<seq<nat>>>, pairs: seq<(nat, nat)>) {
    |recs| == |pairs| && forall i :: 0 <= i < |recs| ==> ReadsAs(recs[i], pairs[i])
  }

  lemma EncodedReads(h: Hash, s: seq<Rep>, accounts: seq<nat>)
    requires AllNamed(h, "xrb_", s, accounts) && Weighed(s)
    ensures Reads(Encoded(Record, s), Zip(accounts, s))
  {
    forall i | 0 <= i < |s|
      ensures ReadsAs(Encoded(Record, s)[i], Zip(accounts, s)[i])
    {
      RecordReads(h, s[i], accounts[i]);
    }
  }

  lemma {:induction false} PairsOfRecords(recs: seq<Option<seq<nat>>>, pairs: seq<(nat, nat)>)
    requires Reads(recs, pairs)
    ensures AllBuilt(recs) && |Joined(recs)| == 48 * |recs| && Pairs(Joined(recs)) == pairs
    decreases |recs|
  {
    if recs != [] {
      var n := |recs| - 1;
      PairsOfRecords(recs[..n], pairs[..n]);
      PairsAppend(Joined(recs[..n]), recs[n].value);
      assert pairs == pairs[..n] + [pairs[n]];
    }
  }

  lemma {:induction false} PairsAppend(a: seq<nat>, r: seq<nat>)
    requires |a| % 48 == 0 && |r| == 48
    ensures Pairs(a + r) == Pairs(a) + [(Value(256, r[..32]), Value(256, r[32..48]))]
    decreases |a|
  {
    if a == [] {
      assert a + r == r && r[48..] == [];
    } else {
      assert |a| >= 48;
      assert (a + r)[..32] == a[..32] && (a + r)[32..48] == a[32..48] && (a + r)[48..] == a[48..] + r;
      PairsAppend(a[48..], r);
    }
  }

  /** The file holds exactly the height and the selected (account, weight) list, in order. */
  lemma FileRoundTrip(h: Hash, s: seq<Rep>, accounts: seq<nat>, goal: nat, height: nat)
    requires AllNamed(h, "xrb_", s, accounts) && Weighed(s) && height < WEIGHT_SPAN
    ensures var n := Taken(s, goal); var r := Output(s, goal, height);
            && r.Written? && r.count == n && |r.file| == 16 + 48 * n
            && Value(256, r.file[..16]) == height
            && Pairs(r.file[16..]) == Zip(accounts[..n], s[..n])
  {
    var n, recs := Taken(s, goal), Encoded(Record, s);
    ByteSpans();
    HexFits(16, height);
    EncodedReads(h, s, accounts);
    assert Zip(accounts, s)[..n] == Zip(accounts[..n], s[..n]);
    PairsOfRecords(recs[..n], Zip(accounts[..n], s[..n]));
    var header, body := ToDigits(256, 16, height), Joined(recs[..n]);
    assert (header + body)[..16] == header && (header + body)[16..] == body;
  }

  ghost predicate NoDuplicates(accounts: seq<nat>) {
    forall i, j :: 0 <= i < j < |accounts| ==> accounts[i] != accounts[j]
  }

  /** The representatives come as the keys of one object, so no account text occurs twice. */
  ghost predicate DistinctKeys(s: seq<Rep>) {
    forall i, j :: 0 <= i < j < |s| ==> s[i].account != s[j].account
  }

  lemma KeysAreAccounts(h: Hash, p: seq<char>, s: seq<Rep>, accounts: seq<nat>)
    requires AllNamed(h, p, s, accounts) && DistinctKeys(s)
    ensures NoDuplicates(accounts)
  {
    forall i, j | 0 <= i < j < |accounts| ensures accounts[i] != accounts[j] {
      assert Names(h, p, s[i], accounts[i]) && Names(h, p, s[j], accounts[j]);
    }
  }

  lemma {:induction false} StoredMissing(weights: map<nat, nat>, pairs: seq<(nat, nat)>, a: nat)
    requires forall i :: 0 <= i < |pairs| ==> pairs[i].0 != a
    ensures a in Stored(weights, pairs) <==> a in weights
    ensures a in weights ==> Stored(weights, pairs)[a] == weights[a]
    decreases |pairs|
  {
    if pairs != [] { StoredMissing(weights[pairs[0].0 := pairs[0].1], pairs[1..], a); }
  }

  /** The last entry of an account decides. */
  lemma {:induction false} StoredLast(weights: map<nat, nat>, pairs: seq<(nat, nat)>, i: nat)
    requires i < |pairs| && forall j :: i < j < |pairs| ==> pairs[j].0 != pairs[i].0
    ensures pairs[i].0 in Stored(weights, pairs) && Stored(weights, pairs)[pairs[i].0] == pairs[i].1
    decreases |pairs|
  {
    var next, t := weights[pairs[0].0 := pairs[0].1], pairs[1..];
    if i == 0 {
      StoredMissing(next, t, pairs[0].0);
    } else {
      assert t[i - 1] == pairs[i];
      StoredLast(next, t, i - 1);
    }
  }

  /** A table holds exactly the first n accounts, with their weights. */
  ghost predicate Holds(weights: map<nat, nat>, accounts: seq<nat>, s: seq<Rep>, n: nat)
    requires n <= |accounts| == |s|
  {
    && (forall i :: 0 <= i < n ==> accounts[i] in weights && weights[accounts[i]] == s[i].weight)
    && (forall a: nat :: a in weights ==> a in accounts[..n])
  }

  lemma RecordedWeights(accounts: seq<nat>, s: seq<Rep>, n: nat)
    requires n <= |accounts| == |s| && NoDuplicates(accounts)
    ensures Holds(Stored(map[], Zip(accounts[..n], s[..n])), accounts, s, n)
  {
    var pairs := Zip(accounts[..n], s[..n]);
    assert forall i :: 0 <= i < n ==> pairs[i] == (accounts[i], s[i].weight);
    forall i | 0 <= i < n
      ensures accounts[i] in Stored(map[], pairs) && Stored(map[], pairs)[accounts[i]] == s[i].weight
    {
      StoredLast(map[], pairs, i);
    }
    forall a: nat | a in Stored(map[], pairs)
      ensures a in accounts[..n]
    {
      if a !in accounts[..n] {
        assert forall i :: 0 <= i < n ==> accounts[..n][i] == accounts[i];
        StoredMissing(map[], pairs, a);
      }
    }
  }

  /** What a reader of the script's file finds. */
  lemma FileContents(h: Hash, s: seq<Rep>, accounts: seq<nat>, goal: nat, height: nat)
    requires AllNamed(h, "xrb_", s, accounts) && NoDuplicates(accounts) && Weighed(s) && height < WEIGHT_SPAN
    ensures var n := Taken(s, goal); var file := Output(s, goal, height).file;
            && |file| >= 16 && Value(256, file[..16]) == height
            && Holds(Stored(map[], Pairs(file[16..])), accounts, s, n)
  {
    FileRoundTrip(h, s, accounts, goal, height);
    RecordedWeights(accounts, s, Taken(s, goal));
  }

  /** The script, from the representatives it was given to its file. */
  method Generate(reps: seq<Rep>, num: nat, den: nat, height: nat) returns (r: Outcome)
    requires 0 < den
    ensures r == Output(Sorted(reps), Goal(Total(reps), num, den), height)
  {
    var s := Sorted(reps);
    SortedKeeps(reps);
    TotalOfPermutation(s, reps);
    var supplymax := SupplyMax(s, num, den);
    r := WriteWeights(s, supplymax, height);
  }

  /** A question for an account's weight: the block count then, and the representation stored by then. */
  datatype Vote = Vote(account: nat, blocks: nat, representation: nat)

  /** No vote so far came at or above the limit. */
  predicate AllBelow(limit: nat, votes: seq<Vote>) {
    forall j :: 0 <= j < |votes| ==> votes[j].blocks < limit
  }

  function Answer(weights: map<nat, nat>, on: bool, v: Vote): nat {
    if on && v.account in weights then weights[v.account] else v.representation
  }

  /** A ledger asked for one weight after another. */
  method AskAll(ledger: Ledger, votes: seq<Vote>) returns (weights: seq<nat>)
    requires ledger.checkBootstrapWeights
    modifies ledger
    ensures |weights| == |votes|
    ensures forall k :: 0 <= k < |votes| ==>
              weights[k] == Answer(old(ledger.bootstrapWeights),
                                   AllBelow(old(ledger.bootstrapWeightMaxBlocks), votes[..k + 1]), votes[k])
  {
    weights := [];
    ghost var limit, table := ledger.bootstrapWeightMaxBlocks, ledger.bootstrapWeights;
    for k := 0 to |votes|
      invariant |weights| == k && ledger.bootstrapWeightMaxBlocks == limit && ledger.bootstrapWeights == table
      invariant ledger.checkBootstrapWeights <==> AllBelow(limit, votes[..k])
      invariant forall i :: 0 <= i < k ==> weights[i] == Answer(table, AllBelow(limit, votes[..i + 1]), votes[i])
    {
      AllBelowNext(limit, votes, k);
      var w := ledger.VoteWeight(votes[k].account, votes[k].blocks, votes[k].representation);
      weights := weights + [w];
    }
  }

  lemma AllBelowNext(limit: nat, votes: seq<Vote>, k: nat)
    requires k < |votes|
    ensures AllBelow(limit, votes[..k + 1]) <==> AllBelow(limit, votes[..k]) && votes[k].blocks < limit
  {
    assert votes[..k + 1] == votes[..k] + [votes[k]];
  }

  /** The file was read below the limit, and no vote so far came at or above it. */
  predicate Bootstrapping(limit: nat, blocks: nat, votes: seq<Vote>) {
    blocks < limit && AllBelow(limit, votes)
  }

  /** The answer to a vote: the recorded weight of a recorded account while bootstrapping, else the representation. */
  ghost predicate Answered(w: nat, v: Vote, on: bool, accounts: seq<nat>, s: seq<Rep>, n: nat)
    requires n <= |accounts| == |s|
  {
    && (forall i :: 0 <= i < n && on && accounts[i] == v.account ==> w == s[i].weight)
    && (!on || v.account !in accounts[..n] ==> w == v.representation)
  }

  /**
   From representatives to votes: a node that reads the file below the recorded height answers each vote with
   the recorded weight of a recorded account, until one vote has come at or above that height; from then on,
   and for every other account, with the stored representation.
   */
  method Bootstrap(reps: seq<Rep>, num: nat, den: nat, height: nat, cast: Cast, garbage: nat, blocks: nat,
                   votes: seq<Vote>, ghost h: Hash, ghost accounts: seq<nat>) returns (weights: seq<nat>)
    requires 0 < den && height < WEIGHT_SPAN
    requires AllNamed(h, "xrb_", Sorted(reps), accounts) && DistinctKeys(Sorted(reps)) && Weighed(Sorted(reps))
    ensures |weights| == |votes|
    ensures var s := Sorted(reps); var n := Taken(s, Goal(Total(reps), num, den));
            forall k :: 0 <= k < |votes| ==>
              Answered(weights[k], votes[k], Bootstrapping(cast(height), blocks, votes[..k + 1]), accounts, s, n)
  {
    ghost var s, n := Sorted(reps), Taken(Sorted(reps), Goal(Total(reps), num, den));
    var r := Generate(reps, num, den, height);
    KeysAreAccounts(h, "xrb_", s, accounts);
    FileContents(h, s, accounts, Goal(Total(reps), num, den), height);
    var ledger := new Ledger(garbage);
    ledger.ReadWeights(r.file, blocks, cast);
    weights := AskAll(ledger, votes);
  }

  /** On the addresses this node prints, the script stops at the first positive weight with only the header written. */
  lemma NodeAddressesRaise(h: Hash, s: seq<Rep>, accounts: seq<nat>, goal: nat, height: nat)
    requires AllNamed(h, "flr_", s, accounts) && height < WEIGHT_SPAN
    requires s != [] && s[0].weight > 0
    ensures Output(s, goal, height) == Raised(ToDigits(256, 16, height))
  {
    ByteSpans();
    HexFits(16, height);
    assert Names(h, "flr_", s[0], accounts[0]);
    FailsOnNodePrefix(h, accounts[0]);
    assert Encoded(Record, s)[0].None? && FirstBad(Encoded(Record, s), 0, Taken(s, goal)) == 0;
    assert Encoded(Record, s)[..0] == [];
  }

  lemma FirstBadAt(recs: seq<Option<seq<nat>>>, k: nat, n: nat, m: nat)
    requires k <= m < n <= |recs| && recs[m].None? && forall i :: k <= i < m ==> recs[i].Some?
    ensures FirstBad(recs, k, n) == m
    decreases n - k
  {
    if k < m { FirstBadAt(recs, k + 1, n, m); }
  }

  /** If the record of a due representative cannot be built, the records before it are in the file, and no more. */
  lemma RaisedFile(h: Hash, s: seq<Rep>, accounts: seq<nat>, goal: nat, height: nat, m: nat)
    requires m < Taken(s, goal) && height < WEIGHT_SPAN && Record(s[m]).None?
    requires AllNamed(h, "xrb_", s[..m], accounts) && Weighed(s[..m])
    ensures var r := Output(s, goal, height);
            && r.Raised? && |r.file| == 16 + 48 * m
            && Value(256, r.file[..16]) == height
            && Pairs(r.file[16..]) == Zip(accounts, s[..m])
  {
    var n, recs := Taken(s, goal), Encoded(Record, s);
    ByteSpans();
    HexFits(16, height);
    EncodedReads(h, s[..m], accounts);
    assert Encoded(Record, s[..m]) == recs[..m];
    PairsOfRecords(recs[..m], Zip(accounts, s[..m]));
    assert forall i :: 0 <= i < m ==> recs[i] == recs[..m][i];
    FirstBadAt(recs, 0, n, m);
    var header, body := ToDigits(256, 16, height), Joined(recs[..m]);
    assert (header + body)[..16] == header && (header + body)[16..] == body;
  }
}

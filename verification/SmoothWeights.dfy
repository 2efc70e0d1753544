/**
 Smooth weighted round robin as arithmetic on integer sequences.

 One pick adds every candidate's weight to its current weight, takes the first
 candidate with the largest current weight and charges it the total weight.
 The theorems below say how fair a run of such picks is.
 */
module SmoothWeights {

  function Sum(s: seq<int>): int {
    if s == [] then 0 else Sum(s[..|s| - 1]) + s[|s| - 1]
  }

  function Count(s: seq<nat>, x: nat): nat {
    if s == [] then 0 else Count(s[..|s| - 1], x) + (if s[|s| - 1] == x then 1 else 0)
  }

  function Zeros(n: nat): (z: seq<int>)
    ensures |z| == n && forall i :: 0 <= i < n ==> z[i] == 0
  {
    seq(n, _ => 0)
  }

  predicate Positive(w: seq<int>) {
    |w| > 0 && forall i :: 0 <= i < |w| ==> w[i] > 0
  }

  /** Index of the first largest element. */
  function ArgMax(s: seq<int>): (m: nat)
    requires |s| > 0
    ensures m < |s|
  {
    if |s| == 1 then 0
    else
      var m := ArgMax(s[..|s| - 1]);
      if s[|s| - 1] > s[m] then |s| - 1 else m
  }

  function Bump(cw: seq<int>, w: seq<int>): (b: seq<int>)
    requires |cw| == |w|
    ensures |b| == |w|
  {
    seq(|w|, i requires 0 <= i < |w| => cw[i] + w[i])
  }

  function Choice(cw: seq<int>, w: seq<int>): (c: nat)
    requires |cw| == |w| > 0
    ensures c < |w|
  {
    ArgMax(Bump(cw, w))
  }

  /** The current weights after one pick. */
  function Next(cw: seq<int>, w: seq<int>): (n: seq<int>)
    requires |cw| == |w| > 0
    ensures |n| == |w|
  {
    var b := Bump(cw, w);
    b[Choice(cw, w) := b[Choice(cw, w)] - Sum(w)]
  }

  /** The current weights after `k` picks. */
  function After(cw: seq<int>, w: seq<int>, k: nat): (n: seq<int>)
    requires |cw| == |w| > 0
    ensures |n| == |w|
  {
    if k == 0 then cw else Next(After(cw, w, k - 1), w)
  }

  /** The candidates chosen by the first `k` picks, in order. */
  function Picks(cw: seq<int>, w: seq<int>, k: nat): (p: seq<nat>)
    requires |cw| == |w| > 0
    ensures |p| == k && forall i :: 0 <= i < k ==> p[i] < |w|
  {
    if k == 0 then [] else Picks(cw, w, k - 1) + [Choice(After(cw, w, k - 1), w)]
  }

  lemma {:induction false} CountStep(cw: seq<int>, w: seq<int>, k: nat, i: nat)
    requires |cw| == |w| > 0 && k > 0
    ensures Count(Picks(cw, w, k), i) == Count(Picks(cw, w, k - 1), i) + (if Choice(After(cw, w, k - 1), w) == i then 1 else 0)
  {
    assert Picks(cw, w, k)[..k - 1] == Picks(cw, w, k - 1);
  }

  // ----- sums ---------------------------------------------------------------

  lemma {:induction false} SumUpdate(s: seq<int>, i: nat, x: int)
    requires i < |s|
    ensures Sum(s[i := x]) == Sum(s) - s[i] + x
  {
    var n := |s| - 1;
    if i == n {
      assert s[i := x][..n] == s[..n];
    } else {
      assert s[i := x][..n] == s[..n][i := x];
      SumUpdate(s[..n], i, x);
    }
  }

  lemma {:induction false} SumBump(cw: seq<int>, w: seq<int>)
    requires |cw| == |w|
    ensures Sum(Bump(cw, w)) == Sum(cw) + Sum(w)
  {
    if w != [] {
      var n := |w| - 1;
      assert Bump(cw, w)[..n] == Bump(cw[..n], w[..n]);
      SumBump(cw[..n], w[..n]);
    }
  }

  lemma {:induction false} SumZeros(n: nat)
    ensures Sum(Zeros(n)) == 0
  {
    if n > 0 {
      assert Zeros(n)[..n - 1] == Zeros(n - 1);
      SumZeros(n - 1);
    }
  }

  lemma {:induction false} SumAtMost(s: seq<int>, bound: int)
    requires forall i :: 0 <= i < |s| ==> s[i] <= bound
    ensures Sum(s) <= |s| * bound
  {
    if s != [] {
      SumAtMost(s[..|s| - 1], bound);
    }
  }

  lemma {:induction false} SumPositive(w: seq<int>)
    requires forall i :: 0 <= i < |w| ==> w[i] > 0
    ensures Sum(w) >= |w|
  {
    if w != [] {
      SumPositive(w[..|w| - 1]);
    }
  }

  /** A pointwise bound whose sums agree is an equality. */
  lemma {:induction false} SumSqueeze(a: seq<int>, b: seq<int>)
    requires |a| == |b|
    requires forall i :: 0 <= i < |a| ==> a[i] <= b[i]
    ensures Sum(a) <= Sum(b)
    ensures Sum(a) == Sum(b) ==> a == b
  {
    if a != [] {
      var n := |a| - 1;
      SumSqueeze(a[..n], b[..n]);
      if Sum(a) == Sum(b) {
        assert a == a[..n] + [a[n]] && b == b[..n] + [b[n]];
      }
    }
  }

  lemma {:induction false} SumPrefix(s: seq<int>, i: nat)
    requires i < |s|
    ensures Sum(s[..i + 1]) == Sum(s[..i]) + s[i]
  {
    assert s[..i + 1][..i] == s[..i];
  }

  lemma {:induction false} ArgMaxPrefix(s: seq<int>, i: nat)
    requires 0 < i < |s|
    ensures ArgMax(s[..i + 1]) == if s[i] > s[ArgMax(s[..i])] then i else ArgMax(s[..i])
  {
    assert s[..i + 1][..i] == s[..i];
  }

  lemma {:induction false} ArgMaxIsFirstMax(s: seq<int>)
    requires |s| > 0
    ensures forall i :: 0 <= i < |s| ==> s[i] <= s[ArgMax(s)]
    ensures forall i :: 0 <= i < ArgMax(s) ==> s[i] < s[ArgMax(s)]
  {
    if |s| > 1 {
      ArgMaxIsFirstMax(s[..|s| - 1]);
    }
  }

  // ----- one pick -----------------------------------------------------------

  /** A pick moves weight between candidates: the total never changes. */
  lemma {:induction false} NextKeepsSum(cw: seq<int>, w: seq<int>)
    requires |cw| == |w| > 0
    ensures Sum(Next(cw, w)) == Sum(cw)
  {
    SumBump(cw, w);
    var b, c := Bump(cw, w), Choice(cw, w);
    SumUpdate(b, c, b[c] - Sum(w));
  }

  /** With balanced current weights the chosen candidate stands above zero. */
  lemma {:induction false} ChosenIsPositive(cw: seq<int>, w: seq<int>)
    requires |cw| == |w| && Positive(w) && Sum(cw) == 0
    ensures Bump(cw, w)[Choice(cw, w)] > 0
  {
    var b := Bump(cw, w);
    SumBump(cw, w);
    SumPositive(w);
    if b[Choice(cw, w)] <= 0 {
      ArgMaxIsFirstMax(b);
      SumAtMost(b, 0);
    }
  }

  // ----- runs ---------------------------------------------------------------

  /** Credit earned over `k` picks minus the rounds charged. */
  function Balance(k: nat, wi: int, total: int, charged: nat): int {
    k * wi - total * charged
  }

  /** Bookkeeping of `k` picks from rest: the pool stays balanced and nobody is in debt by a full round. */
  lemma {:induction false} Bounded(w: seq<int>, k: nat)
    requires Positive(w)
    ensures Sum(After(Zeros(|w|), w, k)) == 0
    ensures forall i :: 0 <= i < |w| ==> After(Zeros(|w|), w, k)[i] > -Sum(w)
  {
    SumPositive(w);
    if k == 0 {
      SumZeros(|w|);
    } else {
      Bounded(w, k - 1);
      var cw := After(Zeros(|w|), w, k - 1);
      NextKeepsSum(cw, w);
      ChosenIsPositive(cw, w);
    }
  }

  lemma {:induction false} NextAt(cw: seq<int>, w: seq<int>, i: nat)
    requires |cw| == |w| > 0 && i < |w|
    ensures Next(cw, w)[i] == cw[i] + w[i] - (if Choice(cw, w) == i then Sum(w) else 0)
  {
  }

  /** A candidate's current weight is exactly its credit minus its charges. */
  lemma {:induction false} Ledger(w: seq<int>, k: nat, i: nat)
    requires Positive(w) && i < |w|
    ensures After(Zeros(|w|), w, k)[i] == Balance(k, w[i], Sum(w), Count(Picks(Zeros(|w|), w, k), i))
  {
    if k > 0 {
      Ledger(w, k - 1, i);
      LedgerStep(Zeros(|w|), w, k, i);
    }
  }

  lemma {:induction false} LedgerStep(z: seq<int>, w: seq<int>, k: nat, i: nat)
    requires |z| == |w| > 0 && i < |w| && k > 0
    requires After(z, w, k - 1)[i] == Balance(k - 1, w[i], Sum(w), Count(Picks(z, w, k - 1), i))
    ensures After(z, w, k)[i] == Balance(k, w[i], Sum(w), Count(Picks(z, w, k), i))
  {
    var before, wi, total, c := After(z, w, k - 1), w[i], Sum(w), Count(Picks(z, w, k - 1), i);
    CountStep(z, w, k, i);
    NextAt(before, w, i);
    BalanceStep(k, wi, total, c);
    assert After(z, w, k) == Next(before, w);
  }

  lemma {:induction false} BalanceStep(k: nat, wi: int, total: int, c: nat)
    requires k > 0
    ensures Balance(k, wi, total, c) == Balance(k - 1, wi, total, c) + wi
    ensures Balance(k, wi, total, c + 1) == Balance(k - 1, wi, total, c) + wi - total
  {
  }

  /** Every pick names one candidate, so the counts add up to the picks. */
  lemma {:induction false} CountsAddUp(p: seq<nat>, n: nat)
    requires forall i :: 0 <= i < |p| ==> p[i] < n
    ensures Sum(seq(n, i requires 0 <= i < n => Count(p, i))) == |p|
  {
    var counts := seq(n, i requires 0 <= i < n => Count(p, i));
    if p == [] {
      assert counts == Zeros(n);
      SumZeros(n);
    } else {
      var q := p[..|p| - 1];
      var before := seq(n, i requires 0 <= i < n => Count(q, i));
      CountsAddUp(q, n);
      var c := p[|p| - 1];
      assert counts == before[c := before[c] + 1];
      SumUpdate(before, c, before[c] + 1);
    }
  }

  /** One full round of `Sum(w)` picks serves each candidate exactly its weight and ends at rest. */
  lemma {:induction false} ExactlyFairRound(w: seq<int>)
    requires Positive(w)
    ensures Sum(w) > 0
    ensures forall i :: 0 <= i < |w| ==> Count(Picks(Zeros(|w|), w, Sum(w)), i) == w[i]
    ensures After(Zeros(|w|), w, Sum(w)) == Zeros(|w|)
  {
    SumPositive(w);
    var z, total := Zeros(|w|), Sum(w);
    var p := Picks(z, w, total);
    Bounded(w, total);
    CountsAddUp(p, |w|);
    var counts := seq(|w|, i requires 0 <= i < |w| => Count(p, i));
    forall i | 0 <= i < |w| ensures counts[i] <= w[i] {
      Ledger(w, total, i);
      RoundsOwed(total, w[i], Count(p, i));
    }
    SumSqueeze(counts, w);
    forall i | 0 <= i < |w| ensures After(z, w, total)[i] == 0 {
      Ledger(w, total, i);
      assert counts[i] == w[i];
    }
  }

  lemma {:induction false} RoundsOwed(total: int, wi: int, c: nat)
    requires total > 0 && Balance(total, wi, total, c) > -total
    ensures c <= wi
  {
    assert total * (wi - c + 1) > 0;
  }

  lemma {:induction false} RunsCompose(cw: seq<int>, w: seq<int>, j: nat, k: nat)
    requires |cw| == |w| > 0
    ensures After(cw, w, j + k) == After(After(cw, w, j), w, k)
  {
    if k > 0 {
      RunsCompose(cw, w, j, k - 1);
    }
  }

  /** The schedule repeats with period `Sum(w)`. */
  lemma {:induction false} Periodic(w: seq<int>, k: nat)
    requires Positive(w)
    ensures Sum(w) > 0
    ensures After(Zeros(|w|), w, k + Sum(w)) == After(Zeros(|w|), w, k)
  {
    ExactlyFairRound(w);
    RunsCompose(Zeros(|w|), w, Sum(w), k);
  }

  /** Any `Sum(w)` consecutive picks, wherever they start, are exactly fair. */
  lemma {:induction false} FairInEveryWindow(cw: seq<int>, w: seq<int>, k: nat, later: nat, i: nat)
    requires Positive(w) && i < |w| && cw == Zeros(|w|) && later == k + Sum(w)
    ensures |w| > 0 && Sum(w) > 0
    ensures Count(Picks(cw, w, later), i) == Count(Picks(cw, w, k), i) + w[i]
  {
    Periodic(w, k);
    Ledger(w, k, i);
    Ledger(w, later, i);
    CancelRound(k, Sum(w), w[i], Count(Picks(cw, w, k), i), Count(Picks(cw, w, later), i));
  }

  lemma {:induction false} CancelRound(k: nat, total: int, wi: int, before: nat, after: nat)
    requires total > 0
    requires Balance(k, wi, total, before) == Balance(k + total, wi, total, after)
    ensures after == before + wi
  {
    assert total * (after - before - wi) == 0;
  }
}

/**
 The arithmetic behind the stamp dispenser, as pure functions over a sequence
 of denominations: what one greedy pass dispenses, how the source's outer loop
 keeps the best pass, and what the overall answer is. The class in module
 Dispenser is proved against these definitions.
 */
module Greedy {

  // ---------------------------------------------------------------------------
  // Denomination lists
  // ---------------------------------------------------------------------------

  /** Each element is smaller than the one before it (the check the constructor makes). */
  predicate StrictlyDescending(s: seq<int>) {
    forall k :: 0 < k < |s| ==> s[k] < s[k - 1]
  }

  /** What the constructor accepts: a non-empty, strictly descending list ending in 1. */
  predicate ValidDenominations(s: seq<int>) {
    |s| >= 1 && s[|s| - 1] == 1 && StrictlyDescending(s)
  }

  /** Every denomination is worth at least one unit. */
  predicate Positive(s: seq<int>) {
    forall k :: 0 <= k < |s| ==> s[k] >= 1
  }

  /** Comparing neighbours is enough: the whole list is strictly ordered. */
  lemma {:induction false} DescendingOrdered(s: seq<int>, i: int, j: int)
    requires StrictlyDescending(s)
    requires 0 <= i < j < |s|
    ensures s[j] < s[i]
  {
    if j > i + 1 {
      DescendingOrdered(s, i, j - 1);
    }
  }

  /** A valid list has no zero or negative denomination, and only its last element is 1. */
  lemma AllAtLeastOne(s: seq<int>)
    requires ValidDenominations(s)
    ensures Positive(s)
    ensures forall k :: 0 <= k < |s| - 1 ==> s[k] > 1
  {
    forall k | 0 <= k < |s| - 1
      ensures s[k] > 1
    {
      DescendingOrdered(s, k, |s| - 1);
    }
  }

  // ---------------------------------------------------------------------------
  // Sums of dispensed stamps
  // ---------------------------------------------------------------------------

  /** Total value of a list of stamps. */
  function Sum(s: seq<int>): int {
    if s == [] then 0 else s[0] + Sum(s[1..])
  }

  /** `count` stamps of value `v`. */
  function Repeat(v: int, count: nat): (r: seq<int>)
    ensures |r| == count
    ensures forall x :: x in r ==> x == v
  {
    if count == 0 then [] else [v] + Repeat(v, count - 1)
  }

  lemma {:induction false} SumConcat(a: seq<int>, b: seq<int>)
    ensures Sum(a + b) == Sum(a) + Sum(b)
  {
    if a == [] {
      assert a + b == b;
    } else {
      assert (a + b)[1..] == a[1..] + b;
      SumConcat(a[1..], b);
    }
  }

  lemma {:induction false} SumRepeat(v: int, count: nat)
    ensures Sum(Repeat(v, count)) == v * count
  {
    if count > 0 {
      SumRepeat(v, count - 1);
    }
  }

  lemma DivMod(rem: int, v: int)
    requires 1 <= v <= rem
    ensures 0 <= rem % v < v
    ensures rem == v * (rem / v) + rem % v
  {
  }

  lemma DivAtLeastOne(rem: int, v: int)
    requires 1 <= v <= rem
    ensures 1 <= rem / v
  {
  }

  lemma {:induction false} MulAtLeast(a: int, b: nat)
    requires a >= 1
    ensures b <= a * b
  {
    if b > 0 {
      MulAtLeast(a, b - 1);
      assert a * b == a * (b - 1) + a;
    }
  }

  /** Taking as many stamps of value `v` as fit into `rem`, and what is left over. */
  lemma DivideRequest(rem: int, v: int)
    requires 1 <= v <= rem
    ensures 0 <= rem % v < v
    ensures rem == v * (rem / v) + rem % v
    ensures 1 <= rem / v <= v * (rem / v) <= rem
  {
    DivMod(rem, v);
    DivAtLeastOne(rem, v);
    MulAtLeast(v, rem / v);
  }

  /** `stamps` is a selection, with repetition, of denominations of `d` worth exactly `request`. */
  predicate FillsRequest(d: seq<int>, stamps: seq<int>, request: int) {
    (forall x :: x in stamps ==> x in d) && Sum(stamps) == request
  }

  // ---------------------------------------------------------------------------
  // One greedy pass
  // ---------------------------------------------------------------------------

  /** Outcome of a pass: stamps taken and value still unfilled. */
  datatype PassResult = PassResult(stamps: int, rest: int)

  /**
   The inner loop of the request method, as written: from denomination `j`
   on, take `rem / d[j]` stamps of every denomination not larger than what is
   left, and stop at once, with one more stamp, when what is left becomes 1.
   Each stamp counted is worth at least 1, so stamps and rest never exceed
   the value the pass started with.
   */
  function Pass(d: seq<int>, j: nat, rem: int): (r: PassResult)
    requires ValidDenominations(d)
    ensures rem <= 0 ==> r == PassResult(0, rem)
    ensures rem > 0 ==> 0 <= r.stamps && 0 <= r.rest && r.stamps + r.rest <= rem
    ensures rem > 0 && r.rest < rem ==> r.stamps >= 1
    decreases |d| - j
  {
    AllAtLeastOne(d);
    if j >= |d| || rem <= 0 then PassResult(0, rem)
    else if rem >= d[j] then
      var q, left := rem / d[j], rem % d[j];
      DivideRequest(rem, d[j]);
      if left == 1 then PassResult(q + 1, 0)
      else
        var p := Pass(d, j + 1, left);
        PassResult(q + p.stamps, p.rest)
    else Pass(d, j + 1, rem)
  }

  /**
   The stamps a plain greedy pass from denomination `j` dispenses, with no
   early stop: every denomination down to the last is tried.
   */
  function Dispensed(d: seq<int>, j: nat, rem: int): (r: seq<int>)
    requires ValidDenominations(d)
    ensures forall x :: x in r ==> x in d
    decreases |d| - j
  {
    AllAtLeastOne(d);
    if j >= |d| || rem <= 0 then []
    else if rem >= d[j] then
      DivideRequest(rem, d[j]);
      Repeat(d[j], rem / d[j]) + Dispensed(d, j + 1, rem % d[j])
    else Dispensed(d, j + 1, rem)
  }

  /** A plain pass that has 1 left to fill takes exactly the final 1-valued stamp. */
  lemma {:induction false} DispensedOne(d: seq<int>, j: nat)
    requires ValidDenominations(d)
    requires j < |d|
    ensures Dispensed(d, j, 1) == [1]
    decreases |d| - j
  {
    AllAtLeastOne(d);
    if j < |d| - 1 {
      DispensedOne(d, j + 1);
    } else {
      assert Repeat(1, 1) == [1];
    }
  }

  /** Because the last denomination is 1, a plain pass always fills the request exactly. */
  lemma {:induction false} DispensedExact(d: seq<int>, j: nat, rem: int)
    requires ValidDenominations(d)
    requires j < |d|
    requires rem >= 0
    ensures FillsRequest(d, Dispensed(d, j, rem), rem)
    decreases |d| - j
  {
    AllAtLeastOne(d);
    if rem == 0 {
    } else if rem >= d[j] {
      DivideRequest(rem, d[j]);
      var q, left := rem / d[j], rem % d[j];
      var tail := Dispensed(d, j + 1, left);
      if j + 1 < |d| {
        DispensedExact(d, j + 1, left);
      } else {
        assert d[j] == 1 && left == 0 && tail == [];
      }
      SumConcat(Repeat(d[j], q), tail);
      SumRepeat(d[j], q);
    } else {
      DispensedExact(d, j + 1, rem);
    }
  }

  /**
   Stopping a pass early when 1 is left gives the same count and the same
   remainder as continuing it down to the final 1-valued denomination.
   */
  lemma {:induction false} ShortCircuitEquivalent(d: seq<int>, j: nat, rem: int)
    requires ValidDenominations(d)
    requires j <= |d|
    ensures Pass(d, j, rem) == PassResult(|Dispensed(d, j, rem)|, rem - Sum(Dispensed(d, j, rem)))
    decreases |d| - j
  {
    AllAtLeastOne(d);
    if j == |d| || rem <= 0 {
    } else if rem >= d[j] {
      DivideRequest(rem, d[j]);
      var q, left := rem / d[j], rem % d[j];
      var tail := Dispensed(d, j + 1, left);
      SumConcat(Repeat(d[j], q), tail);
      SumRepeat(d[j], q);
      if left == 1 {
        DispensedOne(d, j + 1);
      } else {
        ShortCircuitEquivalent(d, j + 1, left);
      }
    } else {
      ShortCircuitEquivalent(d, j + 1, rem);
    }
  }

  /** Every pass over a valid list fills a positive request, with between 1 and `rem` stamps. */
  lemma PassFills(d: seq<int>, j: nat, rem: int)
    requires ValidDenominations(d)
    requires j < |d|
    requires rem > 0
    ensures Pass(d, j, rem).rest == 0
    ensures 1 <= Pass(d, j, rem).stamps <= rem
    ensures Pass(d, j, rem).stamps == |Dispensed(d, j, rem)|
  {
    ShortCircuitEquivalent(d, j, rem);
    DispensedExact(d, j, rem);
  }

  // ---------------------------------------------------------------------------
  // The multi-start search
  // ---------------------------------------------------------------------------

  /**
   The value of `numStamps` after the outer loop has run passes from the
   first `k` start indices: 0 while no pass has filled the request, and then
   the smallest count among the passes that did.
   */
  function Best(d: seq<int>, request: int, k: nat): (r: int)
    requires ValidDenominations(d)
    requires k <= |d|
    ensures request > 0 && (forall i :: 0 <= i < k ==> Pass(d, i, request).rest != 0) ==> r == 0
    ensures request > 0 && (exists i :: 0 <= i < k && Pass(d, i, request).rest == 0) ==>
      (exists i :: 0 <= i < k && Pass(d, i, request).rest == 0 && r == Pass(d, i, request).stamps)
    ensures forall i :: 0 <= i < k && Pass(d, i, request).rest == 0 ==> r <= Pass(d, i, request).stamps
  {
    if k == 0 then 0
    else
      var numStamps := Best(d, request, k - 1);
      var p := Pass(d, k - 1, request);
      if p.rest == 0 && (numStamps == 0 || p.stamps < numStamps) then p.stamps else numStamps
  }

  /** One more iteration of the outer loop: the pass from start `k` replaces the best so far if it does better. */
  lemma BestStep(d: seq<int>, request: int, k: nat)
    requires ValidDenominations(d)
    requires k < |d|
    ensures Best(d, request, k + 1) ==
      var p := Pass(d, k, request);
      if p.rest == 0 && (Best(d, request, k) == 0 || p.stamps < Best(d, request, k)) then p.stamps
      else Best(d, request, k)
  {
  }

  /**
   The answer of the request method: -1 for a negative request, 0 for zero,
   and otherwise the best of the passes from every start index but the last.
   With a single denomination no pass runs and the answer is 0.
   */
  function FillRequest(d: seq<int>, request: int): (r: int)
    requires ValidDenominations(d)
    ensures request < 0 ==> r == -1
    ensures request == 0 ==> r == 0
    ensures |d| == 1 && request > 0 ==> r == 0
  {
    if request < 0 then -1
    else if request == 0 then 0
    else Best(d, request, |d| - 1)
  }

  /**
   With at least two denominations and a positive request, the answer is the
   minimum, over start indices 0 .. |d| - 2, of the plain greedy count from
   that index: it is reached by some start and no start does better.
   */
  lemma FillRequestIsMinimum(d: seq<int>, request: int)
    requires ValidDenominations(d)
    requires |d| >= 2
    requires request > 0
    ensures exists i :: 0 <= i < |d| - 1 && FillRequest(d, request) == |Dispensed(d, i, request)|
    ensures forall i :: 0 <= i < |d| - 1 ==> FillRequest(d, request) <= |Dispensed(d, i, request)|
  {
    AllAtLeastOne(d);
    forall i | 0 <= i < |d| - 1
      ensures Pass(d, i, request).rest == 0 && Pass(d, i, request).stamps == |Dispensed(d, i, request)|
    {
      PassFills(d, i, request);
    }
    assert Pass(d, 0, request).rest == 0;
  }

  /**
   The answer is the size of a selection of denominations worth exactly the
   request.
   */
  lemma FillRequestDispensesExactly(d: seq<int>, request: int)
    requires ValidDenominations(d)
    requires |d| >= 2
    requires request > 0
    ensures exists i :: 0 <= i < |d| - 1 && FillRequest(d, request) == |Dispensed(d, i, request)|
                        && FillsRequest(d, Dispensed(d, i, request), request)
  {
    FillRequestIsMinimum(d, request);
    var i :| 0 <= i < |d| - 1 && FillRequest(d, request) == |Dispensed(d, i, request)|;
    PassFills(d, i, request);
    DispensedExact(d, i, request);
  }

  /** A positive request is answered with at least 1 and at most `request` stamps. */
  lemma FillRequestBounds(d: seq<int>, request: int)
    requires ValidDenominations(d)
    requires |d| >= 2
    requires request > 0
    ensures 1 <= FillRequest(d, request) <= request
  {
    FillRequestIsMinimum(d, request);
    var i :| 0 <= i < |d| - 1 && FillRequest(d, request) == |Dispensed(d, i, request)|;
    PassFills(d, i, request);
  }

  /** Trying several start indices never does worse than the plain greedy pass from the first. */
  lemma NoWorseThanFirstPass(d: seq<int>, request: int)
    requires ValidDenominations(d)
    requires |d| >= 2
    requires request > 0
    ensures FillRequest(d, request) <= |Dispensed(d, 0, request)|
  {
    FillRequestIsMinimum(d, request);
  }
}

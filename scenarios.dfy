/**
 The cases the source's entry point asserts, on the denominations
 90, 30, 24, 10, 6, 2, 1, and a list on which the multi-start greedy search
 is not optimal.
 */
module Scenarios {
  import opened Greedy
  import opened Dispenser

  const Postage: seq<int> := [90, 30, 24, 10, 6, 2, 1]

  lemma PostageIsValid()
    ensures ValidDenominations(Postage)
    ensures Postage[0] == 90 && Postage[1] == 30 && Postage[2] == 24 && Postage[3] == 10
    ensures Postage[4] == 6 && Postage[5] == 2 && Postage[6] == 1
  {
  }

  // The passes from each start index 0 .. 5, and the best of them, for the
  // requests the entry point asserts.

  lemma PostagePasses18()
    ensures ValidDenominations(Postage)
    ensures Pass(Postage, 0, 18) == PassResult(3, 0)
    ensures Pass(Postage, 1, 18) == PassResult(3, 0)
    ensures Pass(Postage, 2, 18) == PassResult(3, 0)
    ensures Pass(Postage, 3, 18) == PassResult(3, 0)
    ensures Pass(Postage, 4, 18) == PassResult(3, 0)
    ensures Pass(Postage, 5, 18) == PassResult(9, 0)
  {
    PostageIsValid();
  }

  lemma PostageAnswer18()
    ensures ValidDenominations(Postage) && FillRequest(Postage, 18) == 3
  {
    PostagePasses18();
    assert Best(Postage, 18, 1) == 3;
    assert Best(Postage, 18, 2) == 3;
    assert Best(Postage, 18, 3) == 3;
    assert Best(Postage, 18, 4) == 3;
    assert Best(Postage, 18, 5) == 3;
    assert Best(Postage, 18, 6) == 3;
  }

  lemma PostageAnswerNegative()
    ensures ValidDenominations(Postage)
    ensures FillRequest(Postage, -10) == -1 && FillRequest(Postage, -1) == -1
    ensures FillRequest(Postage, 0) == 0
  {
    PostageIsValid();
  }

  lemma PostageAnswerSmall()
    ensures ValidDenominations(Postage)
    ensures FillRequest(Postage, 1) == 1 && FillRequest(Postage, 2) == 1
    ensures FillRequest(Postage, 5) == 3
  {
    PostageIsValid();
  }

  lemma PostagePasses34()
    ensures ValidDenominations(Postage)
    ensures Pass(Postage, 0, 34) == PassResult(3, 0)
    ensures Pass(Postage, 1, 34) == PassResult(3, 0)
    ensures Pass(Postage, 2, 34) == PassResult(2, 0)
    ensures Pass(Postage, 3, 34) == PassResult(5, 0)
    ensures Pass(Postage, 4, 34) == PassResult(7, 0)
    ensures Pass(Postage, 5, 34) == PassResult(17, 0)
  {
    PostageIsValid();
  }

  lemma PostageAnswer34()
    ensures ValidDenominations(Postage) && FillRequest(Postage, 34) == 2
  {
    PostagePasses34();
    assert Best(Postage, 34, 1) == 3;
    assert Best(Postage, 34, 2) == 3;
    assert Best(Postage, 34, 3) == 2;
    assert Best(Postage, 34, 4) == 2;
    assert Best(Postage, 34, 5) == 2;
    assert Best(Postage, 34, 6) == 2;
  }

  lemma PostagePasses72()
    ensures ValidDenominations(Postage)
    ensures Pass(Postage, 0, 72) == PassResult(4, 0)
    ensures Pass(Postage, 1, 72) == PassResult(4, 0)
    ensures Pass(Postage, 2, 72) == PassResult(3, 0)
    ensures Pass(Postage, 3, 72) == PassResult(8, 0)
    ensures Pass(Postage, 4, 72) == PassResult(12, 0)
    ensures Pass(Postage, 5, 72) == PassResult(36, 0)
  {
    PostageIsValid();
  }

  lemma PostageAnswer72()
    ensures ValidDenominations(Postage) && FillRequest(Postage, 72) == 3
  {
    PostagePasses72();
    assert Best(Postage, 72, 1) == 4;
    assert Best(Postage, 72, 2) == 4;
    assert Best(Postage, 72, 3) == 3;
    assert Best(Postage, 72, 4) == 3;
    assert Best(Postage, 72, 5) == 3;
    assert Best(Postage, 72, 6) == 3;
  }

  const NonCanonical: seq<int> := [10, 6, 1]

  lemma NonCanonicalPasses()
    ensures ValidDenominations(NonCanonical)
    ensures Pass(NonCanonical, 0, 22) == PassResult(4, 0)
    ensures Pass(NonCanonical, 1, 22) == PassResult(7, 0)
  {
    assert NonCanonical[0] == 10 && NonCanonical[1] == 6 && NonCanonical[2] == 1;
  }

  /**
   On 10, 6, 1 the search answers 4 for 22 (10 + 10 + 1 + 1), although the
   three stamps 10 + 6 + 6 fill the request.
   */
  lemma NotOptimal()
    ensures ValidDenominations(NonCanonical)
    ensures FillRequest(NonCanonical, 22) == 4
    ensures FillsRequest(NonCanonical, [10, 6, 6], 22)
  {
    NonCanonicalPasses();
    assert Best(NonCanonical, 22, 2) == 4;
  }

  /** A single denomination 1: no pass runs and every positive request is answered with 0. */
  lemma SingleDenominationAnswersZero(request: int)
    requires request > 0
    ensures ValidDenominations([1])
    ensures FillRequest([1], request) == 0
  {
  }

  /**
   The entry point's sequence of calls, on a dispenser built from an array:
   the answers to 18, -10, -1, 0, 1, 2, 5, 34 and 72, in that order.
   */
  method PostageDispenser() returns (answers: seq<int>)
    ensures answers == [3, -1, -1, 0, 1, 1, 3, 2, 3]
  {
    var input := new int[7] [90, 30, 24, 10, 6, 2, 1];
    assert input[..] == Postage;
    PostageAnswer18();
    PostageAnswerNegative();
    PostageAnswerSmall();
    PostageAnswer34();
    PostageAnswer72();
    var created := StampDispenser.Create(input);
    var dispenser := created.value;
    var a18 := dispenser.CalcNumStampsToFillRequest(18);
    var aMinus10 := dispenser.CalcNumStampsToFillRequest(-10);
    var aMinus1 := dispenser.CalcNumStampsToFillRequest(-1);
    var a0 := dispenser.CalcNumStampsToFillRequest(0);
    var a1 := dispenser.CalcNumStampsToFillRequest(1);
    var a2 := dispenser.CalcNumStampsToFillRequest(2);
    var a5 := dispenser.CalcNumStampsToFillRequest(5);
    var a34 := dispenser.CalcNumStampsToFillRequest(34);
    var a72 := dispenser.CalcNumStampsToFillRequest(72);
    answers := [a18, aMinus10, aMinus1, a0, a1, a2, a5, a34, a72];
  }

  /** A list that is not strictly descending, or does not end in 1, yields no dispenser. */
  method RejectedLists() returns (unsorted: Option<StampDispenser>, noUnit: Option<StampDispenser>)
    ensures unsorted.None? && noUnit.None?
  {
    var ascending := new int[3] [6, 10, 1];
    unsorted := StampDispenser.Create(ascending);
    assert ascending[..][1] >= ascending[..][0];
    var endsInTwo := new int[2] [10, 2];
    noUnit := StampDispenser.Create(endsInTwo);
    assert endsInTwo[..][1] != 1;
  }
}

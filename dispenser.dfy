/**
 The stamp dispenser object: it owns a validated copy of the denomination
 list and answers requests with the multi-start greedy search, whose loops
 are proved against the functions of module Greedy.
 */
module Dispenser {
  import opened Greedy

  datatype Option<T> = None | Some(value: T)

  class StampDispenser {
    /** The dispenser's own copy of the denominations, largest first. */
    const stampDenominations: array<int>
    /** How many denominations there are (the source stores this count times 4, as a byte offset). */
    const numStampDenominations: nat

    /** The object invariant: the count matches the array and the list passed the constructor's checks. */
    ghost predicate Valid()
      reads this, stampDenominations
    {
      numStampDenominations == stampDenominations.Length && ValidDenominations(stampDenominations[..])
    }

    /** The denominations as a value. */
    ghost function Denominations(): seq<int>
      reads this, stampDenominations
    {
      stampDenominations[..]
    }

    /** Takes ownership of an array that has already been checked and copied. */
    constructor Adopt(copy: array<int>)
      requires ValidDenominations(copy[..])
      ensures Valid()
      ensures stampDenominations == copy
    {
      stampDenominations := copy;
      numStampDenominations := copy.Length;
    }

    /**
     Construction: rejects a list whose last element is not 1 or that is not
     strictly descending (where the source exits the process), and otherwise
     yields a dispenser holding a fresh copy equal to the input element for
     element.
     */
    static method Create(input: array<int>) returns (r: Option<StampDispenser>)
      requires input.Length >= 1
      ensures r.Some? <==> ValidDenominations(input[..])
      ensures r.Some? ==> fresh(r.value) && fresh(r.value.stampDenominations)
      ensures r.Some? ==> r.value.Valid() && r.value.Denominations() == input[..]
    {
      if input[input.Length - 1] != 1 {
        return None;
      }
      var copy := new int[input.Length];
      for i := 0 to input.Length
        invariant copy[..i] == input[..i]
        invariant StrictlyDescending(input[..i])
      {
        if i != 0 && input[i] >= input[i - 1] {
          assert input[..][i] >= input[..][i - 1];
          return None;
        }
        copy[i] := input[i];
        assert i == 0 || input[..i + 1][i] < input[..i + 1][i - 1];
      }
      assert input[..input.Length] == input[..];
      assert copy[..copy.Length] == copy[..];
      var dispenser := new StampDispenser.Adopt(copy);
      r := Some(dispenser);
    }

    /**
     One pass of the inner loop, from denomination `start`: take as many
     stamps of each denomination as fit into what is left, and stop early
     with one more stamp when what is left becomes 1. Returns the stamps
     taken and the part of the request left unfilled.
     */
    method GreedyPass(start: nat, request: int) returns (tempStamps: int, tempRequest: int)
      requires Valid()
      ensures PassResult(tempStamps, tempRequest) == Pass(Denominations(), start, request)
    {
      ghost var d := stampDenominations[..];
      AllAtLeastOne(d);
      tempStamps := 0;
      tempRequest := request;
      var j := start;
      while j < numStampDenominations && tempRequest > 0
        invariant start <= j
        invariant j <= numStampDenominations || j == start
        invariant Pass(d, start, request).stamps == tempStamps + Pass(d, j, tempRequest).stamps
        invariant Pass(d, start, request).rest == Pass(d, j, tempRequest).rest
        decreases numStampDenominations - j
      {
        assert stampDenominations[j] == d[j];
        if tempRequest >= stampDenominations[j] {
          DivideRequest(tempRequest, d[j]);
          tempStamps := tempStamps + tempRequest / stampDenominations[j];
          tempRequest := tempRequest % stampDenominations[j];
          if tempRequest == 1 {
            tempRequest := tempRequest - 1;
            tempStamps := tempStamps + 1;
            break;
          }
        }
        j := j + 1;
      }
    }

    /**
     The fewest stamps found by the multi-start greedy search: -1 for a
     negative request, 0 for zero, and otherwise the best count among the
     greedy passes started at every denomination but the last. The method
     has no modifies clause, so the stored denominations are left as they are.
     */
    method CalcNumStampsToFillRequest(request: int) returns (numStamps: int)
      requires Valid()
      ensures numStamps == FillRequest(Denominations(), request)
      ensures request < 0 ==> numStamps == -1
      ensures request == 0 ==> numStamps == 0
    {
      ghost var d := stampDenominations[..];
      if request < 0 {
        return -1;
      } else if request == 0 {
        return 0;
      }
      numStamps := 0;
      var i := 0;
      while i < numStampDenominations - 1
        invariant 0 <= i <= numStampDenominations - 1
        invariant numStamps == Best(d, request, i)
      {
        var tempStamps, tempRequest := GreedyPass(i, request);
        BestStep(d, request, i);
        if tempRequest == 0 && (numStamps == 0 || tempStamps < numStamps) {
          numStamps := tempStamps;
        }
        i := i + 1;
      }
    }
  }
}

# Stamp dispenser, modelled in Dafny

The repository's one component is a `StampDispenser` class. Its constructor
takes the denominations of the stamps in a postage machine. The list must end
in 1 and be strictly descending, and the constructor keeps its own copy.
Its one query, `CalcNumStampsToFillRequest`, says how many stamps to dispense
for a requested value:

- -1 for a negative request;
- 0 for a request of 0;
- otherwise the best of several greedy passes. There is one pass from every
  start denomination except the last. Each pass takes `rem / d` stamps of
  every denomination `d` not larger than what is left. It stops early, with
  one more stamp, when what is left becomes 1.

The model has three modules:

- `Greedy` (greedy.dfy) holds the pure definitions that the code is proved
  against, and the lemmas about them.
  - `Pass` is one pass exactly as the inner loop runs it, early stop included.
  - `Dispensed` is the list of stamps a plain greedy pass takes, with no early stop.
  - `Best` is the value of `numStamps` after the first `k` passes of the outer loop.
  - `FillRequest` is the method's answer.
- `Dispenser` (dispenser.dfy) holds the class `StampDispenser`. It has the
  array field `stampDenominations` and the count `numStampDenominations`.
  - `Create` is the constructor's validating copy loop.
  - `GreedyPass` is the inner loop.
  - `CalcNumStampsToFillRequest` is the outer loop.
  - Each loop method is proved equal to the matching `Greedy` function.
- `Scenarios` (scenarios.dfy) restates the assertions of the source's `main`
  on the list 90, 30, 24, 10, 6, 2, 1.
  - It proves them as lemmas about `FillRequest`.
  - It replays them as calls on a dispenser built by `Create`
    (methods `PostageDispenser` and `RejectedLists`).
  - It proves the search is not optimal on 10, 6, 1.

Decisions that follow the code rather than its own comments, which promise "the minimum number of stamps" (StampDispenser/StampDispenser.cpp:39-49):

- **One denomination.** With the single denomination 1, the outer loop's bound
  `m_numStampDenominations - 4` is 0. No pass runs, and every positive
  request is answered with 0 (StampDispenser/StampDispenser.cpp:91, :116).
  The model reproduces this (`FillRequest`, `SingleDenominationAnswersZero`).
  The optimality properties are stated for two or more denominations.
- **Start indices.** The comment at StampDispenser/StampDispenser.cpp:90 speaks
  of the smallest count "out of all subarrays". The pass from the last index is
  never run, though: the loop stops one index early.
- **Not optimal.** The result is the best of the greedy passes, not the true
  minimum. On 10, 6, 1 the code answers 4 for 22 (10 + 10 + 1 + 1), yet
  10 + 6 + 6 uses 3 stamps (`NotOptimal`).
- **Byte offsets.** The source walks the array in byte offsets: it stores the
  count times 4 and steps by 4. The model uses plain indices 0 .. n-1, and
  `numStampDenominations` holds the plain count.
- **The inner loop.** In the source it is nested inside the outer loop. Here it
  is its own method, `GreedyPass`. The statements, guards and `break` are
  unchanged.
- **Copying.** The constructor copies the input into a fresh array. `Create`
  ensures the copy is fresh, so the caller's array is not aliased.
- **No modification.** Both fields are `const`. `CalcNumStampsToFillRequest`
  and `GreedyPass` have no `modifies` clause, so Dafny guarantees they leave the
  stored denominations and every other object unchanged.

## Model

| member | source | states |
|---|---|---|
| `Dispenser.StampDispenser.Create` | StampDispenser/StampDispenser.cpp:58-74 | Yields a dispenser exactly when the last element is 1 and every element is smaller than its predecessor. The dispenser's array is fresh, equals the input element for element, and satisfies the object invariant. Otherwise no object is produced. |
| `Dispenser.StampDispenser.Adopt` | StampDispenser/StampDispenser.cpp:63-65 | Stores the checked copy as the dispenser's array and establishes the object invariant: the count matches the array and the list is valid. |
| `Dispenser.StampDispenser.GreedyPass` | StampDispenser/StampDispenser.cpp:93-109 | The stamps taken and the remainder left by the inner loop are exactly those of `Pass` from the given start index. |
| `Dispenser.StampDispenser.CalcNumStampsToFillRequest` | StampDispenser/StampDispenser.cpp:81-117 | Returns `FillRequest` of the stored denominations: -1 for a negative request and 0 for zero. It modifies nothing. |
| `Greedy.DescendingOrdered` | StampDispenser/StampDispenser.cpp:67-70 | Checking each element against its predecessor makes the whole list strictly ordered: a later element is smaller than every earlier one. |
| `Greedy.AllAtLeastOne` | StampDispenser/StampDispenser.cpp:59-70 | Every denomination of an accepted list is at least 1, and all but the last are larger than 1. |
| `Greedy.Pass` | StampDispenser/StampDispenser.cpp:96-109 | A pass with nothing to fill takes no stamps. Otherwise stamps and remainder are non-negative and their sum never exceeds the request, because each stamp is worth at least 1. A pass that fills anything takes at least one stamp. |
| `Greedy.Dispensed` | StampDispenser/StampDispenser.cpp:97-100 | Every stamp a plain greedy pass dispenses is one of the denominations. |
| `Greedy.DispensedOne` | StampDispenser/StampDispenser.cpp:102-107 | A plain pass with 1 left to fill dispenses exactly one stamp, the final 1-valued one. |
| `Greedy.DispensedExact` | StampDispenser/StampDispenser.cpp:97-100 | Because the last denomination is 1, a plain pass from any start index dispenses denominations worth exactly the request. |
| `Greedy.ShortCircuitEquivalent` | StampDispenser/StampDispenser.cpp:102-107 | Stopping early with one more stamp when 1 is left gives the same count and remainder as continuing down to the final 1-valued denomination. |
| `Greedy.PassFills` | StampDispenser/StampDispenser.cpp:97-107 | Every pass over an accepted list fills a positive request completely, with between 1 and `request` stamps, as many as the plain pass. |
| `Greedy.Best` | StampDispenser/StampDispenser.cpp:91-114 | For a positive request the outer loop's `numStamps` after `k` passes is 0 when none of them filled the request. Otherwise it is the count of one pass that did, and no filling pass among the first `k` took fewer stamps. |
| `Greedy.FillRequest` | StampDispenser/StampDispenser.cpp:81-117 | -1 for a negative request and 0 for zero. With a single denomination no pass runs and a positive request gets exactly 0. |
| `Greedy.FillRequestIsMinimum` | StampDispenser/StampDispenser.cpp:91-113 | With two or more denominations and a positive request, the answer is the minimum over start indices 0 .. n-2 of the greedy count. Some start reaches it and none does better. |
| `Greedy.FillRequestDispensesExactly` | StampDispenser/StampDispenser.cpp:97-113 | The answer is the number of stamps in a selection of denominations, taken by one of the passes, whose values sum exactly to the request. |
| `Greedy.FillRequestBounds` | StampDispenser/StampDispenser.cpp:112-113 | With two or more denominations, a positive request gets at least 1 and at most `request` stamps. |
| `Greedy.NoWorseThanFirstPass` | StampDispenser/StampDispenser.cpp:91-113 | The answer is never larger than the plain greedy count from the first, largest denomination. |
| `Scenarios.PostageIsValid` | StampDispenser/StampDispenser.cpp:121-122 | The list 90, 30, 24, 10, 6, 2, 1 is accepted. |
| `Scenarios.PostageAnswer18` | StampDispenser/StampDispenser.cpp:123 | 18 is answered with 3. |
| `Scenarios.PostageAnswerNegative` | StampDispenser/StampDispenser.cpp:126-128 | -10 and -1 are answered with -1, and 0 with 0. |
| `Scenarios.PostageAnswerSmall` | StampDispenser/StampDispenser.cpp:131-133 | 1 and 2 are answered with 1, and 5 with 3. |
| `Scenarios.PostageAnswer34` | StampDispenser/StampDispenser.cpp:134 | 34 is answered with 2. |
| `Scenarios.PostageAnswer72` | StampDispenser/StampDispenser.cpp:135 | 72 is answered with 3. |
| `Scenarios.NotOptimal` | StampDispenser/StampDispenser.cpp:91-113 | On 10, 6, 1 the request 22 is answered with 4, although three stamps (10, 6, 6) fill it. |
| `Scenarios.PostageDispenser` | StampDispenser/StampDispenser.cpp:119-135 | Builds a dispenser with `Create` from an array holding 90, 30, 24, 10, 6, 2, 1. Calling `CalcNumStampsToFillRequest` on 18, -10, -1, 0, 1, 2, 5, 34 and 72 returns 3, -1, -1, 0, 1, 1, 3, 2 and 3, as `main` asserts. |
| `Scenarios.RejectedLists` | StampDispenser/StampDispenser.cpp:59-70 | `Create` yields no dispenser for 6, 10, 1, which is not descending, nor for 10, 2, which does not end in 1. |
| `Scenarios.SingleDenominationAnswersZero` | StampDispenser/StampDispenser.cpp:91 | With the single denomination 1, every positive request is answered with 0. |

## Left out

- Process exit: `exit(1)` on a rejected list is modelled as `Create` returning `None`, so no object is produced. The process ending is not modelled.
- Empty list: here the source reads before the start of the array, which is undefined behaviour. `Create` requires at least one element.
- Pointers: the `char*` byte-offset arithmetic and the `<< 2` scaling are replaced by indexing, because they are only an access pattern.
- Destructor: the destructor and `delete[]` are memory management, and the model has no explicit deallocation.
- Private fields: Dafny cannot make the contents of the dispenser's array private. A holder of the dispenser could write into `stampDenominations` and break `Valid()`. The model's own methods never write to it, and both fields are `const`.
- Integer width: integers are unbounded. No overflow can happen anyway: every intermediate count and remainder lies between 0 and the request.
- Integer division: all divisions have a positive dividend and divisor, so C++'s truncating `/` and `%` agree with Dafny's.
- Optimality: not claimed, because the code does not compute the true minimum (see `NotOptimal`).
- The `assert` harness of `main`: its cases are restated as the `Scenarios` lemmas and methods. Asserting at run time is not modelled.
- Dispenser.StampDispenser.CalcNumStampsToFillRequest: its `ensures` gives the sentinel cases and equality with `FillRequest`. The bounds 1 .. request are proved about `FillRequest` in `FillRequestBounds`, not repeated in the method's `ensures`.

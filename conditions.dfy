/** Construction of the randomized search conditions: the nil rule of
    `searchCondition`, the operator and value generators, the nil filter of
    `getSearchConditions` and the selection of `conditionCount` of them.
    Each `rand.Intn(k)` is a draw parameter in [0, k). */
module Conditions {
  import opened Wrappers
  import opened Decimal
  import Selection

  /** The `pb.Operator` values this file uses. */
  datatype Operator = IncludesAny | After | Before | Between

  /** `compareOP`. */
  const CompareOps: seq<Operator> := [After, Before, Between]

  /** The `ValueType` constants (`iota` from 0). */
  const NumberValueType: int := 0
  const AmountValueType: int := 1
  const DateValueType: int := 2

  predicate IsCompareType(valueType: int)
  {
    valueType == NumberValueType || valueType == AmountValueType || valueType == DateValueType
  }

  /** A `pb.SearchCondition`. */
  datatype SearchCondition = SearchCondition(id: string, operator: Operator, values: seq<string>, currencyCode: string)

  // ---------------------------------------------------------------------
  // searchCondition

  /** `searchCondition(id, operator, values, currencyCode)`, with a nil
      `values` slice as `None`: nil exactly when the id is empty or the
      values are nil, otherwise a condition holding the four arguments. */
  function MakeSearchCondition(id: string, operator: Operator, values: Option<seq<string>>, currencyCode: string): (c: Option<SearchCondition>)
    ensures c.None? <==> id == "" || values.None?
    ensures c.Some? ==>
      && c.value.id == id && c.value.operator == operator
      && c.value.values == values.value && c.value.currencyCode == currencyCode
  {
    if id == "" || values.None? then None
    else Some(SearchCondition(id, operator, values.value, currencyCode))
  }

  // ---------------------------------------------------------------------
  // randOperator and randBoolean

  /** `randOperator(valueType)` with `opDraw` the value of
      `rand.Intn(compareOPLen)`: a comparison operator for the three known
      value types, `INCLUDES_ANY` for every other. */
  function RandOperator(valueType: int, opDraw: int): (op: Operator)
    requires IsCompareType(valueType) ==> 0 <= opDraw < |CompareOps|
    ensures IsCompareType(valueType) <==> op in CompareOps
    ensures !IsCompareType(valueType) <==> op == IncludesAny
  {
    if IsCompareType(valueType) then CompareOps[opDraw] else IncludesAny
  }

  /** Every comparison operator is one draw away, for every known type. */
  lemma RandOperatorReachesEach(valueType: int, op: Operator)
    requires IsCompareType(valueType) && op in CompareOps
    ensures exists d :: 0 <= d < |CompareOps| && RandOperator(valueType, d) == op
  {
    var d :| 0 <= d < |CompareOps| && CompareOps[d] == op;
    assert RandOperator(valueType, d) == op;
  }

  /** `randBoolean(falsePercent)` with `draw` the value of `rand.Intn(100)`. */
  function RandBoolean(falsePercent: int, draw: int): (b: bool)
    requires 0 <= draw < 100
    ensures falsePercent <= 0 ==> b
    ensures falsePercent >= 100 ==> !b
  {
    !(draw < falsePercent)
  }

  /** How many of the draws 0 .. k-1 make `randBoolean` return false. */
  function FalseDraws(falsePercent: int, k: nat): nat
    requires k <= 100
  {
    if k == 0 then 0
    else FalseDraws(falsePercent, k - 1) + (if RandBoolean(falsePercent, k - 1) then 0 else 1)
  }

  function Clamp(p: int, k: nat): nat
  {
    if p <= 0 then 0 else if p >= k then k else p
  }

  /** Of the 100 equally likely draws, exactly `falsePercent` (clamped to
      [0, 100]) make `randBoolean` return false. */
  lemma {:induction false} FalseDrawsCount(falsePercent: int, k: nat)
    requires k <= 100
    ensures FalseDraws(falsePercent, k) == Clamp(falsePercent, k)
  {
    if k > 0 {
      FalseDrawsCount(falsePercent, k - 1);
    }
  }

  // ---------------------------------------------------------------------
  // randNumber and randAmout

  /** The lower bound of a BETWEEN range: `(high - rand.Intn(high)) / 2`
      with `lowDraw` the draw. Go's `/` truncates, which is Dafny's `/` here
      since both operands are positive. */
  function BetweenLow(high: int, lowDraw: int): (low: int)
    requires 0 <= lowDraw < high
    ensures 0 <= low <= high / 2 && low < high
  {
    (high - lowDraw) / 2
  }

  /** The numbers `randNumber` renders, with `intDraw` the value of
      `rand.Intn(10)` and `lowDraw` that of `rand.Intn(randInt)`. */
  function NumberBounds(op: Operator, intDraw: int, lowDraw: int): (b: seq<int>)
    requires 0 <= intDraw < 10
    requires op == Between ==> 0 <= lowDraw < intDraw + 1
    ensures op != Between ==> |b| == 1 && 1 <= b[0] <= 10
    ensures op == Between ==> |b| == 2 && 1 <= b[1] <= 10 && 0 <= b[0] <= b[1] / 2 && b[0] < b[1]
  {
    var randInt := intDraw + 1;
    if op != Between then [randInt] else [BetweenLow(randInt, lowDraw), randInt]
  }

  const AmountStep: nat := 200000

  /** The numbers `randAmout` renders, with `amountDraw` the value of
      `rand.Intn(10000)` and `lowDraw` that of `rand.Intn(randAmout)`. */
  function AmountBounds(op: Operator, amountDraw: int, lowDraw: int): (b: seq<int>)
    requires 0 <= amountDraw < 10000
    requires op == Between ==> 0 <= lowDraw < amountDraw * AmountStep + 1
    ensures |b| == if op == Between then 2 else 1
    ensures var high := b[|b| - 1];
      1 <= high <= 9999 * AmountStep + 1 && high % AmountStep == 1
    ensures op == Between ==> 0 <= b[0] <= b[1] / 2 && b[0] < b[1]
  {
    var randAmout := amountDraw * AmountStep + 1;
    AmountHigh(amountDraw);
    if op != Between then [randAmout] else [BetweenLow(randAmout, lowDraw), randAmout]
  }

  /** `rand.Intn(10000)*200000 + 1` lies in [1, 9999 * 200000 + 1] and is 1
      more than a multiple of 200000. */
  lemma AmountHigh(amountDraw: int)
    requires 0 <= amountDraw < 10000
    ensures var high := amountDraw * AmountStep + 1;
      1 <= high <= 9999 * AmountStep + 1 && high % AmountStep == 1
  {
    var high := amountDraw * AmountStep + 1;
    assert amountDraw * AmountStep <= 9999 * AmountStep;
    assert (high - 1) / AmountStep == amountDraw;
  }

  /** Every lower bound the BETWEEN rule promises is reached by some draw. */
  lemma BetweenLowReachesEach(high: int, low: int)
    requires high >= 1 && 0 <= low <= high / 2
    ensures exists d :: 0 <= d < high && BetweenLow(high, d) == low
  {
    var d := if low == 0 then high - 1 else high - 2 * low;
    assert BetweenLow(high, d) == low;
  }

  function Render(xs: seq<int>): seq<string>
  {
    seq(|xs|, i requires 0 <= i < |xs| => Itoa(xs[i]))
  }

  /** `randNumber(operator)`. */
  function RandNumber(op: Operator, intDraw: int, lowDraw: int): seq<string>
    requires 0 <= intDraw < 10
    requires op == Between ==> 0 <= lowDraw < intDraw + 1
  {
    Render(NumberBounds(op, intDraw, lowDraw))
  }

  /** `randAmout(operator)`. */
  function RandAmount(op: Operator, amountDraw: int, lowDraw: int): seq<string>
    requires 0 <= amountDraw < 10000
    requires op == Between ==> 0 <= lowDraw < amountDraw * AmountStep + 1
  {
    Render(AmountBounds(op, amountDraw, lowDraw))
  }

  lemma RenderParses(xs: seq<int>)
    ensures |Render(xs)| == |xs|
    ensures forall i :: 0 <= i < |xs| ==> Atoi(Render(xs)[i]) == Some(xs[i])
  {
    forall i | 0 <= i < |xs|
      ensures Atoi(Render(xs)[i]) == Some(xs[i])
    {
      ItoaRoundTrip(xs[i]);
    }
  }

  /** `randNumber` yields one value in [1, 10], or for BETWEEN a lower and
      an upper bound with 0 <= lower <= upper / 2 < upper, as decimal text
      that parses back to those numbers. */
  lemma RandNumberValues(op: Operator, intDraw: int, lowDraw: int)
    requires 0 <= intDraw < 10
    requires op == Between ==> 0 <= lowDraw < intDraw + 1
    ensures var v := RandNumber(op, intDraw, lowDraw);
      && |v| == (if op == Between then 2 else 1)
      && (exists high :: 1 <= high <= 10 && Atoi(v[|v| - 1]) == Some(high)
            && (op == Between ==> exists low :: 0 <= low <= high / 2 && Atoi(v[0]) == Some(low)))
  {
    var b := NumberBounds(op, intDraw, lowDraw);
    RenderParses(b);
    var high := b[|b| - 1];
    assert Atoi(RandNumber(op, intDraw, lowDraw)[|b| - 1]) == Some(high);
    if op == Between {
      assert Atoi(RandNumber(op, intDraw, lowDraw)[0]) == Some(b[0]);
    }
  }

  /** `randAmout` yields one value of the form 200000*k + 1 with k < 10000,
      or for BETWEEN a lower bound of at most half of it before it, as
      decimal text that parses back to those numbers. */
  lemma RandAmountValues(op: Operator, amountDraw: int, lowDraw: int)
    requires 0 <= amountDraw < 10000
    requires op == Between ==> 0 <= lowDraw < amountDraw * AmountStep + 1
    ensures var v := RandAmount(op, amountDraw, lowDraw);
      && |v| == (if op == Between then 2 else 1)
      && (exists high :: 1 <= high <= 9999 * AmountStep + 1 && high % AmountStep == 1
            && Atoi(v[|v| - 1]) == Some(high)
            && (op == Between ==> exists low :: 0 <= low <= high / 2 && Atoi(v[0]) == Some(low)))
  {
    var b := AmountBounds(op, amountDraw, lowDraw);
    RenderParses(b);
    var high := b[|b| - 1];
    assert Atoi(RandAmount(op, amountDraw, lowDraw)[|b| - 1]) == Some(high);
    if op == Between {
      assert Atoi(RandAmount(op, amountDraw, lowDraw)[0]) == Some(b[0]);
    }
  }

  // ---------------------------------------------------------------------
  // getSearchConditions

  /** The non-nil conditions of `xs`, in order. */
  function Present(xs: seq<Option<SearchCondition>>): seq<SearchCondition>
    decreases |xs|
  {
    if xs == [] then []
    else Present(xs[..|xs| - 1]) + (if xs[|xs| - 1].Some? then [xs[|xs| - 1].value] else [])
  }

  /** The filter distributes over concatenation, so it keeps the order. */
  lemma {:induction false} PresentAppend(a: seq<Option<SearchCondition>>, b: seq<Option<SearchCondition>>)
    ensures Present(a + b) == Present(a) + Present(b)
    decreases |b|
  {
    if b == [] {
      assert a + b == a;
    } else {
      var init := b[..|b| - 1];
      PresentAppend(a, init);
      assert (a + b)[..|a + b| - 1] == a + init;
    }
  }

  /** A nil condition is dropped and a non-nil one kept. */
  lemma PresentSingle(x: Option<SearchCondition>)
    ensures Present([x]) == if x.Some? then [x.value] else []
  {
    assert [x][..0] == [];
  }

  /** A condition is kept exactly when it is one of the non-nil inputs. */
  lemma {:induction false} PresentMembers(xs: seq<Option<SearchCondition>>)
    ensures |Present(xs)| <= |xs|
    ensures forall c :: c in Present(xs) <==> Some(c) in xs
    decreases |xs|
  {
    if xs != [] {
      var init := xs[..|xs| - 1];
      PresentMembers(init);
      assert xs == init + [xs[|xs| - 1]];
    }
  }

  /** The filter loop of `getSearchConditions` (lines 330-335). */
  method KeepPresent(xs: seq<Option<SearchCondition>>) returns (r: seq<SearchCondition>)
    ensures r == Present(xs)
  {
    r := [];
    var i := 0;
    while i < |xs|
      invariant 0 <= i <= |xs|
      invariant r == Present(xs[..i])
    {
      assert xs[..i + 1][..i] == xs[..i];
      if xs[i].Some? {
        r := r + [xs[i].value];
      }
      i := i + 1;
    }
    assert xs[..i] == xs;
  }

  /** `choiceConditions(array, count)`: `choice` over conditions, with a nil
      slice as `None`. */
  method ChoiceConditions(arr: Option<seq<SearchCondition>>, count: int, list: seq<int>, indexDraw: int)
    returns (r: seq<SearchCondition>)
    requires arr.Some? && count > 0 ==> Selection.PermDraws(|arr.value|, list, indexDraw)
    ensures count <= 0 || arr.None? ==> r == []
    ensures arr.Some? ==> |r| == Selection.PermLength(|arr.value|, count)
    ensures arr.Some? && count > 0 ==>
      forall i :: 0 <= i < |r| ==> r[i] == arr.value[list[i] + Selection.Offset(|arr.value|, indexDraw)]
    ensures arr.Some? ==> multiset(r) <= multiset(arr.value)
  {
    r := Selection.Choice(arr, count, list, indexDraw);
  }

  /** The end of `getSearchConditions` with the candidate conditions already
      built: drop the nil ones, then choose `conditionCount` of the rest. The
      result is empty when `conditionCount <= 0`; otherwise it holds
      `min(conditionCount, number of non-nil candidates)` of them (at most
      200), each one a non-nil candidate and none taken twice: the i-th is
      the non-nil candidate at the i-th index `perm` chose. */
  method GetSearchConditions(candidates: seq<Option<SearchCondition>>, conditionCount: int, list: seq<int>, indexDraw: int)
    returns (r: seq<SearchCondition>)
    requires conditionCount > 0 ==> Selection.PermDraws(|Present(candidates)|, list, indexDraw)
    ensures conditionCount <= 0 ==> r == []
    ensures |r| == Selection.PermLength(|Present(candidates)|, conditionCount)
    ensures conditionCount > 0 ==> forall i :: 0 <= i < |r| ==>
      r[i] == Present(candidates)[list[i] + Selection.Offset(|Present(candidates)|, indexDraw)]
    ensures multiset(r) <= multiset(Present(candidates))
    ensures forall c :: c in r ==> Some(c) in candidates
  {
    var present := KeepPresent(candidates);
    r := ChoiceConditions(Some(present), conditionCount, list, indexDraw);
    PresentMembers(candidates);
    forall c | c in r
      ensures Some(c) in candidates
    {
      assert c in multiset(r);
    }
  }
}

/** What the calculator promises over sequences of key presses: digit
    entry, chaining, the division-by-zero fallback, evaluation with nothing
    pending, the display after an operator key, and the invariant that
    keeps the display query from failing. */
module Properties {
  import opened Saturating
  import opened Model

  /** Every element is a decimal digit. */
  predicate AllDigits(ds: seq<U8>) {
    forall i :: 0 <= i < |ds| ==> ds[i] < 10
  }

  /** The number a digit sequence denotes in base 10, without any bound. */
  function DecimalValue(ds: seq<U8>): nat {
    if ds == [] then 0 else 10 * DecimalValue(ds[..|ds| - 1]) + ds[|ds| - 1]
  }

  /** The state after typing `ds`, one digit key after another. */
  function Typed(s: State, ds: seq<U8>): State
    requires AllDigits(ds)
    decreases |ds|
  {
    if ds == [] then s else AfterDigit(Typed(s, ds[..|ds| - 1]), ds[|ds| - 1])
  }

  /** One step of digit entry on a clamped value is the clamp of the exact step. */
  lemma DigitStep(v: nat, d: U8)
    requires d < 10
    ensures Clamp(10 * Clamp(v) + d) == Clamp(10 * v + d)
  {
  }

  /** Typing digits into an empty or zero entry yields the base-10 value of
      the digits, saturated at `i32::MAX`; the pending operation is kept. */
  lemma {:induction false} TypedValue(s: State, ds: seq<U8>)
    requires AllDigits(ds) && s.number.GetOr(0) == 0
    ensures Typed(s, ds).op == s.op
    ensures Typed(s, ds).number.GetOr(0) == Clamp(DecimalValue(ds))
    ensures ds != [] ==> Typed(s, ds).number == Some(Clamp(DecimalValue(ds)))
  {
    if ds != [] {
      var prefix, d := ds[..|ds| - 1], ds[|ds| - 1];
      TypedValue(s, prefix);
      DigitStep(DecimalValue(prefix), d);
    }
  }

  /** Once the entry has saturated, further digits change nothing. */
  lemma SaturatedEntryStays(op: Option<Operation>, d: U8)
    requires d < 10
    ensures AfterDigit(State(Some(MAX), op), d) == State(Some(MAX), op)
  {
  }

  /** Digits typed after a negative result extend it as if it were a
      typed number: -5 followed by 3 gives -47, and an entry whose tenfold
      saturates at `i32::MIN` then moves off the bound by the digit. */
  lemma DigitsAfterNegativeResult(op: Option<Operation>)
    ensures AfterDigit(State(Some(-5), op), 3).number == Some(-47)
    ensures AfterDigit(State(Some(-300_000_000), op), 5).number == Some(MIN + 5)
  {
  }

  /** Chaining: typing a, pressing `first`, typing b, pressing `second`,
      typing c and evaluating applies `first` to a and b before `second`
      is applied to that result and c. */
  lemma ChainingLaw(da: seq<U8>, first: Operator, db: seq<U8>, second: Operator, dc: seq<U8>)
    requires AllDigits(da) && AllDigits(db) && AllDigits(dc)
    ensures
      var a, b, c := Clamp(DecimalValue(da)), Clamp(DecimalValue(db)), Clamp(DecimalValue(dc));
      var s1 := AfterOperator(Typed(Initial(), da), first);
      var s2 := AfterOperator(Typed(s1, db), second);
      AfterCalculate(Typed(s2, dc)) == State(Some(second.Hold(first.Hold(a).Calculate(b)).Calculate(c)), None)
  {
    var a, b, c := Clamp(DecimalValue(da)), Clamp(DecimalValue(db)), Clamp(DecimalValue(dc));
    TypedValue(Initial(), da);
    var s1 := AfterOperator(Typed(Initial(), da), first);
    TypedValue(s1, db);
    var s2 := AfterOperator(Typed(s1, db), second);
    assert s2.op == Some(second.Hold(first.Hold(a).Calculate(b)));
    TypedValue(s2, dc);
  }

  /** The chaining example: a + b, then times c, evaluates as
      `saturating_mul(saturating_add(a, b), c)`. */
  lemma AddThenMultiply(da: seq<U8>, db: seq<U8>, dc: seq<U8>)
    requires AllDigits(da) && AllDigits(db) && AllDigits(dc)
    ensures
      var a, b, c := Clamp(DecimalValue(da)), Clamp(DecimalValue(db)), Clamp(DecimalValue(dc));
      var s1 := AfterOperator(Typed(Initial(), da), Plus);
      var s2 := AfterOperator(Typed(s1, db), Times);
      AfterCalculate(Typed(s2, dc)) == State(Some(SatMul(SatAdd(a, b), c)), None)
  {
    ChainingLaw(da, Plus, db, Times, dc);
  }

  /** Dividing by an entry of zeros (or no entry at all) evaluates to 0,
      whatever was on the left. */
  lemma {:induction false} DivideByZeroLaw(s: State, zeros: seq<U8>)
    requires AllDigits(zeros) && DecimalValue(zeros) == 0
    ensures Display(AfterCalculate(Typed(AfterOperator(s, Divide), zeros))) == 0
  {
    TypedValue(AfterOperator(s, Divide), zeros);
  }

  /** Evaluating twice is evaluating once: the first evaluation leaves
      nothing pending, and with nothing pending evaluation changes nothing. */
  lemma CalculateIdempotent(s: State)
    ensures AfterCalculate(AfterCalculate(s)) == AfterCalculate(s)
    ensures s.op == None && Consistent(s) ==> Display(AfterCalculate(s)) == Display(s)
  {
  }

  /** Right after an operator key the display shows what evaluating would
      have shown: the result of the pending operation, or the entry. */
  lemma DisplayAfterOperator(s: State, key: Operator)
    requires Consistent(s)
    ensures Display(AfterOperator(s, key)) == Display(AfterCalculate(s))
  {
  }

  /** An operator key with an operation pending applies that operation to
      the entry first and holds its result. */
  lemma PendingAppliedFirst(o: Operation, entry: Option<Int32>, key: Operator)
    ensures AfterOperator(State(entry, Some(o)), key) == State(None, Some(key.Hold(o.Calculate(entry.GetOr(0)))))
  {
  }

  /** Pressing + or - twice keeps the held operand, since the second press
      adds or subtracts an absent entry, that is 0. */
  lemma RepeatedAdditiveKey(s: State, key: Operator)
    requires key == Plus || key == Minus
    ensures AfterOperator(AfterOperator(s, key), key) == AfterOperator(s, key)
  {
  }

  /** Pressing * or / twice replaces the held operand by 0, since the
      second press multiplies by, or divides by, an absent entry, that is 0. */
  lemma RepeatedMultiplicativeKey(s: State, key: Operator)
    requires key == Times || key == Divide
    ensures Display(AfterOperator(AfterOperator(s, key), key)) == 0
  {
  }

  /** A key press the window forwards to the calculator. */
  datatype Event = Digit(d: U8) | ClearKey | Equals | Press(key: Operator)

  predicate WellFormed(es: seq<Event>) {
    forall i :: 0 <= i < |es| ==> es[i].Digit? ==> es[i].d < 10
  }

  function Step(s: State, e: Event): State
    requires e.Digit? ==> e.d < 10
  {
    match e
    case Digit(d) => AfterDigit(s, d)
    case ClearKey => Initial()
    case Equals => AfterCalculate(s)
    case Press(key) => AfterOperator(s, key)
  }

  /** The state after a sequence of key presses. */
  function Run(s: State, es: seq<Event>): State
    requires WellFormed(es)
    decreases |es|
  {
    if es == [] then s else Run(Step(s, es[0]), es[1..])
  }

  /** Every state a calculator can reach is consistent, so the display
      query after any key press never unwraps an absent operation. */
  lemma {:induction false} ReachableConsistent(s: State, es: seq<Event>)
    requires Consistent(s) && WellFormed(es)
    ensures Consistent(Run(s, es))
    decreases |es|
  {
    if es != [] {
      ReachableConsistent(Step(s, es[0]), es[1..]);
    }
  }

  /** Clear, then any key presses: the result does not depend on the state
      the calculator was in before. */
  lemma {:induction false} ClearForgets(s: State, t: State, es: seq<Event>)
    requires WellFormed(es)
    ensures Run(s, [ClearKey] + es) == Run(t, [ClearKey] + es)
  {
    assert ([ClearKey] + es)[1..] == es;
  }

  /** 5 + 3 = shows 8. */
  lemma ScenarioAdd()
    ensures Display(AfterCalculate(AfterDigit(AfterOperator(AfterDigit(Initial(), 5), Plus), 3))) == 8
  {
  }

  /** 9 / 0 = shows 0. */
  lemma ScenarioDivideByZero()
    ensures Display(AfterCalculate(AfterDigit(AfterOperator(AfterDigit(Initial(), 9), Divide), 0))) == 0
  {
  }

  /** 2 * 3 + 4 = shows 10: the product is taken before the sum. */
  lemma ScenarioChain()
    ensures
      var product := AfterOperator(AfterDigit(AfterOperator(AfterDigit(Initial(), 2), Times), 3), Plus);
      Display(product) == 6 && Display(AfterCalculate(AfterDigit(product, 4))) == 10
  {
    assert AfterDigit(Initial(), 2) == State(Some(2), None);
    var two := AfterOperator(AfterDigit(Initial(), 2), Times);
    assert two == State(None, Some(Mul(2)));
    assert AfterDigit(two, 3) == State(Some(3), Some(Mul(2)));
    assert Mul(2).Calculate(3) == 6;
    var product := AfterOperator(AfterDigit(two, 3), Plus);
    assert product == State(None, Some(Add(6)));
    assert AfterDigit(product, 4) == State(Some(4), Some(Add(6)));
  }

  /** + = on a cleared calculator shows 0 + 0. */
  lemma ScenarioEmptyOperands()
    ensures Display(AfterCalculate(AfterOperator(Initial(), Plus))) == 0
  {
  }

  /** 2147483647 + 1 = shows `i32::MAX`, not a wrapped value. */
  lemma ScenarioOverflow()
    ensures
      var max := Typed(Initial(), [2, 1, 4, 7, 4, 8, 3, 6, 4, 7]);
      Display(AfterCalculate(AfterDigit(AfterOperator(max, Plus), 1))) == MAX
  {
    var ds: seq<U8> := [2, 1, 4, 7, 4, 8, 3, 6, 4, 7];
    forall k | 1 <= k < |ds| ensures ds[..k + 1][..k] == ds[..k] { }
    assert DecimalValue(ds[..1]) == 2;
    assert DecimalValue(ds[..2]) == 21;
    assert DecimalValue(ds[..3]) == 214;
    assert DecimalValue(ds[..4]) == 2147;
    assert DecimalValue(ds[..5]) == 21474;
    assert DecimalValue(ds[..6]) == 214748;
    assert DecimalValue(ds[..7]) == 2147483;
    assert DecimalValue(ds[..8]) == 21474836;
    assert DecimalValue(ds[..9]) == 214748364;
    assert DecimalValue(ds) == MAX;
    TypedValue(Initial(), ds);
  }
}

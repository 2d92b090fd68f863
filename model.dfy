/** The calculator's state machine: the pending binary operation, the
    display rule, and the `Calculator` object whose methods mutate the
    entry and the pending operation in place. */
module Model {
  import opened Saturating

  datatype Option<T> = None | Some(value: T) {
    /** Rust's `unwrap_or`. */
    function GetOr(default: T): T {
      match this
      case Some(v) => v
      case None => default
    }
  }

  /** A binary operation awaiting its right-hand operand; every variant
      carries the left-hand operand captured when its key was pressed. */
  datatype Operation = Add(lhs: Int32) | Sub(lhs: Int32) | Mul(lhs: Int32) | Div(lhs: Int32) {

    /** The mathematical result of the operation, before saturation, with
        division truncating toward zero. Division by zero has none. */
    function Exact(number2: Int32): int
      requires !(Div? && number2 == 0)
    {
      match this
      case Add(number1) => number1 + number2
      case Sub(number1) => number1 - number2
      case Mul(number1) => number1 * number2
      case Div(number1) => TruncDiv(number1, number2)
    }

    /** Applies the operation to the held operand and `number2`: the exact
        result clamped to the `i32` range, and 0 for a division by zero. */
    function Calculate(number2: Int32): (r: Int32)
      ensures Div? && number2 == 0 ==> r == 0
      ensures !(Div? && number2 == 0) ==> r == Clamp(Exact(number2))
      ensures !(Div? && number2 == 0) && InRange(Exact(number2)) ==> r == Exact(number2)
    {
      match this
      case Add(number1) => SatAdd(number1, number2)
      case Sub(number1) => SatSub(number1, number2)
      case Mul(number1) => SatMul(number1, number2)
      case Div(number1) => if number2 == 0 then 0 else SatDiv(number1, number2)
    }

    /** The left-hand operand, whichever the variant. */
    function HeldNumber(): (r: Int32)
      ensures r == lhs
    {
      match this
      case Add(number) => number
      case Sub(number) => number
      case Mul(number) => number
      case Div(number) => number
    }
  }

  /** The four operator keys; each makes the matching `Operation`. */
  datatype Operator = Plus | Minus | Times | Divide {
    function Hold(lhs: Int32): (o: Operation)
      ensures o.HeldNumber() == lhs
      ensures o.Add? <==> Plus?
      ensures o.Sub? <==> Minus?
      ensures o.Mul? <==> Times?
      ensures o.Div? <==> Divide?
    {
      match this
      case Plus => Add(lhs)
      case Minus => Sub(lhs)
      case Times => Mul(lhs)
      case Divide => Div(lhs)
    }
  }

  /** The calculator's two slots as a value: the entry being typed or the
      last result (`None` right after an operator key), and the pending
      operation. */
  datatype State = State(number: Option<Int32>, op: Option<Operation>)

  /** Without an entry there is always a pending operation to display. */
  predicate Consistent(s: State) {
    s.number.None? ==> s.op.Some?
  }

  /** The number to display: the entry if there is one, otherwise the
      operand held by the pending operation. */
  function Display(s: State): Int32
    requires Consistent(s)
  {
    match s.number
    case Some(n) => n
    case None => s.op.value.HeldNumber()
  }

  /** The state of a new or cleared calculator. */
  function Initial(): (s: State)
    ensures Consistent(s)
    ensures Display(s) == 0 && s.number.Some? && s.op == None
  {
    State(Some(0), None)
  }

  /** Typing a decimal digit: the entry (0 when absent) is shifted one
      place left and the digit added, saturating at `i32::MAX`. A negative
      entry whose tenfold saturates at `i32::MIN` ends the digit above it. */
  function AfterDigit(s: State, digit: U8): (t: State)
    requires digit < 10
    ensures Consistent(t) && t.op == s.op && t.number.Some?
    ensures s.number.GetOr(0) >= 0 ==> t.number.value == Clamp(10 * s.number.GetOr(0) + digit)
    ensures s.number.GetOr(0) < 0 ==>
      t.number.value == if 10 * s.number.GetOr(0) < MIN then MIN + digit else 10 * s.number.GetOr(0) + digit
  {
    State(Some(SatAdd(SatMul(s.number.GetOr(0), 10), digit)), s.op)
  }

  /** Evaluating: a pending operation is consumed and applied to the entry
      (0 when absent); with nothing pending nothing changes. */
  function AfterCalculate(s: State): (t: State)
    ensures s.op == None ==> t == s
    ensures s.op.Some? ==> t == State(Some(s.op.value.Calculate(s.number.GetOr(0))), None)
    ensures Consistent(s) ==> Consistent(t)
  {
    match s.op
    case None => s
    case Some(o) => State(Some(o.Calculate(s.number.GetOr(0))), None)
  }

  /** The left-hand operand an operator key captures: the entry after any
      pending operation has been evaluated, 0 when there is none. */
  function Operand(s: State): Int32 {
    AfterCalculate(s).number.GetOr(0)
  }

  /** Pressing an operator key: any pending operation is evaluated first,
      then the entry moves into a new pending operation and is cleared. */
  function AfterOperator(s: State, key: Operator): (t: State)
    ensures Consistent(t) && t.number == None
    ensures Display(t) == Operand(s)
    ensures t.op == Some(key.Hold(Display(t)))
  {
    State(None, Some(key.Hold(Operand(s))))
  }

  /** The calculator object; every method mutates `number` and `op` in place. */
  class Calculator {
    var number: Option<Int32>
    var op: Option<Operation>

    /** The two fields as a value. */
    function Current(): State
      reads this
    {
      State(number, op)
    }

    ghost predicate Valid()
      reads this
    {
      Consistent(Current())
    }

    /** `Calculator::new` and `Calculator::default`: the value 0, nothing pending. */
    constructor ()
      ensures Valid() && Current() == Initial()
    {
      number := Some(0);
      op := None;
    }

    /** The number to display; the invariant keeps the unwrap of the
        pending operation from failing. */
    function GetNumber(): (r: Int32)
      reads this
      requires Valid()
      ensures r == Display(Current())
      ensures number.Some? ==> r == number.value
      ensures number.None? ==> r == op.value.lhs
    {
      match number
      case Some(n) => n
      case None => op.value.HeldNumber()
    }

    method AddDigit(digit: U8)
      requires digit < 10
      modifies this
      ensures Valid() && Current() == AfterDigit(old(Current()), digit)
    {
      number := Some(SatAdd(SatMul(number.GetOr(0), 10), digit));
    }

    method Clear()
      modifies this
      ensures Valid() && Current() == Initial() && GetNumber() == 0
    {
      number := Some(0);
      op := None;
    }

    method Calculate()
      modifies this
      ensures Current() == AfterCalculate(old(Current()))
      ensures old(Valid()) ==> Valid()
    {
      var pending := op;
      op := None;
      if pending.Some? {
        number := Some(pending.value.Calculate(number.GetOr(0)));
      }
    }

    /** Moves the entry (0 when absent) into a pending operation made by
        `key`, leaving no entry: the common body of the operator methods. */
    method Pend(key: Operator)
      modifies this
      ensures Valid() && Current() == State(None, Some(key.Hold(old(number).GetOr(0))))
    {
      var lhs := number.GetOr(0);
      number := None;
      op := Some(key.Hold(lhs));
    }

    method Add()
      modifies this
      ensures Valid() && Current() == AfterOperator(old(Current()), Plus)
    {
      Calculate();
      Pend(Plus);
    }

    method Sub()
      modifies this
      ensures Valid() && Current() == AfterOperator(old(Current()), Minus)
    {
      Calculate();
      Pend(Minus);
    }

    method Mul()
      modifies this
      ensures Valid() && Current() == AfterOperator(old(Current()), Times)
    {
      Calculate();
      Pend(Times);
    }

    method Div()
      modifies this
      ensures Valid() && Current() == AfterOperator(old(Current()), Divide)
    {
      Calculate();
      Pend(Divide);
    }
  }
}

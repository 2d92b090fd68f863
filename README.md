# slincalc calculator core in Dafny

A model of the arithmetic state machine behind the slincalc desktop
calculator (`src/model.rs`). The calculator holds two slots: `number`, the
entry being typed or the last result, absent right after an operator key;
and `op`, a pending binary operation (`Add`, `Sub`, `Mul`, `Div`) that
carries its left-hand operand. Digit keys append to the entry, operator keys
first evaluate any pending operation (chaining) and then move the entry into
a new pending operation, `=` evaluates, and clear resets to the value 0.
All arithmetic is on Rust's `i32` and saturates at its bounds; dividing by
zero gives 0.

Files:

- `saturating.dfy` (module `Saturating`): the `i32` range, the clamp to it,
  division truncating toward zero (Dafny's `/` is Euclidean), and the four
  saturating operations the source uses.
- `model.dfy` (module `Model`): `Operation` and its `calculate` and
  `held_number`; the calculator's two slots as a value `State` with one pure
  transition function per operation; and the class `Calculator`, whose
  methods mutate `number` and `op` in place and are each proved to perform
  exactly the matching transition. `Consistent` is the class invariant
  "no entry implies a pending operation" that `get_number` relies on.
- `properties.dfy` (module `Properties`): typing digits, chaining, the
  division-by-zero law, evaluation with nothing pending, the display after an
  operator key, repeated operator keys, invariance over any sequence of key
  presses, and the worked examples.

The source's `get_number` unwraps the pending operation when there is no
entry and so panics when both slots are empty. The model follows the code
rather than inventing a fallback value such as 0: `GetNumber` and `Display`
require the invariant, and `ReachableConsistent` shows that every state the
key presses can produce satisfies it.

## Model

| member | source | states |
|---|---|---|
| `Saturating.Clamp` | src/model.rs:99-103 | the result equals the exact value exactly when that is in range, `i32::MAX` above the range and `i32::MIN` below it |
| `Saturating.ClampNearest` | src/model.rs:99-103 | no `i32` is closer to the exact value than its clamp, so saturation picks the nearest representable result |
| `Saturating.TruncDiv` | src/model.rs:103 | the quotient leaves a remainder smaller than the divisor in magnitude and of the dividend's sign (truncation toward zero), and is no larger than the dividend in magnitude |
| `Saturating.SatAdd` | src/model.rs:99 | `saturating_add`: the exact sum when in range, `i32::MAX` above, `i32::MIN` below |
| `Saturating.SatSub` | src/model.rs:100 | `saturating_sub`: the exact difference when in range, the bound it overflows past otherwise |
| `Saturating.SatMul` | src/model.rs:101 | `saturating_mul`: the exact product when in range, the bound it overflows past otherwise |
| `Saturating.SatDiv` | src/model.rs:103 | `saturating_div` for a non-zero divisor: `i32::MIN / -1` gives `i32::MAX`, every other pair the truncated quotient |
| `Saturating.QuotientInRange` | src/model.rs:103 | the truncated quotient of two `i32` values leaves the range exactly for `i32::MIN / -1`, where it is `i32::MAX + 1` |
| `Model.Operation.Calculate` | src/model.rs:97-105 | division by zero gives 0; every other case gives the exact result (truncating division) clamped to the `i32` range, and exactly that result when it is in range |
| `Model.Operation.HeldNumber` | src/model.rs:108-115 | returns the left-hand operand of every variant |
| `Model.Operator.Hold` | src/model.rs:57-83 | each operator key makes its own variant, holding the given operand |
| `Model.Initial` | src/model.rs:9-16 | the default state has entry `Some(0)`, nothing pending, is consistent and displays 0 |
| `Model.AfterDigit` | src/model.rs:34-42 | typing a digit keeps the pending operation, always leaves an entry, for a non-negative entry n gives the clamp of 10n + digit, and for a negative entry n gives 10n + digit, or `i32::MIN` + digit when 10n underflows |
| `Model.AfterCalculate` | src/model.rs:51-55 | with nothing pending the state is unchanged; otherwise the operation is consumed and its result on the entry (0 when absent) becomes the entry; consistency is preserved |
| `Model.AfterOperator` | src/model.rs:58-83 | an operator key leaves no entry and a pending operation of its own kind holding, and displaying, the entry after evaluation (0 when absent) |
| `Model.Calculator.constructor` | src/model.rs:9-22 | `new`/`default` start in the initial state, which satisfies the invariant |
| `Model.Calculator.GetNumber` | src/model.rs:28-31 | under the invariant, the entry when present, otherwise the pending operation's operand; agrees with `Display` |
| `Model.Calculator.AddDigit` | src/model.rs:34-42 | for a digit below 10 the fields become the digit transition of the old state; the invariant holds afterwards |
| `Model.Calculator.Clear` | src/model.rs:46-48 | from any state the fields become the initial state and the display reads 0 |
| `Model.Calculator.Calculate` | src/model.rs:51-55 | the fields become the evaluation transition of the old state; the invariant is preserved |
| `Model.Calculator.Pend` | src/model.rs:60-61 | the entry (0 when absent) moves into a new pending operation of the given kind, leaving no entry |
| `Model.Calculator.Add` | src/model.rs:58-62 | the fields become the `Plus` operator transition of the old state; the invariant holds afterwards |
| `Model.Calculator.Sub` | src/model.rs:65-69 | the fields become the `Minus` operator transition of the old state; the invariant holds afterwards |
| `Model.Calculator.Mul` | src/model.rs:72-76 | the fields become the `Times` operator transition of the old state; the invariant holds afterwards |
| `Model.Calculator.Div` | src/model.rs:79-83 | the fields become the `Divide` operator transition of the old state; the invariant holds afterwards |
| `Properties.DigitStep` | src/model.rs:37-40 | one saturating digit step on a clamped value equals the clamp of the exact step |
| `Properties.TypedValue` | src/model.rs:34-42 | typing any digits into an absent or zero entry gives their base-10 value saturated at `i32::MAX`, and keeps the pending operation |
| `Properties.SaturatedEntryStays` | src/model.rs:36-41 | once the entry is `i32::MAX`, further digits leave the state unchanged |
| `Properties.DigitsAfterNegativeResult` | src/model.rs:36-41 | digits typed after a negative result extend it (-5 then 3 gives -47), and a tenfold saturated at `i32::MIN` moves off the bound by the digit |
| `Properties.ChainingLaw` | src/model.rs:51-83 | typing a, an operator, b, a second operator, c and evaluating applies the first operator to a and b, then the second to that result and c |
| `Properties.AddThenMultiply` | src/model.rs:58-76 | a + b then times c then evaluate gives `saturating_mul(saturating_add(a, b), c)` |
| `Properties.DivideByZeroLaw` | src/model.rs:102 | after the divide key from any state, an entry of value 0 (or none) evaluates to a display of 0 |
| `Properties.CalculateIdempotent` | src/model.rs:51-55 | evaluating twice equals evaluating once, and with nothing pending the display is unchanged |
| `Properties.DisplayAfterOperator` | src/model.rs:24-31 | right after an operator key the display shows what evaluating would have shown |
| `Properties.PendingAppliedFirst` | src/model.rs:58-62 | an operator key with an operation pending holds that operation's result on the entry |
| `Properties.RepeatedAdditiveKey` | src/model.rs:58-69 | pressing + twice, or - twice, is the same as pressing it once |
| `Properties.RepeatedMultiplicativeKey` | src/model.rs:72-83 | pressing * twice, or / twice, makes the held operand 0 |
| `Properties.ReachableConsistent` | src/model.rs:3-6 | from a consistent state, every sequence of digit, clear, evaluate and operator keys reaches a consistent state, so the display query never unwraps an absent operation |
| `Properties.ClearForgets` | src/model.rs:46-48 | after clear, any key presses lead to the same state whatever the calculator held before |
| `Properties.ScenarioAdd` | src/model.rs:51-62 | 5 + 3 = displays 8 |
| `Properties.ScenarioDivideByZero` | src/model.rs:79-83 | 9 / 0 = displays 0 |
| `Properties.ScenarioChain` | src/model.rs:58-76 | 2 * 3 + displays 6, and then 4 = displays 10 |
| `Properties.ScenarioEmptyOperands` | src/model.rs:58-62 | + = on a cleared calculator displays 0 |
| `Properties.ScenarioOverflow` | src/model.rs:34-42 | typing 2147483647, then + 1 = displays `i32::MAX`, not a wrapped value |

## Left out

- `src/controller.rs` is not part of this model: it guards the calculator with a read/write lock and forwards each window event to one method, then reads the display. The model treats the calculator as single-threaded; `Properties.Run` replays a sequence of key presses in place of the event forwarding.
- `src/main.rs` and the view module are not part of this model: window construction, callback registration and rendering have no calculator logic.
- `Model.Calculator.AddDigit`: the source's `assert!(digit < 10)` panics on a larger digit; the model makes it a precondition instead of modelling the panic.
- `Model.Calculator.GetNumber`: the panic of `unwrap` when both slots are empty is a precondition (the class invariant) rather than a modelled failure; no reachable state has both slots empty.

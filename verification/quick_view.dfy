/** The quick-view modal's quantity stepper: "−" lowers the field only while it is
    above 1, "+" always raises it. The field is modelled by the integer `parseInt`
    reads from it. */
module QuickView {

  /** The "−" button. */
  function StepDown(qty: int): (r: int)
    ensures qty > 1 ==> r == qty - 1
    ensures qty <= 1 ==> r == qty
    ensures qty >= 1 ==> r >= 1
    ensures r <= qty
  {
    if qty > 1 then qty - 1 else qty
  }

  /** The "+" button. */
  function StepUp(qty: int): (r: int)
    ensures r > qty
  {
    qty + 1
  }

  datatype Press = Minus | Plus

  /** The field after a series of presses on the two buttons. */
  function Presses(qty: int, presses: seq<Press>): int
    decreases |presses|
  {
    if presses == [] then qty
    else Presses(if presses[0] == Minus then StepDown(qty) else StepUp(qty), presses[1..])
  }

  /** "+" undoes "−" whenever "−" did something. */
  lemma StepUpUndoesStepDown(qty: int)
    requires qty > 1
    ensures StepUp(StepDown(qty)) == qty
  {
  }

  /** "−" undoes "+" from any value of at least 1. */
  lemma StepDownUndoesStepUp(qty: int)
    requires qty >= 1
    ensures StepDown(StepUp(qty)) == qty
  {
  }

  /** Starting from 1 (the value the modal resets the field to) or more, no series
      of presses brings the field below 1. */
  lemma {:induction false} PressesStayPositive(qty: int, presses: seq<Press>)
    requires qty >= 1
    ensures Presses(qty, presses) >= 1
    decreases |presses|
  {
    if presses != [] {
      PressesStayPositive(if presses[0] == Minus then StepDown(qty) else StepUp(qty), presses[1..]);
    }
  }
}

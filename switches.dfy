/** Switch parameters: a toggle switch that cycles through its positions on each
    press, and a momentary switch that is on only while held. Values are the integer
    positions minValue..maxValue. */
module Switches {

  /** The value a toggle switch takes when a drag starts: past the last position it
      wraps to the first, otherwise it moves to the next position. */
  function ToggleNext(value: int, minValue: int, maxValue: int): (r: int)
    ensures minValue <= value <= maxValue ==> minValue <= r <= maxValue
    ensures minValue < maxValue && minValue <= value <= maxValue ==> r != value
  {
    if value >= maxValue then minValue else value + 1
  }

  /** The value after `n` presses of a toggle switch. */
  function Presses(value: int, minValue: int, maxValue: int, n: nat): int
    decreases n
  {
    if n == 0 then value else Presses(ToggleNext(value, minValue, maxValue), minValue, maxValue, n - 1)
  }

  /** Presses compose: `a` presses followed by `b` presses are `a + b` presses. */
  lemma {:induction false} PressesAdd(value: int, minValue: int, maxValue: int, a: nat, b: nat)
    ensures Presses(Presses(value, minValue, maxValue, a), minValue, maxValue, b)
         == Presses(value, minValue, maxValue, a + b)
    decreases a
  {
    if a > 0 {
      PressesAdd(ToggleNext(value, minValue, maxValue), minValue, maxValue, a - 1, b);
    }
  }

  /** Below the last position each press climbs by exactly one. */
  lemma {:induction false} PressesClimb(value: int, minValue: int, maxValue: int, n: nat)
    requires value + n <= maxValue
    ensures Presses(value, minValue, maxValue, n) == value + n
    decreases n
  {
    if n > 0 {
      PressesClimb(value + 1, minValue, maxValue, n - 1);
    }
  }

  /** A value in range stays in range however often the switch is pressed. */
  lemma {:induction false} PressesInRange(value: int, minValue: int, maxValue: int, n: nat)
    requires minValue <= value <= maxValue
    ensures minValue <= Presses(value, minValue, maxValue, n) <= maxValue
    decreases n
  {
    if n > 0 {
      PressesInRange(ToggleNext(value, minValue, maxValue), minValue, maxValue, n - 1);
    }
  }

  /** Pressing once per position brings the switch back where it started: a range of
      [0, 3] has the four modes 0, 1, 2 and 3. */
  lemma PressesCycle(value: int, minValue: int, maxValue: int)
    requires minValue <= value <= maxValue
    ensures Presses(value, minValue, maxValue, maxValue - minValue + 1) == value
  {
    PressesClimb(value, minValue, maxValue, maxValue - value);
    assert Presses(maxValue, minValue, maxValue, 1) == minValue;
    PressesAdd(value, minValue, maxValue, maxValue - value, 1);
    PressesClimb(minValue, minValue, maxValue, value - minValue);
    PressesAdd(value, minValue, maxValue, maxValue - value + 1, value - minValue);
  }

  /** Every position is reached from any in-range start within one cycle. */
  lemma PressesReachEveryMode(value: int, minValue: int, maxValue: int, target: int)
    requires minValue <= value <= maxValue && minValue <= target <= maxValue
    ensures exists n: nat :: n <= maxValue - minValue && Presses(value, minValue, maxValue, n) == target
  {
    if value <= target {
      PressesClimb(value, minValue, maxValue, target - value);
      assert Presses(value, minValue, maxValue, target - value) == target;
    } else {
      var up := maxValue - value;
      PressesClimb(value, minValue, maxValue, up);
      assert Presses(maxValue, minValue, maxValue, 1) == minValue;
      PressesAdd(value, minValue, maxValue, up, 1);
      PressesClimb(minValue, minValue, maxValue, target - minValue);
      PressesAdd(value, minValue, maxValue, up + 1, target - minValue);
      assert Presses(value, minValue, maxValue, up + 1 + (target - minValue)) == target;
    }
  }

  /** A switch that cycles through each mechanical position. */
  class ToggleSwitch {
    const paramId: int
    const minValue: int
    const maxValue: int
    var value: int

    /** ParamWidget::create: the switch for parameter `paramId` with the given limits,
        set to its default value. */
    constructor Create(paramId: int, minValue: int, maxValue: int, defaultValue: int)
      ensures this.paramId == paramId && this.minValue == minValue && this.maxValue == maxValue
      ensures value == defaultValue
    {
      this.paramId := paramId;
      this.minValue := minValue;
      this.maxValue := maxValue;
      value := defaultValue;
    }

    predicate InRange()
      reads this
    {
      minValue <= value <= maxValue
    }

    /** A press moves to the next position, wrapping from the last to the first. */
    method OnDragStart()
      modifies this
      ensures value == ToggleNext(old(value), minValue, maxValue)
      ensures old(InRange()) ==> InRange()
    {
      if value >= maxValue {
        value := minValue;
      } else {
        value := value + 1;
      }
    }
  }

  /** A switch that is on (at its maximum) only while held. */
  class MomentarySwitch {
    const paramId: int
    const minValue: int
    const maxValue: int
    var value: int

    /** ParamWidget::create: the switch for parameter `paramId` with the given limits,
        set to its default value. */
    constructor Create(paramId: int, minValue: int, maxValue: int, defaultValue: int)
      ensures this.paramId == paramId && this.minValue == minValue && this.maxValue == maxValue
      ensures value == defaultValue
    {
      this.paramId := paramId;
      this.minValue := minValue;
      this.maxValue := maxValue;
      value := defaultValue;
    }

    /** Pressing turns the switch on. */
    method OnDragStart()
      modifies this
      ensures value == maxValue
    {
      value := maxValue;
    }

    /** Releasing turns it off again. */
    method OnDragEnd()
      modifies this
      ensures value == minValue
    {
      value := minValue;
    }

    /** Randomizing leaves the state as it is. */
    method Randomize()
      ensures value == old(value)
    {
    }
  }
}

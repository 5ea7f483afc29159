/**
 * The zoom card (frontend/src/components/ZoomControls.tsx): the range of
 * years it shows for a centre and a window, and the centre-year text
 * field, whose text is its own state and whose committed value goes to
 * the page through `setCenterYear`.
 *
 * `Number(text)` is not modelled: a commit is given the number the text
 * converts to, a finite value or not a finite one.
 */
module ZoomControls {
  import opened Wrappers
  import opened Text

  const MinCenterYear := 1000
  const MaxCenterYear := 3000

  /** The range shown under the slider, `centerYear - floor(w/2)` to `centerYear + ceil(w/2) - 1`. */
  function DisplayedRange(centerYear: int, windowYears: int): (r: (int, int))
    ensures windowYears >= 1 ==> r.1 - r.0 + 1 == windowYears && r.0 <= centerYear <= r.1
    ensures windowYears >= 1 ==> centerYear - r.0 == windowYears / 2
  {
    (centerYear - windowYears / 2, centerYear + (windowYears + 1) / 2 - 1)
  }

  /** The result of `Number(text)`: a finite number, or NaN or an infinity. */
  datatype NumberValue = Finite(value: real) | NotFinite

  /** `Math.trunc`: the integer part, towards zero. */
  function Trunc(x: real): (n: int)
    ensures x >= 0.0 ==> 0 <= n && n as real <= x < n as real + 1.0
    ensures x < 0.0 ==> n <= 0 && n as real - 1.0 < x <= n as real
  {
    if x >= 0.0 then x.Floor else -((-x).Floor)
  }

  /** The centre-year field: the text the user is typing. */
  class CenterYearField {
    var text: string

    /** The field starts with `String(centerYear)`. */
    constructor (centerYear: int)
      ensures text == IntToString(centerYear)
    {
      text := IntToString(centerYear);
    }

    /** "Press Enter to apply": the trimmed text is not the current centre. */
    predicate HasUnappliedCenterYear(centerYear: int)
      reads this
    {
      Trim(text) != IntToString(centerYear)
    }

    /** Typing in the field. */
    method Edit(typed: string)
      modifies this
      ensures text == typed
    {
      text := typed;
    }

    /** The effect on `centerYear`: the text is written anew from the centre. */
    method CenterChanged(centerYear: int)
      modifies this
      ensures text == IntToString(centerYear)
      ensures !HasUnappliedCenterYear(centerYear)
    {
      text := IntToString(centerYear);
    }

    /**
     * `commitCenterYear` (Enter or leaving the field), given `Number` of
     * the text: the new centre for `setCenterYear`, or None when the value
     * is not finite or lies outside 1000..3000, in which case the text is
     * reset to the current centre and the hint goes away.
     */
    method Commit(next: NumberValue, centerYear: int) returns (newCenter: Option<int>)
      modifies this
      ensures newCenter.None? <==>
        next.NotFinite? || next.value < MinCenterYear as real || next.value > MaxCenterYear as real
      ensures newCenter.Some? ==> newCenter.value == Trunc(next.value)
      ensures newCenter.Some? ==> MinCenterYear <= newCenter.value <= MaxCenterYear
      ensures newCenter.Some? ==> text == old(text)
      ensures newCenter.None? ==> text == IntToString(centerYear) && !HasUnappliedCenterYear(centerYear)
    {
      if next.NotFinite? {
        text := IntToString(centerYear);
        return None;
      }
      if next.value < MinCenterYear as real || next.value > MaxCenterYear as real {
        text := IntToString(centerYear);
        return None;
      }
      newCenter := Some(Trunc(next.value));
    }
  }
}

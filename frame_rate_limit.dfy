/** Frame-rate presets: the render limit steps through a fixed table of common refresh
    rates, the logic time scale steps by 5 frames per second above a minimum. Values are
    `UnsignedInt`s. */
module FrameRateLimit {

  const U32: nat := 0x1_0000_0000

  /** `RenderFpsPreset::UncappedFpsValue`. */
  const UncappedFpsValue: nat := 1000000

  /** `RenderFpsPreset::s_fpsValues`. */
  const FpsValues: seq<nat> := [30, 50, 56, 60, 65, 70, 72, 75, 80, 85, 90, 100, 110, 120, 144, 240, 480, UncappedFpsValue]

  /** `LOGICFRAMES_PER_SECOND`, the logic preset's minimum in a release build. */
  const MinFpsValue: nat := 30
  const StepFpsValue: nat := 5

  datatype FpsValueChange = Increase | Decrease

  function Last(): nat { |FpsValues| - 1 }

  predicate StrictlyIncreasing(s: seq<nat>)
  {
    forall i, j :: 0 <= i < j < |s| ==> s[i] < s[j]
  }

  /** The table rises strictly and ends with the uncapped value. */
  lemma {:induction false} TableShape()
    ensures StrictlyIncreasing(FpsValues)
    ensures FpsValues[Last()] == UncappedFpsValue
  {
    var s := FpsValues;
    assert forall i :: 0 <= i < |s| - 1 ==> s[i] < s[i + 1];
    AdjacentIncreasing(s);
  }

  lemma {:induction false} AdjacentIncreasing(s: seq<nat>)
    requires forall i :: 0 <= i < |s| - 1 ==> s[i] < s[i + 1]
    ensures StrictlyIncreasing(s)
    decreases |s|
  {
    if |s| > 1 {
      var t := s[..|s| - 1];
      AdjacentIncreasing(t);
      forall i, j | 0 <= i < j < |s| ensures s[i] < s[j] {
        if j < |s| - 1 {
          assert s[i] == t[i] && s[j] == t[j];
        } else if i < j - 1 {
          assert s[i] == t[i] && s[j - 1] == t[j - 1];
        }
      }
    }
  }

  /** `RenderFpsPreset::getNextFpsValue`: the next table entry above a value inside the
      table's range, the uncapped value for anything outside it. */
  method GetNextFpsValue(value: nat) returns (r: nat)
    ensures r in FpsValues
    ensures FpsValues[0] <= value < UncappedFpsValue ==>
      value < r && forall e :: e in FpsValues && value < e ==> r <= e
    ensures !(FpsValues[0] <= value < UncappedFpsValue) ==> r == UncappedFpsValue
  {
    TableShape();
    var s := FpsValues;
    var last := |s| - 1;
    var i := 0;
    while i < last
      invariant 0 <= i <= last
      invariant s[0] <= value ==> s[i] <= value
    {
      if value >= s[i] && value < s[i + 1] {
        forall e | e in s && value < e ensures s[i + 1] <= e {
          var k :| 0 <= k < |s| && s[k] == e;
          assert !(k <= i);
        }
        return s[i + 1];
      }
      i := i + 1;
    }
    return s[last];
  }

  /** `RenderFpsPreset::getPrevFpsValue`: the previous table entry below a value inside
      the table's range, the first entry for anything outside it. */
  method GetPrevFpsValue(value: nat) returns (r: nat)
    ensures r in FpsValues
    ensures FpsValues[0] < value <= UncappedFpsValue ==>
      r < value && forall e :: e in FpsValues && e < value ==> e <= r
    ensures !(FpsValues[0] < value <= UncappedFpsValue) ==> r == FpsValues[0]
  {
    TableShape();
    var s := FpsValues;
    var last := |s| - 1;
    var i := last;
    while i > 0
      invariant 0 <= i <= last
      invariant value <= s[last] ==> value <= s[i]
    {
      if value <= s[i] && value > s[i - 1] {
        forall e | e in s && e < value ensures e <= s[i - 1] {
          var k :| 0 <= k < |s| && s[k] == e;
          assert !(k >= i);
        }
        return s[i - 1];
      }
      i := i - 1;
    }
    return s[0];
  }

  /** `RenderFpsPreset::changeFpsValue`. */
  method ChangeFpsValue(value: nat, change: FpsValueChange) returns (r: nat)
    ensures r in FpsValues
    ensures change == Increase && FpsValues[0] <= value < UncappedFpsValue ==> value < r
    ensures change == Decrease && FpsValues[0] < value <= UncappedFpsValue ==> r < value
  {
    match change
    case Increase => r := GetNextFpsValue(value);
    case Decrease => r := GetPrevFpsValue(value);
  }

  /** From an inner table value the presets step to its two neighbours in the table. */
  method NextPrevNeighbours(k: nat) returns (up: nat, down: nat)
    requires 0 < k < |FpsValues| - 1
    ensures up == FpsValues[k + 1] && down == FpsValues[k - 1]
  {
    TableShape();
    up := GetNextFpsValue(FpsValues[k]);
    down := GetPrevFpsValue(FpsValues[k]);
    var s := FpsValues;
    assert s[k + 1] in s && s[k] < s[k + 1];
    var ku :| 0 <= ku < |s| && s[ku] == up;
    assert ku == k + 1 by {
      assert !(ku <= k) && !(ku > k + 1);
    }
    assert s[k - 1] in s && s[k - 1] < s[k];
    var kd :| 0 <= kd < |s| && s[kd] == down;
    assert kd == k - 1 by {
      assert !(kd >= k) && !(kd < k - 1);
    }
  }

  // ---------------------------------------------------------------------------
  // Logic time scale

  function Wrap32(x: int): nat { x % U32 }

  /** `LogicTimeScaleFpsPreset::getNextFpsValue`: 5 more, in unsigned arithmetic. */
  function LogicNextFps(value: nat): (r: nat)
    requires value < U32
    ensures value + StepFpsValue < U32 ==> r == value + StepFpsValue
    ensures r < U32
  {
    Wrap32(value + StepFpsValue)
  }

  /** `LogicTimeScaleFpsPreset::getPrevFpsValue` as written: the unsigned difference is
      compared with the minimum, so a value below the step wraps round. */
  function LogicPrevFpsAsWritten(value: nat): nat
    requires value < U32
  {
    var d := Wrap32(value - StepFpsValue);
    if d < MinFpsValue then MinFpsValue else d
  }

  /** A value below the step wraps to just under 2^32 instead of clamping to the
      minimum. */
  lemma LogicPrevWrapsBelowStep(value: nat)
    requires value < StepFpsValue
    ensures LogicPrevFpsAsWritten(value) == U32 - StepFpsValue + value
    ensures LogicPrevFpsAsWritten(value) > MinFpsValue
  {
    assert value - StepFpsValue + U32 == U32 - StepFpsValue + value;
    assert Wrap32(value - StepFpsValue) == U32 - StepFpsValue + value;
  }

  lemma LogicPrevOfThree()
    ensures LogicPrevFpsAsWritten(3) == 4294967294
  {
    LogicPrevWrapsBelowStep(3);
  }

  /** The evidently intended step down: 5 less, but never below the minimum. */
  function LogicPrevFps(value: nat): (r: nat)
    ensures r >= MinFpsValue
    ensures r == MinFpsValue || r + StepFpsValue == value
    ensures value >= MinFpsValue + StepFpsValue ==> r + StepFpsValue == value
    ensures value < MinFpsValue + StepFpsValue ==> r == MinFpsValue
  {
    if value < StepFpsValue || value - StepFpsValue < MinFpsValue then MinFpsValue else value - StepFpsValue
  }

  /** For every value the step can be taken from, the code as written and the clamped
      step agree. */
  lemma LogicPrevAgrees(value: nat)
    requires StepFpsValue <= value < U32
    ensures LogicPrevFpsAsWritten(value) == LogicPrevFps(value)
  {
    assert Wrap32(value - StepFpsValue) == value - StepFpsValue;
  }

  /** Stepping up then down returns to any value at or above the minimum. */
  lemma LogicNextPrev(value: nat)
    requires MinFpsValue <= value && value + StepFpsValue < U32
    ensures LogicPrevFps(LogicNextFps(value)) == value
  {
  }

  /** `LogicTimeScaleFpsPreset::changeFpsValue`, with the corrected, clamped step down
      `LogicPrevFps` in place of the wrapping `LogicPrevFpsAsWritten`. */
  function LogicChangeFps(value: nat, change: FpsValueChange): (r: nat)
    requires value < U32
    ensures change == Decrease ==> r >= MinFpsValue
    ensures change == Increase && value + StepFpsValue < U32 ==> r == value + StepFpsValue
  {
    match change
    case Increase => LogicNextFps(value)
    case Decrease => LogicPrevFps(value)
  }
}

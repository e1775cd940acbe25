/** The time slider of the visualizer: a slider position (an integer percentage)
    is turned into one of the simulation's timestamps by a left-to-right scan
    that measures every timestamp as a percentage of the LAST timestamp and
    stops at the first one the slider position does not exceed. */
module Timeline {

  /** What the scan hands on to the renderer. */
  datatype ScrubOutcome =
    | Found(index: nat, time: real)  // the first qualifying index and its timestamp
    | NoMatch                        // the scan ran off the end: the code would read past the array
    | DegenerateTimeRange            // the last timestamp is zero: the percentage is not a number

  ghost predicate NonDecreasing(t: seq<real>) {
    forall i, j :: 0 <= i <= j < |t| ==> t[i] <= t[j]
  }

  function Last(t: seq<real>): real
    requires |t| > 0
  {
    t[|t| - 1]
  }

  /** Timestamp `i` as a percentage of the last timestamp (exact arithmetic). */
  function Percent(t: seq<real>, i: nat): real
    requires i < |t| && Last(t) != 0.0
  {
    t[i] / Last(t) * 100.0
  }

  /** The test the scan applies at index `i`. */
  predicate Qualifies(t: seq<real>, val: int, i: nat)
    requires i < |t| && Last(t) != 0.0
  {
    val as real <= Percent(t, i)
  }

  /** The outcome the scan produces, stated without saying how to find it. */
  ghost predicate IsScrubOutcome(t: seq<real>, val: int, o: ScrubOutcome) {
    if |t| == 0 then o == NoMatch
    else if Last(t) == 0.0 then o == DegenerateTimeRange
    else match o
      case Found(i, time) =>
        i < |t| && time == t[i] && Qualifies(t, val, i) &&
        forall j :: 0 <= j < i ==> !Qualifies(t, val, j)
      case NoMatch =>
        forall j :: 0 <= j < |t| ==> !Qualifies(t, val, j)
      case DegenerateTimeRange => false
  }

  /** The first qualifying index at or after `from`. */
  function FirstQualifyingFrom(t: seq<real>, val: int, from: nat): (r: ScrubOutcome)
    requires |t| > 0 && Last(t) != 0.0 && from <= |t|
    decreases |t| - from
    ensures !r.DegenerateTimeRange?
    ensures r.Found? ==>
      from <= r.index < |t| && r.time == t[r.index] && Qualifies(t, val, r.index) &&
      forall j :: from <= j < r.index ==> !Qualifies(t, val, j)
    ensures r.NoMatch? ==> forall j :: from <= j < |t| ==> !Qualifies(t, val, j)
  {
    if from == |t| then NoMatch
    else if Qualifies(t, val, from) then Found(from, t[from])
    else FirstQualifyingFrom(t, val, from + 1)
  }

  /** The outcome of the slide handler for slider value `val` over timestamps `t`. */
  function ScrubIndex(t: seq<real>, val: int): (r: ScrubOutcome)
    ensures IsScrubOutcome(t, val, r)
  {
    if |t| == 0 then NoMatch
    else if Last(t) == 0.0 then DegenerateTimeRange
    else FirstQualifyingFrom(t, val, 0)
  }

  /** The slide handler's scan: a loop over the timestamps with the flag
      `gotValue` and an early exit on the first qualifying index. */
  method Scan(t: seq<real>, val: int) returns (o: ScrubOutcome)
    ensures IsScrubOutcome(t, val, o)
    ensures o == ScrubIndex(t, val)
  {
    var len := |t|;
    if len > 0 && t[len - 1] == 0.0 {
      return DegenerateTimeRange;
    }
    var i := 0;
    var gotValue := false;
    while i < len && !gotValue
      invariant 0 <= i <= len
      invariant !gotValue
      invariant len > 0 ==> FirstQualifyingFrom(t, val, i) == ScrubIndex(t, val)
    {
      var percent := t[i] / t[len - 1] * 100.0;
      if val as real <= percent {
        gotValue := true;
        break;
      }
      i := i + 1;
    }
    if gotValue {
      o := Found(i, t[i]);
    } else {
      o := NoMatch;
    }
  }

  /** The last timestamp is always exactly 100 percent, so every slider value
      up to 100 finds a timestamp of the array. */
  lemma MatchUpToHundred(t: seq<real>, val: int)
    requires |t| > 0 && Last(t) != 0.0 && val <= 100
    ensures ScrubIndex(t, val).Found?
    ensures ScrubIndex(t, val).index < |t|
    ensures ScrubIndex(t, val).time in t
  {
    var last := Last(t);
    assert last / last == 1.0;
    assert Percent(t, |t| - 1) == 100.0;
    assert Qualifies(t, val, |t| - 1);
  }

  /** For a non-decreasing timeline ending at a positive time no timestamp is
      above 100 percent, so a slider value above 100 finds nothing. */
  lemma NoMatchAboveHundred(t: seq<real>, val: int)
    requires NonDecreasing(t) && |t| > 0 && Last(t) > 0.0 && val > 100
    ensures ScrubIndex(t, val) == NoMatch
  {
  }

  /** Every index that qualifies for a larger slider value also qualifies for
      a smaller one, so the chosen index never decreases with the value. */
  lemma ScrubIndexMonotone(t: seq<real>, val1: int, val2: int)
    requires val1 <= val2 && ScrubIndex(t, val2).Found?
    ensures ScrubIndex(t, val1).Found?
    ensures ScrubIndex(t, val1).index <= ScrubIndex(t, val2).index
  {
    var i2 := ScrubIndex(t, val2).index;
    assert Qualifies(t, val1, i2);
  }

  /** On a non-decreasing timeline the timestamp handed on never decreases
      with the slider value. */
  lemma ScrubTimeMonotone(t: seq<real>, val1: int, val2: int)
    requires NonDecreasing(t) && val1 <= val2 && ScrubIndex(t, val2).Found?
    ensures ScrubIndex(t, val1).Found?
    ensures ScrubIndex(t, val1).time <= ScrubIndex(t, val2).time
  {
    ScrubIndexMonotone(t, val1, val2);
  }

  /** Slider value 0 selects the first timestamp when that one is not negative
      and the last one is positive. */
  lemma ZeroSelectsFirst(t: seq<real>)
    requires |t| > 0 && t[0] >= 0.0 && Last(t) > 0.0
    ensures ScrubIndex(t, 0) == Found(0, t[0])
  {
  }

  /** Slider value 100 on a non-decreasing timeline ending at a positive time
      selects a timestamp equal to the last one (the first of any tie). */
  lemma HundredSelectsLast(t: seq<real>)
    requires NonDecreasing(t) && |t| > 0 && Last(t) > 0.0
    ensures ScrubIndex(t, 100).Found?
    ensures ScrubIndex(t, 100).time == Last(t)
  {
    MatchUpToHundred(t, 100);
    var i := ScrubIndex(t, 100).index;
    var last := Last(t);
    assert 100.0 <= t[i] / last * 100.0;
    assert t[i] / last * last == t[i];
    assert t[i] <= last;
  }

  /** Timestamps 0, 2, 4, 10 measure 0, 20, 40 and 100 percent: value 25
      first fits under 40, so the timestamp 4 is chosen. */
  lemma ScenarioQuarter()
    ensures ScrubIndex([0.0, 2.0, 4.0, 10.0], 25) == Found(2, 4.0)
  {
  }
}

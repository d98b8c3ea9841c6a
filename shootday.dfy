/** shootday_model.py: the motion-capture takes of a shoot day, each with a
    timecode interval built from Shotgun's millisecond fields, and the
    search for the take that covers most of a video file's interval. The
    Shotgun query, the Qt item model and its header are not modelled; the
    takes are a sequence of (id, interval) pairs in the model's order. */
module Shootday {
  import opened Wrappers
  import opened Timecode

  /** `shotgun_project_timebase`. */
  const PROJECT_BASE: ValidBase := TB_23976

  // ---------------------------------------------------------------- msec_to_timecode

  /** Python's `int()` of a float: the integer part, toward zero. */
  function Truncate(x: real): (r: int)
    ensures x >= 0.0 ==> r as real <= x < r as real + 1.0
    ensures x < 0.0 ==> r as real - 1.0 < x <= r as real
  {
    if x >= 0.0 then x.Floor else -((-x).Floor)
  }

  /** The frame, as a real, that a time in milliseconds falls on. */
  function FrameOfMsec(value: real, base: ValidBase): real
  {
    value / FpsToScale(base, 1000.0)
  }

  /** `msec_to_timecode(value, base)`: `int(frame + 0.5)` of the frame the
      milliseconds fall on; for a time at or after zero this rounds to the
      nearest frame, halves up; before that it rounds up, one frame late. */
  function MsecToTimecode(value: real, base: ValidBase): (t: Time)
    ensures t.base == base
    ensures var x := FrameOfMsec(value, base);
      x >= -0.5 ==> x - 0.5 < t.frame as real <= x + 0.5
    ensures var x := FrameOfMsec(value, base);
      x < -0.5 ==> x + 0.5 <= t.frame as real < x + 1.5
  {
    Time(Truncate(FrameOfMsec(value, base) + 0.5), base)
  }

  /** The milliseconds at which frame `f` starts: `f * base.fpsToScale(1000.0)`. */
  function MsecOfFrame(f: int, base: ValidBase): real
  {
    f as real * FpsToScale(base, 1000.0)
  }

  /** The frame of a whole number of milliseconds is `value * fps / 1000`. */
  lemma FrameOfMsecValue(value: real, base: ValidBase)
    ensures FrameOfMsec(value, base) * 1000.0 == value * base.framesPerSecond as real
  {
    var s := FpsToScale(base, 1000.0);
    var fps := base.framesPerSecond as real;
    assert s * fps == 1000.0;
    assert (value / s) * s == value;
    calc {
      (value / s) * 1000.0;
      (value / s) * (s * fps);
      ((value / s) * s) * fps;
      value * fps;
    }
  }

  /** A frame's own start time maps back to that frame, for frames at or
      after zero. */
  lemma MsecRoundTrip(f: int, base: ValidBase)
    requires f >= 0
    ensures MsecToTimecode(MsecOfFrame(f, base), base).frame == f
  {
    var s := FpsToScale(base, 1000.0);
    assert FrameOfMsec(MsecOfFrame(f, base), base) == (f as real * s) / s == f as real;
  }

  /** Before zero the truncation rounds toward zero instead: the frame
      before zero maps to zero. */
  lemma NegativeMsecExample()
    ensures MsecToTimecode(MsecOfFrame(-1, TB_24), TB_24).frame == 0
  {
    var s := FpsToScale(TB_24, 1000.0);
    assert FrameOfMsec(MsecOfFrame(-1, TB_24), TB_24) == (-1.0 * s) / s == -1.0;
  }

  /** Later times never get earlier frames. */
  lemma MsecMonotone(v1: real, v2: real, base: ValidBase)
    requires v1 <= v2
    ensures MsecToTimecode(v1, base).frame <= MsecToTimecode(v2, base).frame
  {
    var s := FpsToScale(base, 1000.0);
    assert s > 0.0;
    assert v2 / s - v1 / s == (v2 - v1) / s >= 0.0;
  }

  /** One second is 24 frames at 24 fps; half a frame rounds up. */
  lemma MsecExamples()
    ensures MsecToTimecode(1000.0, TB_24).frame == 24
    ensures MsecToTimecode(125.0 / 6.0, TB_24).frame == 1
    ensures MsecToTimecode(0.0, TB_23976).frame == 0
  {
    var s := FpsToScale(TB_24, 1000.0);
    assert s == 125.0 / 3.0;
    assert FrameOfMsec(1000.0, TB_24) == 24.0;
    assert FrameOfMsec(125.0 / 6.0, TB_24) == 0.5;
  }

  // ---------------------------------------------------------------- _intersect

  /** `_intersect(a, b)`, as written: when `a.Start in b`, the interval from
      `a.Start` to `b.EndTC` if `b.EndTC in a`, else `a`; otherwise, when
      `b.Start in a`, `b` if `a.EndTC in b`, else the interval from
      `b.Start` to `a.EndTC`; otherwise None. Each `in` fails on a base
      mismatch. */
  function Intersect(a: Interval, b: Interval): (r: Result<Option<Interval>, TimeError>)
  {
    var aStartInB :- ContainsTime(b, a.start);
    if aStartInB then
      var bEndInA :- ContainsTime(a, b.endTC);
      if bEndInA then
        var i :- MakeInterval(a.start, Some(b.endTC), None);
        Success(Some(i))
      else Success(Some(a))
    else
      var bStartInA :- ContainsTime(a, b.start);
      if bStartInA then
        var aEndInB :- ContainsTime(b, a.endTC);
        if aEndInB then Success(Some(b))
        else
          var i :- MakeInterval(b.start, Some(a.endTC), None);
          Success(Some(i))
      else Success(None)
  }

  /** All four ends of the two intervals on one base. */
  predicate SameBase(a: Interval, b: Interval)
  {
    a.endTC.base == a.start.base && b.start.base == a.start.base && b.endTC.base == a.start.base
  }

  function Max(x: int, y: int): int { if x < y then y else x }
  function Min(x: int, y: int): int { if x < y then x else y }

  /** The comparison of the starts fails first when the bases differ. */
  lemma IntersectBaseMismatch(a: Interval, b: Interval)
    requires !BaseEq(a.start.base, b.start.base)
    ensures Intersect(a, b) == Failure(BaseMismatch)
  {
  }

  /** When `a` starts inside `b` the result is the true overlap: from the
      later start to the earlier end. */
  lemma IntersectFromA(a: Interval, b: Interval)
    requires SameBase(a, b) && b.start.frame <= a.start.frame < b.endTC.frame
    ensures Intersect(a, b).Success? && Intersect(a, b).value.Some?
    ensures var i := Intersect(a, b).value.value;
      i.start.frame == Max(a.start.frame, b.start.frame) && i.endTC.frame == Min(a.endTC.frame, b.endTC.frame)
  {
  }

  /** When only `b` starts inside `a` the two results are swapped: the end
      is the later of the two ends, not the earlier, so the result is the
      true overlap only when both intervals end together. */
  lemma IntersectFromB(a: Interval, b: Interval)
    requires SameBase(a, b) && !(b.start.frame <= a.start.frame < b.endTC.frame)
    requires a.start.frame <= b.start.frame < a.endTC.frame
    ensures Intersect(a, b).Success? && Intersect(a, b).value.Some?
    ensures var i := Intersect(a, b).value.value;
      i.start.frame == Max(a.start.frame, b.start.frame) && i.endTC.frame == Max(a.endTC.frame, b.endTC.frame)
  {
  }

  /** Two non-empty intervals on one base give None exactly when they do
      not overlap. */
  lemma IntersectNoneIffDisjoint(a: Interval, b: Interval)
    requires SameBase(a, b) && IntervalNonzero(a) && IntervalNonzero(b)
    ensures Intersect(a, b).Success?
    ensures Intersect(a, b).value.None? <==>
              Max(a.start.frame, b.start.frame) >= Min(a.endTC.frame, b.endTC.frame)
  {
  }

  /** Frames 0-10 and 5-20 overlap in 5-10, but the result is 5-20. */
  lemma IntersectSwapExample()
    ensures var a := MakeInterval(FR(0, None), Some(FR(10, None)), None).value;
      var b := MakeInterval(FR(5, None), Some(FR(20, None)), None).value;
      Intersect(a, b) == Success(Some(b)) && Intersect(b, a).value.value.endTC.frame == 10
  {
    var a := MakeInterval(FR(0, None), Some(FR(10, None)), None).value;
    var b := MakeInterval(FR(5, None), Some(FR(20, None)), None).value;
    IntersectFromB(a, b);
    IntersectFromA(b, a);
  }

  // ---------------------------------------------------------------- findCoveringTake

  /** A take: its Shotgun id and its `sg_timecode_interval`. */
  datatype Take = Take(id: int, interval: Interval)

  /** What `findCoveringTake` can raise: a timecode error, or the division
      by a file duration of zero realtime seconds. */
  datatype MatchError = TimeFailure(error: TimeError) | ZeroDivision

  /** `COVERAGE_MIN`. */
  const COVERAGE_MIN: real := 0.6

  /** The test of one take against a file of `fileSecs` realtime seconds:
      the intersection must be truthy (present and not empty) and cover
      more than `required` of the file. */
  function TakeVerdict(file: Interval, fileSecs: real, take: Take, required: real): (r: Result<bool, MatchError>)
    ensures r.Failure? <==>
              Intersect(file, take.interval).Failure?
              || (Intersect(file, take.interval).value.Some?
                  && IntervalNonzero(Intersect(file, take.interval).value.value) && fileSecs == 0.0)
    ensures r == Success(true) <==>
              Intersect(file, take.interval).Success? && Intersect(file, take.interval).value.Some?
              && var i := Intersect(file, take.interval).value.value;
                 IntervalNonzero(i) && fileSecs != 0.0
                 && FrameToRealtimeSeconds(i.start.base, Len(i)) / fileSecs > required
  {
    match Intersect(file, take.interval)
    case Failure(e) => Failure(TimeFailure(e))
    case Success(None) => Success(false)
    case Success(Some(i)) =>
      if !IntervalNonzero(i) then Success(false)
      else if fileSecs == 0.0 then Failure(ZeroDivision)
      else Success(RealtimeSeconds(Duration(i).value) / fileSecs > required)
  }

  /** The scan of `findCoveringTake` over the takes in order: the first
      take whose verdict is true, None when every verdict is false, and
      the first failure otherwise. */
  function CoveringTake(file: Interval, fileSecs: real, takes: seq<Take>, required: real): (r: Result<Option<Take>, MatchError>)
    ensures r.Success? && r.value.Some? ==>
              r.value.value in takes && TakeVerdict(file, fileSecs, r.value.value, required) == Success(true)
    decreases |takes|
  {
    if |takes| == 0 then Success(None)
    else
      match TakeVerdict(file, fileSecs, takes[0], required)
      case Failure(e) => Failure(e)
      case Success(covers) =>
        if covers then Success(Some(takes[0])) else CoveringTake(file, fileSecs, takes[1..], required)
  }

  /** `findCoveringTake(fileInterval, requiredCoverage)`: the file's
      duration (which fails for a negative length), then the scan. */
  function CoveringTakeOf(file: Interval, takes: seq<Take>, required: real): (r: Result<Option<Take>, MatchError>)
    ensures Len(file) < 0 ==> r == Failure(TimeFailure(NegativeLength))
    ensures Len(file) >= 0 ==> r == CoveringTake(file, FrameToRealtimeSeconds(file.start.base, Len(file)), takes, required)
  {
    match Duration(file)
    case Failure(e) => Failure(TimeFailure(e))
    case Success(d) => CoveringTake(file, RealtimeSeconds(d), takes, required)
  }

  lemma CoveringTakeFrom(file: Interval, fileSecs: real, takes: seq<Take>, required: real, i: nat)
    requires i < |takes|
    ensures CoveringTake(file, fileSecs, takes[i..], required) ==
      match TakeVerdict(file, fileSecs, takes[i], required)
      case Failure(e) => Failure(e)
      case Success(covers) =>
        if covers then Success(Some(takes[i])) else CoveringTake(file, fileSecs, takes[i + 1..], required)
  {
    assert takes[i..][0] == takes[i] && takes[i..][1..] == takes[i + 1..];
  }

  /** The take found is the first whose verdict is true: every take
      before it was judged false. */
  lemma {:induction false} CoveringTakeIsFirst(file: Interval, fileSecs: real, takes: seq<Take>, required: real, k: nat)
    requires k < |takes| && TakeVerdict(file, fileSecs, takes[k], required) == Success(true)
    requires forall j :: 0 <= j < k ==> TakeVerdict(file, fileSecs, takes[j], required) == Success(false)
    ensures CoveringTake(file, fileSecs, takes, required) == Success(Some(takes[k]))
    decreases k
  {
    if k > 0 {
      assert TakeVerdict(file, fileSecs, takes[0], required) == Success(false);
      var rest := takes[1..];
      assert forall j :: 0 <= j < k - 1 ==> rest[j] == takes[j + 1];
      CoveringTakeIsFirst(file, fileSecs, rest, required, k - 1);
    }
  }

  /** None exactly when every take is judged false. */
  lemma {:induction false} CoveringTakeNone(file: Interval, fileSecs: real, takes: seq<Take>, required: real)
    ensures CoveringTake(file, fileSecs, takes, required) == Success(None) <==>
              forall j :: 0 <= j < |takes| ==> TakeVerdict(file, fileSecs, takes[j], required) == Success(false)
    decreases |takes|
  {
    if |takes| > 0 {
      var rest := takes[1..];
      CoveringTakeNone(file, fileSecs, rest, required);
      assert forall j :: 1 <= j < |takes| ==> takes[j] == rest[j - 1];
    }
  }

  /** A file of zero realtime seconds never finds a take: the first truthy
      intersection divides by zero. */
  lemma ZeroDurationNeverMatches(file: Interval, takes: seq<Take>, required: real)
    ensures !(CoveringTake(file, 0.0, takes, required).Success? && CoveringTake(file, 0.0, takes, required).value.Some?)
  {
  }

  /** Every file shorter than one second of its base has zero realtime
      seconds, so none finds a take. */
  lemma SubSecondFileNeverMatches(file: Interval, takes: seq<Take>, required: real)
    requires 0 <= Len(file) < file.start.base.framesPerSecond
    ensures var r := CoveringTakeOf(file, takes, required); !(r.Success? && r.value.Some?)
  {
    SubSecondIsZero(file.start.base, Len(file));
    ZeroDurationNeverMatches(file, takes, required);
  }

  /** `findCoveringTake`: the `for takeID in self.entity_ids` loop with its
      early return. */
  method FindCoveringTake(file: Interval, takes: seq<Take>, required: real) returns (r: Result<Option<Take>, MatchError>)
    ensures r == CoveringTakeOf(file, takes, required)
  {
    var duration := Duration(file);
    if duration.Failure? {
      return Failure(TimeFailure(duration.error));
    }
    var fileSecs := RealtimeSeconds(duration.value);
    var i := 0;
    while i < |takes|
      invariant 0 <= i <= |takes|
      invariant CoveringTake(file, fileSecs, takes, required) == CoveringTake(file, fileSecs, takes[i..], required)
    {
      CoveringTakeFrom(file, fileSecs, takes, required, i);
      var intersection := Intersect(file, takes[i].interval);
      if intersection.Failure? {
        return Failure(TimeFailure(intersection.error));
      }
      if intersection.value.Some? && IntervalNonzero(intersection.value.value) {
        if fileSecs == 0.0 {
          return Failure(ZeroDivision);
        }
        var coverage := RealtimeSeconds(Duration(intersection.value.value).value) / fileSecs;
        if coverage > required {
          return Success(Some(takes[i]));
        }
      }
      i := i + 1;
    }
    return Success(None);
  }

  // ---------------------------------------------------------------- _before_data_processing

  /** A Shotgun take record: its `sg_timecode_in` and `sg_timecode_out` in
      milliseconds, and the `sg_timecode_interval` entry the model adds. */
  class TakeRecord {
    const timecodeIn: real
    const timecodeOut: real
    var interval: Option<Interval>

    constructor (tcIn: real, tcOut: real)
      ensures timecodeIn == tcIn && timecodeOut == tcOut && interval.None?
    {
      timecodeIn, timecodeOut := tcIn, tcOut;
      interval := None;
    }
  }

  /** The interval of a take whose fields hold `msIn` and `msOut`:
      `Interval(tcIn, endtc=tcOut)` on the project base, with no check that
      the out point follows the in point. */
  function TakeInterval(msIn: real, msOut: real): (i: Interval)
    ensures WellFormed(i) && i.start.base == PROJECT_BASE
    ensures i.start == MsecToTimecode(msIn, PROJECT_BASE) && i.endTC == MsecToTimecode(msOut, PROJECT_BASE)
  {
    MakeInterval(MsecToTimecode(msIn, PROJECT_BASE), Some(MsecToTimecode(msOut, PROJECT_BASE)), None).value
  }

  /** An out point at or after the in point gives a length of zero or more;
      an earlier one gives the negative length that `duration()` refuses. */
  lemma TakeIntervalLength(msIn: real, msOut: real)
    ensures msIn <= msOut ==> Len(TakeInterval(msIn, msOut)) >= 0
    ensures Len(TakeInterval(MsecOfFrame(10, PROJECT_BASE), MsecOfFrame(4, PROJECT_BASE))) == -6
  {
    if msIn <= msOut {
      MsecMonotone(msIn, msOut, PROJECT_BASE);
    }
    MsecRoundTrip(10, PROJECT_BASE);
    MsecRoundTrip(4, PROJECT_BASE);
  }

  /** `_before_data_processing(data)`: writes each record's interval into
      the record itself. */
  method BeforeDataProcessing(data: seq<TakeRecord>)
    modifies set r | r in data
    ensures forall r :: r in data ==> r.interval == Some(TakeInterval(r.timecodeIn, r.timecodeOut))
  {
    for i := 0 to |data|
      invariant forall j :: 0 <= j < i ==> data[j].interval == Some(TakeInterval(data[j].timecodeIn, data[j].timecodeOut))
    {
      var record := data[i];
      var tcIn := MsecToTimecode(record.timecodeIn, PROJECT_BASE);
      var tcOut := MsecToTimecode(record.timecodeOut, PROJECT_BASE);
      var interval := MakeInterval(tcIn, Some(tcOut), None).value;
      record.interval := Some(interval);
    }
  }
}

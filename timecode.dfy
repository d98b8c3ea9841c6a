/** The timecode value layer: a time base (frames per second and a realtime
    scale), a Time (signed frame count on a base), an Interval (start plus
    exclusive end timecode and inclusive end frame) and a linear speed map.
    Python exceptions become `Failure` values; TypeErrors raised for
    arguments of the wrong Python type cannot arise, because the types here
    rule them out. */
module Timecode {
  import opened Wrappers
  import opened Text
  import Arith

  // ---------------------------------------------------------------- Base

  /** Frames per second and realtime seconds per nominal second. */
  datatype Base = Base(framesPerSecond: int, realtimeScale: real)

  /** Every Base object that `Base.__init__` lets through. */
  type ValidBase = b: Base | b.framesPerSecond > 0 && b.realtimeScale > 0.0 witness Base(1, 1.0)

  /** The exceptions of the timecode layer, by cause. */
  datatype TimeError =
    | NonPositiveFps        // Base(): framesPerSecond <= 0
    | NonPositiveScale      // Base(): realtimeScale <= 0.0
    | TimecodeTooShort      // timecodeToFrame: fewer than 11 characters
    | TimecodeFieldCount    // timecodeToFrame: not exactly four ':' fields
    | TimecodeFieldNotInt   // timecodeToFrame: int() rejects a field
    | TimecodeFieldRange    // timecodeToFrame: minutes, seconds or frames too large
    | BaseMismatch          // arithmetic, comparison or containment across bases
    | ConflictingArguments  // keyword arguments that exclude each other
    | MissingEnd            // Interval() without endtc or endfr
    | NegativeInterval      // Interval(endfr=F) with F before the start
    | NoStopAttribute       // Time compared as after an Interval reads `other.Stop`
    | NegativeLength        // len() of an interval whose end timecode precedes its start

  /** `Base(framesPerSecond, realtimeScale)`. */
  function MakeBase(fps: int, scale: real): (r: Result<ValidBase, TimeError>)
    ensures r.Success? <==> fps > 0 && scale > 0.0
    ensures r.Success? ==> r.value == Base(fps, scale)
    ensures fps <= 0 ==> r == Failure(NonPositiveFps)
    ensures fps > 0 && scale <= 0.0 ==> r == Failure(NonPositiveScale)
  {
    if fps <= 0 then Failure(NonPositiveFps)
    else if scale <= 0.0 then Failure(NonPositiveScale)
    else Success(Base(fps, scale))
  }

  function AbsReal(x: real): (y: real)
    ensures y >= 0.0 && (y == x || y == -x)
  {
    if x < 0.0 then -x else x
  }

  /** `Base.__eq__`: equal rates and realtime scales closer than 0.0001. */
  predicate BaseEq(a: Base, b: Base)
  {
    a.framesPerSecond == b.framesPerSecond && AbsReal(a.realtimeScale - b.realtimeScale) < 0.0001
  }

  const RTS_WHOLE: real := 1.0
  const RTS_VIDEO: real := 1.001001001001001

  const TB_24: ValidBase := Base(24, RTS_WHOLE)
  const TB_23976: ValidBase := Base(24, RTS_VIDEO)
  const TB_30: ValidBase := Base(30, RTS_WHOLE)
  const TB_2997: ValidBase := Base(30, RTS_VIDEO)
  const TB_60: ValidBase := Base(60, RTS_WHOLE)
  const TB_5994: ValidBase := Base(60, RTS_VIDEO)
  const TB_120: ValidBase := Base(120, RTS_WHOLE)
  const TB_DEFAULT: ValidBase := TB_24

  /** Base equality is reflexive and symmetric. */
  lemma BaseEqIsEquivalenceLike(a: Base, b: Base)
    ensures BaseEq(a, a)
    ensures BaseEq(a, b) == BaseEq(b, a)
  {
  }

  /** The tolerance makes Base equality non-transitive: two bases can each
      equal a third without equalling each other. */
  lemma BaseEqNotTransitive()
    ensures BaseEq(Base(24, 1.0), Base(24, 1.00006))
    ensures BaseEq(Base(24, 1.00006), Base(24, 1.00012))
    ensures !BaseEq(Base(24, 1.0), Base(24, 1.00012))
  {
  }

  /** 1.001 stands for the repeating video fraction, and video bases differ
      from the whole-number bases of the same rate. */
  lemma VideoBasesTolerateThousandths()
    ensures BaseEq(TB_23976, Base(24, 1.001))
    ensures BaseEq(TB_2997, Base(30, 1.001))
    ensures BaseEq(TB_5994, Base(60, 1.001))
    ensures !BaseEq(TB_24, TB_23976)
    ensures !BaseEq(TB_24, TB_120)
  {
  }

  // ---------------------------------------------------------------- timecode strings

  /** `Base.timecodeToFrame`: parse `[-]H:M:S:F`; the sign applies to the
      whole count. */
  function TimecodeToFrame(b: ValidBase, tc: string): (r: Result<int, TimeError>)
    ensures |tc| < 11 ==> r == Failure(TimecodeTooShort)
  {
    if |tc| < 11 then Failure(TimecodeTooShort)
    else
      var negative := tc[0] == '-';
      var body := if negative then tc[1..] else tc;
      var n :- FieldsToFrame(b, Split(body, ':'));
      // the count times the arity, -1 or 1
      Success(if negative then -n else n)
  }

  /** The four ':'-separated fields of an unsigned timecode: each through
      `int()`, then the range checks on minutes, seconds and frames. */
  function FieldsToFrame(b: ValidBase, segs: seq<string>): (r: Result<int, TimeError>)
    ensures |segs| != 4 ==> r == Failure(TimecodeFieldCount)
  {
    if |segs| != 4 then Failure(TimecodeFieldCount)
    else
      var h, m, s, f := ParseInt(segs[0]), ParseInt(segs[1]), ParseInt(segs[2]), ParseInt(segs[3]);
      if h.None? || m.None? || s.None? || f.None? then Failure(TimecodeFieldNotInt)
      else if m.value >= 60 || s.value >= 60 || f.value >= b.framesPerSecond then Failure(TimecodeFieldRange)
      else
        var fps := b.framesPerSecond;
        Success(h.value * 60 * 60 * fps + m.value * 60 * fps + s.value * fps + f.value)
  }

  /** The sign and h/m/s/f counts of a frame number. */
  datatype Counts = Counts(sign: string, hours: nat, minutes: nat, seconds: nat, frames: nat)

  function AbsInt(x: int): nat { if x < 0 then -x else x }

  /** `Base.frameToCounts`: the sign, then the floor-division cascade of |frame|
      by 3600*fps, 60*fps and fps. */
  function FrameToCounts(b: ValidBase, frame: int): (c: Counts)
    ensures c.sign == (if frame < 0 then "-" else "")
    ensures c.minutes < 60 && c.seconds < 60 && c.frames < b.framesPerSecond
    ensures c.hours * 60 * 60 * b.framesPerSecond + c.minutes * 60 * b.framesPerSecond
            + c.seconds * b.framesPerSecond + c.frames == AbsInt(frame)
  {
    var fps := b.framesPerSecond;
    var n := AbsInt(frame);
    var h, r1 := n / (60 * 60 * fps), n % (60 * 60 * fps);
    var m, r2 := r1 / (60 * fps), r1 % (60 * fps);
    var s, f := r2 / fps, r2 % fps;
    Cascade(n, fps, h, r1, m, r2, s, f);
    Counts(if frame < 0 then "-" else "", h, m, s, f)
  }

  /** The arithmetic behind frameToCounts: the three quotient/remainder steps
      recombine to the count and leave each lower field in range. */
  lemma Cascade(n: nat, fps: int, h: int, r1: int, m: int, r2: int, s: int, f: int)
    requires fps > 0
    requires h == n / (60 * 60 * fps) && r1 == n % (60 * 60 * fps)
    requires m == r1 / (60 * fps) && r2 == r1 % (60 * fps)
    requires s == r2 / fps && f == r2 % fps
    ensures 0 <= h && 0 <= m < 60 && 0 <= s < 60 && 0 <= f < fps
    ensures h * 60 * 60 * fps + m * 60 * fps + s * fps + f == n
  {
    var k2 := 60 * fps;
    var k1 := 60 * k2;
    Arith.DivModNonneg(n, k1);
    assert n == h * k1 + r1;
    assert r1 == m * k2 + r2;
    assert r2 == s * fps + f;
    Arith.DivLess(r1, k2, 60);
    Arith.DivLess(r2, fps, 60);
    assert h * k1 == h * 60 * 60 * fps;
    assert m * k2 == m * 60 * fps;
  }

  /** `"%s%02d:%02d:%02d:%02d" % counts`. */
  function FormatCounts(c: Counts): string
  {
    c.sign + UnsignedPart(c)
  }

  /** The four `%02d` fields joined by ':'. */
  function UnsignedPart(c: Counts): string
  {
    Pad2(c.hours) + ":" + Pad2(c.minutes) + ":" + Pad2(c.seconds) + ":" + Pad2(c.frames)
  }

  /** Examples from the source's tests. */
  lemma FrameToCountsExamples()
    ensures FrameToCounts(TB_24, 25) == Counts("", 0, 0, 1, 1)
    ensures FrameToCounts(TB_24, 0) == Counts("", 0, 0, 0, 0)
    ensures FrameToCounts(TB_24, -25) == Counts("-", 0, 0, 1, 1)
  {
  }

  // ---------------------------------------------------------------- Time

  /** A signed frame count on a base. */
  datatype Time = Time(frame: int, base: ValidBase)

  /** `base or TB_DEFAULT`: a Base object is always truthy. */
  function DefaultBase(base: Option<ValidBase>): ValidBase
  {
    if base.Some? then base.value else TB_DEFAULT
  }

  /** `Time(time=..., timecode=..., frame=..., base=...)`, that is `Time.read`
      on a fresh object. */
  function ReadTime(time: Option<Time>, timecode: Option<string>, frame: Option<int>, base: Option<ValidBase>)
    : (r: Result<Time, TimeError>)
    ensures time.Some? ==>
      (r.Success? <==> timecode.None? && frame.None? && base.None?) &&
      (r.Success? ==> r.value == time.value)
    ensures time.None? && timecode.Some? ==>
      (frame.Some? ==> r == Failure(ConflictingArguments)) &&
      (frame.None? ==> r == (match TimecodeToFrame(DefaultBase(base), timecode.value)
                             case Success(n) => Success(Time(n, DefaultBase(base)))
                             case Failure(e) => Failure(e)))
    ensures time.None? && timecode.None? ==>
      r == Success(Time(if frame.Some? then frame.value else 0, DefaultBase(base)))
  {
    if time.Some? then
      if timecode.None? && frame.None? && base.None? then Success(time.value)
      else Failure(ConflictingArguments)
    else if timecode.Some? then
      if frame.Some? then Failure(ConflictingArguments)
      else
        var b := DefaultBase(base);
        var n :- TimecodeToFrame(b, timecode.value);
        Success(Time(n, b))
    else if frame.Some? then Success(Time(frame.value, DefaultBase(base)))
    else Success(Time(0, DefaultBase(base)))
  }

  /** `FR(frame, base)`. */
  function FR(frame: int, base: Option<ValidBase>): (t: Time)
    ensures t.frame == frame && t.base == DefaultBase(base)
  {
    ReadTime(None, None, Some(frame), base).value
  }

  /** `TC(timecode, base)`. */
  function TC(tc: string, base: Option<ValidBase>): (r: Result<Time, TimeError>)
    ensures r.Success? ==> r.value.base == DefaultBase(base)
    ensures r.Success? <==> TimecodeToFrame(DefaultBase(base), tc).Success?
    ensures r.Success? ==> TimecodeToFrame(DefaultBase(base), tc) == Success(r.value.frame)
  {
    ReadTime(None, Some(tc), None, base)
  }

  /** `Time.timecode()`. */
  function TimecodeOf(t: Time): string
  {
    FormatCounts(FrameToCounts(t.base, t.frame))
  }

  lemma DigitsHaveNoColon(s: string)
    requires AllDigits(s)
    ensures ':' !in s && (|s| > 0 ==> s[0] != '-')
  {
  }

  /** The four padded fields of a timecode split back apart. */
  lemma SplitFields(ph: string, pm: string, ps: string, pf: string)
    requires AllDigits(ph) && AllDigits(pm) && AllDigits(ps) && AllDigits(pf)
    ensures Split(ph + ":" + pm + ":" + ps + ":" + pf, ':') == [ph, pm, ps, pf]
  {
    DigitsHaveNoColon(ph);
    DigitsHaveNoColon(pm);
    DigitsHaveNoColon(ps);
    DigitsHaveNoColon(pf);
    Join4(ph, pm, ps, pf, ':');
    var parts := [ph, pm, ps, pf];
    assert forall i :: 0 <= i < 4 ==> ':' !in parts[i];
    SplitJoin(parts, ':');
  }

  /** In-range counts, padded, parse back to their frame total. */
  lemma FieldsOfCounts(b: ValidBase, c: Counts)
    requires c.minutes < 60 && c.seconds < 60 && c.frames < b.framesPerSecond
    ensures FieldsToFrame(b, [Pad2(c.hours), Pad2(c.minutes), Pad2(c.seconds), Pad2(c.frames)])
            == Success(c.hours * 60 * 60 * b.framesPerSecond + c.minutes * 60 * b.framesPerSecond
                       + c.seconds * b.framesPerSecond + c.frames)
  {
    ParsePad2(c.hours);
    ParsePad2(c.minutes);
    ParsePad2(c.seconds);
    ParsePad2(c.frames);
    FieldsInRange(b, [Pad2(c.hours), Pad2(c.minutes), Pad2(c.seconds), Pad2(c.frames)], c.hours, c.minutes, c.seconds, c.frames);
  }

  /** Four fields that read as numbers, one of them out of range, are refused. */
  lemma FieldsOutOfRange(b: ValidBase, segs: seq<string>, h: int, m: int, s: int, f: int)
    requires |segs| == 4
    requires ParseInt(segs[0]) == Some(h) && ParseInt(segs[1]) == Some(m)
    requires ParseInt(segs[2]) == Some(s) && ParseInt(segs[3]) == Some(f)
    requires m >= 60 || s >= 60 || f >= b.framesPerSecond
    ensures FieldsToFrame(b, segs) == Failure(TimecodeFieldRange)
  {
  }

  /** Four fields that read as in-range numbers give their frame total. */
  lemma FieldsInRange(b: ValidBase, segs: seq<string>, h: int, m: int, s: int, f: int)
    requires |segs| == 4
    requires ParseInt(segs[0]) == Some(h) && ParseInt(segs[1]) == Some(m)
    requires ParseInt(segs[2]) == Some(s) && ParseInt(segs[3]) == Some(f)
    requires m < 60 && s < 60 && f < b.framesPerSecond
    ensures FieldsToFrame(b, segs) == Success(h * 60 * 60 * b.framesPerSecond + m * 60 * b.framesPerSecond
                                              + s * b.framesPerSecond + f)
  {
  }

  /** A timecode without a leading '-' reads as the value of its fields. */
  lemma UnsignedTimecode(b: ValidBase, tc: string, n: int)
    requires |tc| >= 11 && tc[0] != '-'
    requires FieldsToFrame(b, Split(tc, ':')) == Success(n)
    ensures TimecodeToFrame(b, tc) == Success(n)
  {
  }

  /** A timecode with a leading '-' reads as the negated value of the fields after it. */
  lemma NegatedTimecode(b: ValidBase, tc: string, n: int)
    requires |tc| >= 11 && tc[0] == '-'
    requires FieldsToFrame(b, Split(tc[1..], ':')) == Success(n)
    ensures TimecodeToFrame(b, tc) == Success(-n)
  {
  }

  /** The unsigned part of a formatted timecode has at least 11 characters,
      no leading '-', and fields that parse back to |frame|. */
  lemma UnsignedPartParses(b: ValidBase, frame: int)
    ensures var c := FrameToCounts(b, frame); var body := UnsignedPart(c);
      FormatCounts(c) == c.sign + body && |body| >= 11 && body[0] != '-'
      && FieldsToFrame(b, Split(body, ':')) == Success(AbsInt(frame))
  {
    var c := FrameToCounts(b, frame);
    var ph, pm, ps, pf := Pad2(c.hours), Pad2(c.minutes), Pad2(c.seconds), Pad2(c.frames);
    SplitFields(ph, pm, ps, pf);
    CountsReadBack(b, frame);
    assert UnsignedPart(c)[0] == ph[0];
    DigitsHaveNoColon(ph);
  }

  /** The four padded fields of a frame's counts read back as its absolute value. */
  lemma CountsReadBack(b: ValidBase, frame: int)
    ensures var c := FrameToCounts(b, frame);
      FieldsToFrame(b, [Pad2(c.hours), Pad2(c.minutes), Pad2(c.seconds), Pad2(c.frames)]) == Success(AbsInt(frame))
  {
    FieldsOfCounts(b, FrameToCounts(b, frame));
  }

  /** Round trip: reading back the timecode of any frame gives that frame,
      for every frame and every base (the source tests -60..60 and the
      limits +-999:59:59:00). */
  lemma {:induction false} TimecodeRoundTrip(b: ValidBase, frame: int)
    ensures TimecodeToFrame(b, FormatCounts(FrameToCounts(b, frame))) == Success(frame)
  {
    var c := FrameToCounts(b, frame);
    var body := UnsignedPart(c);
    var tc := FormatCounts(c);
    UnsignedPartParses(b, frame);
    if frame < 0 {
      assert tc[0] == '-' && tc[1..] == body;
      NegatedTimecode(b, tc, AbsInt(frame));
    } else {
      assert tc == body;
      UnsignedTimecode(b, tc, AbsInt(frame));
    }
  }

  /** The Time-level form of the round trip: `TC(FR(n).timecode()) == FR(n)`. */
  lemma TimeRoundTrip(t: Time)
    ensures TC(TimecodeOf(t), Some(t.base)) == Success(t)
  {
    TimecodeRoundTrip(t.base, t.frame);
  }

  /** The sign is applied once, to the whole count: a leading '-' negates the
      result or fails exactly when the unsigned string fails. */
  lemma NegativeTimecode(b: ValidBase, tc: string)
    requires |tc| >= 11 && tc[0] != '-'
    ensures TimecodeToFrame(b, "-" + tc).Success? == TimecodeToFrame(b, tc).Success?
    ensures TimecodeToFrame(b, tc).Success? ==>
              TimecodeToFrame(b, "-" + tc).value == -TimecodeToFrame(b, tc).value
  {
    assert ("-" + tc)[1..] == tc;
  }

  /** The error cases of `timecodeToFrame`. */
  lemma TimecodeErrors(b: ValidBase, tc: string)
    ensures |tc| < 11 ==> TimecodeToFrame(b, tc) == Failure(TimecodeTooShort)
    ensures |tc| >= 11 && |Split(if tc[0] == '-' then tc[1..] else tc, ':')| != 4 ==>
              TimecodeToFrame(b, tc) == Failure(TimecodeFieldCount)
  {
  }

  /** Examples from the source's tests, at 24 fps: formatting. */
  lemma TimecodeExamples()
    ensures TimecodeOf(Time(0, TB_24)) == "00:00:00:00"
    ensures TimecodeOf(Time(-1, TB_24)) == "-00:00:00:01"
    ensures TimecodeOf(Time(24, TB_24)) == "00:00:01:00"
  {
    assert ShowNat(0) == "0" && ShowNat(1) == "1";
    assert Pad2(0) == "00" && Pad2(1) == "01";
    assert FrameToCounts(TB_24, 0) == Counts("", 0, 0, 0, 0);
    assert FrameToCounts(TB_24, -1) == Counts("-", 0, 0, 0, 1);
    assert FrameToCounts(TB_24, 24) == Counts("", 0, 0, 1, 0);
  }

  /** Reading back the negative example. */
  lemma NegativeTimecodeExample()
    ensures TimecodeToFrame(TB_24, "-00:00:00:01") == Success(-1)
  {
    TimecodeExamples();
    TimecodeRoundTrip(TB_24, -1);
  }

  lemma PadExamples()
    ensures Pad2(0) == "00" && Pad2(24) == "24"
  {
    assert ShowNat(0) == "0" && ShowNat(2) == "2" && ShowNat(24) == "24";
  }

  /** Out-of-range fields are refused, as in the source's tests. */
  lemma TimecodeRangeExamples()
    ensures TimecodeToFrame(TB_24, "00:00") == Failure(TimecodeTooShort)
    ensures TimecodeToFrame(TB_24, "00:00:00:24") == Failure(TimecodeFieldRange)
  {
    var tc := "00:00:00:24";
    PadExamples();
    assert tc == "00" + ":" + "00" + ":" + "00" + ":" + "24";
    SplitFields("00", "00", "00", "24");
    ParsePad2(0);
    ParsePad2(24);
    FieldsOutOfRange(TB_24, ["00", "00", "00", "24"], 0, 0, 0, 24);
  }

  // ---------------------------------------------------------------- Base conversions

  /** `Base.frameToRealtimeSeconds`: whole seconds by floor division, then
      scaled. */
  function FrameToRealtimeSeconds(b: ValidBase, frame: int): (secs: real)
  {
    (frame / b.framesPerSecond) as real * b.realtimeScale
  }

  /** Floor division: a frame in second q (q*fps <= frame < (q+1)*fps) has
      realtime q * realtimeScale, also for negative frames. */
  lemma RealtimeSecondsFloor(b: ValidBase, frame: int, q: int)
    requires q * b.framesPerSecond <= frame < (q + 1) * b.framesPerSecond
    ensures FrameToRealtimeSeconds(b, frame) == q as real * b.realtimeScale
  {
    Arith.DivModUnique(frame, b.framesPerSecond, q, frame - q * b.framesPerSecond);
  }

  /** Less than one second of frames is zero realtime seconds. */
  lemma SubSecondIsZero(b: ValidBase, frame: int)
    requires 0 <= frame < b.framesPerSecond
    ensures FrameToRealtimeSeconds(b, frame) == 0.0
  {
    RealtimeSecondsFloor(b, frame, 0);
  }

  /** `Time.realtimeSeconds()`. */
  function RealtimeSeconds(t: Time): real
  {
    FrameToRealtimeSeconds(t.base, t.frame)
  }

  /** Realtime seconds never decrease as the frame grows. */
  lemma {:induction false} RealtimeSecondsMonotone(b: ValidBase, f1: int, f2: int)
    requires f1 <= f2
    ensures FrameToRealtimeSeconds(b, f1) <= FrameToRealtimeSeconds(b, f2)
  {
    var fps := b.framesPerSecond;
    var q1, q2 := f1 / fps, f2 / fps;
    if q1 > q2 {
      assert q1 * fps <= f1 && f2 < q2 * fps + fps;
      Arith.MulMonotone(q2 + 1, q1, fps);
      assert false;
    }
    assert (q1 as real) <= (q2 as real);
  }

  lemma RealtimeExamples()
    ensures FrameToRealtimeSeconds(TB_24, 24) == 1.0
    ensures FrameToRealtimeSeconds(TB_24, 0) == 0.0
  {
    RealtimeSecondsFloor(TB_24, 24, 1);
    RealtimeSecondsFloor(TB_24, 0, 0);
  }

  /** `Base.fpsToScale`: a playback rate as a multiple of this base's rate. */
  function FpsToScale(b: ValidBase, fps: real): (scale: real)
    ensures scale * b.framesPerSecond as real == fps
    ensures fps > 0.0 ==> scale > 0.0
  {
    fps / b.framesPerSecond as real
  }

  // ---------------------------------------------------------------- Time arithmetic

  /** `Time.__cmp__` with another Time: the frame difference, bases must match. */
  function Cmp(t: Time, u: Time): (r: Result<int, TimeError>)
    ensures r.Success? <==> BaseEq(t.base, u.base)
    ensures r.Success? ==> (r.value < 0 <==> t.frame < u.frame) && (r.value == 0 <==> t.frame == u.frame)
  {
    if !BaseEq(t.base, u.base) then Failure(BaseMismatch) else Success(t.frame - u.frame)
  }

  /** `Time.__nonzero__`. */
  predicate Nonzero(t: Time) { t.frame != 0 }

  /** `Time.__neg__`. */
  function Neg(t: Time): (r: Time)
    ensures r.base == t.base && r.frame + t.frame == 0
  {
    Time(-t.frame, t.base)
  }

  /** `Time.__add__`: the sum on the left operand's base. */
  function Add(t: Time, u: Time): (r: Result<Time, TimeError>)
    ensures r.Success? <==> BaseEq(t.base, u.base)
    ensures r.Success? ==> r.value.base == t.base && r.value.frame == t.frame + u.frame
    ensures r.Failure? ==> r.error == BaseMismatch
  {
    if !BaseEq(t.base, u.base) then Failure(BaseMismatch) else Success(Time(t.frame + u.frame, t.base))
  }

  /** `Time.__sub__`: the difference on the left operand's base. */
  function Sub(t: Time, u: Time): (r: Result<Time, TimeError>)
    ensures r.Success? <==> BaseEq(t.base, u.base)
    ensures r.Success? ==> r.value.base == t.base && r.value.frame == t.frame - u.frame
    ensures r.Failure? ==> r.error == BaseMismatch
  {
    if !BaseEq(t.base, u.base) then Failure(BaseMismatch) else Success(Time(t.frame - u.frame, t.base))
  }

  /** Subtraction undoes addition. */
  lemma SubUndoesAdd(t: Time, u: Time)
    requires Add(t, u).Success?
    ensures Sub(Add(t, u).value, u) == Success(t)
  {
  }

  /** Python 2 `round()`: to the nearest integer, halves away from zero. */
  function RoundHalfAway(x: real): (r: int)
    ensures x >= 0.0 ==> r as real - 0.5 <= x < r as real + 0.5
    ensures x < 0.0 ==> r as real - 0.5 < x <= r as real + 0.5
  {
    if x >= 0.0 then (x + 0.5).Floor else -((-x + 0.5).Floor)
  }

  /** `Time.__mul__` by a float: the rounded product, on the same base. */
  function Mul(t: Time, k: real): (r: Time)
    ensures r.base == t.base
    ensures AbsReal(r.frame as real - t.frame as real * k) <= 0.5
    ensures t.frame as real * k >= 0.0 ==> r.frame as real - 0.5 <= t.frame as real * k < r.frame as real + 0.5
    ensures t.frame as real * k < 0.0 ==> r.frame as real - 0.5 < t.frame as real * k <= r.frame as real + 0.5
  {
    Time(RoundHalfAway(t.frame as real * k), t.base)
  }

  // ---------------------------------------------------------------- Interval

  /** An interval: `start`, exclusive end timecode `endTC` and inclusive end
      frame `endFR`. */
  datatype Interval = Interval(start: Time, endTC: Time, endFR: Time)

  /** What every constructed Interval satisfies: the end frame sits one
      frame before the end timecode, on the end's base, which equals the
      start's base. */
  predicate WellFormed(i: Interval)
  {
    i.endFR.frame == i.endTC.frame - 1 && i.endFR.base == i.endTC.base && BaseEq(i.start.base, i.endTC.base)
  }

  /** `Interval(start, endtc=..., endfr=...)`. */
  function MakeInterval(start: Time, endtc: Option<Time>, endfr: Option<Time>): (r: Result<Interval, TimeError>)
    ensures r.Success? ==> WellFormed(r.value) && r.value.start == start
    ensures endtc.Some? && endfr.Some? ==> r == Failure(ConflictingArguments)
    ensures endtc.None? && endfr.None? ==> r == Failure(MissingEnd)
    ensures endtc.Some? && endfr.None? ==>
              (r.Success? <==> BaseEq(start.base, endtc.value.base)) &&
              (r.Success? ==> r.value.endTC == endtc.value)
    ensures endtc.None? && endfr.Some? ==>
              (r.Success? <==> BaseEq(start.base, endfr.value.base) && endfr.value.frame >= start.frame) &&
              (r.Success? ==> r.value.endFR == endfr.value)
  {
    if endtc.Some? then
      if endfr.Some? then Failure(ConflictingArguments)
      else if !BaseEq(start.base, endtc.value.base) then Failure(BaseMismatch)
      else
        var t := endtc.value;
        var one := FR(1, Some(t.base));
        var endFR := Sub(t, one).value;
        Success(Interval(start, t, endFR))
    else if endfr.Some? then
      var f := endfr.value;
      if !BaseEq(start.base, f.base) then Failure(BaseMismatch)
      else if Cmp(f, start).value < 0 then Failure(NegativeInterval)
      else
        var one := FR(1, Some(f.base));
        Success(Interval(start, Add(f, one).value, f))
    else Failure(MissingEnd)
  }

  /** `len(interval)`: frames from the start up to the exclusive end. */
  function Len(i: Interval): int
  {
    i.endTC.frame - i.start.frame
  }

  /** `Interval.duration()`: the length as a Time on the start's base. It
      goes through `len()`, which refuses a negative `__len__`. */
  function Duration(i: Interval): (d: Result<Time, TimeError>)
    ensures d.Success? <==> Len(i) >= 0
    ensures d.Success? ==> d.value.base == i.start.base && d.value.frame == Len(i)
    ensures d.Failure? ==> d.error == NegativeLength
  {
    if Len(i) < 0 then Failure(NegativeLength) else Success(FR(Len(i), Some(i.start.base)))
  }

  /** `Interval.__nonzero__`. */
  predicate IntervalNonzero(i: Interval)
  {
    i.endTC.frame > i.start.frame
  }

  /** Interval construction duality: built from an exclusive end T, the
      interval is rebuilt from its inclusive end frame T - 1 whenever T is
      after the start; and its length is the frame distance to T. */
  lemma IntervalDuality(start: Time, t: Time)
    requires MakeInterval(start, Some(t), None).Success?
    ensures var i := MakeInterval(start, Some(t), None).value;
      i.endFR.frame == t.frame - 1 && Len(i) == t.frame - start.frame
      && (Len(i) >= 0 ==> Duration(i) == Success(FR(t.frame - start.frame, Some(start.base))))
      && (t.frame > start.frame ==> MakeInterval(start, None, Some(i.endFR)) == Success(i))
  {
  }

  /** Built from an inclusive end frame F, the exclusive end is F + 1 and the
      length is at least one frame. */
  lemma IntervalFromEndFrame(start: Time, f: Time)
    requires MakeInterval(start, None, Some(f)).Success?
    ensures var i := MakeInterval(start, None, Some(f)).value;
      i.endTC.frame == f.frame + 1 && Len(i) == f.frame - start.frame + 1 >= 1 && IntervalNonzero(i)
  {
  }

  /** `time in interval`. */
  function ContainsTime(i: Interval, t: Time): (r: Result<bool, TimeError>)
    ensures r.Success? <==> BaseEq(t.base, i.start.base)
    ensures r.Success? ==> (r.value <==> i.start.frame <= t.frame < i.endTC.frame)
  {
    if !BaseEq(t.base, i.start.base) then Failure(BaseMismatch)
    else Success(i.start.frame <= t.frame < i.endTC.frame)
  }

  /** `interval in interval`: `item.Start >= self.Start and item.EndTC <= self.EndTC`,
      each comparison base-checked, the second only evaluated when the first holds. */
  function ContainsInterval(i: Interval, item: Interval): (r: Result<bool, TimeError>)
    ensures r == Success(true) <==>
              BaseEq(item.start.base, i.start.base) && BaseEq(item.endTC.base, i.endTC.base)
              && i.start.frame <= item.start.frame && item.endTC.frame <= i.endTC.frame
    ensures r.Failure? <==>
              !BaseEq(item.start.base, i.start.base)
              || (i.start.frame <= item.start.frame && !BaseEq(item.endTC.base, i.endTC.base))
    ensures r.Success? ==>
              (r.value <==> i.start.frame <= item.start.frame && item.endTC.frame <= i.endTC.frame)
  {
    var c1 :- Cmp(item.start, i.start);
    if c1 < 0 then Success(false)
    else
      var c2 :- Cmp(item.endTC, i.endTC);
      Success(c2 <= 0)
  }

  /** `iter(interval)`: the frames from the start up to the exclusive end, in order. */
  function Frames(i: Interval): (ts: seq<Time>)
    ensures |ts| == if Len(i) > 0 then Len(i) else 0
    ensures forall k :: 0 <= k < |ts| ==> ts[k].frame == i.start.frame + k
    ensures forall t :: t in ts <==> t.base == i.start.base && i.start.frame <= t.frame < i.endTC.frame
  {
    if i.endTC.frame <= i.start.frame then []
    else
      var ts := seq(i.endTC.frame - i.start.frame, k => Time(i.start.frame + k, i.start.base));
      assert forall t: Time :: t.base == i.start.base && i.start.frame <= t.frame < i.endTC.frame ==>
        ts[t.frame - i.start.frame] == t;
      ts
  }

  /** Every frame the iteration yields is in the interval. */
  lemma FramesAreContained(i: Interval, k: nat)
    requires k < |Frames(i)|
    ensures ContainsTime(i, Frames(i)[k]) == Success(true)
  {
  }

  /** `Interval.merge`: `Interval(min(starts), endtc=max(ends))`, where
      Python's `min`/`max` keep the first argument unless the second is
      strictly smaller/larger. */
  function Merge(i: Interval, item: Interval): (r: Result<Interval, TimeError>)
    ensures r.Success? ==> WellFormed(r.value)
  {
    var cs :- Cmp(item.start, i.start);
    var lo := if cs < 0 then item.start else i.start;
    var ce :- Cmp(item.endTC, i.endTC);
    var hi := if ce > 0 then item.endTC else i.endTC;
    MakeInterval(lo, Some(hi), None)
  }

  /** The merged interval contains both operands. */
  lemma MergeContainsBoth(i: Interval, item: Interval)
    requires Merge(i, item).Success?
    ensures ContainsInterval(Merge(i, item).value, i) == Success(true)
    ensures ContainsInterval(Merge(i, item).value, item) == Success(true)
  {
    var m := Merge(i, item).value;
    assert BaseEq(item.start.base, i.start.base) && BaseEq(item.endTC.base, i.endTC.base);
    assert m.start == i.start || m.start == item.start;
    assert m.endTC == i.endTC || m.endTC == item.endTC;
  }

  /** Comparing a Time with an Interval (`Time.__cmp__`): 0 inside, -1 before
      the start; a Time after the interval reads the nonexistent `other.Stop`
      and fails. */
  function CmpInterval(t: Time, i: Interval): (r: Result<int, TimeError>)
    ensures r.Success? <==> BaseEq(t.base, i.start.base) && (t.frame < i.endTC.frame || t.frame < i.start.frame)
    ensures r == Success(0) <==> ContainsTime(i, t) == Success(true)
    ensures r == Success(-1) <==> BaseEq(t.base, i.start.base) && t.frame < i.start.frame
  {
    if !BaseEq(t.base, i.start.base) then Failure(BaseMismatch)
    else if ContainsTime(i, t).value then Success(0)
    else if Cmp(t, i.start).value < 0 then Success(-1)
    else Failure(NoStopAttribute)
  }

  // ---------------------------------------------------------------- LinearSpeed

  /** `LinearSpeed(interval, scale)`: a linear remap anchored at the interval's start. */
  datatype LinearSpeed = LinearSpeed(interval: Interval, scale: real)

  /** `LinearSpeed.__getitem__`: `Start + (t - Start) * scale`, rounded half
      away from zero. */
  function Apply(sp: LinearSpeed, t: Time): (r: Result<Time, TimeError>)
    ensures r.Success? <==> BaseEq(t.base, sp.interval.start.base)
    ensures r.Success? ==>
              r.value.base == sp.interval.start.base &&
              r.value.frame == sp.interval.start.frame
                               + RoundHalfAway((t.frame - sp.interval.start.frame) as real * sp.scale)
  {
    var start := sp.interval.start;
    var delta :- Sub(t, start);
    var scaled := Mul(delta, sp.scale);
    Add(start, scaled)
  }

  /** A unit speed maps every time on the base to itself. */
  lemma UnitSpeedIsIdentity(i: Interval, t: Time)
    requires BaseEq(t.base, i.start.base)
    ensures Apply(LinearSpeed(i, 1.0), t).Success?
    ensures Apply(LinearSpeed(i, 1.0), t).value.frame == t.frame
  {
    var x := (t.frame - i.start.frame) as real;
    assert RoundHalfAway(x * 1.0) == t.frame - i.start.frame;
  }

  /** The source's example: doubling speed over [0, 2) maps frame 1 to frame 2. */
  lemma DoubleSpeedExample(b: ValidBase)
    ensures var i := MakeInterval(Time(0, b), Some(Time(2, b)), None).value;
      Apply(LinearSpeed(i, 2.0), Time(1, b)) == Success(Time(2, b))
  {
    var i := MakeInterval(Time(0, b), Some(Time(2, b)), None).value;
    assert RoundHalfAway(1.0 * 2.0) == 2;
  }

  // ---------------------------------------------------------------- Time objects updated in place

  /** A Time object whose frame `+=` / `-=` and `read` change in place. */
  class TimeVar {
    var frame: int
    var base: ValidBase

    function Value(): Time
      reads this
    {
      Time(frame, base)
    }

    /** `Time(time=t)`. */
    constructor (t: Time)
      ensures Value() == t
    {
      frame := t.frame;
      base := t.base;
    }

    /** `Time.read(...)` on an existing object. A timecode that does not parse
        leaves the new base assigned and the frame unchanged, as the source's
        statement order does; every other failure changes nothing. */
    method Read(time: Option<Time>, timecode: Option<string>, frameArg: Option<int>, baseArg: Option<ValidBase>)
      returns (err: Option<TimeError>)
      modifies this
      ensures err.None? <==> ReadTime(time, timecode, frameArg, baseArg).Success?
      ensures err.None? ==> Value() == ReadTime(time, timecode, frameArg, baseArg).value
      ensures err.Some? ==> err.value == ReadTime(time, timecode, frameArg, baseArg).error
      ensures err.Some? && time.None? && timecode.Some? && frameArg.None? ==>
                base == DefaultBase(baseArg) && frame == old(frame)
      ensures err.Some? && !(time.None? && timecode.Some? && frameArg.None?) ==>
                frame == old(frame) && base == old(base)
    {
      if time.Some? {
        if !(timecode.None? && frameArg.None? && baseArg.None?) {
          return Some(ConflictingArguments);
        }
        frame := time.value.frame;
        base := time.value.base;
        return None;
      } else if timecode.Some? {
        if frameArg.Some? {
          return Some(ConflictingArguments);
        }
        base := DefaultBase(baseArg);
        var n := TimecodeToFrame(base, timecode.value);
        if n.Failure? {
          return Some(n.error);
        }
        frame := n.value;
        return None;
      } else if frameArg.Some? {
        base := DefaultBase(baseArg);
        frame := frameArg.value;
        return None;
      } else {
        frame := 0;
        base := DefaultBase(baseArg);
        return None;
      }
    }

    /** `self += other`: the frame grows by other's frame (read before the
        update, so `t += t` doubles); bases must match. */
    method AddInPlace(other: TimeVar) returns (err: Option<TimeError>)
      modifies this
      ensures err.None? <==> BaseEq(old(base), old(other.base))
      ensures err.None? ==> Value() == old(Add(Value(), other.Value())).value
      ensures err.Some? ==> err.value == BaseMismatch && frame == old(frame)
      ensures base == old(base)
    {
      if !BaseEq(base, other.base) {
        return Some(BaseMismatch);
      }
      frame := frame + other.frame;
      return None;
    }

    /** `self -= other`. */
    method SubInPlace(other: TimeVar) returns (err: Option<TimeError>)
      modifies this
      ensures err.None? <==> BaseEq(old(base), old(other.base))
      ensures err.None? ==> Value() == old(Sub(Value(), other.Value())).value
      ensures err.Some? ==> err.value == BaseMismatch && frame == old(frame)
      ensures base == old(base)
    {
      if !BaseEq(base, other.base) {
        return Some(BaseMismatch);
      }
      frame := frame - other.frame;
      return None;
    }
  }
}

/** The timecode queries of ccr2_extract_movie_metadata.py over a parsed atom
    tree: frame counts to and from HH:MM:SS:FF (with the SMPTE ST 12-1
    drop-frame compensation), the fields of the QuickTime `tmcd` sample
    description, the chunk offset boxes (`stco`/`co64`, ISO/IEC 14496-12
    section 8.7.5), the edit box, and the sequence `extract_timing` runs. */
module MovieMetadata {
  import opened Wrappers
  import opened Bytes
  import opened AtomTree
  import opened Text
  import Arith

  /** The exceptions the queries raise, which `extract_timing` catches:
      TypeError on a search that found nothing, KeyError on the root's
      missing `parent`, IndexError on a short byte list, `struct.error` on a
      slice of the wrong length, ZeroDivisionError. */
  datatype MetaError = NoSuchAtom | NoTrakAbove | IndexOutOfRange | UnpackSize | ZeroDivision

  // ---------------------------------------------------------------- frames and timecodes

  /** The `[hours, minutes, seconds, frames]` list of `framesToTimecode`. */
  datatype Hmsf = Hmsf(hours: int, minutes: int, seconds: int, frames: int)

  /** `timecodeToFrames(h, m, s, f, fps, drop)`: the plain count, less
      `108h + 2(m - m/10)` dropped frame numbers in drop mode (Python 2's
      `/` floors). */
  function TimecodeToFrames(h: int, m: int, s: int, f: int, fps: int, drop: bool): int
  {
    var frames := (h * 3600 + m * 60 + s) * fps + f;
    if drop then frames - (h * 108 + 2 * (m - m / 10)) else frames
  }

  /** The frame numbers drop mode skips before `nframes`: 18 for every
      complete block of `10*60*fps - 18` frames, and 2 for every started
      minute after the first of the incomplete block. */
  function DroppedBefore(nframes: int, fps: int): int
    requires fps >= 1
  {
    var f10m := 10 * 60 * fps - 18;
    var tenMinutes := nframes / f10m;
    var framesLeft := nframes - tenMinutes * f10m;
    var toAdd := tenMinutes * 18;
    if framesLeft >= 60 * fps then toAdd + 2 * (1 + (framesLeft - 60 * fps) / (60 * fps - 2))
    else toAdd
  }

  /** The hours/minutes/seconds/frames cascade by `3600*fps`, `60*fps` and `fps`. */
  function Fields(n: int, fps: int): Hmsf
    requires fps >= 1
  {
    var k1 := 60 * 60 * fps;
    var hours := n / k1;
    var f1 := n - hours * k1;
    var k2 := 60 * fps;
    var minutes := f1 / k2;
    var f2 := f1 - minutes * k2;
    var seconds := f2 / fps;
    Hmsf(hours, minutes, seconds, f2 - seconds * fps)
  }

  /** `framesToTimecode(nframes, fps, drop)`. A rate of 0 divides by zero
      in the cascade (whatever the drop flag). The rate comes from one byte,
      so it is never negative. */
  function FramesToTimecode(nframes: int, fps: nat, drop: bool): (r: Result<Hmsf, MetaError>)
    ensures r.Failure? <==> fps == 0
  {
    if fps == 0 then Failure(ZeroDivision)
    else
      var n := if drop then nframes + DroppedBefore(nframes, fps) else nframes;
      Success(Fields(n, fps))
  }

  /** The cascade leaves minutes and seconds below 60 and frames below the
      rate, recombines to the count, and its hours and minutes together are
      the count's whole minutes. Negative counts floor, as in Python. */
  lemma FieldsSpec(n: int, fps: int)
    requires fps >= 1
    ensures var t := Fields(n, fps);
      0 <= t.minutes < 60 && 0 <= t.seconds < 60 && 0 <= t.frames < fps &&
      (t.hours * 3600 + t.minutes * 60 + t.seconds) * fps + t.frames == n &&
      t.hours * 60 + t.minutes == n / (60 * fps)
  {
    var t := Fields(n, fps);
    var h, m, s := t.hours, t.minutes, t.seconds;
    var k2 := 60 * fps;
    var k1 := 60 * 60 * fps;
    var f1 := n - h * k1;
    var f2 := f1 - m * k2;
    Arith.Remainder(n, k1);
    Arith.Remainder(f1, k2);
    Arith.Remainder(f2, fps);
    Arith.DivLess(f1, k2, 60);
    Arith.DivLess(f2, fps, 60);
    Recombine(h, m, s, fps);
    Arith.Associate(h, 60, k2);
    Arith.Distribute(h * 60, m, k2);
    Arith.DivModUnique(n, k2, h * 60 + m, f2);
  }

  lemma Recombine(h: int, m: int, s: int, fps: int)
    ensures (h * 3600 + m * 60 + s) * fps == h * (60 * 60 * fps) + m * (60 * fps) + s * fps
  {
    Arith.Distribute(h * 3600 + m * 60, s, fps);
    Arith.Distribute(h * 3600, m * 60, fps);
    Arith.Associate(h, 3600, fps);
    Arith.Associate(m, 60, fps);
  }

  /** Without drop, the fields are the count's: in range, and recombining
      to it. */
  lemma NonDropFields(n: int, fps: nat)
    requires fps >= 1
    ensures var t := FramesToTimecode(n, fps, false).value;
      0 <= t.minutes < 60 && 0 <= t.seconds < 60 && 0 <= t.frames < fps &&
      t.hours * 3600 * fps + t.minutes * 60 * fps + t.seconds * fps + t.frames == n
  {
    FieldsSpec(n, fps);
    var t := Fields(n, fps);
    assert (t.hours * 3600 + t.minutes * 60 + t.seconds) * fps
        == t.hours * 3600 * fps + t.minutes * 60 * fps + t.seconds * fps;
  }

  /** Non-drop round trip, both ways: counts convert back to themselves, and
      in-range fields to themselves. */
  lemma NonDropRoundTrip(n: int, fps: nat)
    requires fps >= 1
    ensures var t := FramesToTimecode(n, fps, false).value;
      TimecodeToFrames(t.hours, t.minutes, t.seconds, t.frames, fps, false) == n
  {
    FieldsSpec(n, fps);
  }

  lemma NonDropFieldsRoundTrip(h: int, m: int, s: int, f: int, fps: nat)
    requires fps >= 1 && 0 <= m < 60 && 0 <= s < 60 && 0 <= f < fps
    ensures FramesToTimecode(TimecodeToFrames(h, m, s, f, fps, false), fps, false) == Success(Hmsf(h, m, s, f))
  {
    Recombine(h, m, s, fps);
    FieldsOf(TimecodeToFrames(h, m, s, f, fps, false), fps, h, m, s, f);
  }

  /** The cascade recovers any in-range fields from their combination. */
  lemma FieldsOf(n: int, fps: int, h: int, m: int, s: int, f: int)
    requires fps >= 1 && 0 <= m < 60 && 0 <= s < 60 && 0 <= f < fps
    requires n == h * (60 * 60 * fps) + m * (60 * fps) + s * fps + f
    ensures Fields(n, fps) == Hmsf(h, m, s, f)
  {
    var k2 := 60 * fps;
    var k1 := 60 * 60 * fps;
    var r2 := s * fps + f;
    var r1 := m * k2 + r2;
    Arith.MulMonotone(s, 59, fps);
    Arith.MulMonotone(m, 59, k2);
    Arith.DivModUnique(n, k1, h, r1);
    Arith.DivModUnique(r1, k2, m, r2);
    Arith.DivModUnique(r2, fps, s, f);
  }

  /** Whole minutes written as 60h + m, with m = 10*(D mod 6) + j: the frame
      numbers timecodeToFrames subtracts are those of D ten-minute blocks and
      j further minutes. */
  lemma DroppedOfMinutes(blocks: int, j: int, h: int, m: int)
    requires 0 <= j <= 9 && 0 <= m < 60 && h * 60 + m == 10 * blocks + j
    ensures h * 108 + 2 * (m - m / 10) == 18 * blocks + 2 * j
  {
    var b6, b := blocks / 6, blocks % 6;
    assert 10 * blocks + j == 60 * b6 + (10 * b + j);
    Arith.DivModUnique(10 * blocks + j, 60, b6, 10 * b + j);
    Arith.DivModUnique(10 * blocks + j, 60, h, m);
    Arith.DivModUnique(m, 10, b, j);
  }

  /** A count `blocks` ten-minute blocks and `left` frames into drop-frame
      time, `left` at least a minute: with the numbers added for the blocks
      and for `k + 1` minutes, it lands `q + 2` frames into minute
      `10*blocks + k + 1`. */
  lemma LateMinuteArith(n: int, m60: int, blocks: int, left: int, k: int, q: int)
    requires n == blocks * (10 * m60 - 18) + left
    requires left - m60 == k * (m60 - 2) + q
    ensures n + 18 * blocks + 2 * (k + 1) == (10 * blocks + k + 1) * m60 + (q + 2)
  {
    Arith.Distribute(10 * m60, -18, blocks);
    Arith.Distribute(m60, -2, k);
    Arith.Distribute(10 * blocks, k + 1, m60);
    Arith.Distribute(k, 1, m60);
    Arith.Associate(10, blocks, m60);
  }

  /** The same with `left` under a minute: it lands `left` frames into
      minute `10*blocks`. */
  lemma EarlyMinuteArith(n: int, m60: int, blocks: int, left: int)
    requires n == blocks * (10 * m60 - 18) + left
    ensures n + 18 * blocks == (10 * blocks) * m60 + left
  {
    Arith.Distribute(10 * m60, -18, blocks);
    Arith.Associate(10, blocks, m60);
  }

  /** The normalised count of drop mode lies inside minute `10*blocks + j`
      of the labels, and the numbers added before it are those of `blocks`
      ten-minute blocks and `j` further minutes, `j` at most 9. */
  lemma DropShape(n: int, fps: int) returns (blocks: int, j: int)
    requires fps >= 1
    ensures 0 <= j <= 9
    ensures DroppedBefore(n, fps) == 18 * blocks + 2 * j
    ensures (n + DroppedBefore(n, fps)) / (60 * fps) == 10 * blocks + j
  {
    var m60 := 60 * fps;
    var f10m := 10 * m60 - 18;
    assert f10m == 10 * 60 * fps - 18;
    blocks := n / f10m;
    var left := n - blocks * f10m;
    Arith.Remainder(n, f10m);
    if left >= m60 {
      var k := (left - m60) / (m60 - 2);
      var q := left - m60 - k * (m60 - 2);
      Arith.Remainder(left - m60, m60 - 2);
      Arith.DivLess(left - m60, m60 - 2, 9);
      j := k + 1;
      LateMinuteArith(n, m60, blocks, left, k, q);
      Arith.DivModUnique(n + 18 * blocks + 2 * j, m60, 10 * blocks + j, q + 2);
    } else {
      j := 0;
      EarlyMinuteArith(n, m60, blocks, left);
      Arith.DivModUnique(n + 18 * blocks, m60, 10 * blocks, left);
    }
  }

  /** Drop-frame round trip: `timecodeToFrames` undoes `framesToTimecode`
      in drop mode, for every count and every nonzero rate (the source's
      examples are at 30 fps). */
  lemma DropRoundTrip(n: int, fps: nat)
    requires fps >= 1
    ensures var t := FramesToTimecode(n, fps, true).value;
      TimecodeToFrames(t.hours, t.minutes, t.seconds, t.frames, fps, true) == n
  {
    var blocks, j := DropShape(n, fps);
    var nn := n + DroppedBefore(n, fps);
    FieldsSpec(nn, fps);
    var t := Fields(nn, fps);
    DroppedOfMinutes(blocks, j, t.hours, t.minutes);
  }

  /** The drop-frame examples at 30 fps: 17982 frames are ten minutes, and
      frame 1800 is labelled 00:01:00;02. */
  lemma DropExamples()
    ensures FramesToTimecode(17982, 30, true) == Success(Hmsf(0, 10, 0, 0))
    ensures FramesToTimecode(1800, 30, true) == Success(Hmsf(0, 1, 0, 2))
    ensures FramesToTimecode(1800, 30, false) == Success(Hmsf(0, 1, 0, 0))
  {
  }

  /** The end label of `extract_timing` names the last frame: read back, it
      is `frameCount - 1` frames after the start label, in both modes. */
  lemma LabelsSpan(start: int, frameCount: int, fps: nat, drop: bool)
    requires fps >= 1
    ensures var a := FramesToTimecode(start, fps, drop).value;
      var b := FramesToTimecode(start + frameCount - 1, fps, drop).value;
      TimecodeToFrames(b.hours, b.minutes, b.seconds, b.frames, fps, drop)
        - TimecodeToFrames(a.hours, a.minutes, a.seconds, a.frames, fps, drop) == frameCount - 1
  {
    if drop {
      DropRoundTrip(start, fps);
      DropRoundTrip(start + frameCount - 1, fps);
    } else {
      NonDropRoundTrip(start, fps);
      NonDropRoundTrip(start + frameCount - 1, fps);
    }
  }

  // ---------------------------------------------------------------- byte fields

  /** Python's `s[i:j]` for 0 <= i <= j: both ends clamped to the length. */
  function Slice(s: seq<byte>, i: nat, j: nat): (r: seq<byte>)
    requires i <= j
    ensures |r| == (if j <= |s| then j - i else if i <= |s| then |s| - i else 0)
  {
    if j <= |s| then s[i..j] else if i <= |s| then s[i..] else []
  }

  /** `struct.unpack('>I', s)`: exactly four bytes, big-endian. */
  function Unpack32(s: seq<byte>): (r: Result<nat, MetaError>)
    ensures r.Success? <==> |s| == 4
    ensures r.Success? ==> r.value == BeValue(s) && r.value < Pow256(4)
  {
    if |s| == 4 then BeValueBound(s); Success(BeValue(s)) else Failure(UnpackSize)
  }

  /** `struct.unpack('>%dI' % n, s)` (width 4) or `'>%dQ'` (width 8): exactly
      n words of that width, big-endian. */
  function UnpackWords(s: seq<byte>, width: nat, n: nat): (r: Result<seq<nat>, MetaError>)
    requires width > 0
    ensures r.Success? <==> |s| == width * n
    ensures r.Success? ==> (|r.value| == n &&
      forall i :: 0 <= i < n ==> r.value[i] == BeValue(s[i * width..(i + 1) * width]))
  {
    if |s| != width * n then Failure(UnpackSize)
    else
      Success(seq(n, i requires 0 <= i < n =>
        assert (i + 1) * width <= n * width by { Arith.MulMonotone(i + 1, n, width); }
        BeValue(s[i * width..(i + 1) * width])))
  }

  /** `u_from_be(4, [ord(b) for b in s])`: IndexError on fewer than four bytes. */
  function U32(s: seq<byte>): (r: Result<nat, MetaError>)
    ensures r.Success? <==> |s| >= 4
    ensures r.Success? ==> r.value == BeValue(s[..4])
  {
    match BeUnsigned(4, s)
    case Some(v) => Success(v)
    case None => Failure(IndexOutOfRange)
  }

  // ---------------------------------------------------------------- tmcd and track queries

  /** The data of the `tmcd` whose parent is an `stsd`; subscripting the
      `None` of a failed search raises TypeError. */
  function TimecodeTmcdData(d: seq<byte>, root: Atom): (r: Result<seq<byte>, MetaError>)
    ensures r.Success? <==> TimecodeTmcd(root).Some?
    ensures r.Success? ==> r.value == AtomData(d, TimecodeTmcd(root).value.atom)
  {
    match TimecodeTmcd(root)
    case None => Failure(NoSuchAtom)
    case Some(l) => Success(AtomData(d, l.atom))
  }

  /** `extract_tcRate(root)`: byte 24 of that data. */
  function ExtractTcRate(d: seq<byte>, root: Atom): (r: Result<nat, MetaError>)
    ensures r.Success? <==> TimecodeTmcdData(d, root).Success? && |TimecodeTmcdData(d, root).value| > 24
    ensures r.Success? ==> r.value == TimecodeTmcdData(d, root).value[24] as nat && r.value < 256
  {
    match TimecodeTmcdData(d, root)
    case Failure(e) => Failure(e)
    case Success(data) => if |data| > 24 then Success(data[24] as nat) else Failure(IndexOutOfRange)
  }

  /** `find_timecode_drop(root)`: bit 0 of the big-endian word in bytes 12-15. */
  function FindTimecodeDrop(d: seq<byte>, root: Atom): (r: Result<bool, MetaError>)
    ensures r.Success? <==> TimecodeTmcdData(d, root).Success? && |TimecodeTmcdData(d, root).value| >= 16
    ensures r.Success? ==> r.value == (BeValue(TimecodeTmcdData(d, root).value[12..16]) % 2 == 1)
  {
    match TimecodeTmcdData(d, root)
    case Failure(e) => Failure(e)
    case Success(data) =>
      match Unpack32(Slice(data, 12, 16))
      case Failure(e) => Failure(e)
      case Success(flags) =>
        assert Slice(data, 12, 16) == data[12..16];
        Success(flags % 2 == 1)
  }

  /** `extract_fps(root)`: timescale over frame duration, bytes 16-19 and
      20-23 of the first `tmcd` anywhere in the tree (not necessarily the
      one under `stsd`). */
  function ExtractFps(d: seq<byte>, root: Atom): (r: Result<real, MetaError>)
    ensures r.Success? ==> FindAtom(TMCD, root).Some? && |AtomData(d, FindAtom(TMCD, root).value)| >= 24
    ensures r.Success? ==> var data := AtomData(d, FindAtom(TMCD, root).value);
      BeValue(data[20..24]) != 0 && r.value == BeValue(data[16..20]) as real / BeValue(data[20..24]) as real
    ensures r.Success? <==>
      (FindAtom(TMCD, root).Some? && |AtomData(d, FindAtom(TMCD, root).value)| >= 24
       && BeValue(AtomData(d, FindAtom(TMCD, root).value)[20..24]) != 0)
  {
    match FindAtom(TMCD, root)
    case None => Failure(NoSuchAtom)
    case Some(a) =>
      var data := AtomData(d, a);
      match U32(Slice(data, 16, 20))
      case Failure(e) => Failure(e)
      case Success(timescale) =>
        match U32(Slice(data, 20, 24))
        case Failure(e) => Failure(e)
        case Success(frameDuration) =>
          assert Slice(data, 16, 20)[..4] == data[16..20];
          assert Slice(data, 20, 24)[..4] == data[20..24];
          if frameDuration == 0 then Failure(ZeroDivision)
          else Success(timescale as real / frameDuration as real)
  }

  /** `find_timecode_trak(root)`: the nearest `trak` at or above the
      stsd-scoped `tmcd`. */
  function TimecodeTrak(root: Atom): (r: Result<Atom, MetaError>)
    ensures r.Success? ==> r.value.kind == TRAK
    ensures r.Success? <==> TimecodeTmcd(root).Some? && NearestTrak(TimecodeTmcd(root).value).Some?
  {
    match TimecodeTmcd(root)
    case None => Failure(NoSuchAtom)
    case Some(l) =>
      match NearestTrak(l)
      case None => Failure(NoTrakAbove)
      case Some(t) => Success(t)
  }

  /** The word in bytes 8-11 of the track's `stco`, when there is one and
      that slice has four bytes. */
  function StcoFirstOffset(d: seq<byte>, trak: Atom): Result<nat, MetaError>
  {
    match FindAtom(STCO, trak)
    case None => Failure(NoSuchAtom)
    case Some(stco) => Unpack32(Slice(AtomData(d, stco), 8, 12))
  }

  /** `find_timecode_fileoffset(root)`: the first chunk offset of the
      timecode track, from `stco`; on any failure there, from `co64`, whose
      slice 8:16 is unpacked as one 32-bit word. */
  function FindTimecodeFileOffset(d: seq<byte>, root: Atom): (r: Result<nat, MetaError>)
    ensures r.Success? ==> TimecodeTrak(root).Success?
  {
    match TimecodeTrak(root)
    case Failure(e) => Failure(e)
    case Success(trak) =>
      match StcoFirstOffset(d, trak)
      case Success(offset) => Success(offset)
      case Failure(_) =>
        match FindAtom(CO64, trak)
        case None => Failure(NoSuchAtom)
        case Some(co64) => Unpack32(Slice(AtomData(d, co64), 8, 16))
  }

  /** The offset comes from the track's `stco` whenever its bytes 8-11 are
      there; otherwise the `co64` fallback succeeds only when that box keeps
      exactly 12 bytes, so a `co64` holding a whole 64-bit entry always
      fails. */
  lemma FileOffsetSources(d: seq<byte>, root: Atom)
    requires TimecodeTrak(root).Success?
    ensures var trak := TimecodeTrak(root).value;
      (StcoFirstOffset(d, trak).Success? ==> FindTimecodeFileOffset(d, root) == StcoFirstOffset(d, trak)) &&
      (StcoFirstOffset(d, trak).Failure? ==>
         (FindTimecodeFileOffset(d, root).Success? <==>
            FindAtom(CO64, trak).Some? && |AtomData(d, FindAtom(CO64, trak).value)| == 12))
  {
  }

  /** `find_timecode_fileoffsets(root)`: every chunk offset of the timecode
      track, counted by the word in bytes 4-7, as 32-bit words from `stco`
      or, on any failure there, 64-bit words from `co64`. */
  function FindTimecodeFileOffsets(d: seq<byte>, root: Atom): (r: Result<seq<nat>, MetaError>)
    ensures r.Success? ==> TimecodeTrak(root).Success?
    ensures TimecodeTrak(root).Success? ==> var trak := TimecodeTrak(root).value;
      (ChunkOffsets(d, FindAtom(STCO, trak), 4).Success? ==> r == ChunkOffsets(d, FindAtom(STCO, trak), 4)) &&
      (ChunkOffsets(d, FindAtom(STCO, trak), 4).Failure? ==> r == ChunkOffsets(d, FindAtom(CO64, trak), 8))
  {
    match TimecodeTrak(root)
    case Failure(e) => Failure(e)
    case Success(trak) =>
      match ChunkOffsets(d, FindAtom(STCO, trak), 4)
      case Success(offsets) => Success(offsets)
      case Failure(_) => ChunkOffsets(d, FindAtom(CO64, trak), 8)
  }

  /** The entry count in bytes 4-7, then that many words of the given
      width from byte 8: it fails unless all of them are in the box. */
  function ChunkOffsets(d: seq<byte>, box: Option<Atom>, width: nat): (r: Result<seq<nat>, MetaError>)
    requires width > 0
    ensures r.Success? <==> box.Some? && var data := AtomData(d, box.value);
      |data| >= 8 && 8 + BeValue(data[4..8]) * width <= |data|
    ensures r.Success? ==> var data := AtomData(d, box.value); var count := BeValue(data[4..8]);
      r == UnpackWords(data[8..8 + count * width], width, count)
  {
    match box
    case None => Failure(NoSuchAtom)
    case Some(a) =>
      var data := AtomData(d, a);
      match Unpack32(Slice(data, 4, 8))
      case Failure(e) => Failure(e)
      case Success(count) =>
        assert Slice(data, 4, 8) == data[4..8];
        if 8 + count * width <= |data| then
          assert Slice(data, 8, 8 + count * width) == data[8..8 + count * width];
          UnpackWords(Slice(data, 8, 8 + count * width), width, count)
        else
          Failure(UnpackSize)
  }

  /** The track duration of `extract_numTcFrames`: the third word of the
      20 bytes 8:28 of the track's `edts` data, unpacked as `>5I`, which
      fails unless the data has at least 28 bytes. */
  function EditDuration(d: seq<byte>, trak: Atom): (r: Result<nat, MetaError>)
    ensures r.Success? <==> FindAtom(EDTS, trak).Some? && |AtomData(d, FindAtom(EDTS, trak).value)| >= 28
    ensures r.Success? ==> r.value == BeValue(AtomData(d, FindAtom(EDTS, trak).value)[16..20])
  {
    match FindAtom(EDTS, trak)
    case None => Failure(NoSuchAtom)
    case Some(edts) =>
      var data := AtomData(d, edts);
      if |data| < 28 then Failure(UnpackSize) else Success(BeValue(data[16..20]))
  }

  /** The frame duration of `extract_numTcFrames`: the second word of the 9
      bytes 16:25 of the tmcd data, unpacked as `>2IB`, which fails unless
      the data has at least 25 bytes. */
  function TmcdFrameDuration(data: seq<byte>): (r: Result<nat, MetaError>)
    ensures r.Success? <==> |data| >= 25
    ensures r.Success? ==> r.value == BeValue(data[20..24])
  {
    if |data| < 25 then Failure(UnpackSize) else Success(BeValue(data[20..24]))
  }

  /** `extract_numTcFrames(root)`: the track duration of the timecode
      track's edit box over the tmcd's frame duration, by floor division.
      The `mediaRate` the source also computes is not used. */
  function ExtractNumTcFrames(d: seq<byte>, root: Atom): (r: Result<nat, MetaError>)
    ensures r.Success? ==>
      TimecodeTrak(root).Success? && EditDuration(d, TimecodeTrak(root).value).Success? &&
      TimecodeTmcdData(d, root).Success? && TmcdFrameDuration(TimecodeTmcdData(d, root).value).Success? &&
      TmcdFrameDuration(TimecodeTmcdData(d, root).value).value > 0 &&
      r.value == EditDuration(d, TimecodeTrak(root).value).value
                 / TmcdFrameDuration(TimecodeTmcdData(d, root).value).value
  {
    match TimecodeTrak(root)
    case Failure(e) => Failure(e)
    case Success(trak) =>
      match EditDuration(d, trak)
      case Failure(e) => Failure(e)
      case Success(trackDuration) =>
        // the track was found through that tmcd, so its data is there
        match TmcdFrameDuration(TimecodeTmcdData(d, root).value)
        case Failure(e) => Failure(e)
        case Success(frameDuration) =>
          if frameDuration == 0 then Failure(ZeroDivision)
          else
            var frames: nat := trackDuration / frameDuration;
            Success(frames)
  }

  /** The frame count fails only on a missing track, edit box or tmcd
      data, a short unpack, or a zero frame duration. */
  lemma ExtractNumTcFramesSucceeds(d: seq<byte>, root: Atom)
    requires TimecodeTrak(root).Success? && EditDuration(d, TimecodeTrak(root).value).Success?
    requires TimecodeTmcdData(d, root).Success? && TmcdFrameDuration(TimecodeTmcdData(d, root).value).Success?
    requires TmcdFrameDuration(TimecodeTmcdData(d, root).value).value > 0
    ensures ExtractNumTcFrames(d, root).Success?
  {
  }

  // ---------------------------------------------------------------- extract_timing

  /** What `extract_timing` returns: the two labels, the rate and the fps. */
  datatype Timing = Timing(tcIn: string, tcOut: string, tcRate: nat, fps: real)

  /** `'%0.2d:%0.2d:%0.2d:%0.2d' % (...)`. */
  function Label(t: Hmsf): string
  {
    Join([FormatPrec2(t.hours), FormatPrec2(t.minutes), FormatPrec2(t.seconds), FormatPrec2(t.frames)], ':')
  }

  /** A label splits at `:` into four fields that `int()` reads back as the
      hours, minutes, seconds and frames it was made from. */
  lemma LabelFields(t: Hmsf)
    ensures var parts := Split(Label(t), ':');
      |parts| == 4 && ParseInt(parts[0]) == Some(t.hours) && ParseInt(parts[1]) == Some(t.minutes) &&
      ParseInt(parts[2]) == Some(t.seconds) && ParseInt(parts[3]) == Some(t.frames)
  {
    var h, m, s, f := FormatPrec2(t.hours), FormatPrec2(t.minutes), FormatPrec2(t.seconds), FormatPrec2(t.frames);
    var parts := [h, m, s, f];
    FormatPrec2NoColon(t.hours);
    FormatPrec2NoColon(t.minutes);
    FormatPrec2NoColon(t.seconds);
    FormatPrec2NoColon(t.frames);
    assert forall i :: 0 <= i < |parts| ==> ':' !in parts[i];
    SplitJoin(parts, ':');
    assert Split(Label(t), ':') == parts;
    ParseFormatPrec2(t.hours);
    ParseFormatPrec2(t.minutes);
    ParseFormatPrec2(t.seconds);
    ParseFormatPrec2(t.frames);
  }

  /** The values the `try` of `extract_timing` reads, in its order: rate,
      drop flag, first chunk offset of the timecode track, the 4-byte
      frames-since-midnight word read at that offset, fps, frame count. */
  datatype Readings = Readings(tcRate: nat, drop: bool, tcOffset: nat, framessm: nat, fps: real, tcFrames: nat)

  /** The six reads; the first exception ends them. */
  function ReadingsOf(d: seq<byte>, root: Atom): (r: Result<Readings, MetaError>)
    ensures r.Success? <==>
      ExtractTcRate(d, root).Success? && FindTimecodeDrop(d, root).Success? &&
      FindTimecodeFileOffset(d, root).Success? &&
      U32(ReadBytes(d, FindTimecodeFileOffset(d, root).value, 4)).Success? &&
      ExtractFps(d, root).Success? && ExtractNumTcFrames(d, root).Success?
    ensures r.Success? ==>
      ExtractTcRate(d, root).value == r.value.tcRate && FindTimecodeDrop(d, root).value == r.value.drop &&
      FindTimecodeFileOffset(d, root).value == r.value.tcOffset &&
      U32(ReadBytes(d, r.value.tcOffset, 4)).value == r.value.framessm &&
      ExtractFps(d, root).value == r.value.fps && ExtractNumTcFrames(d, root).value == r.value.tcFrames
  {
    var tcRate :- ExtractTcRate(d, root);
    // the flag word (bytes 12-15) lies before the rate byte just read
    var drop := FindTimecodeDrop(d, root).value;
    var tcOffset :- FindTimecodeFileOffset(d, root);
    var framessm :- U32(ReadBytes(d, tcOffset, 4));
    var fps :- ExtractFps(d, root);
    var tcFrames :- ExtractNumTcFrames(d, root);
    Success(Readings(tcRate, drop, tcOffset, framessm, fps, tcFrames))
  }

  /** The labelling after the reads: the start label of frame `framessm`
      and the end label of frame `framessm + tcFrames - 1`. A rate of 0
      divides by zero in `framesToTimecode`. */
  function LabelTiming(v: Readings): (r: Result<Timing, MetaError>)
    ensures r.Success? <==> v.tcRate >= 1
    ensures r.Success? ==> r.value.tcRate == v.tcRate && r.value.fps == v.fps
  {
    match FramesToTimecode(v.framessm, v.tcRate, v.drop)
    case Failure(e) => Failure(e)
    case Success(tcIn) =>
      var tcOut := FramesToTimecode(v.framessm + v.tcFrames - 1, v.tcRate, v.drop).value;
      Success(Timing(Label(tcIn), Label(tcOut), v.tcRate, v.fps))
  }

  /** The body of the `try`: the reads, then the labels. In the source a
      zero rate fails between the reads rather than after them, which
      changes which exception is raised but not the None the call returns. */
  function TimingOf(d: seq<byte>, root: Atom): (r: Result<Timing, MetaError>)
    ensures r.Success? <==> ReadingsOf(d, root).Success? && ReadingsOf(d, root).value.tcRate >= 1
    ensures r.Success? ==> r == LabelTiming(ReadingsOf(d, root).value)
  {
    var v :- ReadingsOf(d, root);
    LabelTiming(v)
  }

  /** `extract_timing(fpath)` on the file's bytes: the atom tree is read
      outside the `try`, so its error escapes; inside, any failure gives None. */
  function ExtractTiming(d: seq<byte>): (r: Result<Option<Timing>, ParseError>)
    ensures r.Success? <==> ExtractAtoms(d).Success?
    ensures r.Success? ==> (r.value.Some? <==> TimingOf(d, ExtractAtoms(d).value).Success?)
    ensures r.Success? && r.value.Some? ==> r.value.value == TimingOf(d, ExtractAtoms(d).value).value
  {
    match ExtractAtoms(d)
    case Failure(e) => Failure(e)
    case Success(root) =>
      match TimingOf(d, root)
      case Success(t) => Success(Some(t))
      case Failure(_) => Success(None)
  }

  /** What a successful `extract_timing` promises: its labels read back
      (through `int()` of their fields and `timecodeToFrames`) as the
      frames-since-midnight word and the frame `tcFrames - 1` after it. */
  lemma TimingLabelsSpan(v: Readings)
    requires v.tcRate >= 1
    ensures var t := LabelTiming(v).value;
      var a := FramesToTimecode(v.framessm, v.tcRate, v.drop).value;
      var b := FramesToTimecode(v.framessm + v.tcFrames - 1, v.tcRate, v.drop).value;
      t.tcIn == Label(a) && t.tcOut == Label(b) &&
      TimecodeToFrames(a.hours, a.minutes, a.seconds, a.frames, v.tcRate, v.drop) == v.framessm &&
      TimecodeToFrames(b.hours, b.minutes, b.seconds, b.frames, v.tcRate, v.drop) == v.framessm + v.tcFrames - 1
  {
    if v.drop {
      DropRoundTrip(v.framessm, v.tcRate);
      DropRoundTrip(v.framessm + v.tcFrames - 1, v.tcRate);
    } else {
      NonDropRoundTrip(v.framessm, v.tcRate);
      NonDropRoundTrip(v.framessm + v.tcFrames - 1, v.tcRate);
    }
  }
}

/** `VideoFilesModel`: the file browser's two extra columns, the timecode
    range read from each movie and the camera letter read from each file
    name, cached by path, and four per-path flags the linking dialog sets.
    The Qt file-system model underneath is not modelled: the path, the file
    name and the bytes of the file behind an index come in as parameters. */
module FilesystemModel {
  import opened Wrappers
  import opened Text
  import opened Timecode
  import opened MovieMetadata
  import opened Bytes
  import opened AtomTree

  // ---------------------------------------------------------------- time range column

  /** A value `_intervalCache` holds: an Interval, or the string "Invalid". */
  datatype CachedInterval = Computed(interval: Interval) | Invalid

  /** Python's truth value of a cache entry: an Interval by `__nonzero__`,
      the non-empty string "Invalid" always. */
  predicate Truthy(c: CachedInterval)
  {
    match c
    case Computed(i) => IntervalNonzero(i)
    case Invalid => true
  }

  /** The `try` of `interval` after `extract_timing`: `Base(tcRate,
      float(tcRate) / fps)`, then `Interval(TC(tcIn), endtc=TC(tcOut))` on
      that base. A zero fps, a refused base or an unreadable label raises,
      which gives None here. */
  function TimingInterval(t: Timing): (r: Option<Interval>)
    ensures t.fps <= 0.0 || t.tcRate == 0 ==> r.None?
    ensures r.Some? ==> WellFormed(r.value)
    ensures r.Some? ==>
      var b := Base(t.tcRate, t.tcRate as real / t.fps);
      r.value.start.base == b && r.value.endTC.base == b &&
      TimecodeToFrame(b, t.tcIn) == Success(r.value.start.frame) &&
      TimecodeToFrame(b, t.tcOut) == Success(r.value.endTC.frame)
  {
    if t.fps == 0.0 then None
    else
      match MakeBase(t.tcRate, t.tcRate as real / t.fps)
      case Failure(_) => None
      case Success(base) =>
        var tcIn, tcOut := TC(t.tcIn, Some(base)), TC(t.tcOut, Some(base));
        if tcIn.Failure? || tcOut.Failure? then None
        else
          var i := MakeInterval(tcIn.value, Some(tcOut.value), None);
          if i.Failure? then None else Some(i.value)
  }

  /** With a positive rate and fps the base is accepted, so the interval
      exists exactly when both labels read on that base. */
  lemma TimingIntervalAccepts(t: Timing)
    requires t.fps > 0.0 && t.tcRate > 0
    ensures var b := Base(t.tcRate, t.tcRate as real / t.fps);
      TimingInterval(t).Some? <==> TimecodeToFrame(b, t.tcIn).Success? && TimecodeToFrame(b, t.tcOut).Success?
  {
    var b := Base(t.tcRate, t.tcRate as real / t.fps);
    assert b.realtimeScale > 0.0;
    assert MakeBase(t.tcRate, t.tcRate as real / t.fps) == Success(b);
  }

  /** The whole `try` of `interval` on the file's bytes: `extract_timing`
      raising (its atom tree unreadable) or returning None (then unpacked)
      also ends in the except branch. */
  function FileInterval(d: seq<byte>): (r: Option<Interval>)
    ensures ExtractAtoms(d).Failure? ==> r.None?
    ensures ExtractAtoms(d).Success? && ReadingsOf(d, ExtractAtoms(d).value).Failure? ==> r.None?
    ensures r.Some? ==> WellFormed(r.value)
  {
    match ExtractTiming(d)
    case Failure(_) => None
    case Success(None) => None
    case Success(Some(t)) => TimingInterval(t)
  }

  /** What the `try`/`except` of `interval` leaves in the cache. */
  function ReadInterval(d: seq<byte>): (c: CachedInterval)
    ensures c.Computed? <==> FileInterval(d).Some?
    ensures c.Computed? ==> c.interval == FileInterval(d).value && WellFormed(c.interval)
  {
    match FileInterval(d)
    case Some(i) => Computed(i)
    case None => Invalid
  }

  /** A non-drop label of a non-negative count is the Timecode module's own
      formatting of that count, so `TC` reads it back as the count. */
  lemma LabelReadsBack(n: nat, b: ValidBase)
    ensures TimecodeToFrame(b, Label(FramesToTimecode(n, b.framesPerSecond, false).value)) == Success(n)
  {
    var c := FrameToCounts(b, n);
    CountsAreFields(n, b);
    var t := Hmsf(c.hours, c.minutes, c.seconds, c.frames);
    Join4(Pad2(c.hours), Pad2(c.minutes), Pad2(c.seconds), Pad2(c.frames), ':');
    assert Label(t) == FormatCounts(c);
    TimecodeRoundTrip(b, n);
  }

  /** The metadata cascade and the Timecode cascade agree on a non-negative count. */
  lemma CountsAreFields(n: nat, b: ValidBase)
    ensures var c := FrameToCounts(b, n);
      FramesToTimecode(n, b.framesPerSecond, false) == Success(Hmsf(c.hours, c.minutes, c.seconds, c.frames))
  {
    var fps := b.framesPerSecond;
    var c := FrameToCounts(b, n);
    assert c.hours * (60 * 60 * fps) + c.minutes * (60 * fps) + c.seconds * fps + c.frames == n by {
      assert c.hours * (60 * 60 * fps) == c.hours * 60 * 60 * fps;
      assert c.minutes * (60 * fps) == c.minutes * 60 * fps;
    }
    FieldsOf(n, fps, c.hours, c.minutes, c.seconds, c.frames);
  }

  /** The readings of a non-drop file with a positive rate, fps and frame
      count give the interval from the first frame to the LAST frame as an
      exclusive end: `extract_timing`'s out label names the last frame, and
      `endtc=` takes it as the first frame after, so the range is one frame
      short of the clip. */
  lemma TimingIntervalSpan(v: Readings)
    requires v.tcRate >= 1 && !v.drop && v.fps > 0.0 && v.tcFrames >= 1
    ensures var r := TimingInterval(LabelTiming(v).value);
      r.Some? && r.value.start == Time(v.framessm, Base(v.tcRate, v.tcRate as real / v.fps)) &&
      r.value.endTC.frame == v.framessm + v.tcFrames - 1 && Len(r.value) == v.tcFrames - 1
  {
    var t := LabelTiming(v).value;
    var b: ValidBase := Base(v.tcRate, v.tcRate as real / v.fps);
    var last := v.framessm + v.tcFrames - 1;
    assert t.tcIn == Label(FramesToTimecode(v.framessm, v.tcRate, false).value);
    assert t.tcOut == Label(FramesToTimecode(last, v.tcRate, false).value);
    LabelReadsBack(v.framessm, b);
    LabelReadsBack(last, b);
    TimingIntervalOfFrames(t, v.framessm, last);
  }

  /** Labels that read as frames `i` and `o` on the timing's base give the
      interval from `i` to the exclusive end `o`. */
  lemma TimingIntervalOfFrames(t: Timing, i: int, o: int)
    requires t.fps > 0.0 && t.tcRate > 0
    requires var b := Base(t.tcRate, t.tcRate as real / t.fps);
      TimecodeToFrame(b, t.tcIn) == Success(i) && TimecodeToFrame(b, t.tcOut) == Success(o)
    ensures var b := Base(t.tcRate, t.tcRate as real / t.fps);
      TimingInterval(t).Some? && TimingInterval(t).value.start == Time(i, b) &&
      TimingInterval(t).value.endTC.frame == o
  {
    var b := Base(t.tcRate, t.tcRate as real / t.fps);
    assert b.realtimeScale > 0.0;
    assert MakeBase(t.tcRate, t.tcRate as real / t.fps) == Success(b);
  }

  /** The same on the file's bytes. */
  lemma FileIntervalSpan(d: seq<byte>)
    requires ExtractAtoms(d).Success? && ReadingsOf(d, ExtractAtoms(d).value).Success?
    requires var v := ReadingsOf(d, ExtractAtoms(d).value).value;
      v.tcRate >= 1 && !v.drop && v.fps > 0.0 && v.tcFrames >= 1
    ensures var v := ReadingsOf(d, ExtractAtoms(d).value).value;
      FileInterval(d).Some? && FileInterval(d).value.start.frame == v.framessm &&
      Len(FileInterval(d).value) == v.tcFrames - 1
  {
    var v := ReadingsOf(d, ExtractAtoms(d).value).value;
    assert ExtractTiming(d) == Success(Some(LabelTiming(v).value));
    TimingIntervalSpan(v);
  }

  /** So a one-frame clip gets an empty interval, which is falsy: `interval`
      reads such a file again on every call. */
  lemma OneFrameIsFalsy(v: Readings)
    requires v.tcRate >= 1 && !v.drop && v.fps > 0.0 && v.tcFrames == 1
    ensures var r := TimingInterval(LabelTiming(v).value);
      r.Some? && !Truthy(Computed(r.value))
  {
    TimingIntervalSpan(v);
  }

  // ---------------------------------------------------------------- camera column

  /** `fileName.split('#')[0].split('_')[3]`, or "Invalid" when the take
      name has fewer than four '_' fields (the IndexError). */
  function CameraLabel(fileName: string): (r: string)
    ensures '_' !in r || r == "Invalid"
    ensures |Split(Split(fileName, '#')[0], '_')| < 4 ==> r == "Invalid"
  {
    var fields := Split(Split(fileName, '#')[0], '_');
    if |fields| < 4 then "Invalid" else fields[3]
  }

  /** A name made of '_' fields and, optionally, a '#' and any suffix,
      yields its fourth field as the camera, the inverse of composing it. */
  lemma CameraLabelOfFields(fields: seq<string>, suffix: Option<string>)
    requires |fields| >= 4
    requires forall i :: 0 <= i < |fields| ==> '_' !in fields[i] && '#' !in fields[i]
    ensures var take := Join(fields, '_');
      CameraLabel(if suffix.Some? then take + "#" + suffix.value else take) == fields[3]
  {
    var take := Join(fields, '_');
    NoCharInJoin(fields, '_', '#');
    var name := if suffix.Some? then take + "#" + suffix.value else take;
    assert Split(name, '#')[0] == take by {
      if suffix.Some? {
        var parts := [take] + Split(suffix.value, '#');
        assert parts[1..] == Split(suffix.value, '#');
        assert Join(parts, '#') == name;
        SplitJoin(parts, '#');
      } else {
        SplitJoin([take], '#');
      }
    }
    SplitJoin(fields, '_');
  }

  /** A character in none of the pieces nor the separator is not in their join. */
  lemma {:induction false} NoCharInJoin(parts: seq<string>, sep: char, c: char)
    requires |parts| >= 1 && c != sep
    requires forall i :: 0 <= i < |parts| ==> c !in parts[i]
    ensures c !in Join(parts, sep)
    decreases |parts|
  {
    if |parts| > 1 {
      NoCharInJoin(parts[1..], sep, c);
    }
  }

  // ---------------------------------------------------------------- the model

  class VideoFilesModel {
    var intervalCache: map<string, CachedInterval>
    var cameraCache: map<string, string>
    var versionExists: map<string, bool>
    var movieUploaded: map<string, bool>
    var linkedIntervals: map<string, bool>
    var linkedCameras: map<string, bool>

    /** What every method keeps: each flag map only ever holds True, and each
        cached Interval is one that `Interval(...)` built. */
    ghost predicate Valid()
      reads this
    {
      (forall p :: p in versionExists ==> versionExists[p]) &&
      (forall p :: p in movieUploaded ==> movieUploaded[p]) &&
      (forall p :: p in linkedIntervals ==> linkedIntervals[p]) &&
      (forall p :: p in linkedCameras ==> linkedCameras[p]) &&
      (forall p :: p in intervalCache && intervalCache[p].Computed? ==> WellFormed(intervalCache[p].interval))
    }

    /** `__init__`: the caches start empty. */
    constructor()
      ensures Valid()
      ensures intervalCache == map[] && cameraCache == map[] && versionExists == map[]
      ensures movieUploaded == map[] && linkedIntervals == map[] && linkedCameras == map[]
    {
      intervalCache, cameraCache := map[], map[];
      versionExists, movieUploaded := map[], map[];
      linkedIntervals, linkedCameras := map[], map[];
    }

    /** `_initCaches`: six fresh, empty dictionaries. */
    method InitCaches()
      modifies this
      ensures Valid()
      ensures intervalCache == map[] && cameraCache == map[] && versionExists == map[]
      ensures movieUploaded == map[] && linkedIntervals == map[] && linkedCameras == map[]
    {
      intervalCache, cameraCache := map[], map[];
      versionExists, movieUploaded := map[], map[];
      linkedIntervals, linkedCameras := map[], map[];
    }

    /** `modelReset`: after the view's reset, everything cached is forgotten. */
    method ModelReset()
      modifies this
      ensures Valid()
      ensures intervalCache == map[] && cameraCache == map[] && versionExists == map[]
      ensures movieUploaded == map[] && linkedIntervals == map[] && linkedCameras == map[]
    {
      InitCaches();
    }

    /** `interval(index)` for the file at `path`, whose bytes are `d`: a
        truthy cached entry is returned as it is; otherwise the file is read,
        and what it gives (or "Invalid") is cached and returned. */
    method IntervalOf(path: string, d: seq<byte>) returns (r: CachedInterval)
      requires Valid()
      modifies this
      ensures Valid()
      ensures old(path in intervalCache && Truthy(intervalCache[path])) ==>
                r == old(intervalCache[path]) && intervalCache == old(intervalCache)
      ensures !old(path in intervalCache && Truthy(intervalCache[path])) ==>
                r == ReadInterval(d) && intervalCache == old(intervalCache)[path := r]
      ensures r.Computed? ==> WellFormed(r.interval)
      ensures cameraCache == old(cameraCache) && versionExists == old(versionExists)
      ensures movieUploaded == old(movieUploaded)
      ensures linkedIntervals == old(linkedIntervals) && linkedCameras == old(linkedCameras)
    {
      if path in intervalCache && Truthy(intervalCache[path]) {
        return intervalCache[path];
      }
      r := ReadInterval(d);
      intervalCache := intervalCache[path := r];
    }

    /** `camera(index)` for the file at `path` named `fileName`: a non-empty
        cached name is returned as it is; an empty file name gives None and
        caches nothing; otherwise the label is cached and returned. */
    method CameraOf(path: string, fileName: string) returns (r: Option<string>)
      modifies this
      ensures old(path in cameraCache && cameraCache[path] != "") ==>
                r == Some(old(cameraCache[path])) && cameraCache == old(cameraCache)
      ensures !old(path in cameraCache && cameraCache[path] != "") && fileName == "" ==>
                r == None && cameraCache == old(cameraCache)
      ensures !old(path in cameraCache && cameraCache[path] != "") && fileName != "" ==>
                r == Some(CameraLabel(fileName)) && cameraCache == old(cameraCache)[path := CameraLabel(fileName)]
      ensures intervalCache == old(intervalCache) && versionExists == old(versionExists)
      ensures movieUploaded == old(movieUploaded)
      ensures linkedIntervals == old(linkedIntervals) && linkedCameras == old(linkedCameras)
    {
      if path in cameraCache && cameraCache[path] != "" {
        return Some(cameraCache[path]);
      }
      if fileName == "" {
        return None;
      }
      var name := CameraLabel(fileName);
      cameraCache := cameraCache[path := name];
      r := Some(name);
    }

    /** `intervalLinked(index)`: `dict.get`, None or True. */
    function IntervalLinked(path: string): (r: Option<bool>)
      reads this
      ensures r.Some? <==> path in linkedIntervals
      ensures Valid() && r.Some? ==> r.value
    {
      if path in linkedIntervals then Some(linkedIntervals[path]) else None
    }

    /** `setIntervalLinked(index)`: marks the path. */
    method SetIntervalLinked(path: string)
      requires Valid()
      modifies this
      ensures Valid() && IntervalLinked(path) == Some(true)
      ensures linkedIntervals == old(linkedIntervals)[path := true]
      ensures intervalCache == old(intervalCache) && cameraCache == old(cameraCache)
      ensures versionExists == old(versionExists) && movieUploaded == old(movieUploaded)
      ensures linkedCameras == old(linkedCameras)
    {
      linkedIntervals := linkedIntervals[path := true];
    }

    /** `cameraLinked(index)`. */
    function CameraLinked(path: string): (r: Option<bool>)
      reads this
      ensures r.Some? <==> path in linkedCameras
      ensures Valid() && r.Some? ==> r.value
    {
      if path in linkedCameras then Some(linkedCameras[path]) else None
    }

    /** `setCameraLinked(index)`. */
    method SetCameraLinked(path: string)
      requires Valid()
      modifies this
      ensures Valid() && CameraLinked(path) == Some(true)
      ensures linkedCameras == old(linkedCameras)[path := true]
      ensures intervalCache == old(intervalCache) && cameraCache == old(cameraCache)
      ensures versionExists == old(versionExists) && movieUploaded == old(movieUploaded)
      ensures linkedIntervals == old(linkedIntervals)
    {
      linkedCameras := linkedCameras[path := true];
    }

    /** `versionExists(index)`. */
    function VersionExists(path: string): (r: Option<bool>)
      reads this
      ensures r.Some? <==> path in versionExists
      ensures Valid() && r.Some? ==> r.value
    {
      if path in versionExists then Some(versionExists[path]) else None
    }

    /** `setVersionExists(index)`. */
    method SetVersionExists(path: string)
      requires Valid()
      modifies this
      ensures Valid() && VersionExists(path) == Some(true)
      ensures versionExists == old(versionExists)[path := true]
      ensures intervalCache == old(intervalCache) && cameraCache == old(cameraCache)
      ensures movieUploaded == old(movieUploaded)
      ensures linkedIntervals == old(linkedIntervals) && linkedCameras == old(linkedCameras)
    {
      versionExists := versionExists[path := true];
    }

    /** `movieUploaded(index)`. */
    function MovieUploaded(path: string): (r: Option<bool>)
      reads this
      ensures r.Some? <==> path in movieUploaded
      ensures Valid() && r.Some? ==> r.value
    {
      if path in movieUploaded then Some(movieUploaded[path]) else None
    }

    /** `setMovieUploaded(index)`. */
    method SetMovieUploaded(path: string)
      requires Valid()
      modifies this
      ensures Valid() && MovieUploaded(path) == Some(true)
      ensures movieUploaded == old(movieUploaded)[path := true]
      ensures intervalCache == old(intervalCache) && cameraCache == old(cameraCache)
      ensures versionExists == old(versionExists)
      ensures linkedIntervals == old(linkedIntervals) && linkedCameras == old(linkedCameras)
    {
      movieUploaded := movieUploaded[path := true];
    }
  }

  /** "Invalid" sticks: once a file fails to read, later calls return
      "Invalid" whatever the file's bytes have become. */
  method InvalidSticks(m: VideoFilesModel, path: string, d1: seq<byte>, d2: seq<byte>) returns (r1: CachedInterval, r2: CachedInterval)
    requires m.Valid() && path !in m.intervalCache && FileInterval(d1).None?
    modifies m
    ensures r1 == Invalid && r2 == Invalid
  {
    r1 := m.IntervalOf(path, d1);
    r2 := m.IntervalOf(path, d2);
  }

  /** A non-empty interval is read once: the second call is served from the
      cache, whatever the file's bytes have become. */
  method NonemptyIntervalIsCached(m: VideoFilesModel, path: string, d1: seq<byte>, d2: seq<byte>)
    returns (r1: CachedInterval, r2: CachedInterval)
    requires m.Valid() && path !in m.intervalCache
    requires FileInterval(d1).Some? && IntervalNonzero(FileInterval(d1).value)
    modifies m
    ensures r1 == r2 == Computed(FileInterval(d1).value)
  {
    r1 := m.IntervalOf(path, d1);
    r2 := m.IntervalOf(path, d2);
  }
}

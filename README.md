# Timecode, QuickTime metadata and take matching — a Dafny model

This project models the logic under `python/app/lib` of a Shotgun Toolkit
ingest application for motion-capture shoot days, and proves its
properties. The application lists movie files next to the takes of a shoot
day. For each movie it reads the timecode range from the QuickTime
container, and it matches each file to the take whose timecode interval
covers it. The model has six modules, one per concern:

- `Timecode` (`timecode.dfy`) — the value layer of `timecode.py`.
  - `Base` is a frame rate plus a realtime scale. Two bases are equal when their rates match and their scales differ by less than 0.0001.
  - `Time` is a signed frame count on a base. It reads and prints `[-]HH:MM:SS:FF` strings and supports base-checked `+`, `-`, comparison, negation and scaling.
  - `Interval` is a half-open range built from an exclusive end timecode or an inclusive end frame.
  - `LinearSpeed` is a linear time remap.
  - The in-place operators `+=` and `-=` and `Time.read` change a Time object. They are the methods of the class `TimeVar`.
- `AtomTree` (`atom_tree.dfy`) and `MovieMetadata` (`movie_metadata.dfy`) — `ccr2_extract_movie_metadata.py`.
  - The box reader works from a read position over the file's bytes. Each box has a 4-byte big-endian size and a 4-byte tag, and size 1 announces a 64-bit size, as in the box header of ISO/IEC 14496-12 section 4.2.
  - The reader builds a tree. The tree is then searched for the timecode track.
  - The reads take the `tmcd` sample description fields, the first chunk offset from `stco` or `co64`, the first edit's duration from `edts`, and the frames-since-midnight word.
  - Frame counts convert to `HH:MM:SS:FF` with and without drop-frame compensation, in the source's hard-coded form.
  - `extract_timing` is the sequence of all of these.
- `ExtractTimecode2` (`extract_timecode2.dfy`) — the older reader `ccr2_extract_timecode2.py`.
  - It has fewer container types and no guard against a size-0 box.
  - Its rate comes from the first `tmcd` anywhere in the tree, and its non-drop start timecode from the first 4 bytes of `mdat`.
  - Its `u_from_be` (lines 34-38), header read (lines 54-61) and `find_atom` (lines 97-105) are the same code as the newer file's. The model uses `Bytes.UFromBe`, `AtomTree.ReadAtomHeader` and `AtomTree.FindFirst` for both.
- `Shootday` (`shootday.dfy`) — `shootday_model.py`.
  - `msec_to_timecode` converts milliseconds to frames.
  - `_intersect` is the hand-written interval intersection, kept literally.
  - The first-match coverage scan `findCoveringTake`.
  - `_before_data_processing` writes an interval into each take record in place.
- `FilesystemModel` (`filesystem_model.dfy`) — the non-Qt part of `filesystem_model.py`.
  - The six per-path dictionaries become the map fields of the class `VideoFilesModel`.
  - The interval column reads the movie once and caches the result. Failures are cached as "Invalid".
  - The camera column takes field 3 of the file name.
  - The four flag dictionaries are only ever set to True.
- `Wrappers`, `Text`, `Bytes` and `Arith` are support modules.
  - `Wrappers` holds Option and Result.
  - `Text` holds Python's `str.split`, Python 2's `int()` of a string (surrounding whitespace, a sign, whitespace after the sign, decimal digits), and `%02d`/`%0.2d`.
  - `Bytes` holds big-endian values (`u_from_be`).
  - `Arith` holds floor-division facts.

Modelling conventions:

- **Python exceptions** become `Failure`, with an error value that names the cause (`TimeError`, `ParseError`, `MetaError`, `MatchError`). A bare `except` becomes `None` or "Invalid", as the source does.
- **Integers** are unbounded, as in Python. Python 2's `/` on ints floors the quotient, which is Dafny's `/` for the positive divisors that occur here.
- **Floats** (realtime scales, fps, coverage) are `real`.
  - `int(x)` truncates toward zero (`Shootday.Truncate`).
  - `round` rounds half away from zero (`Timecode.RoundHalfAway`).
- **I/O becomes parameters.**
  - The movie file is its bytes `d`. `f.read(n)` at a position is `AtomTree.ReadBytes`: at most n bytes, the rest of the file for a negative n, and nothing past the end.
  - `f.seek` and `f.tell` become the read position. A short read inside `read_u` is the `ShortRead` failure, matching the IndexError in `u_from_be`.
  - In `filesystem_model.py`, the path, the file name and the bytes behind a Qt index are parameters of the methods.
- **A box tree is a value.**
  - An `Atom` holds its tag, its offset, its declared size, the span its `data` was read from, and its children.
  - The `parent` back-link of the source's dictionaries becomes a `Located` record. It carries the chain of ancestors that `find_atoms` walked.

Points where the code does something other than the standard or its own messages:

- **A size-0 box** (ccr2_extract_movie_metadata.py:88-91).
  - ISO/IEC 14496-12 section 4.2 reads size 0 as "the box extends to the end of the file".
  - The program's own warning at ccr2_extract_movie_metadata.py:89 calls the box corrupt and says "Skipped.", which suggests that reading goes on with the next sibling.
  - Lines 90-91 instead seek to the parent's end and break the parent's loop, so every later sibling is dropped. The model follows the code: `AtomTree.ZeroSizeDropsRest`, `AtomTree.ZeroSizeExample`.
- **The older reader has no size-0 guard** (ccr2_extract_timecode2.py:80).
  - A size-0 box seeks back to its own offset, so the loop reads it forever.
  - `ExtractTimecode2.ParseBoxesOld` returns `Hangs(pos)` for that case rather than diverging. The lemmas prove that such a box never lets the loop finish (`ZeroSizeNeverDone`, `ZeroSizeHangExample`).
  - A loop whose position is already past the parent's end never finishes either (`PastEndNeverDone`).
- **The second branch of `_intersect` is swapped** (shootday_model.py:24-28).
  - When only `b.Start` lies in `a`, it returns `b` where the overlap is `[b.Start, a.EndTC)`, and the reverse.
  - The model keeps this. `Shootday.IntersectFromB` states what is returned, and `Shootday.IntersectSwapExample` shows the difference on 0-10 and 5-20.
- **Negative milliseconds** (shootday_model.py:15).
  - `int(frame + 0.5)` truncates toward zero.
  - So below -0.5 frames the result is not the nearest frame. `Shootday.MsecToTimecode` states both branches, and `Shootday.NegativeMsecExample` maps frame -1 to frame 0.
- **A file's interval is one frame short** (filesystem_model.py:100-101).
  - `extract_timing`'s out label names the last frame of the clip. `Interval(..., endtc=)` reads it as the first frame after the clip.
  - `FilesystemModel.TimingIntervalSpan` proves the length is `tcFrames - 1` for non-drop files. So a one-frame clip gets an empty, falsy interval, and it is read again on every call (`FilesystemModel.OneFrameIsFalsy`).
- **The order of the reads inside `extract_timing`** changes which exception is raised when the rate is zero.
  - It does not change the `None` the call returns (`MovieMetadata.TimingOf`).
- **The `co64` fallback of `find_timecode_fileoffset`** unpacks 8 bytes with `'>I'`.
  - It succeeds only on a box whose data is exactly 12 bytes long (`MovieMetadata.FileOffsetSources`).

Some source functions are modelled by a definition that only computes, with no contract of its own. The rows of the table below name the lemmas that state their properties:

- `Timecode.BaseEq` (`Base.__eq__`) is covered by `BaseEqIsEquivalenceLike`, `BaseEqNotTransitive` and `VideoBasesTolerateThousandths`.
- `Timecode.TimecodeOf` and `Timecode.FormatCounts` (`Time.timecode`) are covered by `UnsignedPartParses`, `TimecodeRoundTrip`, `TimeRoundTrip` and `TimecodeExamples`.
- `Timecode.FrameToRealtimeSeconds` and `Timecode.RealtimeSeconds` are covered by `RealtimeSecondsFloor`, `SubSecondIsZero`, `RealtimeSecondsMonotone` and `RealtimeExamples`.
- `Timecode.Len` and `Timecode.IntervalNonzero` (`len` and truth of an Interval) are covered by `Duration`, `IntervalDuality`, `IntervalFromEndFrame`, `TakeIntervalLength` and `OneFrameIsFalsy`. `Timecode.Nonzero` (`Time.__nonzero__`) is the one-line test `frame != 0`, and nothing more is stated about it.
- `AtomTree.Classify` and `AtomTree.Role` (the tag tests of `read_atom_children`) are covered by `RoleIsClassify`. `ExtractTimecode2.ClassifyOld` is covered by `OldRoleIsClassifyOld` and `ClassesDiffer`.
- `AtomTree.ParseBoxes`, `AtomTree.ParseTurn` and `AtomTree.ParseBox` (`read_atom_children` and `read_atom`) are covered by the `ParseBoxes*`, `ParseBox*`, `ReadTurn` and `ZeroSize*` rows, and by `ReadAtom` and `ReadAtomChildren`, which compute them.
- `ExtractTimecode2.ParseBoxesOld` and `ExtractTimecode2.ParseBoxOld` are covered by the `ParseBoxesOld*` and `ParseBoxOld*` rows and by `ReadAtomChildrenOld`.
- `AtomTree.FindAtom` (`find_atom` on a node) is `FindFirst` of the node's children, covered by `FindFirstIsFirstMatch`. `AtomTree.TimecodeTmcd` is covered by `FindTimecodeTmcd`, `FirstUnderStsd` and `FirstUnderStsdFrom`.
- `MovieMetadata.TimecodeToFrames`, `MovieMetadata.DroppedBefore` and `MovieMetadata.Fields` (`timecodeToFrames` and the body of `framesToTimecode`) are covered by `FieldsSpec`, `FieldsOf`, `DroppedOfMinutes`, `DropShape` and the round-trip rows.
- `MovieMetadata.Label` is covered by `LabelFields`, `LabelsSpan` and `TimingLabelsSpan`. `MovieMetadata.StcoFirstOffset` is covered by `FileOffsetSources`.
- `Shootday.Intersect` (`_intersect`) is covered by the `Intersect*` rows and by `TakeVerdict`.

## Model

| member | source | states |
|---|---|---|
| Timecode.MakeBase | python/app/lib/timecode.py:15-26 | a Base exists iff fps > 0 and scale > 0.0; a zero or negative fps is reported first, then a non-positive scale |
| Timecode.BaseEqIsEquivalenceLike | python/app/lib/timecode.py:28-33 | base equality is reflexive and symmetric |
| Timecode.BaseEqNotTransitive | python/app/lib/timecode.py:28-33 | the 0.0001 tolerance makes base equality non-transitive: 1.0 ~ 1.00006 ~ 1.00012 but 1.0 is not ~ 1.00012 |
| Timecode.VideoBasesTolerateThousandths | python/app/lib/timecode.py:499-502 | TB_23976, TB_2997 and TB_5994 equal their 1.001 bases; TB_24 differs from TB_23976 and from TB_120 |
| Timecode.TimecodeToFrame | python/app/lib/timecode.py:55-56 | a timecode shorter than 11 characters is refused |
| Timecode.FieldsToFrame | python/app/lib/timecode.py:63-65 | anything but exactly four ':' fields is refused |
| Timecode.FieldsInRange | python/app/lib/timecode.py:67-76 | four numeric fields with m < 60, s < 60, f < fps give h*3600*fps + m*60*fps + s*fps + f |
| Timecode.FieldsOutOfRange | python/app/lib/timecode.py:69-71 | minutes or seconds >= 60, or frames >= fps, are refused with the range error |
| Timecode.UnsignedTimecode | python/app/lib/timecode.py:58-78 | a timecode without '-' reads as the value of its fields |
| Timecode.NegatedTimecode | python/app/lib/timecode.py:58-78 | a leading '-' negates the value of the fields after it, once |
| Timecode.NegativeTimecode | python/app/lib/timecode.py:58-78 | "-" + tc reads iff tc reads, as its negation |
| Timecode.TimecodeErrors | python/app/lib/timecode.py:55-65 | the too-short and field-count failures, after stripping one '-' |
| Timecode.FrameToCounts | python/app/lib/timecode.py:84-103 | sign '-' iff the frame is negative; m < 60, s < 60, f < fps; the fields recombine to the absolute frame |
| Timecode.Cascade | python/app/lib/timecode.py:93-101 | the three floor-division steps leave each lower field in range and recombine to the count |
| Timecode.FrameToCountsExamples | python/app/lib/timecode.py:483-485 | 25 gives ('',0,0,1,1), 0 gives all zeros, -25 gives ('-',0,0,1,1) at TB_24 |
| Timecode.ReadTime | python/app/lib/timecode.py:159-192 | `time=` must come alone and copies the time; `timecode=` refuses a `frame=` and parses on `base or TB_DEFAULT`; otherwise the frame (default 0) on that base |
| Timecode.FR | python/app/lib/timecode.py:299-301 | `FR(n, base)` has frame n on `base or TB_DEFAULT` |
| Timecode.TC | python/app/lib/timecode.py:295-297 | `TC(s, base)` succeeds iff s parses on `base or TB_DEFAULT`, with that frame and that base |
| Timecode.UnsignedPartParses | python/app/lib/timecode.py:196 | the digits part of a printed timecode has at least 11 characters, no '-', and fields that read back as the absolute frame |
| Timecode.TimecodeRoundTrip | python/app/lib/timecode.py:194-196 | reading back the printed timecode of any frame, on any base, gives that frame |
| Timecode.TimeRoundTrip | python/app/lib/timecode.py:593-596 | `TC(t.timecode(), t.base) == t` for every Time, not only frames -60..60 |
| Timecode.TimecodeExamples | python/app/lib/timecode.py:194-196 | frame 0 prints "00:00:00:00", -1 prints "-00:00:00:01", 24 prints "00:00:01:00" at TB_24 |
| Timecode.NegativeTimecodeExample | python/app/lib/timecode.py:508 | "-00:00:00:01" reads as -1 |
| Timecode.PadExamples | python/app/lib/timecode.py:196 | `%02d` pads 0 to "00" and keeps "24" |
| Timecode.TimecodeRangeExamples | python/app/lib/timecode.py:513-514 | "00:00" is too short and "00:00:00:24" is out of range at 24 fps |
| Timecode.RealtimeSecondsFloor | python/app/lib/timecode.py:80-82 | every frame in [q*fps, (q+1)*fps) has q*scale realtime seconds (floor division) |
| Timecode.SubSecondIsZero | python/app/lib/timecode.py:80-82 | frames below one second have 0.0 realtime seconds |
| Timecode.RealtimeSecondsMonotone | python/app/lib/timecode.py:80-82 | realtime seconds are monotone in the frame |
| Timecode.RealtimeExamples | python/app/lib/timecode.py:479-480 | 24 frames are 1.0 s and 0 frames 0.0 s at TB_24 |
| Timecode.FpsToScale | python/app/lib/timecode.py:105-107 | the scale times the base's rate is the given fps; positive fps gives a positive scale |
| Timecode.Cmp | python/app/lib/timecode.py:215-223 | comparing Times fails iff the bases differ; otherwise its sign is the order of the frames |
| Timecode.CmpInterval | python/app/lib/timecode.py:224-232 | Time vs Interval: 0 iff contained, -1 iff before the start; a time at or after the end fails (the missing `Stop`) |
| Timecode.Neg | python/app/lib/timecode.py:247-249 | negation keeps the base and negates the frame |
| Timecode.Add | python/app/lib/timecode.py:251-258 | `+` succeeds iff the bases are equal, with the sum on the left operand's base; otherwise the base-mismatch error |
| Timecode.Sub | python/app/lib/timecode.py:270-277 | `-` succeeds iff the bases are equal, with the difference on the left operand's base |
| Timecode.SubUndoesAdd | python/app/lib/timecode.py:617-620 | (t + u) - u == t whenever t + u succeeds |
| Timecode.RoundHalfAway | python/app/lib/timecode.py:293 | Python 2 `round`: nearest integer, halves away from zero |
| Timecode.Mul | python/app/lib/timecode.py:289-293 | scaling keeps the base; the new frame is within half a frame of frame*k, a tie going away from zero (up for a non-negative product, down for a negative one) |
| Timecode.MakeInterval | python/app/lib/timecode.py:312-342 | both or neither of endtc/endfr are refused; endtc needs equal bases and sets EndFR = T - 1 with no length check; endfr needs equal bases and F >= Start and sets EndTC = F + 1 |
| Timecode.Duration | python/app/lib/timecode.py:344-346 | the duration is `len` frames on the start's base; a negative `len` is refused, as `len()` does |
| Timecode.IntervalDuality | python/app/lib/timecode.py:335-337 | built with endtc=T: EndFR = T - 1, len = T - Start, duration as FR, and the endfr form rebuilds it when T > Start |
| Timecode.IntervalFromEndFrame | python/app/lib/timecode.py:338-342 | built with endfr=F: EndTC = F + 1 and the interval is at least one frame, so truthy |
| Timecode.ContainsTime | python/app/lib/timecode.py:377-382 | `t in i` fails iff the bases differ, else holds iff Start <= t < EndTC |
| Timecode.ContainsInterval | python/app/lib/timecode.py:383-385 | `j in i` fails iff the start bases differ, or i.Start <= j.Start and the end bases differ (the short-circuit `and`); otherwise it holds iff i.Start <= j.Start and j.EndTC <= i.EndTC |
| Timecode.Frames | python/app/lib/timecode.py:372-375 | iteration yields len (or no) Times, the k-th being Start + k, exactly the Times of the range |
| Timecode.FramesAreContained | python/app/lib/timecode.py:372-382 | every iterated Time is `in` the interval |
| Timecode.Merge | python/app/lib/timecode.py:387-389 | a successful merge is a well-formed interval |
| Timecode.MergeContainsBoth | python/app/lib/timecode.py:387-389 | a merge contains both intervals |
| Timecode.Apply | python/app/lib/timecode.py:425-431 | `speed[t]` fails iff the bases differ, else Start + round((t - Start) * k) on the start's base |
| Timecode.UnitSpeedIsIdentity | python/app/lib/timecode.py:425-431 | speed 1.0 maps every Time to itself |
| Timecode.DoubleSpeedExample | python/app/lib/timecode.py:678-679 | at speed 2.0 over [0, 2), frame 1 maps to frame 2 |
| Timecode.TimeVar.constructor | python/app/lib/timecode.py:154-156 | a new Time object holds the given value |
| Timecode.TimeVar.Read | python/app/lib/timecode.py:159-192 | `read` succeeds as `ReadTime` does and then holds its value; a failing timecode parse has already set the base, and every other failure changes nothing |
| Timecode.TimeVar.AddInPlace | python/app/lib/timecode.py:260-268 | `+=` needs equal bases, then adds the other's frame in place; the base never changes, and on failure nothing does |
| Timecode.TimeVar.SubInPlace | python/app/lib/timecode.py:279-287 | `-=` needs equal bases, then subtracts in place; the base never changes, and on failure nothing does |
| Text.Split | python/app/lib/timecode.py:63 | split pieces hold no separator and join back to the string |
| Text.SplitJoin | python/app/lib/filesystem_model.py:119-120 | splitting a join of separator-free pieces gives the pieces |
| Text.ParseFormatPrec2 | python/app/lib/movie_metadata/ccr2_extract_movie_metadata.py:285-286 | `int()` reads back what `%0.2d` printed, signs included |
| Text.SpaceAfterSign | python/app/lib/timecode.py:67 | Python 2's `int()` skips whitespace after the sign: "- " followed by digits reads as the negated digits |
| Bytes.BeValueBound | python/app/lib/movie_metadata/ccr2_extract_movie_metadata.py:58-62 | a big-endian value of n bytes is below 256^n |
| Bytes.BeUnsigned | python/app/lib/movie_metadata/ccr2_extract_movie_metadata.py:58-62 | `u_from_be` fails on too few bytes, and its value is below 256^n |
| Bytes.UFromBe | python/app/lib/movie_metadata/ccr2_extract_movie_metadata.py:58-62 | the accumulator loop computes the big-endian value of the first n bytes, and fails (IndexError) with fewer |
| AtomTree.ReadBytesSpec | python/app/lib/movie_metadata/ccr2_extract_movie_metadata.py:96-99 | `f.read(n)` returns the bytes at the position, at most n, the rest of the file for negative n, nothing past the end |
| AtomTree.ReadHeader | python/app/lib/movie_metadata/ccr2_extract_movie_metadata.py:79-86 | a header read succeeds only inside the file; its payload starts after the tag (8 bytes) or after the 64-bit size (16 bytes) |
| AtomTree.ReadHeaderSpec | python/app/lib/movie_metadata/ccr2_extract_movie_metadata.py:79-86 | a header fails iff 4 size bytes are missing, or size 1 lacks its 8-byte size; the size, tag, header length and payload start in both forms |
| AtomTree.ReadAtomHeader | python/app/lib/movie_metadata/ccr2_extract_movie_metadata.py:79-86 | the imperative header read (`read_u(4)`, `read(4)`, `read_u(8)`) computes `ReadHeader` |
| AtomTree.TagCodeInjective | python/app/lib/movie_metadata/ccr2_extract_movie_metadata.py:101-109 | two 4-byte tags with the same code are the same tag |
| AtomTree.RoleIsClassify | python/app/lib/movie_metadata/ccr2_extract_movie_metadata.py:101-109 | the role by tag code is the source's test order: containers, data types, `mdat`, `stsd`, other |
| AtomTree.SkipEightRead | python/app/lib/movie_metadata/ccr2_extract_movie_metadata.py:107-108 | `stsd`'s `read(8)` moves the position by the bytes it actually read |
| AtomTree.ReadAtom | python/app/lib/movie_metadata/ccr2_extract_movie_metadata.py:96-111 | one box's body, with its recursive child loop, computes `ParseBox` |
| AtomTree.ParseBoxesHeader | python/app/lib/movie_metadata/ccr2_extract_movie_metadata.py:79-91 | a failed header read fails the loop; a size-0 header ends the parent's list |
| AtomTree.ParseBoxesNext | python/app/lib/movie_metadata/ccr2_extract_movie_metadata.py:101-113 | a failing box fails the loop; a box is appended and the loop goes on at offset + size |
| AtomTree.ReadTurn | python/app/lib/movie_metadata/ccr2_extract_movie_metadata.py:72-113 | one pass of the loop: either the final result, or a box whose successor position is strictly closer to the end of the file |
| AtomTree.ReadAtomChildren | python/app/lib/movie_metadata/ccr2_extract_movie_metadata.py:69-113 | the `while True` loop appending to `children` computes `ParseBoxes` |
| AtomTree.ExtractAtoms | python/app/lib/movie_metadata/ccr2_extract_movie_metadata.py:122-130 | the root has tag 'root', offset 0, the file size, and the children of the top-level loop |
| AtomTree.ReadAtoms | python/app/lib/movie_metadata/ccr2_extract_movie_metadata.py:122-130 | the imperative `extract_atoms` computes `ExtractAtoms` |
| AtomTree.ParseBoxesTiles | python/app/lib/movie_metadata/ccr2_extract_movie_metadata.py:111-113 | parsed siblings tile the parent in file order, each starting where the previous ended; the last ends at the parent's end or at a size-0 box |
| AtomTree.ZeroSizeDropsRest | python/app/lib/movie_metadata/ccr2_extract_movie_metadata.py:88-91 | a size-0 box ends the parent's list: it and every later sibling are dropped |
| AtomTree.ZeroSizeExample | python/app/lib/movie_metadata/ccr2_extract_movie_metadata.py:88-91 | a `free` box followed by a size-0 box and a third box gives one child |
| AtomTree.LargeSizeHeader | python/app/lib/movie_metadata/ccr2_extract_movie_metadata.py:84-86 | size 1 reads a 64-bit size and a 16-byte header |
| AtomTree.ParseBoxAdopts | python/app/lib/movie_metadata/ccr2_extract_movie_metadata.py:101-109 | a container reads its children from the payload, `stsd` from 8 bytes further, up to the box's end |
| AtomTree.ParseBoxLeaf | python/app/lib/movie_metadata/ccr2_extract_movie_metadata.py:103-106 | any other box has no children |
| AtomTree.ParseBoxContents | python/app/lib/movie_metadata/ccr2_extract_movie_metadata.py:96-111 | a parsed box keeps its tag, offset, size and `DataCount` payload bytes, and a non-container has no children |
| AtomTree.ParseBoxChildren | python/app/lib/movie_metadata/ccr2_extract_movie_metadata.py:101-109 | a container succeeds iff its child loop does, with those children |
| AtomTree.BoxShaped | python/app/lib/movie_metadata/ccr2_extract_movie_metadata.py:96-109 | a parsed box's data is the prefix, the whole payload, or 4 bytes of `mdat`, as its tag says |
| AtomTree.ParseBoxShaped | python/app/lib/movie_metadata/ccr2_extract_movie_metadata.py:96-111 | a box and all its descendants are shaped |
| AtomTree.ParseBoxesShaped | python/app/lib/movie_metadata/ccr2_extract_movie_metadata.py:69-113 | every box of a parsed tree is shaped |
| AtomTree.FindFirstIsFirstMatch | python/app/lib/movie_metadata/ccr2_extract_movie_metadata.py:133-141 | `find_atom` (`FindFirst`) returns the first match of the pre-order listing of the tree (`Preorder`): a box of the tag with no box of the tag above it; None iff no listed box matches |
| AtomTree.FindAllIsMatches | python/app/lib/movie_metadata/ccr2_extract_movie_metadata.py:144-149 | `find_atoms` (`FindAll`) collects exactly the matches of the pre-order listing, in pre-order, each with its ancestor chain |
| AtomTree.FindAllMembers | python/app/lib/movie_metadata/ccr2_extract_movie_metadata.py:144-149 | a box and chain are collected iff they are in the pre-order listing, have the tag, and have no ancestor of the tag below the starting depth |
| AtomTree.FindFirstIsFirstOfAll | python/app/lib/movie_metadata/ccr2_extract_movie_metadata.py:133-149 | `find_atom` is the first box `find_atoms` collects, and None iff that collects nothing |
| AtomTree.FindAllAppend | python/app/lib/movie_metadata/ccr2_extract_movie_metadata.py:144-149 | collecting over two sibling lists appends their results |
| AtomTree.FindAtoms | python/app/lib/movie_metadata/ccr2_extract_movie_metadata.py:144-149 | the recursive accumulator appends exactly `FindAll` of the node's children to the list |
| AtomTree.FirstUnderStsd | python/app/lib/movie_metadata/ccr2_extract_movie_metadata.py:192-196 | the result is a collected `tmcd` whose parent is `stsd`; None only when no collected one is |
| AtomTree.FirstUnderStsdFrom | python/app/lib/movie_metadata/ccr2_extract_movie_metadata.py:192-196 | the scan returns the first match and skips the others |
| AtomTree.ScanUnderStsd | python/app/lib/movie_metadata/ccr2_extract_movie_metadata.py:192-196 | the early-return loop computes `FirstUnderStsd` |
| AtomTree.FindTimecodeTmcd | python/app/lib/movie_metadata/ccr2_extract_movie_metadata.py:188-196 | `find_timecode_tmcd` computes the first `tmcd` under `stsd` |
| AtomTree.NearestTrak | python/app/lib/movie_metadata/ccr2_extract_movie_metadata.py:175-177 | walking up from a box gives the box itself when it is a `trak`, else the innermost ancestor tagged `trak` (none nearer to the box is); None iff there is none |
| AtomTree.FindTimecodeTrak | python/app/lib/movie_metadata/ccr2_extract_movie_metadata.py:172-179 | the imperative parent walk finds the nearest `trak` above the timecode `tmcd` |
| MovieMetadata.FramesToTimecode | python/app/lib/movie_metadata/ccr2_extract_movie_metadata.py:27-55 | a zero rate fails (ZeroDivisionError), any positive rate succeeds |
| MovieMetadata.FieldsSpec | python/app/lib/movie_metadata/ccr2_extract_movie_metadata.py:41-55 | the cascade leaves m, s < 60 and f < fps, recombines to the count, and h*60 + m is the count's whole minutes |
| MovieMetadata.NonDropFields | python/app/lib/movie_metadata/ccr2_extract_movie_metadata.py:41-55 | without drop, the fields are in range and recombine to n |
| MovieMetadata.NonDropRoundTrip | python/app/lib/movie_metadata/ccr2_extract_movie_metadata.py:12-55 | `timecodeToFrames(framesToTimecode(n))` is n without drop, for every n |
| MovieMetadata.NonDropFieldsRoundTrip | python/app/lib/movie_metadata/ccr2_extract_movie_metadata.py:12-55 | in-range fields survive `framesToTimecode(timecodeToFrames(...))` |
| MovieMetadata.FieldsOf | python/app/lib/movie_metadata/ccr2_extract_movie_metadata.py:41-55 | any in-range decomposition of a count is the one the cascade finds |
| MovieMetadata.DroppedOfMinutes | python/app/lib/movie_metadata/ccr2_extract_movie_metadata.py:15-17 | `108h + 2(m - m/10)` is 18 per ten minutes plus 2 per further minute of the hour-and-minute count |
| MovieMetadata.DropShape | python/app/lib/movie_metadata/ccr2_extract_movie_metadata.py:29-39 | the frames added are 18 per complete block plus 2j with j <= 9, and the adjusted count has 10*blocks + j whole minutes |
| MovieMetadata.DropRoundTrip | python/app/lib/movie_metadata/ccr2_extract_movie_metadata.py:12-55 | with drop, `timecodeToFrames(framesToTimecode(n))` is n, for every n and every positive rate |
| MovieMetadata.DropExamples | python/app/lib/movie_metadata/ccr2_extract_movie_metadata.py:27-55 | at 30 fps drop, 17982 gives [0,10,0,0] and 1800 gives [0,1,0,2]; without drop, 1800 gives [0,1,0,0] |
| MovieMetadata.LabelsSpan | python/app/lib/movie_metadata/ccr2_extract_movie_metadata.py:281-284 | the in and out timecodes are frameCount - 1 frames apart, in both modes |
| MovieMetadata.Slice | python/app/lib/movie_metadata/ccr2_extract_movie_metadata.py:155-156 | Python slicing clips to the string: the length is j - i, less past the end |
| MovieMetadata.Unpack32 | python/app/lib/movie_metadata/ccr2_extract_movie_metadata.py:206 | `struct.unpack('>I')` succeeds iff given exactly 4 bytes, with their big-endian value |
| MovieMetadata.UnpackWords | python/app/lib/movie_metadata/ccr2_extract_movie_metadata.py:224-225 | `'>%dI'` needs exactly n*width bytes and gives the n big-endian words in order |
| MovieMetadata.U32 | python/app/lib/movie_metadata/ccr2_extract_movie_metadata.py:279-280 | `read_u(4)` succeeds iff 4 bytes are there, with their value |
| MovieMetadata.TimecodeTmcdData | python/app/lib/movie_metadata/ccr2_extract_movie_metadata.py:199-201 | the timecode `tmcd`'s data, or a failure when there is none |
| MovieMetadata.ExtractTcRate | python/app/lib/movie_metadata/ccr2_extract_movie_metadata.py:199-201 | the rate is byte 24 of that data, and fails when it is missing |
| MovieMetadata.FindTimecodeDrop | python/app/lib/movie_metadata/ccr2_extract_movie_metadata.py:204-209 | drop is bit 0 of the big-endian word at bytes 12-15; fewer bytes fail |
| MovieMetadata.ExtractFps | python/app/lib/movie_metadata/ccr2_extract_movie_metadata.py:152-158 | fps is timescale (bytes 16-19) over frame duration (bytes 20-23) of the first `tmcd`; it succeeds iff that `tmcd` exists with 24 bytes of data and a non-zero duration |
| MovieMetadata.TimecodeTrak | python/app/lib/movie_metadata/ccr2_extract_movie_metadata.py:172-179 | the timecode track is a `trak`, found iff the `tmcd` exists and has one above it |
| MovieMetadata.FindTimecodeFileOffset | python/app/lib/movie_metadata/ccr2_extract_movie_metadata.py:235-251 | an offset is found only below the timecode track |
| MovieMetadata.FileOffsetSources | python/app/lib/movie_metadata/ccr2_extract_movie_metadata.py:244-251 | the `stco` word at bytes 8-11 when it reads; otherwise the `co64` path, which succeeds only on exactly 12 bytes of data |
| MovieMetadata.FindTimecodeFileOffsets | python/app/lib/movie_metadata/ccr2_extract_movie_metadata.py:212-232 | offsets are found only below the timecode track; there, the `stco` table (4-byte entries) when it reads, and otherwise whatever the `co64` table (8-byte entries) gives |
| MovieMetadata.ChunkOffsets | python/app/lib/movie_metadata/ccr2_extract_movie_metadata.py:221-230 | the chunk table succeeds iff the box exists and holds its declared entry count, which it unpacks |
| MovieMetadata.EditDuration | python/app/lib/movie_metadata/ccr2_extract_movie_metadata.py:256-258 | the first edit's duration is the word at bytes 16-19 of `edts`, whose 20 bytes at 8-27 must be there |
| MovieMetadata.TmcdFrameDuration | python/app/lib/movie_metadata/ccr2_extract_movie_metadata.py:261-262 | the `>2IB` unpack needs 25 bytes and gives the frame duration at bytes 20-23 |
| MovieMetadata.ExtractNumTcFrames | python/app/lib/movie_metadata/ccr2_extract_movie_metadata.py:254-264 | a frame count needs the timecode track, its edit duration and a non-zero `tmcd` frame duration, and is the first floor-divided by the second |
| MovieMetadata.ExtractNumTcFramesSucceeds | python/app/lib/movie_metadata/ccr2_extract_movie_metadata.py:254-264 | conversely, when those three reads succeed and the frame duration is non-zero, the frame count is found |
| MovieMetadata.LabelFields | python/app/lib/movie_metadata/ccr2_extract_movie_metadata.py:285-286 | a `%0.2d:...` label splits into four fields that read back as h, m, s, f |
| MovieMetadata.ReadingsOf | python/app/lib/movie_metadata/ccr2_extract_movie_metadata.py:275-283 | the six reads succeed iff each does, with each read's value |
| MovieMetadata.LabelTiming | python/app/lib/movie_metadata/ccr2_extract_movie_metadata.py:281-289 | the labels exist iff the rate is positive; the rate and fps are passed through |
| MovieMetadata.TimingOf | python/app/lib/movie_metadata/ccr2_extract_movie_metadata.py:275-289 | the `try` body succeeds iff every read succeeds and the rate is positive |
| MovieMetadata.ExtractTiming | python/app/lib/movie_metadata/ccr2_extract_movie_metadata.py:272-293 | an unreadable tree escapes the `try`; otherwise a timing iff the body succeeds, and then exactly the body's timing, else None |
| MovieMetadata.TimingLabelsSpan | python/app/lib/movie_metadata/ccr2_extract_movie_metadata.py:281-286 | the in label reads back as the frames-since-midnight word and the out label as the frame tcFrames - 1 after it |
| ExtractTimecode2.OldRoleIsClassifyOld | python/app/lib/movie_metadata/ccr2_extract_timecode2.py:65-76 | the role by tag code follows this reader's test order |
| ExtractTimecode2.ClassesDiffer | python/app/lib/movie_metadata/ccr2_extract_timecode2.py:65-66 | `udta` is a container, and `co64`/`json` whole-payload boxes, only for the newer reader |
| ExtractTimecode2.ParseBoxesOldHeader | python/app/lib/movie_metadata/ccr2_extract_timecode2.py:54-61 | a failed header read fails the loop |
| ExtractTimecode2.ParseBoxesOldStops | python/app/lib/movie_metadata/ccr2_extract_timecode2.py:68-80 | a failing or hanging box ends the loop that way, and a size-0 box hangs at its own offset |
| ExtractTimecode2.ParseBoxesOldNext | python/app/lib/movie_metadata/ccr2_extract_timecode2.py:78-80 | a box is appended and the loop goes on at offset + size |
| ExtractTimecode2.ParseBoxOldChildren | python/app/lib/movie_metadata/ccr2_extract_timecode2.py:68-76 | the five containers read children from the payload, `stsd` from 8 bytes further |
| ExtractTimecode2.ParseBoxOldContents | python/app/lib/movie_metadata/ccr2_extract_timecode2.py:65-78 | a parsed box keeps its tag, offset and size, the whole payload for `tmcd`, 4 bytes for `mdat`, nothing otherwise |
| ExtractTimecode2.ParseBoxOldLeaf | python/app/lib/movie_metadata/ccr2_extract_timecode2.py:70-73 | any other box has no children |
| ExtractTimecode2.ReadAtomOld | python/app/lib/movie_metadata/ccr2_extract_timecode2.py:65-78 | one box's body computes `ParseBoxOld` |
| ExtractTimecode2.ReadTurnOld | python/app/lib/movie_metadata/ccr2_extract_timecode2.py:45-80 | one pass: a final failure or hang, or a box whose successor position is strictly closer to the end of the file |
| ExtractTimecode2.ReadAtomChildrenOld | python/app/lib/movie_metadata/ccr2_extract_timecode2.py:43-80 | the loop computes `ParseBoxesOld`, reporting a hang instead of running forever |
| ExtractTimecode2.ExtractAtomsOld | python/app/lib/movie_metadata/ccr2_extract_timecode2.py:87-95 | the root finishes iff the top-level loop does, with tag 'root', the file size and those children |
| ExtractTimecode2.PastEndNeverDone | python/app/lib/movie_metadata/ccr2_extract_timecode2.py:51-52 | a loop already past its parent's end never hits it exactly, so never finishes |
| ExtractTimecode2.ZeroSizeNeverDone | python/app/lib/movie_metadata/ccr2_extract_timecode2.py:80 | a size-0 box never lets the loop finish (a leaf hangs at its offset), where the newer reader ends the list |
| ExtractTimecode2.ParseBoxesOldTiles | python/app/lib/movie_metadata/ccr2_extract_timecode2.py:43-80 | a finished loop's boxes tile the parent exactly, from start to end |
| ExtractTimecode2.ZeroSizeHangExample | python/app/lib/movie_metadata/ccr2_extract_timecode2.py:80 | the sequence that the newer reader parses to one child hangs at offset 8 |
| ExtractTimecode2.ExtractFpsOld | python/app/lib/movie_metadata/ccr2_extract_timecode2.py:107-109 | the rate is byte 24 of the first `tmcd` anywhere, and fails without it |
| ExtractTimecode2.FramesSinceMidnight | python/app/lib/movie_metadata/ccr2_extract_timecode2.py:111-113 | the big-endian value of the first 4 bytes of the first `mdat`; fewer fail |
| ExtractTimecode2.FramesToTimecodeOld | python/app/lib/movie_metadata/ccr2_extract_timecode2.py:13-32 | a zero rate fails; otherwise m, s < 60, f < fps, and the fields recombine to the count |
| Shootday.Truncate | python/app/lib/shootday_model.py:15 | `int()` of a float is its integer part, toward zero |
| Shootday.MsecToTimecode | python/app/lib/shootday_model.py:12-16 | the frame is ms*fps/1000 rounded half up at or above -0.5 frames, and truncated toward zero below; the scale is ignored |
| Shootday.FrameOfMsecValue | python/app/lib/shootday_model.py:14 | dividing by `fpsToScale(1000.0)` is ms*fps/1000 |
| Shootday.MsecRoundTrip | python/app/lib/shootday_model.py:12-16 | the milliseconds of any non-negative frame convert back to that frame |
| Shootday.NegativeMsecExample | python/app/lib/shootday_model.py:15 | the milliseconds of frame -1 convert to frame 0 |
| Shootday.MsecMonotone | python/app/lib/shootday_model.py:12-16 | more milliseconds never give an earlier frame |
| Shootday.MsecExamples | python/app/lib/shootday_model.py:12-16 | 1000 ms is frame 24 at TB_24, 125/6 ms is frame 1, 0 ms is frame 0 |
| Shootday.IntersectBaseMismatch | python/app/lib/shootday_model.py:19 | different bases fail at the first `in` |
| Shootday.IntersectFromA | python/app/lib/shootday_model.py:19-23 | when a's start is in b: the true overlap [max start, min end) |
| Shootday.IntersectFromB | python/app/lib/shootday_model.py:24-28 | when only b's start is in a: [max start, MAX end), the swapped branch |
| Shootday.IntersectNoneIffDisjoint | python/app/lib/shootday_model.py:18-30 | for non-empty intervals on one base, None iff they do not overlap |
| Shootday.IntersectSwapExample | python/app/lib/shootday_model.py:24-28 | 0-10 with 5-20 gives 5-20, and 5-20 with 0-10 gives 5-10 |
| Shootday.TakeVerdict | python/app/lib/shootday_model.py:78-81 | one take's test (using `Intersect`, the model of `_intersect`) fails iff the intersection fails, or is non-empty while the file has zero realtime seconds; it is true iff the intersection is non-empty and its realtime seconds over the file's exceed the required coverage |
| Shootday.CoveringTake | python/app/lib/shootday_model.py:75-83 | a returned take is one of the candidates and passes the coverage test |
| Shootday.CoveringTakeOf | python/app/lib/shootday_model.py:73-74 | a negative file length fails in `duration()`; otherwise the scan over the file's realtime seconds |
| Shootday.CoveringTakeFrom | python/app/lib/shootday_model.py:75-82 | each step tests one candidate, returns it, fails, or goes on with the rest |
| Shootday.CoveringTakeIsFirst | python/app/lib/shootday_model.py:75-82 | the first passing candidate after only failing ones is the one returned |
| Shootday.CoveringTakeNone | python/app/lib/shootday_model.py:75-83 | None iff every candidate's test succeeds with false |
| Shootday.ZeroDurationNeverMatches | python/app/lib/shootday_model.py:80 | a file of zero realtime seconds never finds a take |
| Shootday.SubSecondFileNeverMatches | python/app/lib/shootday_model.py:74-80 | a file shorter than one second of its base never finds a take (floor division) |
| Shootday.FindCoveringTake | python/app/lib/shootday_model.py:73-83 | the loop with early returns computes `CoveringTakeOf` |
| Shootday.TakeInterval | python/app/lib/shootday_model.py:56-58 | a take's interval starts and ends at the converted in and out times, on TB_23976, well formed |
| Shootday.TakeIntervalLength | python/app/lib/shootday_model.py:58 | in <= out gives a non-negative length; there is no check, so 10 → 4 builds length -6 |
| Shootday.TakeRecord.constructor | python/app/lib/shootday_model.py:51 | a record holds its in and out milliseconds and no interval yet |
| Shootday.BeforeDataProcessing | python/app/lib/shootday_model.py:54-60 | every record gets the interval of its own in and out times |
| FilesystemModel.TimingInterval | python/app/lib/filesystem_model.py:99-101 | a non-positive fps or a zero rate gives none; an interval is well formed and runs, on Base(rate, rate/fps), from the time the in label reads as to the one the out label reads as |
| FilesystemModel.TimingIntervalAccepts | python/app/lib/filesystem_model.py:99-101 | conversely, with a positive fps and rate, an interval is built iff both labels read as timecodes on that base |
| FilesystemModel.FileInterval | python/app/lib/filesystem_model.py:98-104 | an unreadable tree or a failing read gives none; an interval is well formed |
| FilesystemModel.ReadInterval | python/app/lib/filesystem_model.py:98-106 | the cached value is the file's interval, or "Invalid" when it has none |
| FilesystemModel.LabelReadsBack | python/app/lib/filesystem_model.py:101 | `TC` reads a non-drop label of a non-negative count back as that count |
| FilesystemModel.CountsAreFields | python/app/lib/filesystem_model.py:101 | the metadata cascade and the timecode cascade agree on non-negative counts |
| FilesystemModel.TimingIntervalSpan | python/app/lib/filesystem_model.py:99-101 | for a non-drop file, the interval starts at frames-since-midnight and is tcFrames - 1 long: one frame short of the clip |
| FilesystemModel.FileIntervalSpan | python/app/lib/filesystem_model.py:99-101 | the same, from the file's bytes |
| FilesystemModel.OneFrameIsFalsy | python/app/lib/filesystem_model.py:94-96 | a one-frame non-drop clip gets a falsy interval, which is never served from the cache |
| FilesystemModel.CameraLabel | python/app/lib/filesystem_model.py:118-124 | fewer than four '_' fields before '#' give "Invalid"; otherwise a label without '_' |
| FilesystemModel.CameraLabelOfFields | python/app/lib/filesystem_model.py:119-121 | a name built from '_' fields, with or without a '#' suffix, gives back its fourth field |
| FilesystemModel.VideoFilesModel.constructor | python/app/lib/filesystem_model.py:35-37 | a new model has six empty dictionaries |
| FilesystemModel.VideoFilesModel.InitCaches | python/app/lib/filesystem_model.py:39-45 | `_initCaches` empties all six dictionaries |
| FilesystemModel.VideoFilesModel.ModelReset | python/app/lib/filesystem_model.py:47-49 | a reset forgets everything cached |
| FilesystemModel.VideoFilesModel.IntervalOf | python/app/lib/filesystem_model.py:88-107 | a truthy cached value is returned unchanged; otherwise the file is read and the interval or "Invalid" cached under the path; nothing else changes |
| FilesystemModel.VideoFilesModel.CameraOf | python/app/lib/filesystem_model.py:109-127 | a non-empty cached name is returned; an empty file name gives None and caches nothing; otherwise the label is cached and returned |
| FilesystemModel.VideoFilesModel.IntervalLinked | python/app/lib/filesystem_model.py:129-131 | None for an unset path, and only ever True otherwise |
| FilesystemModel.VideoFilesModel.SetIntervalLinked | python/app/lib/filesystem_model.py:133-137 | sets this path's flag to True and changes nothing else |
| FilesystemModel.VideoFilesModel.CameraLinked | python/app/lib/filesystem_model.py:139-141 | None for an unset path, and only ever True otherwise |
| FilesystemModel.VideoFilesModel.SetCameraLinked | python/app/lib/filesystem_model.py:143-147 | sets this path's flag to True and changes nothing else |
| FilesystemModel.VideoFilesModel.VersionExists | python/app/lib/filesystem_model.py:149-151 | None for an unset path, and only ever True otherwise |
| FilesystemModel.VideoFilesModel.SetVersionExists | python/app/lib/filesystem_model.py:153-157 | sets this path's flag to True and changes nothing else |
| FilesystemModel.VideoFilesModel.MovieUploaded | python/app/lib/filesystem_model.py:159-161 | None for an unset path, and only ever True otherwise |
| FilesystemModel.VideoFilesModel.SetMovieUploaded | python/app/lib/filesystem_model.py:163-166 | sets this path's flag to True and changes nothing else |
| FilesystemModel.InvalidSticks | python/app/lib/filesystem_model.py:93-106 | once a file fails to read, later calls return "Invalid" whatever its bytes have become |
| FilesystemModel.NonemptyIntervalIsCached | python/app/lib/filesystem_model.py:93-96 | a non-empty interval is read once and then served from the cache |

## Left out

- Qt and Shotgun glue is not modelled: `QFileSystemModel` path lookup, `data`, `headerData`, `columnCount`, `dataChanged.emit`, `QBrush`, `load_data`, `item_from_entity` and the unused `ShootDayModel.interval`. Paths, file names and take lists are parameters instead.
- dialog.py and link_versions.py are not part of this model. They hold UI wiring and an orchestration loop whose one decision, "skip if no match", is `findCoveringTake`'s None.
- File handles are not modelled: `open`, `seek(0, 2)`, `close`, and the handle's position become the byte sequence and an explicit read position.
- Printing, logging, `usage`, `print_hierarchy`, `test`, `extract_tc` and the `__main__` blocks are left out. They are output only.
- `find_video_trak` and `extract_json` are left out. No modelled caller uses them.
- `Base.__repr__`, `Time.__repr__`, `asFR`, `asTC`, `__str__` and the unicode string variants are left out. They are formatting only.
- `mediaRate` in `extract_numTcFrames` is not modelled. It is computed and never used; the unpack of the 20 bytes it comes from is kept.
- Python type checks (`TypeError` for a non-int frame, a non-string timecode and similar) are excluded by the model's types.
- Floats are reals. Rounding error in the realtime scales and in the coverage ratio is not modelled.
- `Intersect` and `Shootday.CoveringTake` keep the source's swapped `_intersect` branch. A matching take may therefore cover less of the file than the coverage computed from the returned interval says.
- Timecode.Merge: it promises a well-formed interval and lemma `MergeContainsBoth` states containment of both inputs. That `merge` takes `min`/`max` by Time comparison is in its body, not restated in its contract.
- FilesystemModel.TimingIntervalSpan: it is stated for non-drop files only. With drop-frame timing the labels are read back by `TC` as non-drop counts, so the interval's frames are not the frames-since-midnight values.
- Python's `str.split` is modelled only for the one-character separators the source uses (`Text.Split`).

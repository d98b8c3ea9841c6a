/** The older reader, ccr2_extract_timecode2.py: the same box loop with
    fewer container types, no guard against a size-0 box, a rate taken from
    the first `tmcd` anywhere, and a non-drop frame count read from the
    first 4 bytes of `mdat`. Its `u_from_be`, `read_u` and `find_atom` are
    the same code as the newer reader's (`Bytes.UFromBe`,
    `AtomTree.ReadAtomHeader`, `AtomTree.FindAtom`). */
module ExtractTimecode2 {
  import opened Wrappers
  import opened Bytes
  import opened AtomTree
  import MovieMetadata

  // ---------------------------------------------------------------- box types

  /** `parenttypes` of this reader: no `udta`. */
  const OLD_CONTAINERS: seq<Tag> := [MOOV, TRAK, MDIA, MINF, STBL]

  /** The tests of this reader's loop, in order: `in parenttypes`,
      `in ['tmcd']`, `== 'mdat'`, `== 'stsd'`. */
  function ClassifyOld(kind: Tag): BoxClass
  {
    if kind in OLD_CONTAINERS then Container
    else if kind == TMCD then WholePayload
    else if kind == MDAT then MediaData
    else if kind == STSD then SampleDescription
    else Other
  }

  /** This reader's class of a box, from the newer reader's class in its
      header: `udta` is no container and only `tmcd` keeps its payload. */
  function OldRole(h: Header): BoxClass
  {
    match h.role
    case Container => if h.code == 0x75647461 then Other else Container
    case WholePayload => if h.code == 0x746d6364 then WholePayload else Other
    case other => other
  }

  lemma OldRoleIsClassifyOld(h: Header)
    requires h.role == Role(h.kind) && h.code == TagCode(h.kind)
    ensures OldRole(h) == ClassifyOld(h.kind)
  {
    RoleIsClassify(h.kind);
    TagCodeIs(h.kind, UDTA, 0x75647461);
    TagCodeIs(h.kind, TMCD, 0x746d6364);
  }

  /** The two readers disagree on `udta`, `co64` and `json`: the older one
      neither descends into the first nor keeps the others' payload. */
  lemma ClassesDiffer()
    ensures Classify(UDTA) == Container && ClassifyOld(UDTA) == Other
    ensures Classify(CO64) == WholePayload && ClassifyOld(CO64) == Other
    ensures Classify(JSON) == WholePayload && ClassifyOld(JSON) == Other
  {
  }

  // ---------------------------------------------------------------- the loop

  /** How the older loop ends: with the boxes it read, with the IndexError
      of a short read, or never, because a box of size 0 sends it back to
      the same position (`Hangs` names that position). */
  datatype Outcome<T> = Done(value: T) | Failed(error: ParseError) | Hangs(pos: nat)

  /** How many payload bytes a box keeps: all of them for `tmcd`, 4 for
      `mdat`, none otherwise. */
  function DataCountOld(h: Header): int
  {
    match OldRole(h)
    case WholePayload => h.size - h.headerSize
    case MediaData => 4
    case _ => 0
  }

  /** What the older `read_atom_children` appends to a parent ending at
      `end`, reading from `pos`: each box in file order, then the loop at
      `offset + size`, until the position hits `end` exactly. A size-0 box,
      once read, leaves the position where it was. */
  function ParseBoxesOld(d: seq<byte>, pos: nat, end: nat): Outcome<seq<Atom>>
    decreases Measure(d, pos), 2
  {
    if pos == end then Done([]) else ParseTurnOld(d, pos, end, ReadHeader(d, pos))
  }

  /** One turn of the older loop away from the parent's end, given the
      header read at `pos`. */
  function ParseTurnOld(d: seq<byte>, pos: nat, end: nat, header: Result<Header, ParseError>): Outcome<seq<Atom>>
    requires header == ReadHeader(d, pos)
    decreases Measure(d, pos), 1
  {
    match header
    case Failure(e) => Failed(e)
    case Success(h) =>
      var box := ParseBoxOld(d, pos, h);
      if !box.Done? then Abandon(box)
      else if h.size == 0 then Hangs(pos)
      else PrependOld([box.value], ParseBoxesOld(d, pos + h.size, end))
  }

  /** The box whose header `h` was read at `pos`: the five containers read
      their children from the payload, `stsd` from 8 bytes further; every
      box keeps `DataCountOld(h)` payload bytes. */
  function ParseBoxOld(d: seq<byte>, pos: nat, h: Header): Outcome<Atom>
    requires pos + 4 <= h.payload <= |d|
    decreases Measure(d, pos), 0
  {
    match OldRole(h)
    case Container => AdoptOld(h, pos, ParseBoxesOld(d, h.payload, pos + h.size))
    case SampleDescription => AdoptOld(h, pos, ParseBoxesOld(d, SkipEight(d, h.payload), pos + h.size))
    case _ => AdoptOld(h, pos, Done([]))
  }

  /** The box of header `h` at `pos` holding what `r` read. */
  function AdoptOld(h: Header, pos: nat, r: Outcome<seq<Atom>>): Outcome<Atom>
  {
    match r
    case Failed(e) => Failed(e)
    case Hangs(p) => Hangs(p)
    case Done(kids) => Done(Atom(h.kind, pos, h.size, h.payload, DataCountOld(h), kids))
  }

  /** The loop's outcome when a box failed or hung. */
  function Abandon(box: Outcome<Atom>): Outcome<seq<Atom>>
    requires !box.Done?
  {
    if box.Failed? then Failed(box.error) else Hangs(box.pos)
  }

  /** `cs` followed by the outcome of the rest of the loop. */
  function PrependOld(cs: seq<Atom>, r: Outcome<seq<Atom>>): Outcome<seq<Atom>>
  {
    match r
    case Done(rest) => Done(cs + rest)
    case Failed(e) => Failed(e)
    case Hangs(p) => Hangs(p)
  }

  lemma PrependOldNil(r: Outcome<seq<Atom>>)
    ensures PrependOld([], r) == r
  {
    if r.Done? {
      assert [] + r.value == r.value;
    }
  }

  lemma PrependOldAssoc(cs: seq<Atom>, a: Atom, r: Outcome<seq<Atom>>)
    ensures PrependOld(cs, PrependOld([a], r)) == PrependOld(cs + [a], r)
  {
    if r.Done? {
      assert cs + ([a] + r.value) == (cs + [a]) + r.value;
    }
  }

  /** The loop's invariant carried over one box. */
  lemma PrependOldStep(total: Outcome<seq<Atom>>, cs: seq<Atom>, a: Atom, here: Outcome<seq<Atom>>, next: Outcome<seq<Atom>>)
    requires total == PrependOld(cs, here) && here == PrependOld([a], next)
    ensures total == PrependOld(cs + [a], next)
  {
    PrependOldAssoc(cs, a, next);
  }

  /** A turn of the loop away from the parent's end stops at a header error. */
  lemma ParseBoxesOldHeader(d: seq<byte>, pos: nat, end: nat, header: Result<Header, ParseError>)
    requires pos != end && header == ReadHeader(d, pos)
    ensures header.Failure? ==> ParseBoxesOld(d, pos, end) == Failed(header.error)
  {
  }

  /** Otherwise it stops with the box's own failure or hang, or hangs on a
      size-0 box, ... */
  lemma ParseBoxesOldStops(d: seq<byte>, pos: nat, end: nat, h: Header, box: Outcome<Atom>)
    requires pos != end && ReadHeader(d, pos) == Success(h) && box == ParseBoxOld(d, pos, h)
    ensures box.Failed? ==> ParseBoxesOld(d, pos, end) == Failed(box.error)
    ensures box.Hangs? ==> ParseBoxesOld(d, pos, end) == Hangs(box.pos)
    ensures box.Done? && h.size == 0 ==> ParseBoxesOld(d, pos, end) == Hangs(pos)
  {
  }

  /** ... or continues with the box followed by the loop from its end. */
  lemma ParseBoxesOldNext(d: seq<byte>, pos: nat, end: nat, h: Header, box: Outcome<Atom>)
    requires pos != end && ReadHeader(d, pos) == Success(h) && box == ParseBoxOld(d, pos, h)
    requires box.Done? && h.size != 0
    ensures ParseBoxesOld(d, pos, end) == PrependOld([box.value], ParseBoxesOld(d, pos + h.size, end))
  {
  }

  /** A container or `stsd` box holds what the loop read from where its
      children start. */
  lemma ParseBoxOldChildren(d: seq<byte>, pos: nat, h: Header, q: nat, sub: Outcome<seq<Atom>>)
    requires pos + 4 <= h.payload <= |d|
    requires (OldRole(h) == Container && q == h.payload) ||
             (OldRole(h) == SampleDescription && q == SkipEight(d, h.payload))
    requires sub == ParseBoxesOld(d, q, pos + h.size)
    ensures ParseBoxOld(d, pos, h) == AdoptOld(h, pos, sub)
  {
  }

  /** A box read by this reader keeps its header's tag, position and size,
      and `DataCountOld(h)` bytes of payload; only the five containers and
      `stsd` have children. */
  lemma ParseBoxOldContents(d: seq<byte>, pos: nat, h: Header, a: Atom)
    requires pos + 4 <= h.payload <= |d| && ParseBoxOld(d, pos, h) == Done(a)
    ensures a.kind == h.kind && a.offset == pos && a.size == h.size
    ensures a.dataPos == h.payload && a.dataCount == DataCountOld(h)
    ensures OldRole(h) != Container && OldRole(h) != SampleDescription ==> a.children == []
  {
  }

  /** Any other box has no children. */
  lemma ParseBoxOldLeaf(d: seq<byte>, pos: nat, h: Header)
    requires pos + 4 <= h.payload <= |d|
    requires OldRole(h) != Container && OldRole(h) != SampleDescription
    ensures ParseBoxOld(d, pos, h) == AdoptOld(h, pos, Done([]))
  {
  }

  /** The rest of a turn of the older loop: the children of the five
      containers, the whole payload of `tmcd`, 4 bytes of `mdat`, or the
      children of `stsd` after 8 skipped bytes. */
  method ReadAtomOld(d: seq<byte>, pos: nat, h: Header) returns (r: Outcome<Atom>)
    requires pos + 4 <= h.payload <= |d|
    ensures r == ParseBoxOld(d, pos, h)
    decreases Measure(d, pos), 0
  {
    var role := OldRole(h);
    if role == Container {
      var sub := ReadAtomChildrenOld(d, h.payload, pos + h.size);
      ParseBoxOldChildren(d, pos, h, h.payload, sub);
      return AdoptOld(h, pos, sub);
    } else if role == SampleDescription {
      var skipped := ReadBytes(d, h.payload, 8);
      SkipEightRead(d, h.payload);
      var sub := ReadAtomChildrenOld(d, h.payload + |skipped|, pos + h.size);
      ParseBoxOldChildren(d, pos, h, h.payload + |skipped|, sub);
      return AdoptOld(h, pos, sub);
    }
    ParseBoxOldLeaf(d, pos, h);
    return AdoptOld(h, pos, Done([]));
  }

  /** One turn of the older loop at `pos`, away from the parent's end:
      read a header and a box. Either the loop stops here with `out`, or it
      goes on from `next` after the box `a`. */
  method ReadTurnOld(d: seq<byte>, pos: nat, end: nat) returns (stop: bool, out: Outcome<seq<Atom>>, a: Atom, next: nat)
    requires pos != end
    ensures stop ==> !out.Done? && ParseBoxesOld(d, pos, end) == out
    ensures !stop ==> Measure(d, next) < Measure(d, pos)
    ensures !stop ==> ParseBoxesOld(d, pos, end) == PrependOld([a], ParseBoxesOld(d, next, end))
    decreases Measure(d, pos), 1
  {
    out, a, next := Done([]), Atom([], 0, 0, 0, 0, []), pos;
    var header := ReadAtomHeader(d, pos);
    ParseBoxesOldHeader(d, pos, end, header);
    if header.Failure? {
      return true, Failed(header.error), a, next;
    }
    var h := header.value;
    var box := ReadAtomOld(d, pos, h);
    ParseBoxesOldStops(d, pos, end, h, box);
    if box.Failed? {
      return true, Failed(box.error), a, next;
    } else if box.Hangs? {
      return true, Hangs(box.pos), a, next;
    }
    if h.size == 0 {
      // `f.seek(offset + 0)`: the next turn reads this same box again
      return true, Hangs(pos), a, next;
    }
    ParseBoxesOldNext(d, pos, end, h, box);
    return false, out, box.value, pos + h.size;
  }

  /** The older `read_atom_children(f, parent)` from `start`, the parent
      ending at `end`. Where the source seeks back to a size-0 box and reads
      it again without end, the method stops and reports the position. */
  method ReadAtomChildrenOld(d: seq<byte>, start: nat, end: nat) returns (r: Outcome<seq<Atom>>)
    ensures r == ParseBoxesOld(d, start, end)
    decreases Measure(d, start), 2
  {
    var children: seq<Atom> := [];
    var pos: nat := start;
    PrependOldNil(ParseBoxesOld(d, start, end));
    while true
      invariant Measure(d, pos) <= Measure(d, start)
      invariant ParseBoxesOld(d, start, end) == PrependOld(children, ParseBoxesOld(d, pos, end))
      decreases Measure(d, pos)
    {
      if pos == end {
        assert children + [] == children;
        return Done(children);
      }
      var stop, out, a, next := ReadTurnOld(d, pos, end);
      if stop {
        return out;
      }
      PrependOldStep(ParseBoxesOld(d, start, end), children, a,
                     ParseBoxesOld(d, pos, end), ParseBoxesOld(d, next, end));
      children := children + [a];
      pos := next;
    }
  }

  /** The older `extract_atoms(f)`: the root spans the file. */
  function ExtractAtomsOld(d: seq<byte>): (r: Outcome<Atom>)
    ensures r.Done? <==> ParseBoxesOld(d, 0, |d|).Done?
    ensures r.Done? ==> r.value.kind == ROOT && r.value.size == |d| && r.value.children == ParseBoxesOld(d, 0, |d|).value
  {
    match ParseBoxesOld(d, 0, |d|)
    case Done(cs) => Done(Atom(ROOT, 0, |d|, 0, 0, cs))
    case Failed(e) => Failed(e)
    case Hangs(p) => Hangs(p)
  }

  // ---------------------------------------------------------------- how the loop ends

  /** Once the position is past the parent's end the loop can never stop
      normally: each box moves it forward, so it never hits the end exactly,
      and it ends in a short read or a hang. */
  lemma {:induction false} PastEndNeverDone(d: seq<byte>, pos: nat, end: nat)
    requires pos > end
    ensures !ParseBoxesOld(d, pos, end).Done?
    decreases Measure(d, pos)
  {
    var header := ReadHeader(d, pos);
    ParseBoxesOldHeader(d, pos, end, header);
    if header.Success? {
      var h := header.value;
      var box := ParseBoxOld(d, pos, h);
      ParseBoxesOldStops(d, pos, end, h, box);
      if h.size != 0 && box.Done? {
        ParseBoxesOldNext(d, pos, end, h, box);
        PastEndNeverDone(d, pos + h.size, end);
      }
    }
  }

  /** A size-0 box never lets the loop finish: its `stsd` or container
      reads its children from past its own end, and any other box sends the
      loop back to it. The newer reader stops the parent's list there. */
  lemma ZeroSizeNeverDone(d: seq<byte>, pos: nat, end: nat)
    requires pos != end && ZeroSizeAt(d, pos)
    ensures !ParseBoxesOld(d, pos, end).Done?
    ensures var h := ReadHeader(d, pos).value;
      OldRole(h) != Container && OldRole(h) != SampleDescription ==> ParseBoxesOld(d, pos, end) == Hangs(pos)
    ensures ParseBoxes(d, pos, end) == Success([])
  {
    var h := ReadHeader(d, pos).value;
    ParseBoxesOldStops(d, pos, end, h, ParseBoxOld(d, pos, h));
    ZeroSizeDropsRest(d, pos, end);
    if OldRole(h) == Container {
      PastEndNeverDone(d, h.payload, pos);
      ParseBoxOldChildren(d, pos, h, h.payload, ParseBoxesOld(d, h.payload, pos));
    } else if OldRole(h) == SampleDescription {
      var q := SkipEight(d, h.payload);
      PastEndNeverDone(d, q, pos);
      ParseBoxOldChildren(d, pos, h, q, ParseBoxesOld(d, q, pos));
    } else {
      ParseBoxOldLeaf(d, pos, h);
    }
  }

  /** When the loop finishes, its boxes tile the parent exactly from `pos`
      to `end`, each of nonzero size. */
  lemma {:induction false} ParseBoxesOldTiles(d: seq<byte>, pos: nat, end: nat, cs: seq<Atom>)
    requires ParseBoxesOld(d, pos, end) == Done(cs)
    ensures Tiles(cs, pos, end)
    decreases Measure(d, pos)
  {
    if pos != end {
      var header := ReadHeader(d, pos);
      ParseBoxesOldHeader(d, pos, end, header);
      var h := header.value;
      var box := ParseBoxOld(d, pos, h);
      ParseBoxesOldStops(d, pos, end, h, box);
      assert box.Done? && h.size != 0;
      ParseBoxesOldNext(d, pos, end, h, box);
      var next := ParseBoxesOld(d, pos + h.size, end);
      assert next.Done?;
      var rest := next.value;
      var a := box.value;
      ParseBoxOldContents(d, pos, h, a);
      assert cs == [a] + rest;
      assert Measure(d, pos + h.size) < Measure(d, pos);
      ParseBoxesOldTiles(d, pos + h.size, end, rest);
      TilesCons(a, rest, pos, end);
    }
  }

  /** The file of `AtomTree.ZeroSizeExample` (a box, a size-0 box, a box):
      the newer reader keeps the first box, the older one hangs at byte 8. */
  lemma ZeroSizeHangExample()
    ensures var d: seq<byte> := [0, 0, 0, 8] + FREE + [0, 0, 0, 0] + [115, 107, 105, 112]
                                + [0, 0, 0, 8] + FREE;
      ParseBoxesOld(d, 0, |d|) == Hangs(8)
  {
    var d: seq<byte> := [0, 0, 0, 8] + FREE + [0, 0, 0, 0] + [115, 107, 105, 112]
                        + [0, 0, 0, 8] + FREE;
    assert BeAt(d, 0, 1) == 0 && BeAt(d, 0, 2) == 0 && BeAt(d, 0, 3) == 0 && BeAt(d, 0, 4) == 8;
    assert BeAt(d, 8, 1) == 0 && BeAt(d, 8, 2) == 0 && BeAt(d, 8, 3) == 0 && BeAt(d, 8, 4) == 0;
    var skip: Tag := [115, 107, 105, 112];
    assert ReadBytes(d, 4, 4) == FREE && ReadBytes(d, 12, 4) == skip;
    assert TagCode(FREE) == 0x66726565 && TagCode(skip) == 0x736b6970;
    var first := Header(8, FREE, TagCode(FREE), 8, 8, Role(FREE));
    var second := Header(0, skip, TagCode(skip), 8, 16, Role(skip));
    assert ReadHeader(d, 0) == Success(first) && ReadHeader(d, 8) == Success(second);
    assert OldRole(first) == Other && OldRole(second) == Other;
    assert ParseBoxOld(d, 0, first).Done? && ParseBoxOld(d, 8, second).Done?;
    assert ParseBoxesOld(d, 8, |d|) == Hangs(8);
  }

  // ---------------------------------------------------------------- the extractors

  /** `extract_fps(root)`: byte 24 of the first `tmcd` in the tree. */
  function ExtractFpsOld(d: seq<byte>, root: Atom): (r: Result<nat, MovieMetadata.MetaError>)
    ensures r.Success? <==> FindAtom(TMCD, root).Some? && |AtomData(d, FindAtom(TMCD, root).value)| > 24
    ensures r.Success? ==> r.value == AtomData(d, FindAtom(TMCD, root).value)[24] as nat && r.value < 256
  {
    match FindAtom(TMCD, root)
    case None => Failure(MovieMetadata.NoSuchAtom)
    case Some(a) =>
      var data := AtomData(d, a);
      if |data| > 24 then Success(data[24] as nat) else Failure(MovieMetadata.IndexOutOfRange)
  }

  /** `extract_framessincemidnight(root)`: the big-endian value of the first
      4 bytes kept for the first `mdat`. */
  function FramesSinceMidnight(d: seq<byte>, root: Atom): (r: Result<nat, MovieMetadata.MetaError>)
    ensures r.Success? <==> FindAtom(MDAT, root).Some? && |AtomData(d, FindAtom(MDAT, root).value)| >= 4
    ensures r.Success? ==> r.value == BeValue(AtomData(d, FindAtom(MDAT, root).value)[..4])
  {
    match FindAtom(MDAT, root)
    case None => Failure(MovieMetadata.NoSuchAtom)
    case Some(a) =>
      var data := AtomData(d, a);
      var head := MovieMetadata.Slice(data, 0, 4);
      assert |data| >= 4 ==> head == data[..4] && head[..4] == data[..4];
      MovieMetadata.U32(head)
  }

  /** This reader's `framesToTimecode(nframes, fps)`: the non-drop cascade.
      A rate of 0 divides by zero; otherwise minutes and seconds are below
      60, frames below the rate, and the fields recombine to the count. */
  function FramesToTimecodeOld(nframes: int, fps: nat): (r: Result<MovieMetadata.Hmsf, MovieMetadata.MetaError>)
    ensures r.Failure? <==> fps == 0
    ensures r.Success? ==> var t := r.value;
      0 <= t.minutes < 60 && 0 <= t.seconds < 60 && 0 <= t.frames < fps &&
      t.hours * 3600 * fps + t.minutes * 60 * fps + t.seconds * fps + t.frames == nframes
  {
    if fps == 0 then Failure(MovieMetadata.ZeroDivision)
    else
      MovieMetadata.NonDropFields(nframes, fps);
      MovieMetadata.FramesToTimecode(nframes, fps, false)
  }
}

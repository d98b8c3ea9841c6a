/** The QuickTime atom-tree reader of ccr2_extract_movie_metadata.py: boxes
    with a 4-byte big-endian size and a 4-byte tag (size 1: a 64-bit size
    follows, as in the box header of ISO/IEC 14496-12 section 4.2), read
    from an immutable byte string through a moving read position, plus the
    tree searches built on it. */
module AtomTree {
  import opened Wrappers
  import opened Bytes
  import Arith

  type Tag = seq<byte>

  // Four-character codes, as the ASCII bytes of their names.
  const ROOT: Tag := [114, 111, 111, 116]
  const MOOV: Tag := [109, 111, 111, 118]
  const TRAK: Tag := [116, 114, 97, 107]
  const MDIA: Tag := [109, 100, 105, 97]
  const MINF: Tag := [109, 105, 110, 102]
  const STBL: Tag := [115, 116, 98, 108]
  const UDTA: Tag := [117, 100, 116, 97]
  const STSD: Tag := [115, 116, 115, 100]
  const TMCD: Tag := [116, 109, 99, 100]
  const CO64: Tag := [99, 111, 54, 52]
  const STCO: Tag := [115, 116, 99, 111]
  const JSON: Tag := [106, 115, 111, 110]
  const MDAT: Tag := [109, 100, 97, 116]
  const EDTS: Tag := [101, 100, 116, 115]
  const FREE: Tag := [102, 114, 101, 101]

  /** Box types whose payload is parsed as child boxes. */
  const CONTAINERS: seq<Tag> := [MOOV, TRAK, MDIA, MINF, STBL, UDTA]
  /** Box types whose whole payload is kept. */
  const DATATYPES: seq<Tag> := [TMCD, CO64, JSON]

  /** How the reader treats a box, by tag, in the order the source tests them. */
  datatype BoxClass = Container | WholePayload | MediaData | SampleDescription | Other

  /** The tests of `read_atom_children`, in order: `in CONTAINERS`,
      `in DATATYPES`, `== 'mdat'`, `== 'stsd'`. */
  function Classify(kind: Tag): BoxClass
  {
    if kind in CONTAINERS then Container
    else if kind in DATATYPES then WholePayload
    else if kind == MDAT then MediaData
    else if kind == STSD then SampleDescription
    else Other
  }

  /** A tag of four bytes read as one 32-bit big-endian number; -1 for a
      short tag. */
  function TagCode(kind: Tag): int
  {
    if |kind| == 4 then ((kind[0] as int * 256 + kind[1] as int) * 256 + kind[2] as int) * 256 + kind[3] as int
    else -1
  }

  /** `Classify` restated on tag codes. The source tests the tag strings
      against its lists; the methods below test the code instead, which
      `RoleIsClassify` shows to give the same answer and which is cheaper
      to reason about. */
  function Role(kind: Tag): BoxClass
  {
    var c := TagCode(kind);
    if c == 0x6d6f6f76 || c == 0x7472616b || c == 0x6d646961 || c == 0x6d696e66
       || c == 0x7374626c || c == 0x75647461 then Container
    else if c == 0x746d6364 || c == 0x636f3634 || c == 0x6a736f6e then WholePayload
    else if c == 0x6d646174 then MediaData
    else if c == 0x73747364 then SampleDescription
    else Other
  }

  /** Different four-byte tags have different codes. */
  lemma TagCodeInjective(x: Tag, y: Tag)
    requires |x| == 4 && |y| == 4 && TagCode(x) == TagCode(y)
    ensures x == y
  {
    var qx := (x[0] as int * 256 + x[1] as int) * 256 + x[2] as int;
    var qy := (y[0] as int * 256 + y[1] as int) * 256 + y[2] as int;
    Arith.DivModUnique(TagCode(x), 256, qx, x[3] as int);
    Arith.DivModUnique(TagCode(x), 256, qy, y[3] as int);
    var px := x[0] as int * 256 + x[1] as int;
    var py := y[0] as int * 256 + y[1] as int;
    Arith.DivModUnique(qx, 256, px, x[2] as int);
    Arith.DivModUnique(qx, 256, py, y[2] as int);
    Arith.DivModUnique(px, 256, x[0] as int, x[1] as int);
    Arith.DivModUnique(px, 256, y[0] as int, y[1] as int);
  }

  /** A tag has the code of the four-byte constant `t` exactly when it is `t`. */
  lemma TagCodeIs(kind: Tag, t: Tag, c: int)
    requires |t| == 4 && TagCode(t) == c
    ensures TagCode(kind) == c <==> kind == t
  {
    if TagCode(kind) == c {
      TagCodeInjective(kind, t);
    }
  }

  /** The reader's classification is the source's sequence of tests. */
  lemma RoleIsClassify(kind: Tag)
    ensures Role(kind) == Classify(kind)
  {
    TagCodeIs(kind, MOOV, 0x6d6f6f76);
    TagCodeIs(kind, TRAK, 0x7472616b);
    TagCodeIs(kind, MDIA, 0x6d646961);
    TagCodeIs(kind, MINF, 0x6d696e66);
    TagCodeIs(kind, STBL, 0x7374626c);
    TagCodeIs(kind, UDTA, 0x75647461);
    TagCodeIs(kind, TMCD, 0x746d6364);
    TagCodeIs(kind, CO64, 0x636f3634);
    TagCodeIs(kind, JSON, 0x6a736f6e);
    TagCodeIs(kind, MDAT, 0x6d646174);
    TagCodeIs(kind, STSD, 0x73747364);
  }

  /** How many bytes a box keeps at most when its payload is not read in full. */
  const PREFIX_LIMIT: int := 1024

  /** One parsed box: its tag (short if the file ended inside it), its file
      offset and declared size, the read that filled its `data` field (the
      position and the count passed to `f.read`; `AtomData` gives the bytes)
      and its child boxes. */
  datatype Atom = Atom(kind: Tag, offset: nat, size: nat, dataPos: nat, dataCount: int, children: seq<Atom>)

  /** `read_u` ran out of bytes (IndexError in the source) at this position. */
  datatype ParseError = ShortRead(pos: nat)

  function Min(a: int, b: int): int { if a < b then a else b }

  /** `f.read(n)` at position p: up to n bytes, everything to the end of the
      file when n is negative, nothing at or past the end. */
  function ReadBytes(d: seq<byte>, p: nat, n: int): seq<byte>
  {
    if p >= |d| then []
    else if n < 0 then d[p..]
    else d[p..Min(p + n, |d|)]
  }

  /** A read returns the bytes at the position, as many as asked for and
      available, or all the rest for a negative count. */
  lemma ReadBytesSpec(d: seq<byte>, p: nat, n: int)
    ensures var r := ReadBytes(d, p, n);
      (p <= |d| ==> p + |r| <= |d| && r == d[p..p + |r|]) &&
      (p >= |d| ==> r == []) &&
      (n >= 0 && p <= |d| ==> |r| == Min(n, |d| - p)) &&
      (n < 0 && p <= |d| ==> |r| == |d| - p)
  {
  }

  /** The `data` field of a box read from the file `d`. */
  function AtomData(d: seq<byte>, a: Atom): seq<byte>
  {
    ReadBytes(d, a.dataPos, a.dataCount)
  }

  /** A box header: declared size, tag and its code, header length (8 or
      16), the position right after it, and how the tag makes the reader
      treat the box. */
  datatype Header = Header(size: nat, kind: Tag, code: int, headerSize: nat, payload: nat, role: BoxClass)

  /** The header at `pos`: `read_u(4)` for the size, `read(4)` for the tag
      (which may come back short), and `read_u(8)` when the size is 1. */
  function ReadHeader(d: seq<byte>, pos: nat): (r: Result<Header, ParseError>)
    ensures r.Success? ==> pos + 4 <= |d| && pos + 4 <= r.value.payload <= |d|
    ensures r.Success? ==> r.value.headerSize <= 16
    ensures r.Success? ==> r.value.payload == pos + 4 + |r.value.kind| || r.value.payload == pos + 16
  {
    if pos + 4 > |d| then Failure(ShortRead(pos))
    else
      var size32 := BeAt(d, pos, 4);
      var kind := ReadBytes(d, pos + 4, 4);
      var p := pos + 4 + |kind|;
      if size32 == 1 then
        if p + 8 > |d| then Failure(ShortRead(p))
        else Success(Header(BeAt(d, p, 8), kind, TagCode(kind), 16, p + 8, Role(kind)))
      else Success(Header(size32, kind, TagCode(kind), 8, p, Role(kind)))
  }

  /** The header layout: a 32-bit size and a tag, and when that size is 1 a
      64-bit size after the tag with a 16-byte header; reading fails exactly
      when the file ends inside a size field. */
  lemma ReadHeaderSpec(d: seq<byte>, pos: nat)
    ensures var r := ReadHeader(d, pos);
      (r.Failure? <==> pos + 4 > |d| || (BeAt(d, pos, 4) == 1 && pos + 16 > |d|)) &&
      (r.Success? ==> r.value.kind == ReadBytes(d, pos + 4, 4) && r.value.code == TagCode(r.value.kind) &&
                      r.value.role == Role(r.value.kind)) &&
      (r.Success? && BeAt(d, pos, 4) == 1 ==>
         r.value.headerSize == 16 && r.value.payload == pos + 16 && r.value.size == BeAt(d, pos + 8, 8)) &&
      (r.Success? && BeAt(d, pos, 4) != 1 ==>
         r.value.headerSize == 8 && r.value.payload == pos + 4 + |r.value.kind| && r.value.size == BeAt(d, pos, 4))
  {
    ReadBytesSpec(d, pos + 4, 4);
  }

  /** A measure that every step of the reader decreases: the bytes left,
      plus one; zero once the position is past the end. */
  function Measure(d: seq<byte>, pos: nat): nat
  {
    if pos <= |d| then |d| - pos + 1 else 0
  }

  /** What `read_atom_children` appends to a parent whose box ends at `end`,
      reading from `pos`: boxes in file order until the position hits `end`
      exactly. A size-0 box ends the parent's list (the later siblings are
      never read). */
  function ParseBoxes(d: seq<byte>, pos: nat, end: nat): (r: Result<seq<Atom>, ParseError>)
    decreases Measure(d, pos), 2
  {
    if pos == end then Success([]) else ParseTurn(d, pos, end, ReadHeader(d, pos))
  }

  /** One turn of that loop away from the parent's end, given the header
      read at `pos`: a failed read, a size-0 box, a failure inside the box,
      or the box followed by the loop from its end. */
  function ParseTurn(d: seq<byte>, pos: nat, end: nat, header: Result<Header, ParseError>): (r: Result<seq<Atom>, ParseError>)
    requires header == ReadHeader(d, pos)
    decreases Measure(d, pos), 1
  {
    match header
    case Failure(e) => Failure(e)
    case Success(h) =>
      if h.size == 0 then Success([])
      else
        var box := ParseBox(d, pos, h);
        if box.Failure? then Failure(box.error)
        else Prepend([box.value], ParseBoxes(d, pos + h.size, end))
  }

  /** How many payload bytes a box keeps: all of them for `tmcd`, `co64` and
      `json`, 4 for `mdat`, otherwise at most 1024. (The source reads the
      1024-byte prefix for every box and then re-reads from the payload for
      the first two kinds; the net effect is one read of this many bytes.) */
  function DataCount(h: Header): int
  {
    match h.role
    case WholePayload => h.size - h.headerSize
    case MediaData => 4
    case _ => Min(PREFIX_LIMIT, h.size - h.headerSize)
  }

  /** Where the children of `stsd` start: after the 8 bytes the source skips,
      or at the end of the file if it comes first. */
  function SkipEight(d: seq<byte>, p: nat): nat
  {
    if p >= |d| then p else Min(p + 8, |d|)
  }

  /** `f.read(8)` at `p` leaves the file at `SkipEight(d, p)`. */
  lemma SkipEightRead(d: seq<byte>, p: nat)
    ensures p + |ReadBytes(d, p, 8)| == SkipEight(d, p)
  {
  }

  /** The box whose header `h` was read at `pos`: containers read their
      children from the payload, `stsd` from 8 bytes further; every box keeps
      `DataCount(h)` payload bytes. */
  function ParseBox(d: seq<byte>, pos: nat, h: Header): (r: Result<Atom, ParseError>)
    requires pos + 4 <= h.payload <= |d| && h.size != 0
    decreases Measure(d, pos), 0
  {
    match h.role
    case Container => Adopt(h, pos, ParseBoxes(d, h.payload, pos + h.size))
    case SampleDescription => Adopt(h, pos, ParseBoxes(d, SkipEight(d, h.payload), pos + h.size))
    case _ => Adopt(h, pos, Success([]))
  }

  /** `cs` followed by the result of the rest of the loop. */
  function Prepend(cs: seq<Atom>, r: Result<seq<Atom>, ParseError>): Result<seq<Atom>, ParseError>
  {
    match r
    case Success(rest) => Success(cs + rest)
    case Failure(e) => Failure(e)
  }

  lemma PrependNil(r: Result<seq<Atom>, ParseError>)
    ensures Prepend([], r) == r
  {
    if r.Success? {
      assert [] + r.value == r.value;
    }
  }

  lemma PrependAssoc(cs: seq<Atom>, a: Atom, r: Result<seq<Atom>, ParseError>)
    ensures Prepend(cs, Prepend([a], r)) == Prepend(cs + [a], r)
  {
    if r.Success? {
      assert cs + ([a] + r.value) == (cs + [a]) + r.value;
    }
  }

  /** The loop invariant carried over one more box: if the whole list is
      `cs` before what is read `here`, and `here` is `a` before `next`, the
      whole list is `cs + [a]` before `next`. */
  lemma PrependStep(total: Result<seq<Atom>, ParseError>, cs: seq<Atom>, a: Atom,
                    here: Result<seq<Atom>, ParseError>, next: Result<seq<Atom>, ParseError>)
    requires total == Prepend(cs, here) && here == Prepend([a], next)
    ensures total == Prepend(cs + [a], next)
  {
    PrependAssoc(cs, a, next);
  }

  /** The header part of one turn of the loop in `read_atom_children`:
      `read_u(4)` for the size, `read(4)` for the tag, and `read_u(8)` for
      the size when the first one is 1. */
  method ReadAtomHeader(d: seq<byte>, pos: nat) returns (r: Result<Header, ParseError>)
    ensures r == ReadHeader(d, pos)
  {
    var size := UFromBe(4, ReadBytes(d, pos, 4));
    if size.None? {
      return Failure(ShortRead(pos));
    }
    assert d[pos..pos + 4] == ReadBytes(d, pos, 4)[..4];
    BeAtValue(d, pos, 4);
    var kind := ReadBytes(d, pos + 4, 4);
    var p := pos + 4 + |kind|;
    var sz := size.value;
    var headerSize := 8;
    if sz == 1 {
      var big := UFromBe(8, ReadBytes(d, p, 8));
      if big.None? {
        return Failure(ShortRead(p));
      }
      assert d[p..p + 8] == ReadBytes(d, p, 8)[..8];
      BeAtValue(d, p, 8);
      sz := big.value;
      p := p + 8;
      headerSize := 16;
    }
    return Success(Header(sz, kind, TagCode(kind), headerSize, p, Role(kind)));
  }

  /** The rest of the turn, for a box of nonzero size: the children of a
      container, or of `stsd` after its 8 skipped bytes. The byte reads
      that fill `data` (the 1024-byte prefix, the whole payload of `tmcd`,
      `co64` and `json`, the first 4 bytes of `mdat`) are not performed
      here: the box records which read it was, and `AtomData` gives its
      bytes. */
  method ReadAtom(d: seq<byte>, pos: nat, h: Header) returns (r: Result<Atom, ParseError>)
    requires pos + 4 <= h.payload <= |d| && h.size != 0
    ensures r == ParseBox(d, pos, h)
    decreases Measure(d, pos), 0
  {
    if h.role == Container {
      var sub := ReadAtomChildren(d, h.payload, pos + h.size);
      ParseBoxAdopts(d, pos, h, h.payload, sub);
      return Adopt(h, pos, sub);
    } else if h.role == SampleDescription {
      var skipped := ReadBytes(d, h.payload, 8);
      SkipEightRead(d, h.payload);
      var sub := ReadAtomChildren(d, h.payload + |skipped|, pos + h.size);
      ParseBoxAdopts(d, pos, h, h.payload + |skipped|, sub);
      return Adopt(h, pos, sub);
    }
    // every other box keeps `DataCount(h)` bytes of its payload
    ParseBoxLeaf(d, pos, h);
    return Adopt(h, pos, Success([]));
  }

  /** A turn of the loop away from the parent's end stops at a header error
      or a size-0 box. */
  lemma ParseBoxesHeader(d: seq<byte>, pos: nat, end: nat, header: Result<Header, ParseError>)
    requires pos != end && header == ReadHeader(d, pos)
    ensures header.Failure? ==> ParseBoxes(d, pos, end) == Failure(header.error)
    ensures header.Success? && header.value.size == 0 ==> ParseBoxes(d, pos, end) == Success([])
  {
  }

  /** Otherwise it stops at an error inside the box, or continues with the
      box followed by whatever the loop reads from its end. */
  lemma ParseBoxesNext(d: seq<byte>, pos: nat, end: nat, h: Header, atom: Result<Atom, ParseError>)
    requires pos != end && ReadHeader(d, pos) == Success(h) && h.size != 0 && atom == ParseBox(d, pos, h)
    ensures atom.Failure? ==> ParseBoxes(d, pos, end) == Failure(atom.error)
    ensures atom.Success? ==> ParseBoxes(d, pos, end) == Prepend([atom.value], ParseBoxes(d, pos + h.size, end))
  {
  }

  /** One turn of the loop in `read_atom_children`, away from the parent's
      end: it either stops the loop, with `out` the rest of the list (empty
      at a size-0 box), or reads the box `a` and moves to `next`, its end. */
  method ReadTurn(d: seq<byte>, pos: nat, end: nat) returns (stop: bool, out: Result<seq<Atom>, ParseError>, a: Atom, next: nat)
    requires pos != end
    ensures stop ==> ParseBoxes(d, pos, end) == out && (out.Success? ==> out.value == [])
    ensures !stop ==> Measure(d, next) < Measure(d, pos)
    ensures !stop ==> ParseBoxes(d, pos, end) == Prepend([a], ParseBoxes(d, next, end))
    decreases Measure(d, pos), 1
  {
    out, a, next := Success([]), Atom([], 0, 0, 0, 0, []), pos;
    var header := ReadAtomHeader(d, pos);
    ParseBoxesHeader(d, pos, end, header);
    if header.Failure? {
      return true, Failure(header.error), a, next;
    }
    var h := header.value;
    if h.size == 0 {
      // seek to the parent's end and stop
      return true, out, a, next;
    }
    var box := ReadAtom(d, pos, h);
    ParseBoxesNext(d, pos, end, h, box);
    if box.Failure? {
      return true, Failure(box.error), a, next;
    }
    return false, out, box.value, pos + h.size;
  }

  /** `read_atom_children(f, parent)` with `f` positioned at `start` and the
      parent's box ending at `end`: the `while True` loop over a moving
      position that appends each box to the parent's children, seeking to
      `offset + size` after each one. */
  method ReadAtomChildren(d: seq<byte>, start: nat, end: nat) returns (r: Result<seq<Atom>, ParseError>)
    ensures r == ParseBoxes(d, start, end)
    decreases Measure(d, start), 2
  {
    var children: seq<Atom> := [];
    var pos: nat := start;
    PrependNil(ParseBoxes(d, start, end));
    while true
      invariant Measure(d, pos) <= Measure(d, start)
      invariant ParseBoxes(d, start, end) == Prepend(children, ParseBoxes(d, pos, end))
      decreases Measure(d, pos)
    {
      if pos == end {
        assert children + [] == children;
        return Success(children);
      }
      var stop, out, a, next := ReadTurn(d, pos, end);
      if stop {
        if out.Failure? {
          return Failure(out.error);
        }
        assert children + [] == children;
        return Success(children);
      }
      PrependStep(ParseBoxes(d, start, end), children, a, ParseBoxes(d, pos, end), ParseBoxes(d, next, end));
      children := children + [a];
      pos := next;
    }
  }

  /** `extract_atoms(f)`: the root spans the whole file and holds the top-level boxes. */
  function ExtractAtoms(d: seq<byte>): (r: Result<Atom, ParseError>)
    ensures r.Success? ==> r.value.kind == ROOT && r.value.offset == 0 && r.value.size == |d|
    ensures r.Success? <==> ParseBoxes(d, 0, |d|).Success?
    ensures r.Success? ==> r.value.children == ParseBoxes(d, 0, |d|).value
  {
    var children :- ParseBoxes(d, 0, |d|);
    Success(Atom(ROOT, 0, |d|, 0, 0, children))
  }

  /** The imperative `extract_atoms`: the file size from seeking to the end,
      then the children read from position 0. */
  method ReadAtoms(d: seq<byte>) returns (r: Result<Atom, ParseError>)
    ensures r == ExtractAtoms(d)
  {
    var filesize := |d|;
    var children := ReadAtomChildren(d, 0, filesize);
    if children.Failure? {
      return Failure(children.error);
    }
    return Success(Atom(ROOT, 0, filesize, 0, 0, children.value));
  }

  // ---------------------------------------------------------------- shape of the result

  /** True when a size-0 header sits at `pos`. */
  predicate ZeroSizeAt(d: seq<byte>, pos: nat)
  {
    ReadHeader(d, pos).Success? && ReadHeader(d, pos).value.size == 0
  }

  /** The boxes `cs`, read from `pos`, follow each other without gap or
      overlap: each starts where the previous one ends and has a nonzero
      size; `end` is where the last one ends (`pos` if there is none). */
  predicate Tiles(cs: seq<Atom>, pos: nat, end: nat)
    decreases |cs|
  {
    if |cs| == 0 then end == pos
    else cs[0].offset == pos && cs[0].size >= 1 && Tiles(cs[1..], pos + cs[0].size, end)
  }

  /** The position right after a contiguous list of boxes. */
  function EndOf(cs: seq<Atom>, pos: nat): nat
    decreases |cs|
  {
    if |cs| == 0 then pos else EndOf(cs[1..], pos + cs[0].size)
  }

  lemma TilesCons(a: Atom, rest: seq<Atom>, pos: nat, end: nat)
    requires a.offset == pos && a.size >= 1 && Tiles(rest, pos + a.size, end)
    ensures Tiles([a] + rest, pos, end) && EndOf([a] + rest, pos) == EndOf(rest, pos + a.size)
  {
    assert ([a] + rest)[1..] == rest;
  }

  /** After every box the position becomes `offset + size`, whatever was
      consumed inside it, so the children tile the parent from `pos` in file
      order; and the loop stopped either on an exact hit of the parent's end
      or at a size-0 box. */
  lemma {:induction false} ParseBoxesTiles(d: seq<byte>, pos: nat, end: nat, cs: seq<Atom>)
    requires ParseBoxes(d, pos, end) == Success(cs)
    ensures Tiles(cs, pos, EndOf(cs, pos))
    ensures EndOf(cs, pos) == end || ZeroSizeAt(d, EndOf(cs, pos))
    decreases Measure(d, pos)
  {
    if pos != end {
      var header := ReadHeader(d, pos);
      ParseBoxesHeader(d, pos, end, header);
      var h := header.value;
      if h.size != 0 {
        var box := ParseBox(d, pos, h);
        ParseBoxesNext(d, pos, end, h, box);
        var a := box.value;
        var rest := ParseBoxes(d, pos + h.size, end).value;
        ParseBoxContents(d, pos, h, a);
        assert cs == [a] + rest;
        ParseBoxesTiles(d, pos + h.size, end, rest);
        TilesCons(a, rest, pos, EndOf(rest, pos + h.size));
      }
    }
  }

  /** A size-0 box at a position other than the parent's end ends the list
      there: nothing at or after it is kept. */
  lemma ZeroSizeDropsRest(d: seq<byte>, pos: nat, end: nat)
    requires pos != end && ZeroSizeAt(d, pos)
    ensures ParseBoxes(d, pos, end) == Success([])
  {
  }

  /** What every parsed box keeps: containers and `stsd` carry children,
      nothing else does; its data is read right after its header; `tmcd`,
      `co64` and `json` read up to the end of the box, `mdat` reads 4
      bytes and every other box at most 1024 (a negative count, from a size
      below the header length, reads to the end of the file). */
  predicate Shaped(a: Atom)
  {
    var c := Role(a.kind);
    (c != Container && c != SampleDescription ==> a.children == []) &&
    (a.dataPos == a.offset + 4 + |a.kind| || a.dataPos == a.offset + 16) &&
    (c == WholePayload ==> a.dataPos + a.dataCount == a.offset + a.size) &&
    (c == MediaData ==> a.dataCount == 4) &&
    (c != WholePayload && c != MediaData ==> a.dataCount <= PREFIX_LIMIT)
  }

  /** Every box in the tree is shaped as `Shaped` says. */
  predicate AllShaped(cs: seq<Atom>)
    decreases cs
  {
    |cs| == 0 || (Shaped(cs[0]) && AllShaped(cs[0].children) && AllShaped(cs[1..]))
  }

  /** Where a box's children start: at the payload for containers, 8 bytes
      further (or at the end of the file) for `stsd`; other boxes have none. */
  function ChildrenStart(d: seq<byte>, h: Header): Option<nat>
  {
    match h.role
    case Container => Some(h.payload)
    case SampleDescription => Some(SkipEight(d, h.payload))
    case _ => None
  }

  /** The box of header `h` at `pos` with the children read by `r`, or the
      error `r` ran into. */
  function Adopt(h: Header, pos: nat, r: Result<seq<Atom>, ParseError>): Result<Atom, ParseError>
  {
    match r
    case Failure(e) => Failure(e)
    case Success(kids) => Success(Atom(h.kind, pos, h.size, h.payload, DataCount(h), kids))
  }

  /** A box with children is that box holding what the loop reads from
      `ChildrenStart` to the box's end. */
  lemma ParseBoxAdopts(d: seq<byte>, pos: nat, h: Header, q: nat, sub: Result<seq<Atom>, ParseError>)
    requires pos + 4 <= h.payload <= |d| && h.size != 0
    requires ChildrenStart(d, h) == Some(q) && sub == ParseBoxes(d, q, pos + h.size)
    ensures ParseBox(d, pos, h) == Adopt(h, pos, sub)
  {
    if h.role == Container {
      assert ParseBox(d, pos, h) == Adopt(h, pos, ParseBoxes(d, h.payload, pos + h.size));
    } else {
      assert ParseBox(d, pos, h) == Adopt(h, pos, ParseBoxes(d, SkipEight(d, h.payload), pos + h.size));
    }
  }

  /** A box without children is read whole from its header. */
  lemma ParseBoxLeaf(d: seq<byte>, pos: nat, h: Header)
    requires pos + 4 <= h.payload <= |d| && h.size != 0
    requires ChildrenStart(d, h).None?
    ensures ParseBox(d, pos, h) == Adopt(h, pos, Success([]))
  {
  }

  /** What a parsed box keeps: `DataCount` bytes of its payload, and no
      children unless `ChildrenStart` names where they start. */
  lemma ParseBoxContents(d: seq<byte>, pos: nat, h: Header, a: Atom)
    requires pos + 4 <= h.payload <= |d| && h.size != 0
    requires ParseBox(d, pos, h) == Success(a)
    ensures a.kind == h.kind && a.offset == pos && a.size == h.size
    ensures a.dataPos == h.payload && a.dataCount == DataCount(h)
    ensures ChildrenStart(d, h).None? ==> a.children == []
  {
  }

  /** A box with children holds exactly the boxes read from `ChildrenStart`
      up to its end. */
  lemma ParseBoxChildren(d: seq<byte>, pos: nat, h: Header, q: nat)
    requires pos + 4 <= h.payload <= |d| && h.size != 0
    requires ChildrenStart(d, h) == Some(q)
    ensures pos < q <= |d| && Measure(d, q) < Measure(d, pos)
    ensures ParseBox(d, pos, h).Success? <==> ParseBoxes(d, q, pos + h.size).Success?
    ensures ParseBox(d, pos, h).Success? ==> ParseBox(d, pos, h).value.children == ParseBoxes(d, q, pos + h.size).value
  {
    if h.role == Container {
      assert q == h.payload;
    } else {
      assert h.role == SampleDescription;
    }
  }

  /** A parsed box, apart from what is below it, is shaped. */
  lemma BoxShaped(d: seq<byte>, pos: nat, h: Header, a: Atom)
    requires ReadHeader(d, pos) == Success(h) && h.size != 0
    requires ParseBox(d, pos, h) == Success(a)
    ensures Shaped(a)
  {
    ParseBoxContents(d, pos, h, a);
  }

  /** Each box is shaped, and so is everything below it. */
  lemma {:induction false} ParseBoxShaped(d: seq<byte>, pos: nat, h: Header, a: Atom)
    requires ReadHeader(d, pos) == Success(h) && h.size != 0
    requires ParseBox(d, pos, h) == Success(a)
    ensures Shaped(a) && AllShaped(a.children)
    decreases Measure(d, pos), 0
  {
    BoxShaped(d, pos, h, a);
    var start := ChildrenStart(d, h);
    if start.Some? {
      var q := start.value;
      ParseBoxChildren(d, pos, h, q);
      ParseBoxesShaped(d, q, pos + h.size, a.children);
    }
  }

  lemma {:induction false} ParseBoxesShaped(d: seq<byte>, pos: nat, end: nat, cs: seq<Atom>)
    requires ParseBoxes(d, pos, end) == Success(cs)
    ensures AllShaped(cs)
    decreases Measure(d, pos), 1
  {
    if pos != end {
      var header := ReadHeader(d, pos);
      ParseBoxesHeader(d, pos, end, header);
      var h := header.value;
      if h.size != 0 {
        var box := ParseBox(d, pos, h);
        ParseBoxesNext(d, pos, end, h, box);
        var a := box.value;
        var rest := ParseBoxes(d, pos + h.size, end).value;
        assert cs == [a] + rest;
        ParseBoxesShaped(d, pos + h.size, end, rest);
        ParseBoxShaped(d, pos, h, a);
        AllShapedCons(a, rest);
      }
    }
  }

  lemma AllShapedCons(a: Atom, rest: seq<Atom>)
    requires Shaped(a) && AllShaped(a.children) && AllShaped(rest)
    ensures AllShaped([a] + rest)
  {
    assert ([a] + rest)[1..] == rest;
  }

  /** The 64-bit size form: a 32-bit size of 1 means the 8 bytes after the
      tag hold the size and the header is 16 bytes long. */
  lemma LargeSizeHeader()
    ensures var d: seq<byte> := [0, 0, 0, 1] + FREE + [0, 0, 0, 0, 0, 0, 0, 16];
      ReadHeader(d, 0) == Success(Header(16, FREE, 0x66726565, 16, 16, Other))
  {
    var d: seq<byte> := [0, 0, 0, 1] + FREE + [0, 0, 0, 0, 0, 0, 0, 16];
    assert BeAt(d, 0, 1) == 0 && BeAt(d, 0, 2) == 0 && BeAt(d, 0, 3) == 0 && BeAt(d, 0, 4) == 1;
    assert BeAt(d, 8, 1) == 0 && BeAt(d, 8, 2) == 0 && BeAt(d, 8, 3) == 0 && BeAt(d, 8, 4) == 0;
    assert BeAt(d, 8, 5) == 0 && BeAt(d, 8, 6) == 0 && BeAt(d, 8, 7) == 0 && BeAt(d, 8, 8) == 16;
    assert ReadBytes(d, 4, 4) == FREE;
  }

  /** Two top-level boxes, the second of size 0, followed by a third: only
      the first is kept. */
  lemma ZeroSizeExample()
    ensures var d: seq<byte> := [0, 0, 0, 8] + FREE + [0, 0, 0, 0] + [115, 107, 105, 112]
                                + [0, 0, 0, 8] + FREE;
      ParseBoxes(d, 0, |d|).Success? && |ParseBoxes(d, 0, |d|).value| == 1
  {
    var d: seq<byte> := [0, 0, 0, 8] + FREE + [0, 0, 0, 0] + [115, 107, 105, 112]
                        + [0, 0, 0, 8] + FREE;
    assert BeAt(d, 0, 1) == 0 && BeAt(d, 0, 2) == 0 && BeAt(d, 0, 3) == 0 && BeAt(d, 0, 4) == 8;
    assert BeAt(d, 8, 1) == 0 && BeAt(d, 8, 2) == 0 && BeAt(d, 8, 3) == 0 && BeAt(d, 8, 4) == 0;
    assert ReadBytes(d, 4, 4) == FREE;
    assert ZeroSizeAt(d, 8);
    ZeroSizeDropsRest(d, 8, |d|);
    var h := ReadHeader(d, 0).value;
    assert h.size == 8 && h.role == Role(FREE) == Other;
    ParseBoxLeaf(d, 0, h);
    ParseBoxesNext(d, 0, |d|, h, ParseBox(d, 0, h));
  }

  // ---------------------------------------------------------------- searches

  /** A box found by a search, with the chain of boxes from the root down
      to its parent (the source follows `parent` links instead). */
  datatype Located = Located(atom: Atom, ancestors: seq<Atom>)

  /** `find_atoms(kind, node, list)` over a list of siblings: every box of
      that tag in pre-order, without looking inside a box that matched. */
  function FindAll(kind: Tag, cs: seq<Atom>, ancestors: seq<Atom>): (r: seq<Located>)
    ensures forall l :: l in r ==> l.atom.kind == kind && |l.ancestors| >= |ancestors|
    decreases cs
  {
    if |cs| == 0 then []
    else
      (if cs[0].kind == kind then [Located(cs[0], ancestors)]
       else FindAll(kind, cs[0].children, ancestors + [cs[0]]))
      + FindAll(kind, cs[1..], ancestors)
  }

  /** `find_atom(kind, node)` over a list of siblings: the first pre-order
      match, without looking inside a match. */
  function FindFirst(kind: Tag, cs: seq<Atom>): (r: Option<Atom>)
    ensures r.Some? ==> r.value.kind == kind
    decreases cs
  {
    if |cs| == 0 then None
    else if cs[0].kind == kind then Some(cs[0])
    else
      var a := FindFirst(kind, cs[0].children);
      if a.Some? then a else FindFirst(kind, cs[1..])
  }

  /** `find_atom(kind, node)`. */
  function FindAtom(kind: Tag, node: Atom): Option<Atom>
  {
    FindFirst(kind, node.children)
  }

  /** `find_atom` returns the first box `find_atoms` collects, and nothing
      exactly when `find_atoms` collects nothing. */
  lemma {:induction false} FindFirstIsFirstOfAll(kind: Tag, cs: seq<Atom>, ancestors: seq<Atom>)
    ensures var all := FindAll(kind, cs, ancestors);
      FindFirst(kind, cs) == if |all| == 0 then None else Some(all[0].atom)
    decreases cs
  {
    if |cs| > 0 && cs[0].kind != kind {
      FindFirstIsFirstOfAll(kind, cs[0].children, ancestors + [cs[0]]);
      FindFirstIsFirstOfAll(kind, cs[1..], ancestors);
    }
  }

  lemma {:induction false} FindAllAppend(kind: Tag, xs: seq<Atom>, ys: seq<Atom>, ancestors: seq<Atom>)
    ensures FindAll(kind, xs + ys, ancestors) == FindAll(kind, xs, ancestors) + FindAll(kind, ys, ancestors)
    decreases |xs|
  {
    if |xs| == 0 {
      assert xs + ys == ys;
    } else {
      assert (xs + ys)[0] == xs[0];
      assert (xs + ys)[1..] == xs[1..] + ys;
      FindAllAppend(kind, xs[1..], ys, ancestors);
    }
  }

  /** Every box below the sibling list `cs`, each with the chain of boxes
      above it (which starts with `top`), in pre-order: a box, then the
      boxes inside it, then its later siblings. */
  function Preorder(cs: seq<Atom>, top: seq<Atom>): seq<Located>
    decreases cs
  {
    if |cs| == 0 then []
    else [Located(cs[0], top)] + Preorder(cs[0].children, top + [cs[0]]) + Preorder(cs[1..], top)
  }

  /** A box a search for `kind` below a chain of `depth` boxes is to find:
      it has that tag, and no box between the chain and it has. */
  predicate IsMatch(kind: Tag, depth: nat, l: Located)
  {
    l.atom.kind == kind && depth <= |l.ancestors| &&
    forall k :: depth <= k < |l.ancestors| ==> l.ancestors[k].kind != kind
  }

  /** The matches of a listing, in its order. */
  function MatchesOf(kind: Tag, depth: nat, ls: seq<Located>): seq<Located>
  {
    if |ls| == 0 then []
    else (if IsMatch(kind, depth, ls[0]) then [ls[0]] else []) + MatchesOf(kind, depth, ls[1..])
  }

  lemma {:induction false} MatchesOfAppend(kind: Tag, depth: nat, xs: seq<Located>, ys: seq<Located>)
    ensures MatchesOf(kind, depth, xs + ys) == MatchesOf(kind, depth, xs) + MatchesOf(kind, depth, ys)
    decreases |xs|
  {
    if |xs| == 0 {
      assert xs + ys == ys;
    } else {
      assert (xs + ys)[0] == xs[0];
      assert (xs + ys)[1..] == xs[1..] + ys;
      MatchesOfAppend(kind, depth, xs[1..], ys);
    }
  }

  /** A listing keeps exactly its matching members. */
  lemma {:induction false} MatchesOfMembers(kind: Tag, depth: nat, ls: seq<Located>)
    ensures forall l :: l in MatchesOf(kind, depth, ls) <==> l in ls && IsMatch(kind, depth, l)
    decreases |ls|
  {
    if |ls| > 0 {
      MatchesOfMembers(kind, depth, ls[1..]);
      assert ls == [ls[0]] + ls[1..];
    }
  }

  /** Every box listed below `top` has `top` at the head of its chain. */
  lemma {:induction false} PreorderBelow(cs: seq<Atom>, top: seq<Atom>)
    ensures forall l :: l in Preorder(cs, top) ==>
      |top| <= |l.ancestors| && forall k :: 0 <= k < |top| ==> l.ancestors[k] == top[k]
    decreases cs
  {
    if |cs| > 0 {
      PreorderBelow(cs[0].children, top + [cs[0]]);
      PreorderBelow(cs[1..], top);
    }
  }

  /** Boxes all listed below a box `c` of another tag match below `c`
      exactly when they match above it. */
  lemma {:induction false} MatchesOfShift(kind: Tag, depth: nat, ls: seq<Located>, c: Atom)
    requires c.kind != kind
    requires forall l :: l in ls ==> depth < |l.ancestors| && l.ancestors[depth] == c
    ensures MatchesOf(kind, depth, ls) == MatchesOf(kind, depth + 1, ls)
    decreases |ls|
  {
    if |ls| > 0 {
      assert ls[0] in ls;
      assert IsMatch(kind, depth, ls[0]) == IsMatch(kind, depth + 1, ls[0]);
      assert forall l :: l in ls[1..] ==> l in ls;
      MatchesOfShift(kind, depth, ls[1..], c);
    }
  }

  /** Boxes all listed below a box `c` of the tag never match above it. */
  lemma {:induction false} MatchesOfBlocked(kind: Tag, depth: nat, ls: seq<Located>, c: Atom)
    requires c.kind == kind
    requires forall l :: l in ls ==> depth < |l.ancestors| && l.ancestors[depth] == c
    ensures MatchesOf(kind, depth, ls) == []
    decreases |ls|
  {
    if |ls| > 0 {
      assert ls[0] in ls && !IsMatch(kind, depth, ls[0]);
      assert forall l :: l in ls[1..] ==> l in ls;
      MatchesOfBlocked(kind, depth, ls[1..], c);
    }
  }

  /** The matches a box contributes with its own subtree: itself when it
      has the tag, otherwise the matches below it. */
  lemma SubtreeMatches(kind: Tag, c: Atom, top: seq<Atom>)
    ensures var inner := Preorder(c.children, top + [c]);
      MatchesOf(kind, |top|, [Located(c, top)] + inner) ==
        if c.kind == kind then [Located(c, top)] else MatchesOf(kind, |top| + 1, inner)
  {
    var head, inner := [Located(c, top)], Preorder(c.children, top + [c]);
    MatchesOfAppend(kind, |top|, head, inner);
    assert head[1..] == [];
    assert MatchesOf(kind, |top|, head) == if c.kind == kind then head else [];
    PreorderBelow(c.children, top + [c]);
    assert forall l :: l in inner ==> |top| < |l.ancestors| && l.ancestors[|top|] == c by {
      forall l | l in inner ensures |top| < |l.ancestors| && l.ancestors[|top|] == c {
        assert (top + [c])[|top|] == c;
      }
    }
    if c.kind == kind {
      MatchesOfBlocked(kind, |top|, inner, c);
    } else {
      MatchesOfShift(kind, |top|, inner, c);
    }
  }

  /** `find_atoms` collects exactly the matches of the pre-order listing,
      in that order: every box of the tag that no box of the tag encloses. */
  lemma {:induction false} FindAllIsMatches(kind: Tag, cs: seq<Atom>, top: seq<Atom>)
    ensures FindAll(kind, cs, top) == MatchesOf(kind, |top|, Preorder(cs, top))
    decreases cs
  {
    if |cs| > 0 {
      var c := cs[0];
      var inner, rest := Preorder(c.children, top + [c]), Preorder(cs[1..], top);
      assert Preorder(cs, top) == ([Located(c, top)] + inner) + rest;
      MatchesOfAppend(kind, |top|, [Located(c, top)] + inner, rest);
      SubtreeMatches(kind, c, top);
      if c.kind != kind {
        FindAllIsMatches(kind, c.children, top + [c]);
        assert |top + [c]| == |top| + 1;
      }
      FindAllIsMatches(kind, cs[1..], top);
    }
  }

  /** A box and chain are collected exactly when they are listed and match. */
  lemma FindAllMembers(kind: Tag, cs: seq<Atom>, top: seq<Atom>)
    ensures forall l :: l in FindAll(kind, cs, top) <==> l in Preorder(cs, top) && IsMatch(kind, |top|, l)
  {
    FindAllIsMatches(kind, cs, top);
    MatchesOfMembers(kind, |top|, Preorder(cs, top));
  }

  /** `find_atom` returns the first match of the pre-order listing, and
      None exactly when no listed box matches. */
  lemma FindFirstIsFirstMatch(kind: Tag, cs: seq<Atom>)
    ensures var m := MatchesOf(kind, 0, Preorder(cs, []));
      FindFirst(kind, cs) == if |m| == 0 then None else Some(m[0].atom)
    ensures FindFirst(kind, cs).None? <==> forall l :: l in Preorder(cs, []) ==> !IsMatch(kind, 0, l)
  {
    FindFirstIsFirstOfAll(kind, cs, []);
    FindAllIsMatches(kind, cs, []);
    var m := MatchesOf(kind, 0, Preorder(cs, []));
    MatchesOfMembers(kind, 0, Preorder(cs, []));
    if |m| > 0 {
      assert m[0] in m;
    }
  }

  /** `find_atoms(kind, node, list)`: appends to the accumulator the matches
      below `node`, whose ancestors are `ancestors`. */
  method FindAtoms(kind: Tag, node: Atom, ancestors: seq<Atom>, list: seq<Located>) returns (out: seq<Located>)
    ensures out == list + FindAll(kind, node.children, ancestors + [node])
    decreases node
  {
    out := list;
    var i := 0;
    var cs := node.children;
    var anc := ancestors + [node];
    while i < |cs|
      invariant 0 <= i <= |cs|
      invariant out == list + FindAll(kind, cs[..i], anc)
    {
      var child := cs[i];
      FindAllAppend(kind, cs[..i], [child], anc);
      assert cs[..i + 1] == cs[..i] + [child];
      assert [child][1..] == [];
      if child.kind == kind {
        out := out + [Located(child, anc)];
      } else {
        out := FindAtoms(kind, child, anc, out);
      }
      i := i + 1;
    }
    assert cs[..i] == cs;
  }

  /** The parent of a found box is an `stsd`. */
  predicate UnderStsd(l: Located)
  {
    |l.ancestors| > 0 && l.ancestors[|l.ancestors| - 1].kind == STSD
  }

  /** `find_timecode_tmcd(root)`: the first collected `tmcd` whose parent is an `stsd`. */
  function FirstUnderStsd(found: seq<Located>): (r: Option<Located>)
    ensures r.Some? ==> r.value in found && UnderStsd(r.value)
    ensures r.None? ==> forall l :: l in found ==> !UnderStsd(l)
  {
    if |found| == 0 then None
    else if UnderStsd(found[0]) then Some(found[0])
    else FirstUnderStsd(found[1..])
  }

  lemma FirstUnderStsdFrom(found: seq<Located>, i: nat)
    requires i < |found|
    ensures FirstUnderStsd(found[i..]) == if UnderStsd(found[i]) then Some(found[i]) else FirstUnderStsd(found[i + 1..])
  {
    assert found[i..][0] == found[i] && found[i..][1..] == found[i + 1..];
  }

  /** The stsd-scoped `tmcd` box of the tree, with its ancestors. */
  function TimecodeTmcd(root: Atom): Option<Located>
  {
    FirstUnderStsd(FindAll(TMCD, root.children, [root]))
  }

  /** The scan in `find_timecode_tmcd`: the first collected box whose
      parent is an `stsd`, in collection order. */
  method ScanUnderStsd(found: seq<Located>) returns (r: Option<Located>)
    ensures r == FirstUnderStsd(found)
  {
    var i := 0;
    while i < |found|
      invariant 0 <= i <= |found|
      invariant FirstUnderStsd(found) == FirstUnderStsd(found[i..])
    {
      FirstUnderStsdFrom(found, i);
      if UnderStsd(found[i]) {
        return Some(found[i]);
      }
      i := i + 1;
    }
    return None;
  }

  /** The imperative `find_timecode_tmcd`: collect, then scan in order. */
  method FindTimecodeTmcd(root: Atom) returns (r: Option<Located>)
    ensures r == TimecodeTmcd(root)
  {
    var tmcds := FindAtoms(TMCD, root, [], []);
    assert [] + [root] == [root];
    assert tmcds == FindAll(TMCD, root.children, [root]);
    r := ScanUnderStsd(tmcds);
  }

  /** The walk up the `parent` links from a found box to the nearest `trak`:
      the box itself, then its ancestors from the nearest. The root has no
      parent (KeyError in the source), here `None`. */
  function NearestTrak(l: Located): (r: Option<Atom>)
    ensures r.Some? ==> r.value.kind == TRAK && (r.value == l.atom || r.value in l.ancestors)
    ensures r.None? ==> l.atom.kind != TRAK && forall a :: a in l.ancestors ==> a.kind != TRAK
    ensures l.atom.kind == TRAK ==> r == Some(l.atom)
    ensures l.atom.kind != TRAK && r.Some? ==>
      exists k :: 0 <= k < |l.ancestors| && l.ancestors[k] == r.value &&
        forall j :: k < j < |l.ancestors| ==> l.ancestors[j].kind != TRAK
  {
    if l.atom.kind == TRAK then Some(l.atom) else NearestTrakIn(l.ancestors)
  }

  function NearestTrakIn(chain: seq<Atom>): (r: Option<Atom>)
    ensures r.Some? ==> r.value.kind == TRAK && r.value in chain
    ensures r.None? ==> forall a :: a in chain ==> a.kind != TRAK
    ensures r.Some? ==>
      exists k :: 0 <= k < |chain| && chain[k] == r.value &&
        forall j :: k < j < |chain| ==> chain[j].kind != TRAK
  {
    if |chain| == 0 then None
    else if chain[|chain| - 1].kind == TRAK then Some(chain[|chain| - 1])
    else
      var r := NearestTrakIn(chain[..|chain| - 1]);
      assert forall j :: 0 <= j < |chain| - 1 ==> chain[..|chain| - 1][j] == chain[j];
      r
  }

  /** `find_timecode_trak(root)`: the `while trak['type'] != 'trak'` walk. */
  method FindTimecodeTrak(root: Atom) returns (r: Option<Atom>)
    ensures TimecodeTmcd(root).None? ==> r.None?
    ensures TimecodeTmcd(root).Some? ==> r == NearestTrak(TimecodeTmcd(root).value)
  {
    var found := FindTimecodeTmcd(root);
    if found.None? {
      return None;
    }
    var l := found.value;
    if l.atom.kind == TRAK {
      return Some(l.atom);
    }
    var k := |l.ancestors|;
    assert l.ancestors[..k] == l.ancestors;
    while k > 0
      invariant 0 <= k <= |l.ancestors|
      invariant NearestTrakIn(l.ancestors) == NearestTrakIn(l.ancestors[..k])
    {
      assert l.ancestors[..k][..k - 1] == l.ancestors[..k - 1];
      if l.ancestors[k - 1].kind == TRAK {
        return Some(l.ancestors[k - 1]);
      }
      k := k - 1;
    }
    return None;
  }
}

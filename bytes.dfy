/** Bytes and big-endian unsigned integers, as read by `u_from_be` in both
    movie-metadata scripts. */
module Bytes {
  import opened Wrappers
  import Arith

  newtype byte = x: int | 0 <= x < 256

  /** 256 to the power n: the bound of an n-byte unsigned value. */
  function Pow256(n: nat): (p: nat)
    ensures p >= 1
  {
    if n == 0 then 1 else 256 * Pow256(n - 1)
  }

  /** The big-endian unsigned value of a byte string (most significant byte first). */
  function BeValue(bs: seq<byte>): nat
  {
    if |bs| == 0 then 0 else BeValue(bs[..|bs| - 1]) * 256 + bs[|bs| - 1] as nat
  }

  /** An n-byte big-endian value is below 256^n. */
  lemma {:induction false} BeValueBound(bs: seq<byte>)
    ensures BeValue(bs) < Pow256(|bs|)
  {
    if |bs| > 0 {
      var init := bs[..|bs| - 1];
      BeValueBound(init);
      assert BeValue(bs) == BeValue(init) * 256 + bs[|bs| - 1] as nat;
      assert BeValue(init) + 1 <= Pow256(|init|);
      assert BeValue(init) * 256 + 256 <= Pow256(|init|) * 256;
    }
  }

  /** Leading zero bytes do not change a big-endian value. */
  lemma {:induction false} BeValueLeadingZero(bs: seq<byte>)
    ensures BeValue([0 as byte] + bs) == BeValue(bs)
  {
    if |bs| > 0 {
      var init := bs[..|bs| - 1];
      assert ([0 as byte] + bs)[..|bs|] == [0 as byte] + init;
      BeValueLeadingZero(init);
    }
  }

  /** Appending one byte shifts the value by eight bits. */
  lemma BeValueSnoc(bs: seq<byte>, b: byte)
    ensures BeValue(bs + [b]) == BeValue(bs) * 256 + b as nat
  {
    assert (bs + [b])[..|bs|] == bs;
  }

  /** A 4-byte big-endian value written out. */
  lemma BeValue4(a: byte, b: byte, c: byte, e: byte)
    ensures BeValue([a, b, c, e]) == ((a as nat * 256 + b as nat) * 256 + c as nat) * 256 + e as nat
  {
    assert [a, b, c, e][..3] == [a, b, c];
    assert [a, b, c][..2] == [a, b];
    assert [a, b][..1] == [a];
    assert [a][..0] == [];
    assert BeValue([a]) == a as nat;
    assert BeValue([a, b]) == a as nat * 256 + b as nat;
    assert BeValue([a, b, c]) == (a as nat * 256 + b as nat) * 256 + c as nat;
  }

  /** The n-byte big-endian value stored at `pos` of `d`. */
  function BeAt(d: seq<byte>, pos: nat, n: nat): nat
    requires pos + n <= |d|
    decreases n
  {
    if n == 0 then 0 else BeAt(d, pos, n - 1) * 256 + d[pos + n - 1] as nat
  }

  /** Reading in place is reading the slice. */
  lemma {:induction false} BeAtValue(d: seq<byte>, pos: nat, n: nat)
    requires pos + n <= |d|
    ensures BeAt(d, pos, n) == BeValue(d[pos..pos + n])
    decreases n
  {
    if n > 0 {
      assert d[pos..pos + n][..n - 1] == d[pos..pos + n - 1];
      BeAtValue(d, pos, n - 1);
    }
  }

  /** What `u_from_be(numbytes, be)` computes: the big-endian value of the
      first `numbytes` bytes, or nothing when `be` is shorter. */
  function BeUnsigned(numbytes: nat, be: seq<byte>): (r: Option<nat>)
    ensures r.Some? ==> r.value < Pow256(numbytes)
  {
    if numbytes <= |be| then
      BeValueBound(be[..numbytes]);
      Some(BeValue(be[..numbytes]))
    else None
  }

  /** One step of `u_from_be`: adding the next byte, shifted into place,
      to the value of the bytes before it shifted by one byte more. */
  lemma UFromBeStep(be: seq<byte>, i: nat, numbytes: nat)
    requires i < numbytes && i < |be|
    ensures BeValue(be[..i]) * Pow256(numbytes - i) + be[i] as nat * Pow256(numbytes - i - 1)
            == BeValue(be[..i + 1]) * Pow256(numbytes - i - 1)
  {
    var v, b, shift := BeValue(be[..i]), be[i] as nat, Pow256(numbytes - i - 1);
    assert be[..i + 1] == be[..i] + [be[i]];
    BeValueSnoc(be[..i], be[i]);
    assert Pow256(numbytes - i) == 256 * shift;
    Arith.Distribute(v * 256, b, shift);
    Arith.Associate(v, 256, shift);
  }

  /** `u_from_be(numbytes, be)`: accumulates `be[i] << ((numbytes - i - 1) * 8)`
      over the first `numbytes` bytes. Indexing past the end of `be` raises
      IndexError in the source, here `None`. */
  method UFromBe(numbytes: nat, be: seq<byte>) returns (r: Option<nat>)
    ensures numbytes <= |be| ==> r == Some(BeValue(be[..numbytes]))
    ensures numbytes > |be| ==> r == None
    ensures r == BeUnsigned(numbytes, be)
  {
    var ret := 0;
    var i := 0;
    while i < numbytes
      invariant 0 <= i <= numbytes
      invariant i <= |be|
      invariant ret == BeValue(be[..i]) * Pow256(numbytes - i)
    {
      if i >= |be| {
        return None;
      }
      UFromBeStep(be, i, numbytes);
      ret := ret + be[i] as nat * Pow256(numbytes - i - 1);
      i := i + 1;
    }
    return Some(ret);
  }
}

/** Bit strings, most significant bit first, and the packer and reader built on them. */
module Bits {
  import opened Wire

  function Pow2(n: nat): (p: nat)
    ensures p > 0
  {
    if n == 0 then 1 else 2 * Pow2(n - 1)
  }

  lemma {:induction false} Pow2Add(a: nat, b: nat)
    ensures Pow2(a + b) == Pow2(a) * Pow2(b)
  {
    if a > 0 {
      Pow2Add(a - 1, b);
    }
  }

  lemma Pow2Values()
    ensures Pow2(0) == 1 && Pow2(1) == 2 && Pow2(2) == 4 && Pow2(3) == 8 && Pow2(4) == 16
    ensures Pow2(5) == 32 && Pow2(6) == 64 && Pow2(7) == 128 && Pow2(8) == 256 && Pow2(9) == 512
  {
    assert Pow2(3) == 8;
    assert Pow2(5) == 32;
    assert Pow2(7) == 128;
  }

  /** The low `w` bits of `v`. */
  function ToBits(w: nat, v: nat): (s: seq<bool>)
    ensures |s| == w
  {
    if w == 0 then [] else ToBits(w - 1, v / 2) + [v % 2 == 1]
  }

  function FromBits(s: seq<bool>): nat {
    if s == [] then 0 else 2 * FromBits(s[..|s| - 1]) + (if s[|s| - 1] then 1 else 0)
  }

  lemma {:induction false} FromToBits(w: nat, v: nat)
    requires v < Pow2(w)
    ensures FromBits(ToBits(w, v)) == v
  {
    if w > 0 {
      var s := ToBits(w, v);
      assert s[..|s| - 1] == ToBits(w - 1, v / 2);
      FromToBits(w - 1, v / 2);
    }
  }

  lemma {:induction false} ToFromBits(s: seq<bool>)
    ensures FromBits(s) < Pow2(|s|)
    ensures ToBits(|s|, FromBits(s)) == s
  {
    if s != [] {
      var p := s[..|s| - 1];
      ToFromBits(p);
      assert FromBits(s) / 2 == FromBits(p);
      assert s == p + [s[|s| - 1]];
    }
  }

  lemma {:induction false} FromBitsSnoc(s: seq<bool>, b: bool)
    ensures FromBits(s + [b]) == 2 * FromBits(s) + (if b then 1 else 0)
  {
    assert (s + [b])[..|s|] == s;
  }

  /** The unsigned right shift `v >> i`. */
  function Shr(v: nat, i: nat): nat {
    if i == 0 then v else Shr(v, i - 1) / 2
  }

  lemma {:induction false} ShrHalf(v: nat, i: nat)
    ensures Shr(v / 2, i) == Shr(v, i + 1)
  {
    if i > 0 {
      ShrHalf(v, i - 1);
    }
  }

  lemma MulMono(a: nat, x: int, y: int)
    requires x <= y
    ensures a * x <= a * y
  {
    assert a * (y - x) >= 0;
  }

  lemma DivUnique(v: int, d: int, q: int, r: int)
    requires d > 0 && v == d * q + r && 0 <= r < d
    ensures v / d == q
  {
    var q', r' := v / d, v % d;
    assert d * (q' - q) == r - r';
    if q' > q {
      MulMono(d, 1, q' - q);
    } else if q' < q {
      MulMono(d, 1, q - q');
    }
  }

  /** All bits of a byte string, in stream order. */
  function Unpack(bs: seq<byte>): (s: seq<bool>)
    ensures |s| == 8 * |bs|
  {
    if bs == [] then [] else ToBits(8, bs[0]) + Unpack(bs[1..])
  }

  lemma {:induction false} UnpackSnoc(bs: seq<byte>, b: byte)
    ensures Unpack(bs + [b]) == Unpack(bs) + ToBits(8, b)
  {
    if bs == [] {
      assert bs + [b] == [b];
    } else {
      assert (bs + [b])[1..] == bs[1..] + [b];
      UnpackSnoc(bs[1..], b);
    }
  }

  lemma {:induction false} UnpackAt(bs: seq<byte>, i: nat, k: nat)
    requires i < |bs| && k < 8
    ensures Unpack(bs)[8 * i + k] == ToBits(8, bs[i])[k]
  {
    if i > 0 {
      UnpackAt(bs[1..], i - 1, k);
    }
  }

  /** A byte string is determined by its bits. */
  lemma {:induction false} UnpackInjective(a: seq<byte>, b: seq<byte>)
    requires Unpack(a) == Unpack(b)
    ensures a == b
  {
    assert |a| == |b|;
    if a != [] {
      assert Unpack(a)[..8] == ToBits(8, a[0]) && Unpack(b)[..8] == ToBits(8, b[0]);
      Pow2Values();
      FromToBits(8, a[0]);
      FromToBits(8, b[0]);
      assert Unpack(a)[8..] == Unpack(a[1..]) && Unpack(b)[8..] == Unpack(b[1..]);
      UnpackInjective(a[1..], b[1..]);
    }
  }

  lemma {:induction false} ToBitsAt(w: nat, v: nat, k: nat)
    requires k < w
    ensures ToBits(w, v)[k] == (Shr(v, w - 1 - k) % 2 == 1)
  {
    if k < w - 1 {
      ToBitsAt(w - 1, v / 2, k);
      ShrHalf(v, w - 2 - k);
    }
  }

  function Zeros(n: nat): (s: seq<bool>)
    ensures |s| == n && forall i :: 0 <= i < n ==> !s[i]
  {
    seq(n, _ => false)
  }

  lemma DoubleProduct(a: nat, b: nat)
    ensures 2 * (a * b) == a * (2 * b)
  {
  }

  lemma {:induction false} FromBitsPadded(s: seq<bool>, k: nat)
    ensures FromBits(s + Zeros(k)) == FromBits(s) * Pow2(k)
  {
    if k == 0 {
      assert s + Zeros(0) == s;
    } else {
      FromBitsPadded(s, k - 1);
      assert s + Zeros(k) == (s + Zeros(k - 1)) + [false];
      FromBitsSnoc(s + Zeros(k - 1), false);
      DoubleProduct(FromBits(s), Pow2(k - 1));
    }
  }

  /** Bitwise OR of a byte with a byte that has exactly one bit set. */
  function OrBit(cur: byte, mask: byte): byte
    requires mask > 0
    requires (cur / mask) % 2 == 0 ==> cur + mask < 256
  {
    if (cur / mask) % 2 == 0 then cur + mask else cur
  }

  /** The mask of the bit after `used` bits of a byte. */
  function MaskAt(used: nat): (m: nat)
    requires used < 8
  {
    if used == 0 then 0x80 else if used == 1 then 0x40 else if used == 2 then 0x20
    else if used == 3 then 0x10 else if used == 4 then 0x08 else if used == 5 then 0x04
    else if used == 6 then 0x02 else 0x01
  }

  lemma OrStep(f: nat, m: nat, cur: int)
    requires m > 0 && cur == f * (2 * m)
    ensures 0 <= cur && (cur / m) % 2 == 0
    ensures cur + m == (2 * f + 1) * m && cur == (2 * f) * m
  {
    assert f * (2 * m) == (2 * f) * m;
    DivUnique(cur, m, 2 * f, 0);
  }

  lemma NextMask(used: nat)
    requires used < 8
    ensures MaskAt(used) / 2 == if used < 7 then MaskAt(used + 1) else 0
    ensures MaskAt(used) > 0 && MaskAt(0) == 0x80 && (used < 7 ==> MaskAt(used + 1) > 0)
  {
  }

  /** A zero padded byte read as a number. */
  ghost function Padded(p: seq<bool>): nat
    requires |p| <= 8
  {
    FromBits(p + Zeros(8 - |p|))
  }

  lemma PaddedBits(p: seq<bool>)
    requires |p| <= 8
    ensures Padded(p) < 256 && ToBits(8, Padded(p)) == p + Zeros(8 - |p|)
  {
    ToFromBits(p + Zeros(8 - |p|));
    Pow2Values();
  }

  lemma MaskIsPow2(used: nat)
    ensures used < 8 ==> MaskAt(used) == Pow2(7 - used)
  {
    if used < 8 {
      Pow2Values();
    }
  }

  /** OR-ing the next bit into the zero padded byte appends it to the bits the byte stands for. */
  lemma PushBitStep(p: seq<bool>, cur: nat, mask: nat)
    requires |p| < 8 && mask == MaskAt(|p|) && cur == Padded(p)
    ensures (cur / mask) % 2 == 0 && cur + mask < 256
    ensures Padded(p + [true]) == cur + mask && Padded(p + [false]) == cur
  {
    PaddedBits(p + [true]);
    FromBitsPadded(p, 8 - |p|);
    FromBitsPadded(p + [true], 7 - |p|);
    FromBitsPadded(p + [false], 7 - |p|);
    FromBitsSnoc(p, true);
    FromBitsSnoc(p, false);
    MaskIsPow2(|p|);
    OrStep(FromBits(p), mask, cur);
  }

  lemma FullByte(s: seq<bool>)
    ensures |s| == 8 ==> Padded(s) < 256 && ToBits(8, Padded(s)) == s
  {
    if |s| == 8 {
      PaddedBits(s);
      assert s + Zeros(0) == s;
    }
  }

  lemma EmptyByte()
    ensures Padded([]) == 0
  {
    FromBitsPadded([], 8);
  }

  /** The bits of a `count` bit value from the highest down to bit `i`. */
  ghost function HighBits(count: nat, bits: nat, i: nat): seq<bool>
    requires i <= count
  {
    ToBits(count - i, Shr(bits, i))
  }

  lemma HighBitsStep(count: nat, bits: nat, i: nat)
    requires i < count
    ensures HighBits(count, bits, i) == HighBits(count, bits, i + 1) + [Shr(bits, i) % 2 == 1]
    ensures HighBits(count, bits, count) == []
    ensures HighBits(count, bits, 0) == ToBits(count, bits)
  {
  }

  /** The bit packer: whole bytes in `out`, the byte being filled in `cur`, its next bit in `mask`. */
  class BitWriter {
    var out: seq<byte>
    var cur: byte
    var mask: byte
    ghost var partial: seq<bool>
    /** Every bit pushed so far. */
    ghost var written: seq<bool>

    ghost predicate Valid()
      reads this
    {
      && |partial| < 8
      && mask == MaskAt(|partial|)
      && cur == Padded(partial)
      && written == Unpack(out) + partial
    }

    constructor ()
      ensures Valid() && out == [] && written == []
    {
      out, cur, mask, partial, written := [], 0, 0x80, [], [];
      EmptyByte();
    }

    method PushBit(bit: bool)
      requires Valid()
      modifies this
      ensures Valid()
      ensures written == old(written) + [bit]
    {
      hide Padded, Unpack, MaskAt;
      PushBitStep(partial, cur, mask);
      NextMask(|partial|);
      ghost var next := partial + [bit];
      assert next == partial + [true] || next == partial + [false];
      Assoc(Unpack(out), partial, [bit]);
      written := written + [bit];
      if bit {
        cur := OrBit(cur, mask);
      }
      mask := mask / 2;
      if mask == 0 {
        FullByte(next);
        UnpackSnoc(out, cur);
        out := out + [cur];
        cur := 0;
        mask := 0x80;
        partial := [];
        EmptyByte();
        assert written == Unpack(out) + [];
      } else {
        partial := next;
      }
    }

    method PushBits(count: nat, bits: nat)
      requires Valid()
      modifies this
      ensures Valid()
      ensures written == old(written) + ToBits(count, bits)
    {
      var i: int := count - 1;
      while i >= 0
        invariant -1 <= i < count
        invariant Valid()
        invariant written == old(written) + HighBits(count, bits, i + 1)
      {
        HighBitsStep(count, bits, i);
        Assoc(old(written), HighBits(count, bits, i + 1), [Shr(bits, i) % 2 == 1]);
        PushBit(Shr(bits, i) % 2 == 1);
        i := i - 1;
      }
      assert HighBits(count, bits, 0) == ToBits(count, bits);
    }

    /** Emits the byte being filled, zero padded, if it holds any bit. */
    method Flush()
      requires Valid()
      modifies this
      ensures |out| == (|old(written)| + 7) / 8
      ensures Unpack(out) == old(written) + Zeros(8 * |out| - |old(written)|)
    {
      if mask != 0x80 {
        PaddedBits(partial);
        UnpackSnoc(out, cur);
        Assoc(Unpack(out), partial, Zeros(8 - |partial|));
        out := out + [cur];
      }
    }
  }

  /** The bit of a byte string that a reader at `pos` extracts with a shift and a mask. */
  lemma StreamBit(data: seq<byte>, pos: nat)
    requires pos < 8 * |data|
    ensures Unpack(data)[pos] == (Shr(data[pos / 8], 7 - pos % 8) % 2 == 1)
  {
    UnpackAt(data, pos / 8, pos % 8);
    ToBitsAt(8, data[pos / 8], pos % 8);
  }

  lemma ReadStep(all: seq<bool>, start: nat, pos: nat)
    requires start <= pos < |all| && pos - start < 16
    ensures FromBits(all[start..pos + 1]) == 2 * FromBits(all[start..pos]) + (if all[pos] then 1 else 0)
    ensures FromBits(all[start..pos + 1]) < U16
  {
    FromBitsSnoc(all[start..pos], all[pos]);
    assert all[start..pos + 1] == all[start..pos] + [all[pos]];
    ReadFits(all[start..pos + 1]);
  }

  lemma NoBits()
    ensures FromBits([]) == 0
  {
  }

  lemma ReadFits(s: seq<bool>)
    ensures |s| <= 16 ==> FromBits(s) < U16
  {
    if |s| <= 16 {
      ToFromBits(s);
      Pow2Values();
      Pow2Add(8, 8);
      Pow2Add(|s|, 16 - |s|);
      MulMono(Pow2(|s|), 1, Pow2(16 - |s|));
    }
  }

  /** Reads `count` bits from `bitPos`; at the end of the input nothing is consumed. */
  method ReadBits(data: seq<byte>, bitPos: nat, count: nat) returns (v: nat, ok: bool, pos: nat)
    requires count <= 16
    ensures ok == (bitPos + count <= 8 * |data|)
    ensures ok ==> pos == bitPos + count && v == FromBits(Unpack(data)[bitPos..pos])
    ensures !ok ==> pos == bitPos
  {
    hide Unpack, Shr, FromBits;
    NoBits();
    if bitPos + count > |data| * 8 {
      return 0, false, bitPos;
    }
    v, ok, pos := 0, true, bitPos;
    ghost var all := Unpack(data);
    assert all[bitPos..pos] == [];
    for i := 0 to count
      invariant pos == bitPos + i
      invariant v == FromBits(all[bitPos..pos])
    {
      var bit := Shr(data[pos / 8], 7 - pos % 8) % 2;
      StreamBit(data, pos);
      ReadStep(all, bitPos, pos);
      v := (2 * v + bit) % U16;
      pos := pos + 1;
    }
  }
}

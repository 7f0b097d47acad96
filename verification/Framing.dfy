/** The frame around a stored record: a version byte, the length of the uncompressed data
    in groups of seven bits, and the compressed data. */
module Framing {
  import opened Types

  type Byte = b: int | 0 <= b < 256

  const INT_MAX := 2147483647
  const MAX_BUFFER_LEN := 131072

  // ------------------------------------------------------------------- encoding

  /** Least significant group first; the top bit says that more follow. */
  function Encoded(n: nat): (r: seq<Byte>) {
    if n == 0 then [] else if n < 128 then [n] else [n % 128 + 128] + Encoded(n / 128)
  }

  /** The number that some groups stand for, the least significant one first. */
  function Number(groups: seq<Byte>): (n: nat) {
    if groups == [] then 0 else groups[0] % 128 + 128 * Number(groups[1..])
  }

  /** What is encoded: the groups of seven bits of the number, with no empty one at the end, and
      the top bit set in all but the last. */
  lemma {:induction false} EncodedMeaning(n: nat)
    ensures var r := Encoded(n);
            && Number(r) == n && (r == [] <==> n == 0)
            && (r != [] ==> 0 < r[|r| - 1] < 128)
            && forall k :: 0 <= k < |r| - 1 ==> r[k] >= 128
  {
    if n >= 128 {
      EncodedMeaning(n / 128);
      EncodedStep(n);
      var r, rest := Encoded(n), Encoded(n / 128);
      assert r[1..] == rest;
      assert r[0] % 128 == n % 128;
      assert forall k :: 1 <= k < |r| ==> r[k] == rest[k - 1];
    } else if n > 0 {
      assert Encoded(n) == [n] && Encoded(n)[1..] == [];
    }
  }

  lemma EncodedStep(n: nat)
    requires n > 0
    ensures Encoded(n) == [n % 128 + if n / 128 > 0 then 128 else 0] + Encoded(n / 128)
  {
  }

  method EncodeVarbyte(size: nat, data: seq<Byte>) returns (r: seq<Byte>)
    ensures r == data + Encoded(size)
  {
    r := data;
    var n := size;
    assert Encoded(0) == [];
    hide Encoded;
    while n != 0
      invariant r + Encoded(n) == data + Encoded(size)
    {
      var b := n % 128;
      ghost var m := n;
      n := n / 128;
      if n > 0 {
        b := b + 128;
      }
      EncodedStep(m);
      r := r + [b];
    }
  }

  // ------------------------------------------------------------------- decoding

  /** A length with the offset behind it; length 0 stands for corrupt data.  Or a shift of
      an int by more than 31, which the language does not define. */
  datatype Decoded = Decoded(length: nat, offset: nat) | UNDEFINED_SHIFT

  /** A string may be read at its end, where it has a zero. */
  function At(data: seq<Byte>, k: nat): (b: Byte)
    requires k <= |data|
  {
    if k < |data| then data[k] else 0
  }

  function Power(i: nat): (p: nat)
    ensures p > 0
  {
    if i == 0 then 1 else 128 * Power(i - 1)
  }

  /** Seven bits shifted to group i within a 32-bit int and widened to 64 bits: the fifth
      group can reach the sign bit. */
  function Shifted(bits: nat, i: nat): (r: nat)
    requires bits < 128 && i <= 4
    ensures i < 4 || bits < 8 ==> r == bits * Power(i)
  {
    if i < 4 then bits * Power(i)
    else
      assert Power(4) == 0x1000_0000 by {
        assert Power(0) == 1 && Power(1) == 128 && Power(2) == 16384 && Power(3) == 2097152;
      }
      var v := bits % 16 * 0x1000_0000;
      if v < 0x8000_0000 then v else v + 0xFFFF_FFFF_0000_0000
  }

  /** The loop, from group i on, with what has been read so far. */
  function DecodeFrom(data: seq<Byte>, offset: nat, i: nat, length: nat): (r: Decoded)
    requires offset <= |data|
    decreases |data| + 1 - offset
  {
    if i > 4 then UNDEFINED_SHIFT
    else
      var b := At(data, offset);
      var total := length + Shifted(b % 128, i);
      if b >= 128 && total < INT_MAX && offset + 1 < |data| then DecodeFrom(data, offset + 1, i + 1, total)
      else Decoded(if b >= 128 || total >= INT_MAX then 0 else total, offset + 1)
  }

  method DecodeVarbyte(data: seq<Byte>, start: nat) returns (r: Decoded)
    requires start <= |data|
    ensures r == DecodeFrom(data, start, 0, 0)
  {
    var length: nat, done, i, offset := 0, false, 0, start;
    while true
      invariant start <= offset <= |data| && i == offset - start && !done
      invariant DecodeFrom(data, offset, i, length) == DecodeFrom(data, start, 0, 0)
      decreases |data| - offset
    {
      if i > 4 {
        return UNDEFINED_SHIFT;
      }
      var b := At(data, offset);
      length := length + Shifted(b % 128, i);
      done := b < 128;
      offset := offset + 1;
      i := i + 1;
      if !(!done && length < INT_MAX && offset < |data|) {
        if !done || length >= INT_MAX {
          length := 0;
        }
        return Decoded(length, offset);
      }
    }
  }

  lemma SplitProduct(m: nat, p: nat)
    ensures m * p == m % 128 * p + m / 128 * (128 * p)
    ensures m % 128 * p <= m * p
  {
  }

  /** A group that announces another one, with room to go on. */
  lemma GroupStep(data: seq<Byte>, offset: nat, i: nat, length: nat)
    requires offset + 1 < |data| && data[offset] >= 128 && i <= 3
    requires length + (data[offset] - 128) * Power(i) < INT_MAX
    ensures DecodeFrom(data, offset, i, length) ==
              DecodeFrom(data, offset + 1, i + 1, length + (data[offset] - 128) * Power(i))
  {
  }

  /** Decoding what is left of an encoded number adds it to what has been read. */
  lemma {:induction false} DecodeRest(data: seq<Byte>, offset: nat, i: nat, length: nat, m: nat)
    requires m > 0 && offset + |Encoded(m)| <= |data|
    requires data[offset..offset + |Encoded(m)|] == Encoded(m)
    requires length + m * Power(i) < INT_MAX
    ensures DecodeFrom(data, offset, i, length) == Decoded(length + m * Power(i), offset + |Encoded(m)|)
    decreases m
  {
    SmallPower(i, m);
    var code := Encoded(m);
    assert data[offset] == code[0];
    if m < 128 {
      assert At(data, offset) % 128 == m;
    } else {
      var low, rest := m % 128, m / 128;
      assert code == [low + 128] + Encoded(rest);
      assert data[offset + 1..offset + |code|] == code[1..] == Encoded(rest);
      SplitProduct(m, Power(i));
      GroupStep(data, offset, i, length);
      DecodeRest(data, offset + 1, i + 1, length + low * Power(i), rest);
    }
  }

  /** There is no sixth group below INT_MAX, and the fifth has three bits. */
  lemma {:induction false} SmallPower(i: nat, m: nat)
    requires m > 0 && m * Power(i) < INT_MAX
    ensures i <= 4 && (i == 4 ==> m < 8) && (i > 3 ==> m < 128)
  {
    assert Power(0) == 1 && Power(1) == 128 && Power(2) == 16384 && Power(3) == 2097152;
    assert Power(4) == 0x1000_0000;
    if i > 4 {
      PowerGrows(5, i);
    } else if i == 4 {
      assert m * 0x1000_0000 < INT_MAX;
    }
  }

  lemma {:induction false} PowerGrows(i: nat, j: nat)
    requires i <= j
    ensures Power(i) <= Power(j)
  {
    if i < j {
      PowerGrows(i, j - 1);
    }
  }

  /** No group of an encoded number leaves a 32-bit int when it is shifted to its place: there
      are at most five, and the fifth has at most three bits. */
  lemma {:induction false} GroupsFit(m: nat, i: nat, k: nat)
    requires m > 0 && m * Power(i) < INT_MAX && k < |Encoded(m)|
    ensures i + k <= 4 && Encoded(m)[k] % 128 * Power(i + k) <= m * Power(i)
    ensures i + k == 4 ==> Encoded(m)[k] < 8
    decreases m
  {
    SmallPower(i, m);
    if m < 128 {
      assert Encoded(m) == [m];
    } else {
      SplitProduct(m, Power(i));
      assert m / 128 * Power(i + 1) <= m * Power(i);
      if k > 0 {
        assert Encoded(m)[k] == Encoded(m / 128)[k - 1];
        GroupsFit(m / 128, i + 1, k - 1);
      }
    }
  }

  /** Round trip of the length: any positive length below INT_MAX is recovered, whatever is
      before and behind it, the offset ends just behind it, and no shift on the way leaves a
      32-bit int. */
  lemma VarbyteRoundTrip(n: nat, prefix: seq<Byte>, suffix: seq<Byte>)
    requires 0 < n < INT_MAX
    ensures DecodeFrom(prefix + Encoded(n) + suffix, |prefix|, 0, 0) == Decoded(n, |prefix| + |Encoded(n)|)
    ensures |Encoded(n)| <= 5 && (|Encoded(n)| == 5 ==> Encoded(n)[4] < 8)
    ensures forall k :: 0 <= k < |Encoded(n)| ==> Encoded(n)[k] % 128 * Power(k) < INT_MAX
  {
    assert Power(0) == 1;
    forall k: nat | k < |Encoded(n)|
      ensures k <= 4 && Encoded(n)[k] % 128 * Power(k) < INT_MAX && (k == 4 ==> Encoded(n)[k] < 8)
    {
      GroupsFit(n, 0, k);
    }
    if |Encoded(n)| > 5 {
      GroupsFit(n, 0, 5);
    }
    var data := prefix + Encoded(n) + suffix;
    assert data[|prefix|..|prefix| + |Encoded(n)|] == Encoded(n);
    assert Power(0) == 1;
    DecodeRest(data, |prefix|, 0, 0, n);
  }

  /** The undefined shift is reached exactly by five groups that all announce another one
      while staying below INT_MAX: no encoder output does that. */
  lemma UndefinedShiftExactly(data: seq<Byte>, offset: nat)
    requires offset <= |data|
    ensures DecodeFrom(data, offset, 0, 0) == UNDEFINED_SHIFT <==>
              && offset + 5 < |data|
              && (forall k :: offset <= k < offset + 5 ==> data[k] >= 128)
              && Shifted(data[offset] % 128, 0) + Shifted(data[offset + 1] % 128, 1)
                 + Shifted(data[offset + 2] % 128, 2)
                 + Shifted(data[offset + 3] % 128, 3) + Shifted(data[offset + 4] % 128, 4) < INT_MAX
  {
    Unrolled(data, offset, 0, 0);
  }

  lemma {:induction false} Unrolled(data: seq<Byte>, offset: nat, i: nat, length: nat)
    requires offset <= |data| && i <= 5
    ensures DecodeFrom(data, offset, i, length) == UNDEFINED_SHIFT <==>
              && (i < 5 ==> offset + (5 - i) < |data|)
              && (forall k :: offset <= k < offset + (5 - i) ==> data[k] >= 128)
              && (i < 5 ==> length + Groups(data, offset, i) < INT_MAX)
    decreases 5 - i
  {
    if i < 5 && offset < |data| {
      Unrolled(data, offset + 1, i + 1, length + Shifted(data[offset] % 128, i));
    }
  }

  /** The sum of the groups from i to 4. */
  function Groups(data: seq<Byte>, offset: nat, i: nat): (r: nat)
    requires offset + (5 - i) <= |data| && i <= 5
    decreases 5 - i
  {
    if i == 5 then 0 else Shifted(data[offset] % 128, i) + Groups(data, offset + 1, i + 1)
  }

  // ---------------------------------------------------------------------- frames

  /** `to_data`, given the compressed form of data of the given size. */
  function Frame(size: nat, compressed: seq<Byte>): (r: seq<Byte>) {
    [0] + Encoded(size) + compressed
  }

  /** `from_data`, up to decompression: the size to expect and the data to decompress. */
  function Unframe(data: seq<Byte>): (r: Option<(nat, seq<Byte>)>) {
    if data == [] || data[0] != 0 then None
    else
      match DecodeFrom(data, 1, 0, 0)
      case UNDEFINED_SHIFT => None
      case Decoded(length, offset) =>
        if length == 0 || offset > |data| then None else Some((length, data[offset..]))
  }

  /** Round trip of the frame. */
  lemma FrameRoundTrip(size: nat, compressed: seq<Byte>)
    requires 0 < size < INT_MAX
    ensures Unframe(Frame(size, compressed)) == Some((size, compressed))
  {
    VarbyteRoundTrip(size, [0], compressed);
    assert Frame(size, compressed)[1 + |Encoded(size)|..] == compressed;
  }

  // --------------------------------------------------------------- reserved space

  function Power2(k: nat): (p: nat)
    ensures p > 0
  {
    if k == 0 then 1 else 2 * Power2(k - 1)
  }

  /** Counts how often a size can be halved. */
  method SizeBits(size: nat) returns (bits: nat)
    requires size > 0
    ensures Power2(bits) <= size < Power2(bits + 1)
  {
    bits := 0;
    var v := size;
    while v > 1
      invariant v >= 1 && v * Power2(bits) <= size < (v + 1) * Power2(bits)
    {
      ghost var p, w := Power2(bits), v;
      v := v / 2;
      bits := bits + 1;
      assert Power2(bits) == 2 * p;
      Halve(w, p, size);
    }
  }

  lemma Halve(w: nat, p: nat, size: nat)
    requires w * p <= size < (w + 1) * p
    ensures w / 2 * (2 * p) <= size < (w / 2 + 1) * (2 * p)
  {
    assert w / 2 * (2 * p) == (w / 2 * 2) * p;
    assert (w / 2 + 1) * (2 * p) == (w / 2 * 2 + 2) * p;
    if w % 2 == 0 {
      assert w / 2 * 2 == w;
      assert (w + 2) * p == (w + 1) * p + p;
    } else {
      assert w / 2 * 2 == w - 1;
      assert (w - 1) * p == w * p - p;
    }
  }

  /** A number of bits + 1 binary digits takes bits / 7 + 1 groups. */
  lemma {:induction false} EncodedLength(n: nat, bits: nat)
    requires Power2(bits) <= n < Power2(bits + 1)
    ensures |Encoded(n)| == bits / 7 + 1
  {
    assert Power2(7) == 128 by {
      assert Power2(1) == 2 && Power2(3) == 8 && Power2(5) == 32;
    }
    if bits < 7 {
      Power2Grows(bits + 1, 7);
    } else {
      Power2Grows(7, bits);
      assert Power2(bits) == 128 * Power2(bits - 7) by { Seven(bits); }
      assert Power2(bits + 1) == 128 * Power2(bits - 6) by { Seven(bits + 1); }
      EncodedLength(n / 128, bits - 7);
    }
  }

  lemma Seven(k: nat)
    requires k >= 7
    ensures Power2(k) == 128 * Power2(k - 7)
  {
    assert Power2(k) == 2 * Power2(k - 1) && Power2(k - 1) == 2 * Power2(k - 2) && Power2(k - 2) == 2 * Power2(k - 3);
    assert Power2(k - 3) == 2 * Power2(k - 4) && Power2(k - 4) == 2 * Power2(k - 5) &&
        Power2(k - 5) == 2 * Power2(k - 6);
  }

  lemma {:induction false} Power2Grows(i: nat, j: nat)
    requires i <= j
    ensures Power2(i) <= Power2(j)
  {
    if i < j {
      Power2Grows(i, j - 1);
    }
  }

  /** The space reserved for the length is enough, or one byte short exactly when the number
      of halvings is a multiple of seven. */
  lemma ReservedLength(n: nat, bits: nat)
    requires Power2(bits) <= n < Power2(bits + 1)
    ensures (bits + 6) / 7 == |Encoded(n)| - if bits % 7 == 0 then 1 else 0
  {
    EncodedLength(n, bits);
  }

  // ---------------------------------------------------------------- buffer growth

  /** A compressor whose output has `need` bytes, and that returns 0 if they do not fit. */
  ghost predicate Compresses(compress: nat -> int, need: nat) {
    need > 0 && forall room: nat :: compress(room) == if need <= room then need else 0
  }

  /** `compress_data_v0`: doubles the buffer until the output fits or the buffer would grow
      beyond the maximum. */
  method Compress(compress: nat -> int, ghost need: nat) returns (size: int, buffer: nat, attempts: nat)
    ensures attempts <= 7 && exists k: nat :: k <= 6 && buffer == 2048 * Power2(k)
    ensures buffer <= MAX_BUFFER_LEN
    ensures Compresses(compress, need) ==>
              && (size != 0 <==> need <= MAX_BUFFER_LEN)
              && (size != 0 ==> size == need <= buffer && (buffer == 2048 || need > buffer / 2))
  {
    size, buffer, attempts := 0, 2048, 0;
    ghost var k: nat := 0;
    assert Power2(6) == 64 by { assert Power2(2) == 4 && Power2(4) == 16; }
    while size == 0
      invariant k <= 6 && buffer == 2048 * Power2(k)
      invariant size == 0 ==> attempts == k
      invariant attempts <= 7
      invariant size == 0 && Compresses(compress, need) ==> buffer == 2048 || need > buffer / 2
      invariant size != 0 && Compresses(compress, need) ==>
          size == need <= buffer && (buffer == 2048 || need > buffer / 2)
      decreases size == 0, 6 - k
    {
      size := compress(buffer);
      attempts := attempts + 1;
      if size <= 0 {
        var grown := buffer * 2;
        if grown > MAX_BUFFER_LEN {
          break;
        }
        buffer, k := grown, k + 1;
      }
    }
    Power2Grows(k, 6);
  }
}

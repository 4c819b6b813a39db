/**
 The container of images that nuwriter_scripts/nuwriter.py writes and
 nuwriter_scripts/UnpackImage.py reads: a header, then for every image a
 descriptor, its bytes and padding to the next multiple of 16.
 */
module PackImage {
  import opened Base

  type Byte = x: nat | x < 256
  type Word = x: nat | x < 0x1_0000_0000

  const MARKER: seq<Byte> := [0x20, 0x54, 0x56, 0x4e]
  const TRANSFER_SIZE: nat := 4096

  // Field widths in bytes.
  const LONG: nat := 8
  const SHORT: nat := 4

  datatype Image = Image(data: seq<Byte>, offset: nat, kind: nat)

  // ------------------------------------------------------------ little endian

  function Pow256(k: nat): (r: nat)
    ensures r > 0
  {
    if k == 0 then 1 else 256 * Pow256(k - 1)
  }

  /** `n.to_bytes(k, "little")`, for `n` below 256^k. */
  function Little(n: nat, k: nat): (r: seq<Byte>)
    ensures |r| == k
  {
    if k == 0 then [] else [n % 256] + Little(n / 256, k - 1)
  }

  /** `int.from_bytes(s, "little")`. */
  function FromLittle(s: seq<Byte>): nat {
    if s == [] then 0 else s[0] + 256 * FromLittle(s[1..])
  }

  /** The bytes of `n`, the lowest first. */
  ghost predicate DigitsOf(s: seq<Byte>, n: nat) {
    forall i :: 0 <= i < |s| ==> s[i] == n / Pow256(i) % 256
  }

  lemma {:induction false} LittleDigits(n: nat, k: nat)
    ensures DigitsOf(Little(n, k), n)
  {
    if k > 0 {
      var s, rest := Little(n, k), Little(n / 256, k - 1);
      LittleDigits(n / 256, k - 1);
      forall i | 0 <= i < k ensures s[i] == n / Pow256(i) % 256 {
        if i > 0 {
          assert s[i] == rest[i - 1];
          DivByProduct(n, Pow256(i - 1));
        }
      }
    }
  }

  lemma {:induction false} DivByProduct(n: nat, m: nat)
    requires m > 0
    ensures n / 256 / m == n / (256 * m)
  {
    var q, r := n / 256 / m, n / 256 % m;
    assert n / 256 == q * m + r;
    var rest := 256 * r + n % 256;
    assert n == q * (256 * m) + rest && rest < 256 * m;
    DivIs(n, 256 * m, q);
  }

  /** The value of a byte string: its first byte counts once, the rest 256 times. */
  lemma {:induction false} FromLittleIs(b: Byte, s: seq<Byte>)
    ensures FromLittle([]) == 0 && FromLittle([b] + s) == b + 256 * FromLittle(s)
  {
    assert ([b] + s)[1..] == s;
  }

  lemma {:induction false} LittleRoundTrip(n: nat, k: nat)
    requires n < Pow256(k)
    ensures FromLittle(Little(n, k)) == n
  {
    if k > 0 {
      LittleRoundTrip(n / 256, k - 1);
      assert Little(n, k)[1..] == Little(n / 256, k - 1);
    }
  }

  /** A Python slice, which is cut at the end of the data. */
  function Slice(s: seq<Byte>, i: nat, j: nat): seq<Byte> {
    if i >= |s| || j <= i then [] else s[i..if j <= |s| then j else |s|]
  }

  // ----------------------------------------------------------------- container

  /** Filler bytes. */
  ghost predicate Blank(s: seq<Byte>) {
    forall i :: 0 <= i < |s| ==> s[i] == 0xFF
  }

  function Filler(n: nat): (r: seq<Byte>)
    ensures |r| == n && Blank(r)
  {
    seq(n, _ => 0xFF)
  }

  /** `16 - (n + 8) & 0xF`, where the subtraction binds tighter. */
  function Pad(n: nat): (r: nat)
    ensures r < 16 && (24 + n + r) % 16 == 0
  {
    (16 - (n + 8)) % 16
  }

  function Descriptor(img: Image): (r: seq<Byte>)
    ensures |r| == 24
  {
    Little(|img.data|, LONG) + Little(img.offset, LONG) + Little(img.kind, SHORT) + Filler(4)
  }

  function Entry(img: Image): (r: seq<Byte>)
    ensures |r| == 24 + |img.data| + Pad(|img.data|) && |r| % 16 == 0
  {
    Descriptor(img) + img.data + Filler(Pad(|img.data|))
  }

  function Body(imgs: seq<Image>): seq<Byte> {
    if imgs == [] then [] else Body(imgs[..|imgs| - 1]) + Entry(imgs[|imgs| - 1])
  }

  function Checked(imgs: seq<Image>): seq<Byte> {
    Little(|imgs|, SHORT) + Filler(4) + Body(imgs)
  }

  /** The file: marker, checksum of all that follows it, number of images, filler, images. */
  function Packed(imgs: seq<Image>, crc: seq<Byte> -> Word): seq<Byte> {
    MARKER + Little(crc(Checked(imgs)), SHORT) + Checked(imgs)
  }

  /** All numbers fit their fields. */
  ghost predicate Fits(imgs: seq<Image>) {
    |imgs| < Pow256(SHORT) && forall i :: 0 <= i < |imgs| ==> FitsAt(imgs, i)
  }

  predicate FitsAt(imgs: seq<Image>, i: nat)
    requires i < |imgs|
  {
    |imgs[i].data| < Pow256(LONG) && imgs[i].offset < Pow256(LONG) && imgs[i].kind < Pow256(SHORT)
  }

  /** Where the descriptor of image `i` begins. */
  function Start(imgs: seq<Image>, i: nat): nat
    requires i <= |imgs|
  {
    16 + |Body(imgs[..i])|
  }

  lemma {:induction false} BodyStep(imgs: seq<Image>, i: nat)
    requires i < |imgs|
    ensures Body(imgs[..i + 1]) == Body(imgs[..i]) + Entry(imgs[i])
  {
    assert imgs[..i + 1][..i] == imgs[..i];
  }

  lemma {:induction false} BodyPrefix(imgs: seq<Image>, i: nat)
    requires i <= |imgs|
    ensures |Body(imgs[..i])| <= |Body(imgs)| && Body(imgs)[..|Body(imgs[..i])|] == Body(imgs[..i])
    decreases |imgs| - i
  {
    if i < |imgs| {
      BodyPrefix(imgs, i + 1);
      BodyStep(imgs, i);
    } else {
      assert imgs[..i] == imgs;
    }
  }

  /** Every descriptor begins at a multiple of 16. */
  lemma {:induction false} StartAligned(imgs: seq<Image>, i: nat)
    requires i <= |imgs|
    ensures Start(imgs, i) % 16 == 0
    decreases i
  {
    if i > 0 {
      StartAligned(imgs, i - 1);
      BodyStep(imgs, i - 1);
      SumOfMultiples(Start(imgs, i - 1), |Entry(imgs[i - 1])|);
    }
  }

  lemma {:induction false} SumOfMultiples(a: nat, b: nat)
    requires a % 16 == 0 && b % 16 == 0
    ensures (a + b) % 16 == 0
  {
  }

  /** Image `i` stands where it should. */
  lemma {:induction false} EntryAt(imgs: seq<Image>, i: nat, crc: seq<Byte> -> Word)
    requires i < |imgs|
    ensures var s := Start(imgs, i);
            s + |Entry(imgs[i])| <= |Packed(imgs, crc)| && Packed(imgs, crc)[s..s + |Entry(imgs[i])|] == Entry(imgs[i])
  {
    var head := MARKER + Little(crc(Checked(imgs)), SHORT) + Little(|imgs|, SHORT) + Filler(4);
    var n := |Body(imgs[..i])|;
    BodyPrefix(imgs, i + 1);
    BodyStep(imgs, i);
    assert Packed(imgs, crc) == head + Body(imgs);
    BehindHead(head, Body(imgs), n, n + |Entry(imgs[i])|);
    LastPart(Body(imgs), Body(imgs[..i]), Entry(imgs[i]));
  }

  lemma {:induction false} BehindHead(head: seq<Byte>, b: seq<Byte>, i: nat, j: nat)
    requires i <= j <= |b|
    ensures |head| + j <= |head + b| && (head + b)[|head| + i..|head| + j] == b[i..j]
  {
  }

  lemma {:induction false} LastPart(b: seq<Byte>, front: seq<Byte>, e: seq<Byte>)
    requires |front| + |e| <= |b| && b[..|front| + |e|] == front + e
    ensures b[|front|..|front| + |e|] == e
  {
    assert b[|front|..|front| + |e|] == b[..|front| + |e|][|front|..];
  }

  // -------------------------------------------------------------------- layout

  /** The header byte for byte. */
  lemma {:induction false} HeaderBytes(imgs: seq<Image>, crc: seq<Byte> -> Word)
    ensures |Packed(imgs, crc)| == Start(imgs, |imgs|) >= 16
    ensures var d := Packed(imgs, crc);
            && d[0..4] == [0x20, 0x54, 0x56, 0x4e] && DigitsOf(d[4..8], crc(d[8..])) && DigitsOf(d[8..12], |imgs|) && Blank(d[12..16])
    ensures Pow256(0) == 1 && forall k :: 0 <= k < 8 ==> Pow256(k + 1) == 256 * Pow256(k)
  {
    var d, sum := Packed(imgs, crc), crc(Checked(imgs));
    assert imgs[..|imgs|] == imgs;
    assert d[0..4] == MARKER && d[4..8] == Little(sum, SHORT) && d[8..] == Checked(imgs);
    assert d[8..12] == Little(|imgs|, SHORT) && d[12..16] == Filler(4);
    LittleDigits(sum, SHORT);
    LittleDigits(|imgs|, SHORT);
  }

  /** Image `i` byte for byte: length, offset, type, filler, data, and filler up to the next image. */
  lemma {:induction false} ImageBytes(imgs: seq<Image>, i: nat, crc: seq<Byte> -> Word)
    requires i < |imgs|
    ensures var d, s, n := Packed(imgs, crc), Start(imgs, i), |imgs[i].data|;
            && s + 24 + n <= Start(imgs, i + 1) <= |d|
            && DigitsOf(d[s..s + 8], n) && DigitsOf(d[s + 8..s + 16], imgs[i].offset)
            && DigitsOf(d[s + 16..s + 20], imgs[i].kind) && Blank(d[s + 20..s + 24])
            && d[s + 24..s + 24 + n] == imgs[i].data && Blank(d[s + 24 + n..Start(imgs, i + 1)])
  {
    EntryAt(imgs, i, crc);
    BodyStep(imgs, i);
    EntryBytes(imgs[i]);
    BytesAt(Packed(imgs, crc), Start(imgs, i), Entry(imgs[i]), |imgs[i].data|);
  }

  /** The parts of an entry that stands at `s`. */
  lemma {:induction false} BytesAt(d: seq<Byte>, s: nat, e: seq<Byte>, n: nat)
    requires s + |e| <= |d| && d[s..s + |e|] == e && 24 + n <= |e|
    ensures d[s..s + 8] == e[0..8] && d[s + 8..s + 16] == e[8..16] && d[s + 16..s + 20] == e[16..20]
    ensures d[s + 20..s + 24] == e[20..24] && d[s + 24..s + 24 + n] == e[24..24 + n] && d[s + 24 + n..s + |e|] == e[24 + n..|e|]
  {
    SliceOfSlice(d, s, |e|, 0, 8);
    SliceOfSlice(d, s, |e|, 8, 16);
    SliceOfSlice(d, s, |e|, 16, 20);
    SliceOfSlice(d, s, |e|, 20, 24);
    SliceOfSlice(d, s, |e|, 24, 24 + n);
    SliceOfSlice(d, s, |e|, 24 + n, |e|);
  }

  lemma {:induction false} EntryBytes(img: Image)
    ensures var e, n := Entry(img), |img.data|;
            && DigitsOf(e[0..8], n) && DigitsOf(e[8..16], img.offset) && DigitsOf(e[16..20], img.kind)
            && Blank(e[20..24]) && e[24..24 + n] == img.data && Blank(e[24 + n..|e|])
  {
    var e, n := Entry(img), |img.data|;
    assert e[0..8] == Little(n, LONG) && e[8..16] == Little(img.offset, LONG) && e[16..20] == Little(img.kind, SHORT);
    assert e[20..24] == Filler(4) && e[24..24 + n] == img.data && e[24 + n..|e|] == Filler(Pad(n));
    LittleDigits(n, LONG);
    LittleDigits(img.offset, LONG);
    LittleDigits(img.kind, SHORT);
  }

  /** The first image begins behind the header, each next one at the first multiple of 16 behind the one before. */
  lemma {:induction false} StartsAre(imgs: seq<Image>, i: nat)
    requires i < |imgs|
    ensures Start(imgs, 0) == 16 && Start(imgs, i + 1) % 16 == 0
    ensures Start(imgs, i) + 24 + |imgs[i].data| <= Start(imgs, i + 1) < Start(imgs, i) + 24 + |imgs[i].data| + 16
  {
    BodyStep(imgs, i);
    StartAligned(imgs, i + 1);
  }

  // ------------------------------------------------------------------- parsing

  /** One element of `img_list`: length, offset, type, and where the image's bytes begin. */
  datatype Record = Record(length: nat, offset: nat, kind: nat, at: nat)

  function RecordAt(data: seq<Byte>, index: nat): Record {
    Record(FromLittle(Slice(data, index, index + 8)), FromLittle(Slice(data, index + 8, index + 16)),
           FromLittle(Slice(data, index + 16, index + 20)), index + 24)
  }

  /** The reader takes length, offset and type, in this order, from the first 20 bytes of a descriptor; the data follows its 24 bytes. */
  lemma {:induction false} RecordFields(length: seq<Byte>, offset: seq<Byte>, kind: seq<Byte>, front: seq<Byte>, rest: seq<Byte>)
    requires |length| == 8 && |offset| == 8 && |kind| == 4
    ensures RecordAt(front + length + offset + kind + rest, |front|) ==
            Record(FromLittle(length), FromLittle(offset), FromLittle(kind), |front| + 24)
  {
    var data := front + length + offset + kind + rest;
    assert Slice(data, |front|, |front| + 8) == length && Slice(data, |front| + 8, |front| + 16) == offset;
    assert Slice(data, |front| + 16, |front| + 20) == kind;
  }

  /** Where the reader looks for the next descriptor. */
  function NextIndex(index: nat, length: nat): (r: nat)
    ensures r % 16 == 0 && index + length + 24 <= r < index + length + 24 + 16
  {
    var i := index + length + 24;
    if i % 16 != 0 then i + (16 - i % 16) else i
  }

  /** Where the reader looks for descriptor `i`. */
  function IndexOfRecord(data: seq<Byte>, i: nat): nat {
    if i == 0 then 16
    else
      var p := IndexOfRecord(data, i - 1);
      NextIndex(p, RecordAt(data, p).length)
  }

  lemma {:induction false} SliceOfSlice(s: seq<Byte>, i: nat, n: nat, a: nat, b: nat)
    requires i + n <= |s| && a <= b <= n
    ensures s[i..i + n][a..b] == s[i + a..i + b]
  {
    var t := s[i..i + n];
    forall k | 0 <= k < b - a ensures t[a..b][k] == s[i + a..i + b][k] {
      assert t[a + k] == s[i + (a + k)];
    }
  }

  lemma {:induction false} SubSlice(s: seq<Byte>, i: nat, n: nat, a: nat, b: nat)
    requires i + n <= |s| && a <= b <= n
    ensures Slice(s, i + a, i + b) == s[i..i + n][a..b]
  {
    SliceOfSlice(s, i, n, a, b);
  }

  /** The descriptor of an image decodes to its fields. */
  lemma {:induction false} DescriptorDecodes(img: Image)
    requires |img.data| < Pow256(LONG) && img.offset < Pow256(LONG) && img.kind < Pow256(SHORT)
    ensures var e := Entry(img);
            && FromLittle(e[0..8]) == |img.data| && FromLittle(e[8..16]) == img.offset
            && FromLittle(e[16..20]) == img.kind && e[24..24 + |img.data|] == img.data
  {
    var e := Entry(img);
    assert e[0..8] == Little(|img.data|, LONG);
    assert e[8..16] == Little(img.offset, LONG);
    assert e[16..20] == Little(img.kind, SHORT);
    LittleRoundTrip(|img.data|, LONG);
    LittleRoundTrip(img.offset, LONG);
    LittleRoundTrip(img.kind, SHORT);
  }

  /** At `index` the reader finds the fields and the bytes of `img`. */
  ghost predicate Reads(data: seq<Byte>, index: nat, img: Image) {
    && RecordAt(data, index) == Record(|img.data|, img.offset, img.kind, index + 24)
    && index + 24 + |img.data| <= |data| && data[index + 24..index + 24 + |img.data|] == img.data
  }

  /** Where an entry stands in the data, the reader finds its length, offset, type and bytes. */
  lemma {:induction false} EntryDecodes(out: seq<Byte>, s: nat, img: Image)
    requires |img.data| < Pow256(LONG) && img.offset < Pow256(LONG) && img.kind < Pow256(SHORT)
    requires s + |Entry(img)| <= |out| && out[s..s + |Entry(img)|] == Entry(img)
    ensures Reads(out, s, img)
  {
    var n := |Entry(img)|;
    DescriptorDecodes(img);
    SubSlice(out, s, n, 0, 8);
    SubSlice(out, s, n, 8, 16);
    SubSlice(out, s, n, 16, 20);
    SliceOfSlice(out, s, n, 24, 24 + |img.data|);
  }

  /** The reader finds image `i` with its length, offset, type and bytes. */
  lemma {:induction false} RecordIs(imgs: seq<Image>, i: nat, crc: seq<Byte> -> Word)
    requires i < |imgs| && FitsAt(imgs, i)
    ensures Reads(Packed(imgs, crc), Start(imgs, i), imgs[i])
  {
    EntryAt(imgs, i, crc);
    EntryDecodes(Packed(imgs, crc), Start(imgs, i), imgs[i]);
  }

  /** Rounding up in the reader skips exactly the writer's padding. */
  lemma {:induction false} NextIsStart(imgs: seq<Image>, i: nat)
    requires i < |imgs|
    ensures NextIndex(Start(imgs, i), |imgs[i].data|) == Start(imgs, i + 1)
  {
    StartAligned(imgs, i);
    StartAligned(imgs, i + 1);
    BodyStep(imgs, i);
    RoundUpUnique(Start(imgs, i) + |imgs[i].data| + 24, Start(imgs, i + 1));
  }

  lemma {:induction false} RoundUpUnique(x: nat, y: nat)
    requires x <= y < x + 16 && y % 16 == 0
    ensures y == if x % 16 != 0 then x + (16 - x % 16) else x
  {
  }

  lemma {:induction false} IndexIsStart(imgs: seq<Image>, i: nat, crc: seq<Byte> -> Word)
    requires Fits(imgs) && i <= |imgs|
    ensures IndexOfRecord(Packed(imgs, crc), i) == Start(imgs, i)
    decreases i
  {
    if i > 0 {
      IndexIsStart(imgs, i - 1, crc);
      assert FitsAt(imgs, i - 1);
      RecordIs(imgs, i - 1, crc);
      IndexStep(Packed(imgs, crc), imgs, i);
    }
  }

  /** From one descriptor to the next. */
  lemma {:induction false} IndexStep(data: seq<Byte>, imgs: seq<Image>, i: nat)
    requires 0 < i <= |imgs| && IndexOfRecord(data, i - 1) == Start(imgs, i - 1)
    requires Reads(data, Start(imgs, i - 1), imgs[i - 1])
    ensures IndexOfRecord(data, i) == Start(imgs, i)
  {
    NextIsStart(imgs, i - 1);
  }

  /** Reading a packed file at the places the reader computes, all of them multiples of 16, yields its images. */
  lemma {:induction false} PackedRecord(imgs: seq<Image>, i: nat, crc: seq<Byte> -> Word)
    requires Fits(imgs) && i < |imgs|
    ensures Reads(Packed(imgs, crc), IndexOfRecord(Packed(imgs, crc), i), imgs[i])
    ensures IndexOfRecord(Packed(imgs, crc), i) % 16 == 0
  {
    assert FitsAt(imgs, i);
    IndexIsStart(imgs, i, crc);
    StartAligned(imgs, i);
    RecordIs(imgs, i, crc);
  }

  /** Different lists of images give different files. */
  lemma {:induction false} PackedInjective(a: seq<Image>, b: seq<Image>, crc: seq<Byte> -> Word)
    requires Fits(a) && Fits(b) && Packed(a, crc) == Packed(b, crc)
    ensures a == b
  {
    HeaderIs(a, crc);
    HeaderIs(b, crc);
    forall i | 0 <= i < |a| ensures a[i] == b[i] {
      PackedRecord(a, i, crc);
      PackedRecord(b, i, crc);
    }
  }

  // ------------------------------------------------------------------ the code

  /** The writer's result: the file, or the error of a number that does not fit its field. */
  datatype Written = File(data: seq<Byte>) | Overflow

  /** `n.to_bytes(k, "little")`, which fails if `n` needs more bytes. */
  method ToBytes(n: nat, k: nat) returns (r: Option<seq<Byte>>)
    ensures r.None? <==> n >= Pow256(k)
    ensures r.Some? ==> r.value == Little(n, k)
  {
    if n < Pow256(k) {
      r := Some(Little(n, k));
    } else {
      r := None;
    }
  }

  /** Append one image to the file: its descriptor, its bytes and the padding. */
  method Append(out: seq<Byte>, img: Image) returns (r: Written)
    ensures r.Overflow? <==> !(|img.data| < Pow256(LONG) && img.offset < Pow256(LONG) && img.kind < Pow256(SHORT))
    ensures r.File? ==> r.data == out + Entry(img)
  {
    var imgLen := |img.data|;
    var length := ToBytes(imgLen, LONG);
    var offset := ToBytes(img.offset, LONG);
    var kind := ToBytes(img.kind, SHORT);
    if length.None? || offset.None? || kind.None? {
      return Overflow;
    }
    var r1 := out + length.value;
    r1 := r1 + offset.value;
    r1 := r1 + kind.value;
    r1 := r1 + Filler(4);
    r1 := r1 + img.data;
    var pad := Pad(imgLen);
    if pad != 16 {
      r1 := r1 + Filler(pad);
    }
    SixParts(out, length.value, offset.value, kind.value, Filler(4), img.data, Filler(pad));
    r := File(r1);
  }

  lemma {:induction false} SixParts(out: seq<Byte>, a: seq<Byte>, b: seq<Byte>, c: seq<Byte>, d: seq<Byte>, e: seq<Byte>, f: seq<Byte>)
    ensures out + a + b + c + d + e + f == out + (a + b + c + d + e + f)
  {
  }

  lemma {:induction false} ThreeParts(a: seq<Byte>, b: seq<Byte>, c: seq<Byte>)
    ensures (a + b) + c == a + (b + c)
  {
  }

  /** `do_pack` on images read before: it fails exactly if some number does not fit its field. */
  method Pack(imgs: seq<Image>, crc: seq<Byte> -> Word) returns (r: Written)
    ensures r.Overflow? <==> !Fits(imgs)
    ensures r.File? ==> r.data == Packed(imgs, crc)
  {
    var out: seq<Byte> := MARKER + Filler(12);
    ghost var head := out;
    var imgCnt: nat := 0;
    while imgCnt < |imgs|
      invariant 0 <= imgCnt <= |imgs| && out == head + Body(imgs[..imgCnt])
      invariant forall i :: 0 <= i < imgCnt ==> FitsAt(imgs, i)
    {
      var next := Append(out, imgs[imgCnt]);
      if next.Overflow? {
        assert !FitsAt(imgs, imgCnt);
        return Overflow;
      }
      BodyStep(imgs, imgCnt);
      ThreeParts(head, Body(imgs[..imgCnt]), Entry(imgs[imgCnt]));
      out := next.data;
      imgCnt := imgCnt + 1;
    }
    assert imgs[..imgCnt] == imgs;
    var count := ToBytes(imgCnt, SHORT);
    if count.None? {
      return Overflow;
    }
    CountPatched(imgs, out, count.value);
    out := out[..8] + count.value + out[12..];
    ChecksumPatched(imgs, crc, out);
    out := out[..4] + Little(crc(out[8..]), SHORT) + out[8..];
    r := File(out);
  }

  lemma {:induction false} CountPatched(imgs: seq<Image>, out: seq<Byte>, count: seq<Byte>)
    requires out == MARKER + Filler(12) + Body(imgs) && count == Little(|imgs|, SHORT)
    ensures |out| >= 16
    ensures out[..8] + count + out[12..] == MARKER + Filler(4) + Checked(imgs)
  {
    assert out[..8] == MARKER + Filler(4);
    assert out[12..] == Filler(4) + Body(imgs);
  }

  lemma {:induction false} ChecksumPatched(imgs: seq<Image>, crc: seq<Byte> -> Word, out: seq<Byte>)
    requires out == MARKER + Filler(4) + Checked(imgs)
    ensures |out| >= 8 && out[..4] + Little(crc(out[8..]), SHORT) + out[8..] == Packed(imgs, crc)
  {
    assert out[..4] == MARKER;
    assert out[8..] == Checked(imgs);
  }

  /** Record `i` of the list describes image `i`. */
  ghost predicate HoldsAt(data: seq<Byte>, list: seq<Record>, imgs: seq<Image>, i: nat)
    requires i < |imgs| && i < |list|
  {
    var r := list[i];
    && r.length == |imgs[i].data| && r.offset == imgs[i].offset && r.kind == imgs[i].kind
    && r.at + r.length <= |data| && data[r.at..r.at + r.length] == imgs[i].data
  }

  ghost predicate ReadsAt(data: seq<Byte>, imgs: seq<Image>, i: nat)
    requires i < |imgs|
  {
    Reads(data, IndexOfRecord(data, i), imgs[i])
  }

  /** The reader finds marker, checksum, count and all images in the data. */
  ghost predicate IsPackOf(data: seq<Byte>, imgs: seq<Image>, crc: seq<Byte> -> Word) {
    && Slice(data, 0, 4) == MARKER && crc(Slice(data, 8, |data|)) == FromLittle(Slice(data, 4, 8))
    && FromLittle(Slice(data, 8, 12)) == |imgs|
    && forall i :: 0 <= i < |imgs| ==> ReadsAt(data, imgs, i)
  }

  /** What the writer writes, the reader can read. */
  lemma {:induction false} PackedIsPack(imgs: seq<Image>, crc: seq<Byte> -> Word)
    requires Fits(imgs)
    ensures IsPackOf(Packed(imgs, crc), imgs, crc)
  {
    HeaderIs(imgs, crc);
    forall i | 0 <= i < |imgs| ensures ReadsAt(Packed(imgs, crc), imgs, i) {
      PackedRecord(imgs, i, crc);
    }
  }

  /** Packing and unpacking: the images come back. */
  method RoundTrip(imgs: seq<Image>, checkCrc: bool, crc: seq<Byte> -> Word) returns (u: UnpackImage, ok: bool)
    requires Fits(imgs)
    ensures ok && u.Holds(imgs)
  {
    var file := Pack(imgs, crc);
    PackedIsPack(imgs, crc);
    u := new UnpackImage();
    ok := u.LoadPacked(file.data, checkCrc, crc, imgs);
  }

  /** Entry `i` of the list is the descriptor the reader's index leads to. */
  ghost predicate ReadFrom(data: seq<Byte>, list: seq<Record>, i: nat)
    requires i < |list|
  {
    list[i] == RecordAt(data, IndexOfRecord(data, i))
  }

  ghost predicate AllRead(data: seq<Byte>, list: seq<Record>) {
    forall i :: 0 <= i < |list| ==> ReadFrom(data, list, i)
  }

  lemma {:induction false} ReadOneMore(data: seq<Byte>, list: seq<Record>, r: Record)
    requires AllRead(data, list) && r == RecordAt(data, IndexOfRecord(data, |list|))
    ensures AllRead(data, list + [r])
    ensures IndexOfRecord(data, |list| + 1) == NextIndex(IndexOfRecord(data, |list|), r.length)
  {
    forall i | 0 <= i <= |list| ensures ReadFrom(data, list + [r], i) {
      assert i < |list| ==> ReadFrom(data, list, i);
    }
  }

  /** The reader's state: `pack_data`, `image_cnt` and `img_list`. */
  class UnpackImage {
    var packData: seq<Byte>
    var imageCnt: nat
    var imgList: seq<Record>

    constructor ()
      ensures packData == [] && imageCnt == 0 && imgList == []
    {
      packData, imageCnt, imgList := [], 0, [];
    }

    /** `UnpackImage.__init__` on a file read before: `ok` says whether the marker and the checksum agree. */
    method Load(data: seq<Byte>, checkCrc: bool, crc: seq<Byte> -> Word) returns (ok: bool)
      modifies this
      ensures ok <==> Slice(data, 0, 4) == MARKER && (checkCrc ==> crc(Slice(data, 8, |data|)) == FromLittle(Slice(data, 4, 8)))
      ensures ok ==> packData == data && imageCnt == FromLittle(Slice(data, 8, 12)) && |imgList| == imageCnt
      ensures ok ==> AllRead(data, imgList)
    {
      packData := data;
      imgList := [];
      if Slice(data, 0, 4) != MARKER {
        return false;
      }
      if checkCrc {
        var checksum := crc(Slice(data, 8, |data|));
        if checksum != FromLittle(Slice(data, 4, 8)) {
          return false;
        }
      }
      imageCnt := FromLittle(Slice(data, 8, 12));
      ReadList();
      ok := true;
    }

    /** Walk through the descriptors. */
    method ReadList()
      requires imgList == []
      modifies this`imgList
      ensures |imgList| == imageCnt
      ensures AllRead(packData, imgList)
    {
      var index: nat := 16;
      var n: nat := 0;
      while n < imageCnt
        invariant 0 <= n <= imageCnt && |imgList| == n && index == IndexOfRecord(packData, n)
        invariant AllRead(packData, imgList)
      {
        var r := RecordAt(packData, index);
        ReadOneMore(packData, imgList, r);
        imgList := imgList + [r];
        index := Advance(index, r.length);
        n := n + 1;
      }
    }

    /** Step over an image of `length` bytes and round up to 16. */
    method Advance(index: nat, length: nat) returns (next: nat)
      ensures next == NextIndex(index, length)
    {
      next := index + (length + 24);
      if next % 16 != 0 {
        next := next + (16 - next % 16);
      }
    }

    /** The object was loaded from the file of these images. */
    ghost predicate Holds(imgs: seq<Image>)
      reads this
    {
      |imgs| == imageCnt == |imgList| && forall i :: 0 <= i < |imgs| ==> HoldsAt(packData, imgList, imgs, i)
    }

    /** Loading a packed file succeeds and yields the images it was made of. */
    method LoadPacked(data: seq<Byte>, checkCrc: bool, crc: seq<Byte> -> Word, ghost imgs: seq<Image>) returns (ok: bool)
      requires IsPackOf(data, imgs, crc)
      modifies this
      ensures ok && Holds(imgs)
    {
      ok := Load(data, checkCrc, crc);
      forall i | 0 <= i < |imgs| ensures HoldsAt(packData, imgList, imgs, i) {
        assert ReadsAt(data, imgs, i) && ReadFrom(data, imgList, i);
      }
    }

    /** `img_attr`. */
    method ImgAttr(index: nat, ghost imgs: seq<Image>) returns (length: nat, offset: nat, kind: nat)
      requires Holds(imgs)
      ensures if index < |imgs| then length == |imgs[index].data| && offset == imgs[index].offset && kind == imgs[index].kind
              else length == 0 && offset == 0 && kind == 0
    {
      if index < imageCnt {
        assert HoldsAt(packData, imgList, imgs, index);
        return imgList[index].length, imgList[index].offset, imgList[index].kind;
      }
      return 0, 0, 0;
    }

    /** `img_content`: a stretch of an image, or nothing if it reaches beyond the image. */
    method ImgContent(index: nat, offset: nat, size: nat, ghost imgs: seq<Image>) returns (r: seq<Byte>)
      requires Holds(imgs)
      ensures r == if index < |imgs| && offset + size <= |imgs[index].data| then imgs[index].data[offset..offset + size] else []
    {
      if index >= imageCnt {
        return [];
      }
      assert HoldsAt(packData, imgList, imgs, index);
      if offset > imgList[index].length || offset + size > imgList[index].length {
        return [];
      }
      ghost var at, n := imgList[index].at, imgList[index].length;
      SubSlice(packData, at, n, offset, offset + size);
      r := Slice(packData, imgList[index].at + offset, imgList[index].at + offset + size);
    }

    /** The transfer loop of `__pack_program`: the chunks sent for an image are the image. */
    method Transfer(index: nat, ghost imgs: seq<Image>) returns (sent: seq<seq<Byte>>)
      requires Holds(imgs) && index < |imgs|
      ensures Joined(sent) == imgs[index].data
      ensures forall k :: 0 <= k < |sent| ==> 0 < |sent[k]| <= 4096
      ensures forall k :: 0 <= k < |sent| - 1 ==> |sent[k]| == 4096
    {
      sent := [];
      var length, _, _ := ImgAttr(index, imgs);
      var offset: nat := 0;
      ghost var d := imgs[index].data;
      while offset < length
        invariant Joined(sent) == d[..if offset < length then offset else length]
        invariant forall k :: 0 <= k < |sent| ==> 0 < |sent[k]| <= TRANSFER_SIZE
        invariant forall k :: 0 <= k < |sent| && (k < |sent| - 1 || offset <= length) ==> |sent[k]| == TRANSFER_SIZE
        decreases length - offset
      {
        var size := if offset + TRANSFER_SIZE < length then TRANSFER_SIZE else length - offset;
        var chunk := ImgContent(index, offset, size, imgs);
        NextChunk(sent, d, offset, size);
        sent := sent + [chunk];
        offset := offset + TRANSFER_SIZE;
      }
      assert d[..length] == d;
    }
  }

  function Joined(chunks: seq<seq<Byte>>): seq<Byte> {
    if chunks == [] then [] else Joined(chunks[..|chunks| - 1]) + chunks[|chunks| - 1]
  }

  lemma {:induction false} JoinedSnoc(chunks: seq<seq<Byte>>, c: seq<Byte>)
    ensures Joined(chunks + [c]) == Joined(chunks) + c
  {
    assert (chunks + [c])[..|chunks|] == chunks;
  }

  lemma {:induction false} NextChunk(chunks: seq<seq<Byte>>, d: seq<Byte>, a: nat, n: nat)
    requires a + n <= |d| && Joined(chunks) == d[..a]
    ensures Joined(chunks + [d[a..a + n]]) == d[..a + n]
  {
    JoinedSnoc(chunks, d[a..a + n]);
  }

  /** What the reader makes of the header of a packed file. */
  lemma {:induction false} HeaderIs(imgs: seq<Image>, crc: seq<Byte> -> Word)
    requires Fits(imgs)
    ensures var data := Packed(imgs, crc);
            && Slice(data, 0, 4) == MARKER
            && crc(Slice(data, 8, |data|)) == FromLittle(Slice(data, 4, 8))
            && FromLittle(Slice(data, 8, 12)) == |imgs|
  {
    var data, sum := Packed(imgs, crc), crc(Checked(imgs));
    assert Slice(data, 0, 4) == MARKER;
    assert Slice(data, 4, 8) == Little(sum, SHORT);
    assert Slice(data, 8, |data|) == Checked(imgs);
    assert Slice(data, 8, 12) == Little(|imgs|, SHORT);
    assert Pow256(SHORT) == 0x1_0000_0000;
    LittleRoundTrip(sum, SHORT);
    LittleRoundTrip(|imgs|, SHORT);
  }
}

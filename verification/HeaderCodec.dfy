/** On-disk form of the header and of the shared presence bitmap. */
module HeaderCodec {
  import opened Bytes
  import opened Geometry

  datatype DecodeError = TooShort | BadMagic | BadVersion | ZeroChunkSize | BadGeometry | TruncatedBitmap | TruncatedDigests
  datatype Result<+T> = Ok(value: T) | Err(error: DecodeError)

  const HEADER_MAGIC: seq<byte> := [0x50, 0x53, 0x44, 0x31]  // "PSD1"
  const BITMAP_MAGIC: seq<byte> := [0x50, 0x53, 0x43, 0x44]  // "PSCD"
  const FORMAT_VERSION: uint32 := 1
  const FIXED_LEN := 24

  // ---- the 24 bytes both formats start with ----

  datatype Preamble = Preamble(magic: seq<byte>, version: uint32, chunkSize: uint32, totalSize: uint64, chunks: uint32)

  function WritePreamble(p: Preamble): (b: seq<byte>)
    requires |p.magic| == 4
    ensures |b| == FIXED_LEN
  {
    p.magic + LE(p.version, 4) + LE(p.chunkSize, 4) + LE(p.totalSize, 8) + LE(p.chunks, 4)
  }

  function ReadPreamble(b: seq<byte>): Preamble
    requires FIXED_LEN <= |b|
  {
    Preamble(b[..4], Read32(b, 4), Read32(b, 8), Read64(b, 12), Read32(b, 20))
  }

  lemma PreambleRoundTrip(p: Preamble, b: seq<byte>)
    requires |p.magic| == 4 && FIXED_LEN <= |b| && b[..FIXED_LEN] == WritePreamble(p)
    ensures ReadPreamble(b) == p
  {
    hide LE, FromLE;
    Pow256Values();
    FromLEofLE(p.version, 4);
    FromLEofLE(p.chunkSize, 4);
    FromLEofLE(p.totalSize, 8);
    FromLEofLE(p.chunks, 4);
    var w := b[..FIXED_LEN];
    assert b[..4] == w[..4];
    assert b[4..8] == w[4..8] == LE(p.version, 4);
    assert b[8..12] == w[8..12] == LE(p.chunkSize, 4);
    assert b[12..20] == w[12..20] == LE(p.totalSize, 8);
    assert b[20..24] == w[20..24] == LE(p.chunks, 4);
  }

  lemma PreambleRebuilds(b: seq<byte>)
    requires FIXED_LEN <= |b|
    ensures b[..FIXED_LEN] == WritePreamble(ReadPreamble(b))
  {
    hide LE, FromLE;
    LEofFromLE(b[4..8]);
    LEofFromLE(b[8..12]);
    LEofFromLE(b[12..20]);
    LEofFromLE(b[20..24]);
  }

  // ---- digest section ----

  /** Digests of the present chunks below k, in chunk order. */
  function Digests(present: seq<bool>, sha: seq<Digest>, k: nat): (d: seq<byte>)
    requires k <= |present| == |sha|
    ensures |d| == 32 * Count(present[..k])
  {
    if k == 0 then []
    else
      assert present[..k][..k - 1] == present[..k - 1];
      Digests(present, sha, k - 1) + (if present[k - 1] then sha[k - 1] else [])
  }

  /** Present chunks below i come before chunk i's own digest. */
  lemma {:induction false} RankFits(present: seq<bool>, i: nat, k: nat)
    requires i < k <= |present| && present[i]
    ensures Count(present[..i]) + 1 <= Count(present[..k])
  {
    assert present[..k][..k - 1] == present[..k - 1];
    if i < k - 1 { RankFits(present, i, k - 1); }
  }

  lemma {:induction false} DigestOffset(present: seq<bool>, sha: seq<Digest>, i: nat, k: nat)
    requires i < k <= |present| == |sha| && present[i]
    ensures 32 * Count(present[..i]) + 32 <= |Digests(present, sha, k)|
    ensures Digests(present, sha, k)[32 * Count(present[..i])..32 * Count(present[..i]) + 32] == sha[i]
  {
    RankFits(present, i, k);
    if i < k - 1 {
      DigestOffset(present, sha, i, k - 1);
    }
  }

  /** Chunk i's digest, read at 32 times its rank; absent chunks get the zero digest. */
  function DigestAt(present: seq<bool>, section: seq<byte>, i: nat): Digest
    requires 32 * Count(present) <= |section| && i < |present|
  {
    if present[i] then
      assert present[..|present|] == present;
      RankFits(present, i, |present|);
      section[32 * Count(present[..i])..32 * Count(present[..i]) + 32]
    else ZERO_DIGEST
  }

  function ParseDigests(present: seq<bool>, section: seq<byte>): (sha: seq<Digest>)
    requires 32 * Count(present) <= |section|
    ensures |sha| == |present|
  {
    seq(|present|, i requires 0 <= i < |present| => DigestAt(present, section, i))
  }

  lemma DigestAtIs(present: seq<bool>, section: seq<byte>, i: nat)
    requires 32 * Count(present) <= |section| && i < |present|
    ensures !present[i] ==> DigestAt(present, section, i) == ZERO_DIGEST
    ensures present[i] ==>
      var o := 32 * Count(present[..i]);
      o + 32 <= |section| && DigestAt(present, section, i) == section[o..o + 32]
  {
    assert present[..|present|] == present;
    if present[i] { RankFits(present, i, |present|); }
  }

  lemma {:induction false} DigestsOfParse(present: seq<bool>, section: seq<byte>, k: nat)
    requires 32 * Count(present) <= |section| && k <= |present|
    ensures Count(present[..k]) <= Count(present)
    ensures Digests(present, ParseDigests(present, section), k) == section[..32 * Count(present[..k])]
  {
    CountPrefix(present, k);
    if k > 0 {
      DigestsOfParse(present, section, k - 1);
      assert present[..k][..k - 1] == present[..k - 1];
    }
  }

  lemma {:induction false} CountPrefix(bits: seq<bool>, k: nat)
    requires k <= |bits|
    ensures Count(bits[..k]) <= Count(bits)
  {
    if k == |bits| {
      assert bits[..k] == bits;
    } else {
      CountPrefix(bits[..|bits| - 1], k);
      assert bits[..|bits| - 1][..k] == bits[..k];
    }
  }

  // ---- header ----

  function PreambleOf(magic: seq<byte>, version: uint32, h: Header): Preamble {
    Preamble(magic, version, h.chunkSize, h.totalSize, |h.present| % 0x1_0000_0000)
  }

  /** What Header.Encode writes. */
  function EncodeHeader(h: Header): (out: seq<byte>)
    requires h.Shaped()
    ensures |out| == FIXED_LEN + BitmapLen(|h.present|) + 32 * Count(h.present)
  {
    WritePreamble(PreambleOf(HEADER_MAGIC, h.version, h)) + EncodeTables(h)
  }

  function EncodeTables(h: Header): (out: seq<byte>)
    requires h.Shaped()
    ensures |out| == BitmapLen(|h.present|) + 32 * Count(h.present)
  {
    assert h.present[..|h.present|] == h.present;
    Bitmap(h.present) + Digests(h.present, h.blockSHA, |h.present|)
  }

  /** What DecodeHeader returns. */
  function DecodeHeader(b: seq<byte>): Result<Header> {
    if |b| < FIXED_LEN then Err(TooShort)
    else
      var p := ReadPreamble(b);
      if p.magic != HEADER_MAGIC then Err(BadMagic)
      else if p.version != FORMAT_VERSION then Err(BadVersion)
      else if p.chunkSize == 0 then Err(ZeroChunkSize)
      else
        var h := Header(p.version, p.chunkSize, p.totalSize, [], []);
        if h.NumChunks() != p.chunks then Err(BadGeometry)
        else DecodeTables(h, p.chunks, b[FIXED_LEN..])
  }

  /** The part of DecodeHeader after the preamble. */
  function DecodeTables(h: Header, n: nat, b: seq<byte>): Result<Header> {
    if |b| < BitmapLen(n) then Err(TruncatedBitmap)
    else
      var present := Unbitmap(b[..BitmapLen(n)], n);
      var section := b[BitmapLen(n)..];
      if |section| < 32 * Count(present) then Err(TruncatedDigests)
      else Ok(h.(present := present, blockSHA := ParseDigests(present, section)))
  }

  /** The headers the format can carry: version 1, a chunk count that fits the uint32 field, no digest on an absent chunk. */
  ghost predicate Encodable(h: Header) {
    && h.Shaped()
    && h.version == FORMAT_VERSION && h.chunkSize > 0 && |h.present| < 0x1_0000_0000
    && forall i :: 0 <= i < |h.present| && !h.present[i] ==> h.blockSHA[i] == ZERO_DIGEST
  }

  lemma ParseOfDigests(present: seq<bool>, sha: seq<Digest>, section: seq<byte>)
    requires |present| == |sha| && forall i :: 0 <= i < |present| && !present[i] ==> sha[i] == ZERO_DIGEST
    requires Digests(present, sha, |present|) <= section && 32 * Count(present) <= |section|
    ensures ParseDigests(present, section) == sha
  {
    hide Digests, Count;
    var d := Digests(present, sha, |present|);
    forall i | 0 <= i < |present| ensures DigestAt(present, section, i) == sha[i] {
      if present[i] {
        DigestOffset(present, sha, i, |present|);
        var o := 32 * Count(present[..i]);
        assert section[o..o + 32] == d[o..o + 32];
      }
    }
  }

  lemma TablesRoundTrip(h: Header, h0: Header, t: seq<byte>)
    requires Encodable(h)
    requires h0 == h.(present := [], blockSHA := [])
    requires t <= EncodeTables(h) || EncodeTables(h) <= t
    ensures |t| < BitmapLen(|h.present|) + 32 * Count(h.present) ==> DecodeTables(h0, |h.present|, t).Err?
    ensures |t| >= BitmapLen(|h.present|) + 32 * Count(h.present) ==> DecodeTables(h0, |h.present|, t) == Ok(h)
  {
    hide BitAt, Bitmap, Digests, Count, ParseDigests, Header.NumChunks;
    var n := |h.present|;
    var m, d := Bitmap(h.present), Digests(h.present, h.blockSHA, n);
    assert h.present[..n] == h.present;
    if |t| >= |m| {
      assert t[..|m|] == (m + d)[..|m|] == m;
      assert Unbitmap(m, n) == h.present;
      var section := t[|m|..];
      if |section| >= |d| {
        assert section[..|d|] == (m + d)[|m|..] == d;
        ParseOfDigests(h.present, h.blockSHA, section);
      }
    }
  }

  /** A string comparable with p + t, cut after p. */
  lemma CutAfter(p: seq<byte>, t: seq<byte>, b: seq<byte>)
    requires |b| >= |p| && (b <= p + t || p + t <= b)
    ensures b[..|p|] == p
    ensures b[|p|..] <= t || t <= b[|p|..]
  {
    if p + t <= b {
      assert t == (p + t)[|p|..] == b[|p|..|p + t|];
    }
  }

  /** Decoding an encoding that may be cut short, or followed by anything. */
  lemma DecodeOfEncode(h: Header, b: seq<byte>)
    requires Encodable(h)
    requires b <= EncodeHeader(h) || EncodeHeader(h) <= b
    ensures |b| < |EncodeHeader(h)| ==> DecodeHeader(b).Err?
    ensures |b| >= |EncodeHeader(h)| ==> DecodeHeader(b) == Ok(h)
  {
    hide EncodeTables, WritePreamble, ReadPreamble, DecodeTables, Count, Header.NumChunks;
    if |b| >= FIXED_LEN {
      var p := PreambleOf(HEADER_MAGIC, h.version, h);
      CutAfter(WritePreamble(p), EncodeTables(h), b);
      PreambleRoundTrip(p, b);
      NoTables(h);
      TablesRoundTrip(h, h.(present := [], blockSHA := []), b[FIXED_LEN..]);
    }
  }

  lemma NoTables(h: Header)
    ensures h.(present := [], blockSHA := []).NumChunks() == h.NumChunks()
  {
  }

  /** A header survives the round trip exactly when the format can carry it. */
  lemma RoundTripIff(h: Header)
    requires h.Shaped()
    ensures DecodeHeader(EncodeHeader(h)) == Ok(h) <==> Encodable(h)
  {
    hide EncodeHeader, DecodeHeader;
    if Encodable(h) {
      DecodeOfEncode(h, EncodeHeader(h));
    } else if DecodeHeader(EncodeHeader(h)) == Ok(h) {
      DecodedIsEncodable(EncodeHeader(h));
    }
  }

  /** No strict prefix of an encoded header is accepted. */
  lemma HeaderPrefixRejected(h: Header, k: nat)
    requires Encodable(h) && k < |EncodeHeader(h)|
    ensures DecodeHeader(EncodeHeader(h)[..k]).Err?
  {
    DecodeOfEncode(h, EncodeHeader(h)[..k]);
  }

  /** The bits after the last chunk's. */
  predicate PaddingClear(m: seq<byte>, n: nat)
    requires n <= 8 * |m|
  {
    forall j :: n <= j < 8 * |m| ==> !BitAt(m, j)
  }

  lemma BitmapOfUnbitmap(m: seq<byte>, n: nat)
    requires |m| == BitmapLen(n)
    ensures Bitmap(Unbitmap(m, n)) == m <==> PaddingClear(m, n)
  {
    hide BitAt, Bitmap;
    var m' := Bitmap(Unbitmap(m, n));
    if PaddingClear(m, n) {
      BitmapExt(m, m');
    }
  }

  /** The same for the part after the preamble. */
  lemma TablesCanonical(h0: Header, n: nat, t: seq<byte>)
    requires DecodeTables(h0, n, t).Ok?
    ensures var h := DecodeTables(h0, n, t).value;
      && h.Shaped() && |h.present| == n ==>
        && |EncodeTables(h)| <= |t|
        && (EncodeTables(h) <= t <==> PaddingClear(t[..BitmapLen(n)], n))
  {
    hide Bitmap, Digests, BitAt, PaddingClear, ParseDigests, Count, Header.NumChunks;
    var h := DecodeTables(h0, n, t).value;
    var m, section := t[..BitmapLen(n)], t[BitmapLen(n)..];
    DigestsOfParse(h.present, section, n);
    assert h.present[..n] == h.present;
    var e := Bitmap(h.present) + Digests(h.present, h.blockSHA, n);
    assert t == m + section;
    BitmapOfUnbitmap(m, n);
    if e <= t {
      assert e[..BitmapLen(n)] == Bitmap(h.present);
    }
  }

  /** Re-encoding an accepted byte string is canonical: it decodes to the same header, and it is the
      accepted string itself, cut where the digests end, exactly when the padding bits were clear. */
  lemma ReencodeIsCanonical(b: seq<byte>)
    requires DecodeHeader(b).Ok?
    ensures var h := DecodeHeader(b).value;
      && Encodable(h)
      && DecodeHeader(EncodeHeader(h)) == Ok(h)
      && |EncodeHeader(h)| <= |b|
      && (EncodeHeader(h) <= b <==> PaddingClear(b[FIXED_LEN..][..BitmapLen(|h.present|)], |h.present|))
  {
    hide EncodeTables, WritePreamble, ReadPreamble, PaddingClear, ParseDigests, Count, Header.NumChunks;
    var h := DecodeHeader(b).value;
    NoTables(h);
    assert Encodable(h) by { DecodedIsEncodable(b); }
    RoundTripIff(h);
    PreambleRebuilds(b);
    var p, t := b[..FIXED_LEN], b[FIXED_LEN..];
    TablesCanonical(h.(present := [], blockSHA := []), |h.present|, t);
    PrefixSum(p, EncodeTables(h), t);
    assert b == p + t;
  }

  lemma PrefixSum(p: seq<byte>, e: seq<byte>, t: seq<byte>)
    ensures p + e <= p + t <==> e <= t
  {
    if p + e <= p + t { assert e == (p + e)[|p|..] && t == (p + t)[|p|..]; }
  }

  lemma DecodedIsEncodable(b: seq<byte>)
    requires DecodeHeader(b).Ok?
    ensures Encodable(DecodeHeader(b).value)
  {
    hide ReadPreamble, Count, Bitmap;
  }

  // ---- shared presence bitmap ----

  function EncodeBitmap(h: Header, present: seq<bool>): (out: seq<byte>)
    requires h.Shaped()
    ensures |out| == FIXED_LEN + BitmapLen(|h.present|)
  {
    WritePreamble(PreambleOf(BITMAP_MAGIC, FORMAT_VERSION, h))
    + Bitmap(seq(|h.present|, i => 0 <= i < |present| && present[i]))
  }

  /** readSharedBitmap: the recorded geometry must be h's own. */
  function DecodeBitmap(h: Header, b: seq<byte>): (r: Result<seq<bool>>)
    ensures r.Ok? ==> |r.value| == h.NumChunks()
  {
    if |b| < FIXED_LEN then Err(TooShort)
    else
      var p := ReadPreamble(b);
      if p.magic != BITMAP_MAGIC then Err(BadMagic)
      else if p.version != FORMAT_VERSION then Err(BadVersion)
      else if p.chunkSize != h.chunkSize || p.totalSize != h.totalSize || p.chunks != h.NumChunks() then Err(BadGeometry)
      else if |b| - FIXED_LEN < BitmapLen(p.chunks) then Err(TruncatedBitmap)
      else Ok(Unbitmap(b[FIXED_LEN..FIXED_LEN + BitmapLen(p.chunks)], p.chunks))
  }

  /** Decoding a bitmap file that may be cut short: every strict prefix is rejected, the whole gives the bits back. */
  lemma BitmapRoundTrip(h: Header, present: seq<bool>, b: seq<byte>)
    requires h.Shaped() && |present| == |h.present| < 0x1_0000_0000
    requires b <= EncodeBitmap(h, present)
    ensures |b| < |EncodeBitmap(h, present)| ==> DecodeBitmap(h, b).Err?
    ensures b == EncodeBitmap(h, present) ==> DecodeBitmap(h, b) == Ok(present)
  {
    hide Bitmap, WritePreamble, ReadPreamble, BitAt;
    if |b| >= FIXED_LEN {
      var p := PreambleOf(BITMAP_MAGIC, FORMAT_VERSION, h);
      var bits := seq(|h.present|, i => 0 <= i < |present| && present[i]);
      assert bits == present;
      assert EncodeBitmap(h, present) == WritePreamble(p) + Bitmap(present);
      assert b[..FIXED_LEN] == WritePreamble(p);
      PreambleRoundTrip(p, b);
      if b == EncodeBitmap(h, present) {
        assert b[FIXED_LEN..FIXED_LEN + BitmapLen(|present|)] == Bitmap(present);
        assert Unbitmap(Bitmap(present), |present|) == present;
      }
    }
  }

  /** A bitmap file is accepted exactly if its first bytes are those this very header's would have and the bits are all
      there. */
  lemma BitmapAcceptedIff(h: Header, b: seq<byte>)
    requires h.Shaped() && |h.present| < 0x1_0000_0000
    ensures DecodeBitmap(h, b).Ok? <==>
      |b| >= FIXED_LEN + BitmapLen(|h.present|) && b[..FIXED_LEN] == EncodeBitmap(h, h.present)[..FIXED_LEN]
  {
    hide Bitmap, WritePreamble, ReadPreamble, BitAt;
    if |b| >= FIXED_LEN {
      var p := PreambleOf(BITMAP_MAGIC, FORMAT_VERSION, h);
      assert EncodeBitmap(h, h.present)[..FIXED_LEN] == WritePreamble(p);
      PreambleRebuilds(b);
      if b[..FIXED_LEN] == WritePreamble(p) {
        PreambleRoundTrip(p, b);
      }
    }
  }

  /** So the bitmap of an image of another size or chunk size is not. */
  lemma ForeignBitmapRejected(h: Header, g: Header, present: seq<bool>)
    requires h.Shaped() && g.Shaped() && |g.present| < 0x1_0000_0000
    requires g.chunkSize != h.chunkSize || g.totalSize != h.totalSize
    ensures DecodeBitmap(h, EncodeBitmap(g, present)) == Err(BadGeometry)
  {
    hide Bitmap, WritePreamble, ReadPreamble, BitAt;
    var p := PreambleOf(BITMAP_MAGIC, FORMAT_VERSION, g);
    var b := EncodeBitmap(g, present);
    assert b[..FIXED_LEN] == WritePreamble(p);
    PreambleRoundTrip(p, b);
  }

  /** Cutting a bitmap file short can only make it unreadable. */
  lemma BitmapPrefix(h: Header, b: seq<byte>, k: nat)
    requires k <= |b| && DecodeBitmap(h, b[..k]).Ok?
    ensures DecodeBitmap(h, b) == DecodeBitmap(h, b[..k])
  {
    hide FromLE, BitAt;
    var c := b[..k];
    SliceOfPrefix(b, k, 0, 4);
    SliceOfPrefix(b, k, 4, 8);
    SliceOfPrefix(b, k, 8, 12);
    SliceOfPrefix(b, k, 12, 20);
    SliceOfPrefix(b, k, 20, 24);
    SliceOfPrefix(b, k, FIXED_LEN, FIXED_LEN + BitmapLen(ReadPreamble(c).chunks));
  }

  lemma SliceOfPrefix(b: seq<byte>, k: nat, i: nat, j: nat)
    requires i <= j <= k <= |b|
    ensures b[..k][i..j] == b[i..j] && (i == 0 ==> b[..k][..j] == b[..j])
  {
    forall t | 0 <= t < j - i ensures b[..k][i..j][t] == b[i..j][t] {}
  }

  // ---- the loops ----

  /** The presence bits packed one at a time into a zeroed buffer, as both encoders do. */
  method PackBitmap(present: seq<bool>, n: nat) returns (m: seq<byte>)
    ensures m == Bitmap(seq(n, i => 0 <= i < |present| && present[i]))
  {
    var bitmap := new byte[BitmapLen(n)](_ => 0);
    forall j | 0 <= j < 8 * bitmap.Length ensures !BitAt(bitmap[..], j) {
      ZeroBits(j % 8);
    }
    for i := 0 to n
      invariant forall j :: 0 <= j < 8 * bitmap.Length ==>
        BitAt(bitmap[..], j) == (j < i && j < |present| && present[j])
    {
      if i < |present| && present[i] {
        ghost var before := bitmap[..];
        bitmap[i / 8] := SetBit(bitmap[i / 8], i % 8);
        assert bitmap[..] == SetBitAt(before, i);
        forall j | 0 <= j < 8 * bitmap.Length
          ensures BitAt(bitmap[..], j) == (j < i + 1 && j < |present| && present[j])
        {
          SetBitAtIs(before, i, j);
        }
      }
    }
    m := bitmap[..];
    BitmapExt(m, Bitmap(seq(n, i => 0 <= i < |present| && present[i])));
  }

  /** Header.Encode. */
  method Encode(h: Header) returns (out: seq<byte>)
    requires h.Shaped()
    ensures out == EncodeHeader(h)
  {
    hide Bitmap, LE, Count, BitAt, Header.NumChunks;
    var n := h.NumChunks();
    out := HEADER_MAGIC + LE(h.version, 4) + LE(h.chunkSize, 4) + LE(h.totalSize, 8) + LE(n % 0x1_0000_0000, 4);
    assert out == WritePreamble(PreambleOf(HEADER_MAGIC, h.version, h));
    var bitmap := PackBitmap(h.present, n);
    assert seq(n, i => 0 <= i < |h.present| && h.present[i]) == h.present;
    out := out + bitmap;
    ghost var head := out;
    for i := 0 to n
      invariant out == head + Digests(h.present, h.blockSHA, i)
    {
      if i < |h.present| && h.present[i] {
        out := out + h.blockSHA[i];
      }
    }
  }

  /** encodeSharedBitmap. */
  method EncodeShared(h: Header, present: seq<bool>) returns (out: seq<byte>)
    requires h.Shaped()
    ensures out == EncodeBitmap(h, present)
  {
    hide Bitmap, LE, Count, BitAt, Header.NumChunks;
    var n := h.NumChunks();
    out := BITMAP_MAGIC + LE(FORMAT_VERSION, 4) + LE(h.chunkSize, 4) + LE(h.totalSize, 8) + LE(n % 0x1_0000_0000, 4);
    assert out == WritePreamble(PreambleOf(BITMAP_MAGIC, FORMAT_VERSION, h));
    var bitmap := PackBitmap(present, n);
    out := out + bitmap;
  }

  /** DecodeHeader. */
  method Decode(b: seq<byte>) returns (r: Result<Header>)
    ensures r == DecodeHeader(b)
  {
    hide Bitmap, FromLE, Bit;
    if |b| < FIXED_LEN { return Err(TooShort); }
    if b[..4] != HEADER_MAGIC { return Err(BadMagic); }
    var h := Header(Read32(b, 4), Read32(b, 8), Read64(b, 12), [], []);
    if h.version != FORMAT_VERSION { return Err(BadVersion); }
    var n := Read32(b, 20);
    if h.chunkSize == 0 { return Err(ZeroChunkSize); }
    if h.NumChunks() != n { return Err(BadGeometry); }
    r := ParseTables(h, n, b[FIXED_LEN..]);
  }

  /** The bitmap and digest loops of DecodeHeader. */
  method ParseTables(h: Header, n: nat, b: seq<byte>) returns (r: Result<Header>)
    ensures r == DecodeTables(h, n, b)
  {
    hide Bitmap, BitAt, DigestAt, Count;
    if |b| < BitmapLen(n) { return Err(TruncatedBitmap); }
    var present, count := ReadFlags(b[..BitmapLen(n)], n);
    if |b| - BitmapLen(n) < 32 * count { return Err(TruncatedDigests); }
    var blockSHA := ReadDigests(present, b[BitmapLen(n)..]);
    r := Ok(h.(present := present, blockSHA := blockSHA));
  }

  /** The digest loop of DecodeHeader. */
  method ReadDigests(present: seq<bool>, section: seq<byte>) returns (sha: seq<Digest>)
    requires 32 * Count(present) <= |section|
    ensures sha == ParseDigests(present, section)
  {
    hide DigestAt;
    var sums := new Digest[|present|](_ => ZERO_DIGEST);
    var off := 0;
    for i := 0 to |present|
      invariant off == 32 * Count(present[..i])
      invariant forall j :: 0 <= j < |present| ==> sums[j] == if j < i then DigestAt(present, section, j) else ZERO_DIGEST
    {
      assert present[..i + 1][..i] == present[..i];
      DigestAtIs(present, section, i);
      if present[i] {
        sums[i] := section[off..off + 32];
        off := off + 32;
      }
    }
    sha := sums[..];
  }

  /** The flag loop of DecodeHeader and readSharedBitmap, with the count of set flags. */
  method ReadFlags(bitmap: seq<byte>, n: nat) returns (present: seq<bool>, count: nat)
    requires n <= 8 * |bitmap|
    ensures present == Unbitmap(bitmap, n) && count == Count(present)
  {
    hide Bit, Unbitmap;
    var flags := new bool[n](_ => false);
    ghost var bits := Unbitmap(bitmap, n);
    count := 0;
    for i := 0 to n
      invariant forall j :: 0 <= j < n ==> flags[j] == (j < i && bits[j])
      invariant count == Count(bits[..i])
    {
      assert bits[..i + 1][..i] == bits[..i];
      if Bit(bitmap[i / 8], i % 8) {
        flags[i] := true;
        count := count + 1;
      }
    }
    present := flags[..];
    assert bits[..n] == bits == present;
  }

  /** readSharedBitmap, after the file has been read. */
  method ReadBitmap(h: Header, b: seq<byte>) returns (r: Result<seq<bool>>)
    ensures r == DecodeBitmap(h, b)
  {
    hide FromLE, Bit;
    if |b| < FIXED_LEN { return Err(TooShort); }
    if b[..4] != BITMAP_MAGIC { return Err(BadMagic); }
    if Read32(b, 4) != FORMAT_VERSION { return Err(BadVersion); }
    var n := Read32(b, 20);
    if Read32(b, 8) != h.chunkSize || Read64(b, 12) != h.totalSize || n != h.NumChunks() { return Err(BadGeometry); }
    if |b| - FIXED_LEN < BitmapLen(n) { return Err(TruncatedBitmap); }
    var present, _ := ReadFlags(b[FIXED_LEN..FIXED_LEN + BitmapLen(n)], n);
    r := Ok(present);
  }
}

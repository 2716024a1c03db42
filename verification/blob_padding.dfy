/** Padding an upload with zero samples: on the bytes, as usrp_playground/cli.py does,
    and on the array, as usrp_playground/client.py does. */
module BlobPadding {
  import opened MimoFormat

  function ZeroBytes(k: nat): (r: Blob)
    ensures |r| == k
  {
    seq(k, _ => 0)
  }

  /** b[lo:hi] as Python slices: bounds beyond the end are cut off. */
  function Slice(b: Blob, lo: nat, hi: nat): (r: Blob)
    requires lo <= hi
    ensures |r| == (if |b| <= lo then 0 else if |b| <= hi then |b| - lo else hi - lo)
    ensures forall i :: 0 <= i < |r| ==> r[i] == b[lo + i]
  {
    if |b| <= lo then [] else if |b| <= hi then b[lo..] else b[lo..hi]
  }

  /** The padded segments of the first `ch` channels, joined. */
  function PaddedChunks(body: Blob, n: nat, zeros: Blob, ch: nat): Blob {
    if ch == 0 then []
    else
      Ordered(ch - 1, n);
      PaddedChunks(body, n, zeros, ch - 1) + (zeros + Slice(body, (ch - 1) * n * 8, ch * n * 8) + zeros)
  }

  lemma Ordered(ch: nat, n: nat)
    ensures 0 <= ch * n * 8 <= (ch + 1) * n * 8
  {
    assert (ch + 1) * n == ch * n + n;
  }

  function PadBlobSpec(data: Blob, pad: int): Result<Blob> {
    if pad <= 0 then Ok(data)
    else if !(MAGIC <= data) then Ok(ZeroBytes(8 * pad) + data + ZeroBytes(8 * pad))
    else if |data| < 16 then Err(HeaderCut)
    else
      var channels, n := Unpack32(data[8..12]), Unpack32(data[12..16]);
      if n + 2 * pad >= 0x1_0000_0000 then Err(DimensionTooLarge)
      else Ok(Header(channels, n + 2 * pad) + PaddedChunks(data[16..], n, ZeroBytes(8 * pad), channels))
  }

  function Joined(chunks: seq<Blob>): Blob {
    if chunks == [] then [] else Joined(chunks[..|chunks| - 1]) + chunks[|chunks| - 1]
  }

  /** _pad_blob */
  method PadBlob(data: Blob, pad: int) returns (r: Result<Blob>)
    ensures r == PadBlobSpec(data, pad)
  {
    if pad <= 0 { return Ok(data); }
    var zeros := ZeroBytes(pad * 8);
    if MAGIC <= data {
      if |data| < 16 { return Err(HeaderCut); }
      var channels, n := Unpack32(data[8..12]), Unpack32(data[12..16]);
      var body := data[16..];
      var chunks: seq<Blob> := [];
      var ch := 0;
      while ch < channels
        invariant ch <= channels && Joined(chunks) == PaddedChunks(body, n, zeros, ch)
      {
        Ordered(ch, n);
        var segment := Slice(body, ch * n * 8, (ch + 1) * n * 8);
        assert (chunks + [zeros + segment + zeros])[..|chunks|] == chunks;
        chunks := chunks + [zeros + segment + zeros];
        ch := ch + 1;
      }
      if n + 2 * pad >= 0x1_0000_0000 { return Err(DimensionTooLarge); }
      return Ok(Header(channels, n + 2 * pad) + Joined(chunks));
    }
    return Ok(zeros + data + zeros);
  }

  // ----- Padding the array ------------------------------------------------------------

  function ZeroSamples(p: nat): (r: seq<Sample>)
    ensures |r| == p
  {
    seq(p, _ => ZERO)
  }

  function PadColumn(c: seq<Sample>, p: nat): (r: seq<Sample>)
    ensures |r| == |c| + 2 * p
  {
    ZeroSamples(p) + c + ZeroSamples(p)
  }

  function PadColumns(cols: seq<seq<Sample>>, p: nat): (r: seq<seq<Sample>>)
    ensures |r| == |cols|
  {
    seq(|cols|, k requires 0 <= k < |cols| => PadColumn(cols[k], p))
  }

  /** np.concatenate / np.vstack with p zero samples before and after, on every channel. */
  function PadSignal(x: Signal, p: nat): Signal {
    match x
    case Siso(s) => Siso(PadColumn(s, p))
    case Mimo(a) => Mimo(Matrix(a.n + 2 * p, PadColumns(a.cols, p)))
  }

  // ----- The two agree ------------------------------------------------------------------

  lemma InterleaveConcat(a: seq<Sample>, b: seq<Sample>)
    ensures Interleave(a + b) == Interleave(a) + Interleave(b)
  {
    forall j | 0 <= j < 2 * |a + b| ensures Interleave(a + b)[j] == (Interleave(a) + Interleave(b))[j] {
      if j >= 2 * |a| {
        assert (j - 2 * |a|) / 2 == j / 2 - |a| && (j - 2 * |a|) % 2 == j % 2;
      }
    }
  }

  lemma EncodeZeros(p: nat)
    ensures EncodeSiso(ZeroSamples(p)) == ZeroBytes(8 * p)
  {
    var ws := Interleave(ZeroSamples(p));
    assert forall j :: 0 <= j < |ws| ==> ws[j] == ZERO_WORD;
    hide Interleave;
    forall j | 0 <= j < 8 * p ensures ToBytes(ws)[j] == 0 {
      assert ToBytes(ws)[j] == WordByte(ws[j / 4], j % 4);
    }
  }

  lemma EncodePadded(c: seq<Sample>, p: nat)
    ensures EncodeSiso(PadColumn(c, p)) == ZeroBytes(8 * p) + EncodeSiso(c) + ZeroBytes(8 * p)
  {
    hide Interleave, ToBytes;
    var z := ZeroSamples(p);
    EncodeZeros(p);
    InterleaveConcat(z, c);
    InterleaveConcat(z + c, z);
    ToBytesConcat(Interleave(z), Interleave(c));
    ToBytesConcat(Interleave(z) + Interleave(c), Interleave(z));
  }

  lemma ToBytesSlice(ws: seq<Word>, i: nat, j: nat)
    requires i <= j <= |ws|
    ensures ToBytes(ws)[4 * i..4 * j] == ToBytes(ws[i..j])
  {
    forall k | 0 <= k < 4 * (j - i) ensures ToBytes(ws)[4 * i + k] == ToBytes(ws[i..j])[k] {
      assert (4 * i + k) / 4 == i + k / 4 && (4 * i + k) % 4 == k % 4;
    }
  }

  /** The bytes of channel k inside the blob. */
  lemma SegmentOf(a: Matrix, k: nat)
    requires Shaped(a) && k < |a.cols|
    ensures 0 <= k * a.n * 8 <= (k + 1) * a.n * 8
    ensures Slice(ToBytes(Flat(a.cols)), k * a.n * 8, (k + 1) * a.n * 8) == EncodeSiso(a.cols[k])
  {
    hide *;
    var n, base := a.n, k * (2 * a.n);
    FlatSegment(a, k);
    SegmentBounds(k, n);
    ToBytesSlice(Flat(a.cols), base, base + 2 * n);
    SliceInside(ToBytes(Flat(a.cols)), k * n * 8, (k + 1) * n * 8, a.cols[k]);
  }

  lemma SegmentBounds(k: nat, n: nat)
    ensures 0 <= k * (2 * n) && k * n * 8 == 4 * (k * (2 * n))
    ensures (k + 1) * n * 8 == 4 * (k * (2 * n) + 2 * n)
  {
    assert (k + 1) * n == k * n + n;
  }

  lemma SliceInside(b: Blob, lo: nat, hi: nat, c: seq<Sample>)
    requires lo <= hi <= |b| && b[lo..hi] == ToBytes(Interleave(c))
    ensures Slice(b, lo, hi) == EncodeSiso(c)
  {}

  lemma {:induction false} ChunksOfPadded(a: Matrix, p: nat, m: nat)
    requires Shaped(a) && m <= |a.cols|
    ensures PaddedChunks(ToBytes(Flat(a.cols)), a.n, ZeroBytes(8 * p), m) == ToBytes(Flat(PadColumns(a.cols, p)[..m]))
  {
    hide *;
    if m == 0 {
      NoChunks(ToBytes(Flat(a.cols)), a.n, ZeroBytes(8 * p), PadColumns(a.cols, p));
    } else {
      ChunksOfPadded(a, p, m - 1);
      OneMoreChunk(a, p, m - 1);
    }
  }

  lemma NoChunks(body: Blob, n: nat, zeros: Blob, cols: seq<seq<Sample>>)
    ensures PaddedChunks(body, n, zeros, 0) == [] == ToBytes(Flat(cols[..0]))
  {}

  lemma NextChunk(body: Blob, n: nat, zeros: Blob, k: nat)
    ensures 0 <= k * n * 8 <= (k + 1) * n * 8
    ensures PaddedChunks(body, n, zeros, k + 1) ==
            PaddedChunks(body, n, zeros, k) + (zeros + Slice(body, k * n * 8, (k + 1) * n * 8) + zeros)
  {
    Ordered(k, n);
  }

  lemma PaddedAt(cols: seq<seq<Sample>>, p: nat, k: nat)
    requires k < |cols|
    ensures PadColumns(cols, p)[k] == PadColumn(cols[k], p)
    ensures EncodeSiso(PadColumn(cols[k], p)) == ToBytes(Interleave(PadColumn(cols[k], p)))
  {}

  lemma OneMoreChunk(a: Matrix, p: nat, k: nat)
    requires Shaped(a) && k < |a.cols|
    requires PaddedChunks(ToBytes(Flat(a.cols)), a.n, ZeroBytes(8 * p), k) == ToBytes(Flat(PadColumns(a.cols, p)[..k]))
    ensures PaddedChunks(ToBytes(Flat(a.cols)), a.n, ZeroBytes(8 * p), k + 1)
         == ToBytes(Flat(PadColumns(a.cols, p)[..k + 1]))
  {
    hide *;
    var padded := PadColumns(a.cols, p);
    NextChunk(ToBytes(Flat(a.cols)), a.n, ZeroBytes(8 * p), k);
    SegmentOf(a, k);
    PaddedAt(a.cols, p, k);
    EncodePadded(a.cols[k], p);
    FlatNext(padded, k);
    ToBytesConcat(Flat(padded[..k]), Interleave(padded[k]));
  }

  /** Padding the bytes is padding the samples: for every matrix, and for a 1-D signal
      exactly unless it begins with the magic (which the byte version takes for MIMO). */
  lemma PaddingCommutes(x: Signal, p: nat)
    requires x.Mimo? ==> Shaped(x.matrix)
    requires EncodeAny(x).Ok?
    ensures x.Mimo? ==> PadBlobSpec(EncodeAny(x).value, p) == EncodeAny(PadSignal(x, p))
    ensures x.Siso? ==>
      (PadBlobSpec(EncodeAny(x).value, p) == EncodeAny(PadSignal(x, p))
       <==> p == 0 || x.samples == [] || x.samples[0] != MAGIC_SAMPLE)
  {
    hide PadBlobSpec, PadColumns, EncodeSiso, MimoBlob;
    match x
    case Mimo(a) => PadMatrix(a, p);
    case Siso(s) => PadVector(s, p);
  }

  lemma PadVector(s: seq<Sample>, p: nat)
    ensures PadBlobSpec(EncodeSiso(s), p) == Ok(EncodeSiso(PadColumn(s, p)))
       <==> p == 0 || s == [] || s[0] != MAGIC_SAMPLE
  {
    hide Interleave, ToBytes, PaddedChunks;
    var b, z := EncodeSiso(s), ZeroBytes(8 * p);
    EncodePadded(s, p);
    if s != [] { FirstSampleBytes(s); } else { assert b == []; }
    assert MAGIC <= b <==> |b| >= 8 && b[..8] == MAGIC;
    if p == 0 {
      assert z + b + z == b;
    } else {
      assert (z + b + z)[0] == 0;
      if MAGIC <= b && PadBlobSpec(b, p).Ok? { assert PadBlobSpec(b, p).value[0] == MAGIC[0]; }
    }
  }

  lemma PadNothing(a: Matrix)
    ensures PadColumns(a.cols, 0) == a.cols
  {
    forall k | 0 <= k < |a.cols| ensures PadColumns(a.cols, 0)[k] == a.cols[k] {
      assert ZeroSamples(0) + a.cols[k] + ZeroSamples(0) == a.cols[k];
    }
  }

  lemma PadMatrix(a: Matrix, p: nat)
    requires Shaped(a) && EncodeMimoSpec(a).Ok?
    ensures PadBlobSpec(MimoBlob(a), p) == EncodeMimoSpec(Matrix(a.n + 2 * p, PadColumns(a.cols, p)))
  {
    hide Interleave, ToBytes, Flat, Header, PaddedChunks, PadColumns;
    var b := MimoBlob(a);
    if p == 0 {
      PadNothing(a);
    } else {
      HeaderFields(b, |a.cols|, a.n);
      assert MAGIC <= b && b[16..] == ToBytes(Flat(a.cols));
      ChunksOfPadded(a, p, |a.cols|);
      assert PadColumns(a.cols, p)[..|a.cols|] == PadColumns(a.cols, p);
    }
  }

  /** A padded blob without header is never taken for MIMO, by client, server or worker. */
  lemma PaddedSisoIsNotMimo(data: Blob, p: nat)
    requires p >= 1 && !(MAGIC <= data)
    ensures PadBlobSpec(data, p).Ok? && !(MAGIC <= PadBlobSpec(data, p).value)
    ensures !IsMimoBlob(PadBlobSpec(data, p).value)
  {
    assert PadBlobSpec(data, p).value[0] == 0;
  }
}

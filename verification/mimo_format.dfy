/** The wire format of IQ blobs (usrp_testbed_library/mimo_format.py and its copy in
    usrp_playground/client.py), on bytes. A float32 is four opaque bytes. */
module MimoFormat {
  type Byte = b: int | 0 <= b < 256
  type Blob = seq<Byte>

  datatype Word = Word(b0: Byte, b1: Byte, b2: Byte, b3: Byte)

  /** One complex64 value. */
  datatype Sample = Sample(i: Word, q: Word)

  /** A 2-D array of shape (n, |cols|), column by column. */
  datatype Matrix = Matrix(n: nat, cols: seq<seq<Sample>>)

  ghost predicate Shaped(a: Matrix) { forall c :: 0 <= c < |a.cols| ==> |a.cols[c]| == a.n }

  datatype Result<+T> = Ok(value: T) | Err(error: Error)

  datatype Error =
    | InvalidShape          // encode_mimo: a dimension is 0
    | DimensionTooLarge     // struct.pack("<II"): a dimension does not fit 32 bits
    | NotMimo               // decode_mimo: no header
    | HeaderCut             // struct.unpack on fewer than 8 bytes
    | Truncated             // decode_mimo: fewer bytes than the header promises
    | OddBuffer             // np.frombuffer: length no multiple of 4

  datatype Signal = Siso(samples: seq<Sample>) | Mimo(matrix: Matrix)

  const MAGIC: Blob := [77, 73, 77, 79, 0, 0, 0, 0]
  const ZERO_WORD := Word(0, 0, 0, 0)
  const ZERO := Sample(ZERO_WORD, ZERO_WORD)

  // ----- Words and bytes ------------------------------------------------------------

  function WordByte(w: Word, k: nat): Byte {
    if k == 0 then w.b0 else if k == 1 then w.b1 else if k == 2 then w.b2 else w.b3
  }

  /** tobytes() */
  function ToBytes(ws: seq<Word>): (r: Blob)
    ensures |r| == 4 * |ws|
  {
    seq(4 * |ws|, j requires 0 <= j < 4 * |ws| => WordByte(ws[j / 4], j % 4))
  }

  /** np.frombuffer(..., dtype=float32) on a buffer of whole words. */
  function FromBuffer(b: Blob): (r: seq<Word>)
    requires |b| % 4 == 0
    ensures |r| == |b| / 4
  {
    seq(|b| / 4, k requires 0 <= k < |b| / 4 => Word(b[4 * k], b[4 * k + 1], b[4 * k + 2], b[4 * k + 3]))
  }

  lemma BufferRoundTrip(ws: seq<Word>)
    ensures FromBuffer(ToBytes(ws)) == ws
  {
    forall k | 0 <= k < |ws| ensures FromBuffer(ToBytes(ws))[k] == ws[k] {
      assert (4 * k) / 4 == k && (4 * k + 1) / 4 == k && (4 * k + 2) / 4 == k && (4 * k + 3) / 4 == k;
    }
  }

  lemma ToBytesConcat(a: seq<Word>, b: seq<Word>)
    ensures ToBytes(a + b) == ToBytes(a) + ToBytes(b)
  {
    forall j | 0 <= j < 4 * |a + b| ensures ToBytes(a + b)[j] == (ToBytes(a) + ToBytes(b))[j] {
      if j >= 4 * |a| {
        assert (j - 4 * |a|) / 4 == j / 4 - |a|;
      }
    }
  }

  /** struct.pack("<I", v) and its inverse. */
  function Pack32(v: nat): (r: Blob)
    requires v < 0x1_0000_0000
    ensures |r| == 4
  {
    var q1 := v / 0x100;
    var q2 := q1 / 0x100;
    [v % 0x100, q1 % 0x100, q2 % 0x100, q2 / 0x100]
  }

  function Unpack32(b: Blob): nat
    requires |b| == 4
  {
    var b0: int, b1: int, b2: int, b3: int := b[0], b[1], b[2], b[3];
    b0 + 0x100 * b1 + 0x1_0000 * b2 + 0x100_0000 * b3
  }

  lemma Pack32RoundTrip(v: nat)
    requires v < 0x1_0000_0000
    ensures Unpack32(Pack32(v)) == v
  {
    var q1 := v / 0x100;
    var q2 := q1 / 0x100;
    assert v == 0x100 * q1 + v % 0x100 && q1 == 0x100 * q2 + q1 % 0x100 && q2 == 0x100 * (q2 / 0x100) + q2 % 0x100;
  }

  // ----- The sample layout ------------------------------------------------------------

  /** I0, Q0, I1, Q1, ... of one channel. */
  function Interleave(c: seq<Sample>): (r: seq<Word>)
    ensures |r| == 2 * |c|
  {
    seq(2 * |c|, j requires 0 <= j < 2 * |c| => if j % 2 == 0 then c[j / 2].i else c[j / 2].q)
  }

  /** The channels one after the other. */
  function Flat(cols: seq<seq<Sample>>): seq<Word> {
    if cols == [] then [] else Flat(cols[..|cols| - 1]) + Interleave(cols[|cols| - 1])
  }

  /** The n samples whose words begin at `base`. */
  function ColumnAt(raw: seq<Word>, base: nat, n: nat): (r: seq<Sample>)
    requires base + 2 * n <= |raw|
    ensures |r| == n
  {
    seq(n, s requires 0 <= s < n => Sample(raw[base + 2 * s], raw[base + 2 * s + 1]))
  }

  lemma ColumnOfInterleaved(raw: seq<Word>, base: nat, c: seq<Sample>)
    requires base + 2 * |c| <= |raw| && raw[base..base + 2 * |c|] == Interleave(c)
    ensures ColumnAt(raw, base, |c|) == c
  {
    forall s | 0 <= s < |c| ensures ColumnAt(raw, base, |c|)[s] == c[s] {
      assert raw[base + 2 * s] == raw[base..base + 2 * |c|][2 * s];
      assert raw[base + 2 * s + 1] == raw[base..base + 2 * |c|][2 * s + 1];
    }
  }

  /** Where channel k lies in the flat layout. */
  lemma {:induction false} FlatSegment(a: Matrix, k: nat)
    requires Shaped(a) && k < |a.cols|
    ensures |Flat(a.cols)| == |a.cols| * (2 * a.n)
    ensures 0 <= k * (2 * a.n) && k * (2 * a.n) + 2 * a.n <= |Flat(a.cols)|
    ensures Flat(a.cols)[k * (2 * a.n)..k * (2 * a.n) + 2 * a.n] == Interleave(a.cols[k])
    decreases |a.cols|
  {
    hide Interleave;
    var m := |a.cols| - 1;
    var b := Matrix(a.n, a.cols[..m]);
    FlatLength(b);
    assert |a.cols| * (2 * a.n) == m * (2 * a.n) + 2 * a.n;
    if k < m { FlatSegment(b, k); }
  }

  lemma {:induction false} FlatLength(a: Matrix)
    requires Shaped(a)
    ensures |Flat(a.cols)| == |a.cols| * (2 * a.n)
    decreases |a.cols|
  {
    if a.cols != [] {
      var m := |a.cols| - 1;
      FlatLength(Matrix(a.n, a.cols[..m]));
      assert |a.cols| * (2 * a.n) == m * (2 * a.n) + 2 * a.n;
    }
  }

  // ----- Encoding -----------------------------------------------------------------------

  function Header(channels: nat, n: nat): (r: Blob)
    requires channels < 0x1_0000_0000 && n < 0x1_0000_0000
    ensures |r| == 16
  {
    MAGIC + Pack32(channels) + Pack32(n)
  }

  /** The blob of a matrix: header, then the channels one after the other. */
  function MimoBlob(a: Matrix): Blob
    requires |a.cols| < 0x1_0000_0000 && a.n < 0x1_0000_0000
  {
    Header(|a.cols|, a.n) + ToBytes(Flat(a.cols))
  }

  function Reals(c: seq<Sample>): (r: seq<Word>)
    ensures |r| == |c|
  {
    seq(|c|, s requires 0 <= s < |c| => c[s].i)
  }

  function Imags(c: seq<Sample>): (r: seq<Word>)
    ensures |r| == |c|
  {
    seq(|c|, s requires 0 <= s < |c| => c[s].q)
  }

  /** What out[start::2][:len(vals)] = vals leaves at index j. */
  function Strided(before: seq<Word>, start: nat, vals: seq<Word>, j: nat): Word
    requires j < |before|
  {
    if start <= j < start + 2 * |vals| && (j - start) % 2 == 0 then vals[(j - start) / 2] else before[j]
  }

  method StridedStore(out: array<Word>, start: nat, vals: seq<Word>)
    requires start + 2 * |vals| <= out.Length + 1
    modifies out
    ensures forall j: nat :: j < out.Length ==> out[j] == Strided(old(out[..]), start, vals, j)
  {
    var s := 0;
    while s < |vals|
      invariant s <= |vals|
      invariant forall j: nat :: j < out.Length ==> out[j] == Strided(old(out[..]), start, vals[..s], j)
    {
      out[start + 2 * s] := vals[s];
      s := s + 1;
    }
    assert vals[..s] == vals;
  }

  lemma BothStrides(b0: seq<Word>, b1: seq<Word>, b2: seq<Word>, base: nat, c: seq<Sample>)
    requires |b0| == |b1| == |b2| && base + 2 * |c| <= |b0|
    requires forall j: nat :: j < |b1| ==> b1[j] == Strided(b0, base, Reals(c), j)
    requires forall j: nat :: j < |b2| ==> b2[j] == Strided(b1, base + 1, Imags(c), j)
    ensures b2[..base] == b0[..base] && b2[base..base + 2 * |c|] == Interleave(c)
  {}

  /** Both encoders fill one preallocated float array, channel by channel. */
  method FillWords(a: Matrix) returns (out: array<Word>)
    requires Shaped(a)
    ensures fresh(out) && out[..] == Flat(a.cols)
  {
    hide *;
    var n, channels := a.n, |a.cols|;
    ShapedColumns(a);
    FlatLength(a);
    SameProduct(channels, n);
    out := new Word[channels * n * 2](_ => ZERO_WORD);
    var ch := 0;
    while ch < channels
      invariant ch <= channels
      invariant 0 <= ch * (2 * n) <= out.Length
      invariant out[..ch * (2 * n)] == Flat(a.cols[..ch])
    {
      var col := a.cols[ch];
      var base := ch * n * 2;
      SameProduct(ch, n);
      NextBase(ch, channels, n);
      ghost var b0 := out[..];
      StridedStore(out, base, Reals(col));
      ghost var b1 := out[..];
      StridedStore(out, base + 1, Imags(col));
      BothStrides(b0, b1, out[..], base, col);
      assert out[..base + 2 * n] == b0[..base] + Interleave(col);
      FlatNext(a.cols, ch);
      ch := ch + 1;
    }
    assert a.cols[..ch] == a.cols && out[..] == out[..out.Length];
  }

  lemma ShapedColumns(a: Matrix)
    requires Shaped(a)
    ensures forall c :: 0 <= c < |a.cols| ==> |a.cols[c]| == a.n
    ensures Flat(a.cols[..0]) == []
  {}

  lemma SameProduct(ch: nat, n: nat)
    ensures ch * n * 2 == ch * (2 * n) && 0 <= ch * n
    ensures 0 * (2 * n) == 0
  {}

  lemma FlatNext(cols: seq<seq<Sample>>, ch: nat)
    requires ch < |cols|
    ensures Flat(cols[..ch + 1]) == Flat(cols[..ch]) + Interleave(cols[ch])
  {
    assert cols[..ch + 1][..ch] == cols[..ch];
  }

  lemma NextBase(ch: nat, channels: nat, n: nat)
    requires ch < channels
    ensures 0 <= ch * (2 * n)
    ensures ch * (2 * n) + 2 * n == (ch + 1) * (2 * n) <= channels * (2 * n)
  {
    var rest := channels - ch - 1;
    assert channels * (2 * n) == (ch + 1) * (2 * n) + rest * (2 * n);
  }

  /** Which bytes of the blob hold sample s of channel k. */
  lemma WhereSamplesAre(a: Matrix, k: nat, s: nat)
    requires Shaped(a) && |a.cols| < 0x1_0000_0000 && a.n < 0x1_0000_0000 && k < |a.cols| && s < a.n
    ensures var b, at := MimoBlob(a), 16 + 8 * (k * a.n + s);
      && 0 <= k * a.n && at + 8 <= |b| == 16 + 8 * (|a.cols| * a.n)
      && Sample(Word(b[at], b[at + 1], b[at + 2], b[at + 3]), Word(b[at + 4], b[at + 5], b[at + 6], b[at + 7]))
         == a.cols[k][s]
  {
    hide *;
    ShapedColumns(a);
    var ws, base, p := Flat(a.cols), k * (2 * a.n), k * a.n;
    FlatSegment(a, k);
    SameProduct(k, a.n);
    SameProduct(|a.cols|, a.n);
    BlobParts(a);
    var i := base + 2 * s;
    var segment := ws[base..base + 2 * a.n];
    assert ws[i] == segment[2 * s] && ws[i + 1] == segment[2 * s + 1];
    InterleavedAt(a.cols[k], s);
    SampleBytes(MimoBlob(a), ws, i);
  }

  lemma BlobParts(a: Matrix)
    requires |a.cols| < 0x1_0000_0000 && a.n < 0x1_0000_0000
    ensures |MimoBlob(a)| == 16 + 4 * |Flat(a.cols)| && MimoBlob(a)[16..] == ToBytes(Flat(a.cols))
  {
    hide Flat, ToBytes;
  }

  lemma InterleavedAt(c: seq<Sample>, s: nat)
    requires s < |c|
    ensures Interleave(c)[2 * s] == c[s].i && Interleave(c)[2 * s + 1] == c[s].q
  {}

  lemma SampleBytes(b: Blob, ws: seq<Word>, i: nat)
    requires i + 1 < |ws| && |b| == 16 + 4 * |ws| && b[16..] == ToBytes(ws)
    ensures var at := 16 + 4 * i;
      Sample(Word(b[at], b[at + 1], b[at + 2], b[at + 3]), Word(b[at + 4], b[at + 5], b[at + 6], b[at + 7]))
      == Sample(ws[i], ws[i + 1])
  {
    BytesOfWord(ws, i);
    BytesOfWord(ws, i + 1);
    var c := ToBytes(ws);
    hide ToBytes;
    assert forall m :: 16 <= m < |b| ==> b[m] == c[m - 16];
  }

  lemma BytesOfWord(ws: seq<Word>, i: nat)
    requires i < |ws|
    ensures var b := ToBytes(ws);
      Word(b[4 * i], b[4 * i + 1], b[4 * i + 2], b[4 * i + 3]) == ws[i]
  {
    assert (4 * i) / 4 == i && (4 * i + 1) / 4 == i && (4 * i + 2) / 4 == i && (4 * i + 3) / 4 == i;
  }

  /** The first bytes of a blob, spelled out. */
  lemma HeaderBytes(channels: nat, n: nat)
    requires channels < 0x1_0000_0000 && n < 0x1_0000_0000
    ensures var h := Header(channels, n);
      && h[..8] == [77, 73, 77, 79, 0, 0, 0, 0]
      && channels == h[8] as int + 0x100 * h[9] as int + 0x1_0000 * h[10] as int + 0x100_0000 * h[11] as int
      && n == h[12] as int + 0x100 * h[13] as int + 0x1_0000 * h[14] as int + 0x100_0000 * h[15] as int
  {
    Pack32RoundTrip(channels);
    Pack32RoundTrip(n);
  }

  /** encode_mimo on the server. */
  method EncodeMimo(a: Matrix) returns (r: Result<Blob>)
    requires Shaped(a)
    ensures r == EncodeMimoSpec(a)
  {
    if |a.cols| < 1 || a.n < 1 { return Err(InvalidShape); }
    if |a.cols| >= 0x1_0000_0000 || a.n >= 0x1_0000_0000 { return Err(DimensionTooLarge); }
    var out := FillWords(a);
    return Ok(Header(|a.cols|, a.n) + ToBytes(out[..]));
  }

  function EncodeMimoSpec(a: Matrix): Result<Blob> {
    if |a.cols| < 1 || a.n < 1 then Err(InvalidShape)
    else if |a.cols| >= 0x1_0000_0000 || a.n >= 0x1_0000_0000 then Err(DimensionTooLarge)
    else Ok(MimoBlob(a))
  }

  /** _encode_mimo on the client: no check of the shape. */
  method EncodeMimoClient(a: Matrix) returns (r: Result<Blob>)
    requires Shaped(a)
    ensures EncodeMimoSpec(a).Ok? ==> r == EncodeMimoSpec(a)
    ensures r.Ok? <==> |a.cols| < 0x1_0000_0000 && a.n < 0x1_0000_0000
    ensures r.Ok? ==> r.value == MimoBlob(a)
  {
    if |a.cols| >= 0x1_0000_0000 || a.n >= 0x1_0000_0000 { return Err(DimensionTooLarge); }
    var out := FillWords(a);
    return Ok(Header(|a.cols|, a.n) + ToBytes(out[..]));
  }

  function EncodeSiso(x: seq<Sample>): Blob { ToBytes(Interleave(x)) }

  /** encode_siso: two strided writes into a float array. */
  method EncodeSisoInPlace(x: seq<Sample>) returns (r: Blob)
    ensures r == EncodeSiso(x)
  {
    var raw := new Word[|x| * 2](_ => ZERO_WORD);
    ghost var b0 := raw[..];
    StridedStore(raw, 0, Reals(x));
    ghost var b1 := raw[..];
    StridedStore(raw, 1, Imags(x));
    BothStrides(b0, b1, raw[..], 0, x);
    assert raw[..] == raw[0..2 * |x|];
    r := ToBytes(raw[..]);
  }

  // ----- Decoding -----------------------------------------------------------------------

  predicate IsMimoBlob(b: Blob) { |b| >= 16 && b[..8] == MAGIC }

  /** decode_mimo: one strided read per channel. */
  method DecodeMimo(b: Blob) returns (r: Result<Matrix>)
    ensures r == DecodeMimoSpec(b)
  {
    hide *;
    DecodeFails(b);
    if !IsMimoBlob(b) { return Err(NotMimo); }
    var channels, n := Unpack32(b[8..12]), Unpack32(b[12..16]);
    DecodeSteps(b, channels, n);
    var expected := channels * n * 8;
    var payload := b[16..];
    if |payload| < expected { return Err(Truncated); }
    var raw := FromBuffer(payload[..expected]);
    assert payload[..expected] == b[16..16 + expected];
    var cols := [];
    var ch := 0;
    while ch < channels
      invariant ch <= channels && |cols| == ch
      invariant forall k: nat :: k < ch ==> cols[k] == Columns(raw, channels, n)[k]
    {
      var base := ch * n * 2;
      SameProduct(ch, n);
      NextBase(ch, channels, n);
      var col := seq(n, s requires 0 <= s < n => Sample(raw[base + 2 * s], raw[base + 2 * s + 1]));
      ColumnOf(raw, channels, n, ch, col);
      cols := cols + [col];
      ch := ch + 1;
    }
    assert cols == Columns(raw, channels, n);
    return Ok(Matrix(n, cols));
  }

  lemma DecodeFails(b: Blob)
    ensures !IsMimoBlob(b) ==> DecodeMimoSpec(b) == Err(NotMimo)
    ensures IsMimoBlob(b) ==> |b| >= 16
  {}

  lemma ColumnOf(raw: seq<Word>, channels: nat, n: nat, ch: nat, col: seq<Sample>)
    requires |raw| == channels * (2 * n) && ch < channels && |col| == n
    requires 0 <= ch * (2 * n) && ch * (2 * n) + 2 * n <= |raw|
    requires forall s: nat :: s < n ==>
      col[s] == Sample(raw[ch * (2 * n) + 2 * s], raw[ch * (2 * n) + 2 * s + 1])
    ensures col == Columns(raw, channels, n)[ch]
  {}

  lemma DecodeSteps(b: Blob, channels: nat, n: nat)
    requires IsMimoBlob(b) && channels == Unpack32(b[8..12]) && n == Unpack32(b[12..16])
    ensures 0 <= channels * n * 8 && channels * n * 8 % 4 == 0 && channels * n * 8 / 4 == channels * (2 * n)
    ensures |b| - 16 < channels * n * 8 ==> DecodeMimoSpec(b) == Err(Truncated)
    ensures |b| - 16 >= channels * n * 8 ==>
      DecodeMimoSpec(b) == Ok(Matrix(n, Columns(FromBuffer(b[16..16 + channels * n * 8]), channels, n)))
  {
    WholeWords(channels, n);
    hide Columns, FromBuffer;
  }

  lemma WholeWords(channels: nat, n: nat)
    ensures 0 <= channels * n * 8 && channels * n * 8 % 4 == 0
    ensures channels * n * 8 / 4 == channels * (2 * n)
  {
    assert channels * n * 8 == 4 * (channels * (2 * n));
  }

  function Columns(raw: seq<Word>, channels: nat, n: nat): (r: seq<seq<Sample>>)
    requires |raw| == channels * (2 * n)
    ensures |r| == channels
  {
    seq(channels, k requires 0 <= k < channels => NextBase(k, channels, n); ColumnAt(raw, k * (2 * n), n))
  }

  function DecodeMimoSpec(b: Blob): Result<Matrix> {
    if !IsMimoBlob(b) then Err(NotMimo)
    else
      var channels, n := Unpack32(b[8..12]), Unpack32(b[12..16]);
      WholeWords(channels, n);
      if |b| - 16 < channels * n * 8 then Err(Truncated)
      else Ok(Matrix(n, Columns(FromBuffer(b[16..16 + channels * n * 8]), channels, n)))
  }

  /** decode_siso: a last word without partner is dropped. */
  function DecodeSiso(b: Blob): (r: Result<seq<Sample>>)
    ensures r.Ok? <==> |b| % 4 == 0
    ensures r.Ok? ==> |r.value| == |b| / 8
    ensures r.Ok? ==> forall s :: 0 <= s < |r.value| ==>
      r.value[s] == Sample(Word(b[8 * s], b[8 * s + 1], b[8 * s + 2], b[8 * s + 3]),
                           Word(b[8 * s + 4], b[8 * s + 5], b[8 * s + 6], b[8 * s + 7]))
  {
    if |b| % 4 != 0 then Err(OddBuffer)
    else
      var raw := FromBuffer(b);
      var even := if |raw| % 2 != 0 then raw[..|raw| - 1] else raw;
      Ok(ColumnAt(even, 0, |even| / 2))
  }

  function EncodeAny(x: Signal): Result<Blob> {
    match x case Siso(s) => Ok(EncodeSiso(s)) case Mimo(a) => EncodeMimoSpec(a)
  }

  function DecodeAny(b: Blob): Result<Signal> {
    if IsMimoBlob(b) then
      match DecodeMimoSpec(b) case Ok(a) => Ok(Mimo(a)) case Err(e) => Err(e)
    else
      match DecodeSiso(b) case Ok(s) => Ok(Siso(s)) case Err(e) => Err(e)
  }

  // ----- Round trips ---------------------------------------------------------------------

  /** Decoding gives back the matrix, whatever bytes follow the blob. */
  lemma MimoRoundTrip(a: Matrix, trailing: Blob)
    requires Shaped(a) && EncodeMimoSpec(a).Ok?
    ensures DecodeMimoSpec(EncodeMimoSpec(a).value + trailing) == Ok(a)
  {
    var channels, n := |a.cols|, a.n;
    var ws := Flat(a.cols);
    var b := MimoBlob(a) + trailing;
    FlatLength(a);
    WholeWords(channels, n);
    HeaderFields(b, channels, n);
    assert b[16..16 + channels * n * 8] == ToBytes(ws);
    BufferRoundTrip(ws);
    forall k | 0 <= k < channels ensures Columns(ws, channels, n)[k] == a.cols[k] {
      FlatSegment(a, k);
      ColumnOfInterleaved(ws, k * (2 * n), a.cols[k]);
    }
    assert Columns(ws, channels, n) == a.cols;
  }

  lemma HeaderFields(b: Blob, channels: nat, n: nat)
    requires channels < 0x1_0000_0000 && n < 0x1_0000_0000
    requires Header(channels, n) <= b
    ensures IsMimoBlob(b) && Unpack32(b[8..12]) == channels && Unpack32(b[12..16]) == n
  {
    Pack32RoundTrip(channels);
    Pack32RoundTrip(n);
    var h := Header(channels, n);
    assert b[..8] == h[..8] == MAGIC;
    assert b[8..12] == h[8..12] == Pack32(channels);
    assert b[12..16] == h[12..16] == Pack32(n);
  }

  lemma SisoRoundTrip(x: seq<Sample>)
    ensures DecodeSiso(EncodeSiso(x)) == Ok(x)
  {
    BufferRoundTrip(Interleave(x));
    ColumnOfInterleaved(Interleave(x), 0, x);
  }

  /** The eight bytes of the magic, read as one sample. */
  const MAGIC_SAMPLE := Sample(Word(77, 73, 77, 79), ZERO_WORD)

  lemma FirstSampleBytes(x: seq<Sample>)
    requires x != []
    ensures |EncodeSiso(x)| == 8 * |x|
    ensures EncodeSiso(x)[..8] == MAGIC <==> x[0] == MAGIC_SAMPLE
  {
    var b := EncodeSiso(x);
    var ws := Interleave(x);
    assert ws[0] == x[0].i && ws[1] == x[0].q;
    assert b[0] == ws[0].b0 && b[1] == ws[0].b1 && b[2] == ws[0].b2 && b[3] == ws[0].b3;
    assert b[4] == ws[1].b0 && b[5] == ws[1].b1 && b[6] == ws[1].b2 && b[7] == ws[1].b3;
    assert b[..8] == [b[0], b[1], b[2], b[3], b[4], b[5], b[6], b[7]];
  }

  /** decode_any undoes encode_any on every matrix, and on every 1-D signal except
      exactly those of two or more samples that begin with the magic. */
  lemma AnyRoundTrip(x: Signal)
    requires x.Mimo? ==> Shaped(x.matrix)
    ensures x.Mimo? && EncodeAny(x).Ok? ==> DecodeAny(EncodeAny(x).value) == Ok(x)
    ensures x.Siso? ==>
      (DecodeAny(EncodeAny(x).value) == Ok(x) <==> !(|x.samples| >= 2 && x.samples[0] == MAGIC_SAMPLE))
  {
    match x
    case Mimo(a) =>
      if EncodeAny(x).Ok? {
        MimoRoundTrip(a, []);
        assert MimoBlob(a) + [] == MimoBlob(a);
        HeaderFields(MimoBlob(a), |a.cols|, a.n);
      }
    case Siso(s) =>
      SisoRoundTrip(s);
      if s != [] { FirstSampleBytes(s); }
  }
}

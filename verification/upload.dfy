/** The payload checks of the upload handler in entrypoint/main.py, against what the
    worker later makes of the stored bytes. */
module Upload {
  import opened MimoFormat

  datatype Mode = SisoMode | MimoMode | ListenMode

  datatype Limits = Limits(maxUpload: nat, mimoEnabled: bool, maxChannels: nat, maxSamples: nat)

  datatype Verdict =
    | Accepted(mode: Mode, channels: nat, samples: nat)
    | FileTooLarge | NoMimoHeader | MimoDisabled | HeaderTooShort | BadChannelCount
    | ChannelsDiffer | PayloadTruncated | EmptySignal | TooManySamples

  /** The server's test looks at 8 bytes, the decoder's at 16. */
  predicate HasMagic(data: Blob) { |data| >= 8 && data[..8] == MAGIC }

  /** What the worker transmits for the stored upload: shape, or the error it fails with. */
  datatype Shape = Vector(samples: nat) | Rows(samples: nat, channels: nat) | Failure(error: Error)

  function WorkerShape(data: Blob): Shape {
    match DecodeAny(data)
    case Ok(Siso(x)) => Vector(|x|)
    case Ok(Mimo(a)) => Rows(a.n, |a.cols|)
    case Err(e) => Failure(e)
  }

  /** The payload checks of ws_run, after the handshake has fixed mode, announced
      channel count and listen length. An accepted upload is decoded by the worker to
      exactly the shape recorded with the task, except a 1-D upload whose length is no
      multiple of 4, which is accepted and which the worker cannot decode. */
  method CheckPayload(mode0: Mode, announced: nat, listenSamples: nat, data: Blob, lim: Limits)
    returns (v: Verdict)
    ensures v.Accepted? && v.mode == MimoMode ==>
      WorkerShape(data) == Rows(v.samples, v.channels) && 1 <= v.channels <= lim.maxChannels
    ensures v.Accepted? && v.mode == SisoMode ==>
      WorkerShape(data) == if |data| % 4 == 0 then Vector(v.samples) else Failure(OddBuffer)
    ensures v.Accepted? && v.mode != ListenMode ==>
      v.samples > 0 && (lim.maxSamples == 0 || v.samples <= lim.maxSamples)
    ensures v.Accepted? ==> (v.mode == ListenMode <==> mode0 == ListenMode)
    ensures v.Accepted? && v.mode == ListenMode ==> v.samples == listenSamples && v.channels == announced
    // a listen request carries no payload to look at
    ensures mode0 == ListenMode ==>
      v == if |data| > lim.maxUpload then FileTooLarge else Accepted(ListenMode, announced, listenSamples)
    // eight bytes of magic decide between the two kinds of payload, whatever was announced
    ensures v == FileTooLarge <==> |data| > lim.maxUpload
    ensures mode0 != ListenMode && |data| <= lim.maxUpload && !(|data| >= 8 && data[..8] == MAGIC) ==>
      v == if mode0 == MimoMode then NoMimoHeader
           else if |data| / 8 == 0 then EmptySignal
           else if lim.maxSamples != 0 && |data| / 8 > lim.maxSamples then TooManySamples
           else Accepted(SisoMode, announced, |data| / 8)
    // and a payload that begins with them is taken for MIMO or refused
    ensures mode0 != ListenMode && |data| >= 8 && data[..8] == MAGIC && v.Accepted? ==> v.mode == MimoMode
    ensures mode0 != ListenMode && 8 <= |data| <= lim.maxUpload && data[..8] == MAGIC ==>
      && (v == MimoDisabled <==> mode0 == SisoMode && !lim.mimoEnabled)
      && (v == HeaderTooShort <==> v != MimoDisabled && |data| < 16)
      && (|data| >= 16 && v != MimoDisabled ==>
            var ch, n := Unpack32(data[8..12]), Unpack32(data[12..16]);
            && (v == BadChannelCount <==> ch < 1 || ch > lim.maxChannels)
            && (v == ChannelsDiffer <==> v != BadChannelCount && mode0 == MimoMode && ch != announced)
            && (v == PayloadTruncated <==> v != BadChannelCount && v != ChannelsDiffer && |data| - 16 < ch * n * 8)
            && (!(v in {BadChannelCount, ChannelsDiffer, PayloadTruncated}) ==>
                  v == if n == 0 then EmptySignal
                       else if 0 < lim.maxSamples < n then TooManySamples else Accepted(MimoMode, ch, n)))
    // nothing that fits is turned away
    ensures mode0 != ListenMode && WorkerShape(data).Rows? ==>
      var s := WorkerShape(data);
      (v.Accepted? <==> && |data| <= lim.maxUpload && (mode0 == SisoMode ==> lim.mimoEnabled)
                        && 1 <= s.channels <= lim.maxChannels
                        && s.samples > 0 && (lim.maxSamples == 0 || s.samples <= lim.maxSamples)
                        && (mode0 == MimoMode ==> s.channels == announced))
  {
    var mode, channels := mode0, announced;
    if |data| > lim.maxUpload { return FileTooLarge; }
    var isMimo := HasMagic(data);
    if mode == MimoMode && !isMimo { return NoMimoHeader; }
    var explicit := mode == MimoMode;
    if mode == SisoMode && isMimo {
      if !lim.mimoEnabled { return MimoDisabled; }
      mode := MimoMode;
    }
    var samples;
    if mode == MimoMode {
      if |data| < 16 { return HeaderTooShort; }
      var hdrCh, hdrN := Unpack32(data[8..12]), Unpack32(data[12..16]);
      WholeWords(hdrCh, hdrN);
      if hdrCh < 1 || hdrCh > lim.maxChannels { return BadChannelCount; }
      if explicit && hdrCh != channels { return ChannelsDiffer; }
      if |data| - 16 < hdrCh * hdrN * 8 { return PayloadTruncated; }
      channels := hdrCh;
      samples := hdrN;
    } else if mode == SisoMode {
      samples := |data| / 8;
    } else {
      samples := listenSamples;
    }
    if mode != ListenMode {
      if samples <= 0 { return EmptySignal; }
      if lim.maxSamples != 0 && samples > lim.maxSamples { return TooManySamples; }
    }
    return Accepted(mode, channels, samples);
  }

  /** Nine arbitrary bytes pass the checks as one sample; the worker cannot read them. */
  method OddUploadIsAccepted() returns (data: Blob, v: Verdict)
    ensures v.Accepted? && v.mode == SisoMode && WorkerShape(data) == Failure(OddBuffer)
  {
    data := [1, 2, 3, 4, 5, 6, 7, 8, 9];
    v := CheckPayload(SisoMode, 1, 0, data, Limits(100, false, 2, 10));
    assert data[0] != MAGIC[0];
  }

  /** What a client encodes is what the worker will transmit: every matrix, and a 1-D signal
      exactly unless it has two samples or more and begins with the magic. */
  lemma EncodedShape(x: Signal)
    requires x.Mimo? ==> Shaped(x.matrix)
    requires EncodeAny(x).Ok?
    ensures x.Mimo? ==> WorkerShape(EncodeAny(x).value) == Rows(x.matrix.n, |x.matrix.cols|)
    ensures x.Siso? ==>
      (WorkerShape(EncodeAny(x).value) == Vector(|x.samples|) <==> !(|x.samples| >= 2 && x.samples[0] == MAGIC_SAMPLE))
  {
    AnyRoundTrip(x);
    if x.Siso? && |x.samples| >= 2 { FirstSampleBytes(x.samples); }
  }
}

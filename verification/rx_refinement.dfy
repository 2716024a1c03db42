/** Incremental receiver configuration as a refinement of setting everything: over any
    sequence of configure calls, exactly when the two agree, and how far they can part. */
module RxRefinement {
  import opened Collections
  import opened RxConfig

  /** The settings of a channel that are compared with a tolerance. */
  datatype Knob = Tuning | Gain | Filter

  function Tolerance(k: Knob): real {
    match k case Tuning => FC_ATOL case Gain => G_ATOL case Filter => BW_ATOL
  }

  function OnHardware(f: Front, k: Knob): real {
    match k case Tuning => f.fc case Gain => f.gain case Filter => f.bw
  }

  /** The filter may not have been asked for. */
  function Known(c: Cached, k: Knob): Option<real> {
    match k case Tuning => Some(c.fc) case Gain => Some(c.gain) case Filter => c.bw
  }

  function Asked(q: Request, ch: Channel, k: Knob): Option<real>
    requires ch in q.gain
  {
    match k case Tuning => Some(q.fc) case Gain => Some(q.gain[ch]) case Filter => q.bw
  }

  function Made(dev: Device, ch: Channel, k: Knob, v: real): real {
    match k case Tuning => dev.fc(ch, v) case Gain => dev.gain(ch, v) case Filter => dev.bw(ch, v)
  }

  predicate Resolved(q: Request) { forall ch :: ch in q.channels ==> ch in q.gain && ch in q.antenna }

  /** The call leaves knob k of channel ch alone. */
  predicate Skipped(cache: map<Channel, Cached>, q: Request, ch: Channel, k: Knob)
    requires Resolved(q)
  {
    && ch in q.channels && ch in cache && Known(cache[ch], k).Some? && Asked(q, ch, k).Some?
    && Close(Known(cache[ch], k).value, Asked(q, ch, k).value, Tolerance(k))
  }

  /** What the call does to knob k of a requested channel. */
  lemma KnobSet(dev: Device, f: Front, cache: map<Channel, Cached>, q: Request, ch: Channel, k: Knob)
    requires Resolved(q) && ch in q.channels
    ensures OnHardware(SetChanged(dev, f, Lookup(cache, ch), q, ch), k) ==
      if Asked(q, ch, k).None? || Skipped(cache, q, ch, k) then OnHardware(f, k)
      else Made(dev, ch, k, Asked(q, ch, k).value)
    ensures OnHardware(SetAll(dev, f, q, ch), k) ==
      if Asked(q, ch, k).None? then OnHardware(f, k) else Made(dev, ch, k, Asked(q, ch, k).value)
    ensures Known(Remember(q, ch), k) == Asked(q, ch, k)
  {}

  // ----- Runs ---------------------------------------------------------------------------------

  ghost predicate RunnableFrom(dev: Device, s: State, qs: seq<Request>)
    decreases |qs|
  {
    qs == [] || (Complete(s, qs[0]) && RunnableFrom(dev, Incremental(dev, s, qs[0]), qs[1..]))
  }

  ghost function RunIncremental(dev: Device, s: State, qs: seq<Request>): State
    requires RunnableFrom(dev, s, qs)
    decreases |qs|
  {
    if qs == [] then s else RunIncremental(dev, Incremental(dev, s, qs[0]), qs[1..])
  }

  /** What is remembered after a call: the call itself, on its channels. */
  function Updated(cache: map<Channel, Cached>, q: Request): map<Channel, Cached>
    requires Resolved(q)
  {
    map ch | ch in cache.Keys + (set c | c in q.channels) :: if ch in q.channels then Remember(q, ch) else cache[ch]
  }

  lemma RemembersCalls(dev: Device, s: State, q: Request)
    requires Complete(s, q)
    ensures Resolved(q) && Incremental(dev, s, q).cache == Updated(s.cache, q)
    ensures Incremental(dev, s, q).hw.Keys == s.hw.Keys
  {
    RateSetKeys(dev, s, q);
    hide RateSet, SetChanged;
  }

  /** The last call of qs for channel ch, or -1. */
  function LastCall(qs: seq<Request>, ch: Channel): (r: int)
    ensures -1 <= r < |qs|
    ensures r >= 0 ==> ch in qs[r].channels
    ensures forall i :: r < i < |qs| ==> ch !in qs[i].channels
  {
    if qs == [] then -1
    else
      var r := LastCall(qs[1..], ch);
      if r >= 0 then r + 1 else if ch in qs[0].channels then 0 else -1
  }

  /** So what a call is compared with is the last call for that channel, skipped or not. */
  lemma {:induction false} RemembersLastCall(dev: Device, s: State, qs: seq<Request>, ch: Channel)
    requires RunnableFrom(dev, s, qs)
    ensures var c, i := RunIncremental(dev, s, qs).cache, LastCall(qs, ch);
      if i < 0 then Lookup(c, ch) == Lookup(s.cache, ch)
      else ch in qs[i].gain && ch in qs[i].antenna && ch in c && c[ch] == Remember(qs[i], ch)
    decreases |qs|
  {
    if qs != [] {
      RemembersCalls(dev, s, qs[0]);
      hide Incremental;
      RemembersLastCall(dev, Incremental(dev, s, qs[0]), qs[1..], ch);
    }
  }

  // ----- Exactly when skipping changes nothing --------------------------------------------

  /** Channel ch holds what the remembered values turn into. */
  ghost predicate Describes(dev: Device, ch: Channel, c: Cached, f: Front) {
    && f.antenna == c.antenna
    && forall k :: Known(c, k).Some? ==> OnHardware(f, k) == Made(dev, ch, k, Known(c, k).value)
  }

  ghost predicate Tuned(dev: Device, s: State) {
    forall ch :: ch in s.cache ==> ch in s.hw && Describes(dev, ch, s.cache[ch], s.hw[ch])
  }

  /** Where runs start: what was read describes the hardware exactly if setting a reading
      would give it again. */
  lemma FreshIsTuned(dev: Device, hw: map<Channel, Front>)
    ensures Tuned(dev, Fresh(hw)) <==>
      forall ch :: ch in hw ==> dev.fc(ch, hw[ch].fc) == hw[ch].fc && dev.gain(ch, hw[ch].gain) == hw[ch].gain
  {
    var s := Fresh(hw);
    forall ch | ch in hw
      ensures Describes(dev, ch, s.cache[ch], s.hw[ch]) <==>
        dev.fc(ch, hw[ch].fc) == hw[ch].fc && dev.gain(ch, hw[ch].gain) == hw[ch].gain
    {
      var c, f := s.cache[ch], s.hw[ch];
      if Describes(dev, ch, c, f) {
        assert Known(c, Tuning).Some? && Known(c, Gain).Some?;
        assert OnHardware(f, Tuning) == f.fc && OnHardware(f, Gain) == f.gain;
      }
    }
  }

  /** Everything but the sample rate agrees. */
  ghost predicate SameFront(f: Front, g: Front) {
    f.antenna == g.antenna && forall k :: OnHardware(f, k) == OnHardware(g, k)
  }

  ghost predicate SameTuning(a: map<Channel, Front>, b: map<Channel, Front>) {
    a.Keys == b.Keys && forall ch :: ch in a ==> SameFront(a[ch], b[ch])
  }

  /** If the call skips the knob, then to no effect: setting it would have given the same. */
  ghost predicate NoLoss(dev: Device, cache: map<Channel, Cached>, q: Request, ch: Channel, k: Knob)
    requires Resolved(q)
  {
    Skipped(cache, q, ch, k) ==>
      Made(dev, ch, k, Known(cache[ch], k).value) == Made(dev, ch, k, Asked(q, ch, k).value)
  }

  ghost predicate Harmless(dev: Device, cache: map<Channel, Cached>, q: Request)
    requires Resolved(q)
  {
    forall ch, k :: NoLoss(dev, cache, q, ch, k)
  }

  /** One channel of one call, against setting everything. */
  ghost predicate ChannelSame(dev: Device, f: Front, g: Front, cache: map<Channel, Cached>, q: Request, ch: Channel)
    requires Resolved(q) && ch in q.channels
  {
    f.antenna == g.antenna && forall k :: OnHardware(f, k) == OnHardware(g, k) <==> NoLoss(dev, cache, q, ch, k)
  }

  lemma ChannelIff(dev: Device, f: Front, g: Front, cache: map<Channel, Cached>, q: Request, ch: Channel)
    requires Resolved(q) && ch in q.channels && SameFront(f, g)
    requires ch in cache ==> Describes(dev, ch, cache[ch], f)
    ensures ChannelSame(dev, SetChanged(dev, f, Lookup(cache, ch), q, ch), SetAll(dev, g, q, ch), cache, q, ch)
  {
    var t, u := SetChanged(dev, f, Lookup(cache, ch), q, ch), SetAll(dev, g, q, ch);
    forall k ensures OnHardware(t, k) == OnHardware(u, k) <==> NoLoss(dev, cache, q, ch, k) {
      KnobSet(dev, f, cache, q, ch, k);
      KnobSet(dev, g, cache, q, ch, k);
    }
  }

  lemma SameKnobs(f: Front, g: Front)
    requires f == g.(fs := f.fs)
    ensures SameFront(f, g)
  {}

  lemma SameChain(a: Front, b: Front, c: Front, d: Front)
    requires SameFront(a, b) && SameFront(b, c) && SameFront(d, c)
    ensures SameFront(a, d)
  {}

  lemma DescribesSame(dev: Device, ch: Channel, c: Cached, f: Front, g: Front)
    requires Describes(dev, ch, c, f) && SameFront(g, f)
    ensures Describes(dev, ch, c, g)
  {}

  /** One call, against setting everything: the tuning is the same exactly if the call was
      harmless, and then what is remembered still describes the hardware. */
  lemma StepIff(dev: Device, s: State, h: map<Channel, Front>, q: Request)
    requires Complete(s, q) && Resolved(q) && Tuned(dev, s) && SameTuning(s.hw, h)
    ensures Addresses(h, q)
    ensures SameTuning(Incremental(dev, s, q).hw, Full(dev, h, q)) <==> Harmless(dev, s.cache, q)
    ensures Harmless(dev, s.cache, q) ==> Tuned(dev, Incremental(dev, s, q))
  {
    IncrementalParts(dev, s, q);
    var t, g, rated := Incremental(dev, s, q), Full(dev, h, q), RateSet(dev, s, q);
    FullParts(dev, h, q);
    hide Incremental, Full, RateSet, SetChanged, SetAll, Describes, SameFront, Remember, NoLoss, Lookup, ChannelSame;
    forall ch | ch in t.hw
      ensures ch in s.cache ==> Describes(dev, ch, s.cache[ch], rated[ch])
      ensures ch !in q.channels ==> SameFront(t.hw[ch], g[ch])
      ensures ch in q.channels ==> ChannelSame(dev, t.hw[ch], g[ch], s.cache, q, ch)
    {
      var rate := h[ch].(fs := dev.fs(q.fs));
      SameKnobs(rated[ch], s.hw[ch]);
      SameKnobs(rate, h[ch]);
      SameChain(rated[ch], s.hw[ch], h[ch], rate);
      if ch in s.cache { DescribesSame(dev, ch, s.cache[ch], s.hw[ch], rated[ch]); }
      if ch in q.channels { ChannelIff(dev, rated[ch], rate, s.cache, q, ch); }
    }
    SameTuningIff(dev, t.hw, g, s.cache, q);
    if Harmless(dev, s.cache, q) {
      forall ch | ch in t.cache ensures Describes(dev, ch, t.cache[ch], t.hw[ch]) {
        if ch in q.channels { AfterCall(dev, rated[ch], s.cache, q, ch); }
      }
    }
  }

  predicate Addresses(hw: map<Channel, Front>, q: Request) {
    forall ch :: ch in q.channels ==> ch in hw && ch in q.gain && ch in q.antenna
  }

  lemma FullParts(dev: Device, h: map<Channel, Front>, q: Request)
    requires Addresses(h, q)
    ensures var g := Full(dev, h, q);
      && g.Keys == h.Keys
      && forall ch :: ch in g ==>
           var rate := h[ch].(fs := dev.fs(q.fs));
           g[ch] == if ch in q.channels then SetAll(dev, rate, q, ch) else rate
  {}

  lemma SameTuningIff(dev: Device, a: map<Channel, Front>, b: map<Channel, Front>, cache: map<Channel, Cached>,
                      q: Request)
    requires Resolved(q) && a.Keys == b.Keys && forall ch :: ch in q.channels ==> ch in a
    requires forall ch :: ch in a && ch !in q.channels ==> SameFront(a[ch], b[ch])
    requires forall ch :: ch in q.channels ==> ChannelSame(dev, a[ch], b[ch], cache, q, ch)
    ensures SameTuning(a, b) <==> Harmless(dev, cache, q)
  {
    hide OnHardware, Known, Asked, Made;
    if SameTuning(a, b) {
      forall ch, k ensures NoLoss(dev, cache, q, ch, k) {
        if Skipped(cache, q, ch, k) {
          assert ChannelSame(dev, a[ch], b[ch], cache, q, ch) && SameFront(a[ch], b[ch]);
          assert OnHardware(a[ch], k) == OnHardware(b[ch], k);
        }
      }
    }
    if Harmless(dev, cache, q) {
      forall ch | ch in a ensures SameFront(a[ch], b[ch]) {
        if ch in q.channels {
          assert ChannelSame(dev, a[ch], b[ch], cache, q, ch);
          assert forall k :: NoLoss(dev, cache, q, ch, k);
        }
      }
    }
  }

  /** After a harmless call the hardware has what the call asked for. */
  lemma AfterCall(dev: Device, f: Front, cache: map<Channel, Cached>, q: Request, ch: Channel)
    requires Resolved(q) && ch in q.channels && Harmless(dev, cache, q)
    requires ch in cache ==> Describes(dev, ch, cache[ch], f)
    ensures Describes(dev, ch, Remember(q, ch), SetChanged(dev, f, Lookup(cache, ch), q, ch))
  {
    var t, c := SetChanged(dev, f, Lookup(cache, ch), q, ch), Remember(q, ch);
    forall k | Known(c, k).Some? ensures OnHardware(t, k) == Made(dev, ch, k, Known(c, k).value) {
      KnobSet(dev, f, cache, q, ch, k);
      assert NoLoss(dev, cache, q, ch, k);
    }
  }

  // ----- Over runs ------------------------------------------------------------------------------

  /** Harmless in every call; only the calls and what was remembered at first matter. */
  ghost predicate HarmlessRun(dev: Device, cache: map<Channel, Cached>, qs: seq<Request>)
    decreases |qs|
  {
    qs == [] || (Resolved(qs[0]) && Harmless(dev, cache, qs[0]) && HarmlessRun(dev, Updated(cache, qs[0]), qs[1..]))
  }

  /** The tuning is the same at first and after every call. */
  ghost predicate SameThroughout(dev: Device, s: State, h: map<Channel, Front>, qs: seq<Request>)
    requires RunnableFrom(dev, s, qs)
    decreases |qs|
  {
    && SameTuning(s.hw, h)
    && (qs == [] || (&& Addresses(h, qs[0])
                     && SameThroughout(dev, Incremental(dev, s, qs[0]), Full(dev, h, qs[0]), qs[1..])))
  }

  /** Skipping is setting everything, at every moment of a run, exactly if every skipped
      value would have come out the same as the last one asked for. */
  lemma {:induction false} SkippingIsExactIff(dev: Device, s: State, h: map<Channel, Front>, qs: seq<Request>)
    requires RunnableFrom(dev, s, qs) && Tuned(dev, s) && SameTuning(s.hw, h)
    ensures SameThroughout(dev, s, h, qs) <==> HarmlessRun(dev, s.cache, qs)
    decreases |qs|
  {
    if qs != [] {
      var q := qs[0];
      RemembersCalls(dev, s, q);
      StepIff(dev, s, h, q);
      hide Incremental, Full, Tuned, SameTuning, Harmless, Complete, Resolved, Addresses;
      if Harmless(dev, s.cache, q) {
        SkippingIsExactIff(dev, Incremental(dev, s, q), Full(dev, h, q), qs[1..]);
      }
    }
  }

  // ----- The sampling rate ------------------------------------------------------------------

  /** After every call its channels run at the rate that setting it gives. */
  ghost predicate RatesThroughout(dev: Device, s: State, qs: seq<Request>)
    requires RunnableFrom(dev, s, qs)
    decreases |qs|
  {
    qs == [] || (RateExact(dev, Incremental(dev, s, qs[0]), qs[0])
                 && RatesThroughout(dev, Incremental(dev, s, qs[0]), qs[1..]))
  }

  ghost predicate RateExact(dev: Device, t: State, q: Request) {
    forall ch :: ch in q.channels ==> ch in t.hw && t.hw[ch].fs == dev.fs(q.fs)
  }

  /** Every channel runs at what the remembered rate turns into. */
  ghost predicate RateTuned(dev: Device, s: State) {
    s.currentFs.Some? && forall ch :: ch in s.hw ==> s.hw[ch].fs == dev.fs(s.currentFs.value)
  }

  /** Where runs start: exactly on hardware with a channel 0 whose rate all channels read
      and which, when set, is read again. */
  lemma FreshIsRateTuned(dev: Device, hw: map<Channel, Front>)
    ensures RateTuned(dev, Fresh(hw)) <==> 0 in hw && forall ch :: ch in hw ==> hw[ch].fs == dev.fs(hw[0].fs)
  {}

  /** Of the requested rates alone, from the rate `cur` on: where one is close to the last
      and to what the hardware makes of the last, the hardware makes the same of both. */
  ghost predicate RateCalls(dev: Device, cur: real, qs: seq<Request>)
    decreases |qs|
  {
    qs == [] ||
    (&& (-1.0 <= cur - qs[0].fs <= 1.0 && -1.0 <= dev.fs(cur) - qs[0].fs <= 1.0 ==> dev.fs(cur) == dev.fs(qs[0].fs))
     && RateCalls(dev, qs[0].fs, qs[1..]))
  }

  /** Skipping the rate is setting it, after every call of a run, exactly for such rates. */
  lemma {:induction false} RatesExactIff(dev: Device, s: State, qs: seq<Request>)
    requires RunnableFrom(dev, s, qs) && RateTuned(dev, s)
    requires forall i :: 0 <= i < |qs| ==> qs[i].channels != []
    ensures RatesThroughout(dev, s, qs) <==> RateCalls(dev, s.currentFs.value, qs)
    decreases |qs|
  {
    if qs != [] {
      StepRate(dev, s, qs[0]);
      hide Incremental, RateTuned, RateExact, Complete, Close;
      if RateExact(dev, Incremental(dev, s, qs[0]), qs[0]) {
        RatesExactIff(dev, Incremental(dev, s, qs[0]), qs[1..]);
      }
    }
  }

  /** What one call does to the rates. */
  lemma RateAfter(dev: Device, s: State, q: Request)
    requires Complete(s, q)
    ensures var t := Incremental(dev, s, q);
      && t.currentFs == Some(q.fs) && t.hw.Keys == s.hw.Keys
      && forall ch :: ch in t.hw ==> t.hw[ch].fs == if RateNeeded(s, q) then dev.fs(q.fs) else s.hw[ch].fs
  {
    IncrementalParts(dev, s, q);
    var t, rated := Incremental(dev, s, q), RateSet(dev, s, q);
    assert t.currentFs == Some(q.fs);
    hide Incremental;
    forall ch | ch in t.hw ensures t.hw[ch].fs == rated[ch].fs {}
    hide SetChanged;
  }

  lemma StepRate(dev: Device, s: State, q: Request)
    requires Complete(s, q) && RateTuned(dev, s) && q.channels != []
    ensures var t, cur := Incremental(dev, s, q), s.currentFs.value;
      && t.currentFs == Some(q.fs)
      && (RateExact(dev, t, q) <==>
           (Close(cur, q.fs, FS_ATOL) && Close(dev.fs(cur), q.fs, FS_ATOL) ==> dev.fs(cur) == dev.fs(q.fs)))
      && (RateExact(dev, t, q) ==> RateTuned(dev, t))
  {
    RateAfter(dev, s, q);
    hide Incremental;
    assert q.channels[0] in q.channels;
  }

  /** From any rates, equal or not: a call that sets the rate sets it everywhere. */
  lemma SettingTunesRates(dev: Device, s: State, q: Request)
    requires Complete(s, q) && RateNeeded(s, q)
    ensures RateTuned(dev, Incremental(dev, s, q))
  {
    RateAfter(dev, s, q);
    hide Incremental;
  }

  function Rates(hw: map<Channel, Front>): map<Channel, real> { map ch | ch in hw :: hw[ch].fs }

  /** Of the requested rates and of the readings at first, whatever these are: until a call
      sets the rate, its channels must read what setting it would give. */
  ghost predicate RateCallsFrom(dev: Device, readings: map<Channel, real>, cur: Option<real>, qs: seq<Request>)
    decreases |qs|
  {
    if qs == [] then true
    else
      var q := qs[0];
      && (forall ch :: ch in q.channels ==> ch in readings)
      && if || cur.None? || !Close(cur.value, q.fs, FS_ATOL)
            || exists ch :: ch in q.channels && !Close(readings[ch], q.fs, FS_ATOL)
         then RateCalls(dev, q.fs, qs[1..])
         else && (forall ch :: ch in q.channels ==> readings[ch] == dev.fs(q.fs))
              && RateCallsFrom(dev, readings, Some(q.fs), qs[1..])
  }

  lemma {:induction false} RatesExactFromAny(dev: Device, s: State, qs: seq<Request>)
    requires RunnableFrom(dev, s, qs) && forall i :: 0 <= i < |qs| ==> qs[i].channels != []
    ensures RatesThroughout(dev, s, qs) <==> RateCallsFrom(dev, Rates(s.hw), s.currentFs, qs)
    decreases |qs|
  {
    if qs != [] {
      var q := qs[0];
      var t := Incremental(dev, s, q);
      RateAfter(dev, s, q);
      if RateNeeded(s, q) {
        SettingTunesRates(dev, s, q);
        assert RateExact(dev, t, q);
        hide Incremental, RateTuned, RateExact, Close;
        RatesExactIff(dev, t, qs[1..]);
      } else {
        assert Rates(t.hw) == Rates(s.hw);
        assert RateExact(dev, t, q) <==> forall ch :: ch in q.channels ==> Rates(s.hw)[ch] == dev.fs(q.fs);
        hide Incremental, RateExact, Close, Rates;
        RatesExactFromAny(dev, t, qs[1..]);
      }
    }
  }

  /** After every call each of its channels runs at the rate that setting it gives or,
      however many calls have skipped it, at most one tolerance from the requested one. */
  ghost predicate RatesNear(dev: Device, s: State, qs: seq<Request>)
    requires RunnableFrom(dev, s, qs)
    decreases |qs|
  {
    qs == [] || (RateNear(dev, Incremental(dev, s, qs[0]), qs[0])
                 && RatesNear(dev, Incremental(dev, s, qs[0]), qs[1..]))
  }

  ghost predicate RateNear(dev: Device, t: State, q: Request) {
    forall ch :: ch in q.channels ==>
      ch in t.hw && (t.hw[ch].fs == dev.fs(q.fs) || -1.0 <= t.hw[ch].fs - q.fs <= 1.0)
  }

  lemma {:induction false} RatesStayNear(dev: Device, s: State, qs: seq<Request>)
    requires RunnableFrom(dev, s, qs)
    ensures RatesNear(dev, s, qs)
    decreases |qs|
  {
    if qs != [] {
      RateAfter(dev, s, qs[0]);
      hide Incremental;
      RatesStayNear(dev, Incremental(dev, s, qs[0]), qs[1..]);
    }
  }

  // ----- Values that are apart -----------------------------------------------------------------

  /** Different values differ by more than the tolerance. */
  ghost predicate Apart(vs: set<real>, tol: real) {
    forall a, b :: a in vs && b in vs && a != b ==> !Close(a, b, tol)
  }

  ghost predicate CacheWithin(cache: map<Channel, Cached>, vs: Knob -> set<real>) {
    forall ch, k :: ch in cache && Known(cache[ch], k).Some? ==> Known(cache[ch], k).value in vs(k)
  }

  ghost predicate RequestWithin(q: Request, vs: Knob -> set<real>) {
    forall ch, k :: ch in q.gain && Asked(q, ch, k).Some? ==> Asked(q, ch, k).value in vs(k)
  }

  /** In particular nothing is lost when the distinct values of a run are apart. */
  lemma {:induction false} ApartIsHarmless(dev: Device, s: State, qs: seq<Request>, vs: Knob -> set<real>)
    requires RunnableFrom(dev, s, qs) && CacheWithin(s.cache, vs) && forall k :: Apart(vs(k), Tolerance(k))
    requires forall i :: 0 <= i < |qs| ==> RequestWithin(qs[i], vs)
    ensures HarmlessRun(dev, s.cache, qs)
    decreases |qs|
  {
    if qs != [] {
      var q := qs[0];
      RemembersCalls(dev, s, q);
      assert RequestWithin(q, vs);
      forall ch, k ensures NoLoss(dev, s.cache, q, ch, k) {
        assert Apart(vs(k), Tolerance(k));
      }
      UpdatedWithin(s.cache, q, vs);
      hide Incremental, CacheWithin, RequestWithin, NoLoss, Known, Asked, Complete;
      ApartIsHarmless(dev, Incremental(dev, s, q), qs[1..], vs);
    }
  }

  lemma UpdatedWithin(cache: map<Channel, Cached>, q: Request, vs: Knob -> set<real>)
    requires Resolved(q) && CacheWithin(cache, vs) && RequestWithin(q, vs)
    ensures CacheWithin(Updated(cache, q), vs)
  {
    var u := Updated(cache, q);
    forall ch, k | ch in u && Known(u[ch], k).Some? ensures Known(u[ch], k).value in vs(k) {
      if ch in q.channels {
        assert Known(u[ch], k) == Asked(q, ch, k);
      } else {
        assert u[ch] == cache[ch];
      }
    }
  }

  /** Nor is a rate, when the requested ones are apart. */
  lemma {:induction false} ApartRatesAreHarmless(dev: Device, cur: real, qs: seq<Request>, rates: set<real>)
    requires Apart(rates, FS_ATOL) && cur in rates && forall i :: 0 <= i < |qs| ==> qs[i].fs in rates
    ensures RateCalls(dev, cur, qs)
    decreases |qs|
  {
    if qs != [] {
      assert qs[0].fs in rates;
      ApartRatesAreHarmless(dev, qs[0].fs, qs[1..], rates);
    }
  }

  /** Rates that are apart, together with what the hardware makes of them, need no common
      start: channels may even run at different ones. */
  lemma {:induction false} ApartRatesFromAny(dev: Device, s: State, qs: seq<Request>, rates: set<real>)
    requires RunnableFrom(dev, s, qs) && Apart(rates, FS_ATOL)
    requires forall v :: v in rates ==> dev.fs(v) in rates && dev.fs(dev.fs(v)) == dev.fs(v)
    requires forall i :: 0 <= i < |qs| ==> qs[i].fs in rates
    requires forall ch :: ch in s.hw ==> s.hw[ch].fs in rates && dev.fs(s.hw[ch].fs) == s.hw[ch].fs
    ensures RatesThroughout(dev, s, qs)
    decreases |qs|
  {
    if qs != [] {
      var q := qs[0];
      assert q.fs in rates;
      RateAfter(dev, s, q);
      assert RateExact(dev, Incremental(dev, s, q), q);
      hide Incremental, Complete, RateExact, Close;
      ApartRatesFromAny(dev, Incremental(dev, s, q), qs[1..], rates);
    }
  }

  /** All of it: over a run whose distinct values are apart, skipping is setting everything,
      after every call, in tuning, gain, antenna and filter on every channel and in the rate
      on the requested ones. */
  lemma ApartIsExact(dev: Device, s: State, h: map<Channel, Front>, qs: seq<Request>, vs: Knob -> set<real>,
                     rates: set<real>)
    requires RunnableFrom(dev, s, qs) && Tuned(dev, s) && RateTuned(dev, s) && SameTuning(s.hw, h)
    requires CacheWithin(s.cache, vs) && forall k :: Apart(vs(k), Tolerance(k))
    requires Apart(rates, FS_ATOL) && s.currentFs.value in rates
    requires forall i :: 0 <= i < |qs| ==>
      RequestWithin(qs[i], vs) && qs[i].fs in rates && qs[i].channels != []
    ensures SameThroughout(dev, s, h, qs) && RatesThroughout(dev, s, qs)
  {
    hide *;
    ApartIsHarmless(dev, s, qs, vs);
    SkippingIsExactIff(dev, s, h, qs);
    TunedHasRate(dev, s);
    ApartRatesAreHarmless(dev, s.currentFs.value, qs, rates);
    RatesExactIff(dev, s, qs);
  }

  lemma TunedHasRate(dev: Device, s: State)
    requires RateTuned(dev, s)
    ensures s.currentFs.Some?
  {}

  // ----- How far they can part ---------------------------------------------------------------

  /** Knob k of channel ch is set to a value at most b away from the remembered one. */
  ghost predicate Within(dev: Device, s: State, ch: Channel, k: Knob, b: real) {
    ch in s.cache ==>
      && ch in s.hw
      && (Known(s.cache[ch], k).Some? ==>
           exists v :: OnHardware(s.hw[ch], k) == Made(dev, ch, k, v)
                       && -b <= v - Known(s.cache[ch], k).value <= b)
  }

  /** How many calls in a row, to the end of the run, have skipped knob k of channel ch;
      `n` is their number before the run. */
  function Skips(cache: map<Channel, Cached>, qs: seq<Request>, ch: Channel, k: Knob, n: nat): (r: nat)
    ensures r <= n + |qs|
    decreases |qs|
  {
    if qs == [] || !Resolved(qs[0]) then n
    else Skips(Updated(cache, qs[0]), qs[1..], ch, k,
               if ch !in qs[0].channels then n else if Skipped(cache, qs[0], ch, k) then n + 1 else 0)
  }

  function Times(n: nat, k: Knob): real { n as real * Tolerance(k) }

  lemma FurtherAway(v: real, c: real, a: real, n: nat, k: Knob)
    requires -Times(n, k) <= v - c <= Times(n, k) && Close(c, a, Tolerance(k))
    ensures -Times(n + 1, k) <= v - a <= Times(n + 1, k)
  {
    TimesNext(n + 1, k);
  }

  lemma {:induction false} StepWithin(dev: Device, s: State, q: Request, ch: Channel, k: Knob, n: nat)
    requires Complete(s, q) && Resolved(q) && Within(dev, s, ch, k, Times(n, k))
    ensures Within(dev, Incremental(dev, s, q), ch, k,
                   Times(if ch !in q.channels then n else if Skipped(s.cache, q, ch, k) then n + 1 else 0, k))
  {
    IncrementalParts(dev, s, q);
    var t, rated := Incremental(dev, s, q), RateSet(dev, s, q);
    hide Incremental, RateSet, SetChanged, Times;
    assert Times(0, k) == 0.0 by { TimesNext(0, k); }
    if ch in s.hw { SameKnobs(rated[ch], s.hw[ch]); }
    if ch in q.channels {
      KnobSet(dev, rated[ch], s.cache, q, ch, k);
      if Skipped(s.cache, q, ch, k) {
        var v :| OnHardware(s.hw[ch], k) == Made(dev, ch, k, v)
                 && -Times(n, k) <= v - Known(s.cache[ch], k).value <= Times(n, k);
        FurtherAway(v, Known(s.cache[ch], k).value, Asked(q, ch, k).value, n, k);
      } else if Asked(q, ch, k).Some? {
        var a := Asked(q, ch, k).value;
        assert OnHardware(t.hw[ch], k) == Made(dev, ch, k, a) && 0.0 <= a - a <= 0.0;
      }
    }
  }

  /** Whatever the calls and whatever the hardware makes of a value: tuning, gain and filter
      are set to a value at most as many tolerances away from the last one asked for as
      calls in a row have skipped it. */
  lemma {:induction false} DriftBounded(dev: Device, s: State, qs: seq<Request>, ch: Channel, k: Knob, n: nat)
    requires RunnableFrom(dev, s, qs) && Within(dev, s, ch, k, Times(n, k))
    ensures Within(dev, RunIncremental(dev, s, qs), ch, k, Times(Skips(s.cache, qs, ch, k, n), k))
    decreases |qs|
  {
    if qs != [] {
      var q := qs[0];
      RemembersCalls(dev, s, q);
      StepWithin(dev, s, q, ch, k, n);
      hide Incremental, Within, Skipped, Complete, Times;
      DriftBounded(dev, Incremental(dev, s, q), qs[1..], ch, k,
                   if ch !in q.channels then n else if Skipped(s.cache, q, ch, k) then n + 1 else 0);
    }
  }

  /** Runs begin without drift. */
  lemma TunedIsWithin(dev: Device, s: State, ch: Channel, k: Knob)
    requires Tuned(dev, s)
    ensures Within(dev, s, ch, k, Times(0, k))
  {
    if ch in s.cache && Known(s.cache[ch], k).Some? {
      var v := Known(s.cache[ch], k).value;
      assert OnHardware(s.hw[ch], k) == Made(dev, ch, k, v) && Close(v, v, Times(0, k));
    }
  }

  /** So in hertz and decibels, from tuned hardware on. */
  lemma DriftInUnits(dev: Device, s: State, qs: seq<Request>, ch: Channel)
    requires RunnableFrom(dev, s, qs) && Tuned(dev, s) && ch in RunIncremental(dev, s, qs).cache
    ensures var t := RunIncremental(dev, s, qs);
      var c := t.cache[ch];
      && ch in t.hw
      && (var n := Skips(s.cache, qs, ch, Tuning, 0) as real;
          exists v :: t.hw[ch].fc == dev.fc(ch, v) && -n <= v - c.fc <= n)
      && (var n := Skips(s.cache, qs, ch, Gain, 0) as real;
          exists v :: t.hw[ch].gain == dev.gain(ch, v) && -0.05 * n <= v - c.gain <= 0.05 * n)
      && (var n := Skips(s.cache, qs, ch, Filter, 0) as real;
          c.bw.Some? ==> exists v :: t.hw[ch].bw == dev.bw(ch, v) && -n <= v - c.bw.value <= n)
  {
    forall k ensures Within(dev, RunIncremental(dev, s, qs), ch, k, Times(Skips(s.cache, qs, ch, k, 0), k)) {
      TunedIsWithin(dev, s, ch, k);
      DriftBounded(dev, s, qs, ch, k, 0);
    }
    var t := RunIncremental(dev, s, qs);
    hide RunIncremental, RunnableFrom, Skips, Tuned;
    InUnits(dev, t, ch, Skips(s.cache, qs, ch, Tuning, 0), Skips(s.cache, qs, ch, Gain, 0),
            Skips(s.cache, qs, ch, Filter, 0));
  }

  lemma InUnits(dev: Device, t: State, ch: Channel, a: nat, b: nat, d: nat)
    requires Within(dev, t, ch, Tuning, Times(a, Tuning)) && Within(dev, t, ch, Gain, Times(b, Gain))
    requires Within(dev, t, ch, Filter, Times(d, Filter)) && ch in t.cache
    ensures var c := t.cache[ch];
      && ch in t.hw
      && (exists v :: t.hw[ch].fc == dev.fc(ch, v) && -(a as real) <= v - c.fc <= a as real)
      && (exists v :: t.hw[ch].gain == dev.gain(ch, v) && -0.05 * b as real <= v - c.gain <= 0.05 * b as real)
      && (c.bw.Some? ==> exists v :: t.hw[ch].bw == dev.bw(ch, v) && -(d as real) <= v - c.bw.value <= d as real)
  {
    var c, f := t.cache[ch], t.hw[ch];
    var v :| OnHardware(f, Tuning) == Made(dev, ch, Tuning, v) && -Times(a, Tuning) <= v - c.fc <= Times(a, Tuning);
    var w :| OnHardware(f, Gain) == Made(dev, ch, Gain, w) && -Times(b, Gain) <= w - c.gain <= Times(b, Gain);
    assert f.fc == dev.fc(ch, v) && f.gain == dev.gain(ch, w);
    if c.bw.Some? {
      var u :| && OnHardware(f, Filter) == Made(dev, ch, Filter, u)
               && -Times(d, Filter) <= u - c.bw.value <= Times(d, Filter);
      assert f.bw == dev.bw(ch, u);
    }
  }

  /** q with another value for one knob of channel ch. */
  function Asking(q: Request, ch: Channel, k: Knob, v: real): (r: Request)
    ensures r.channels == q.channels
    ensures forall c :: c in q.gain ==> c in r.gain
    ensures r.antenna == q.antenna && ch in r.gain && Asked(r, ch, k) == Some(v)
  {
    match k
    case Tuning => q.(fc := v, gain := if ch in q.gain then q.gain else q.gain[ch := 0.0])
    case Gain => q.(gain := q.gain[ch := v])
    case Filter => q.(bw := Some(v), gain := if ch in q.gain then q.gain else q.gain[ch := 0.0])
  }

  /** n calls, each one tolerance above the one before. */
  function Creeping(q: Request, ch: Channel, k: Knob, from: real, n: nat): (r: seq<Request>)
    ensures |r| == n
    ensures forall i :: 0 <= i < n ==> r[i] == Asking(q, ch, k, from + Times(i + 1, k))
    decreases n
  {
    if n == 0 then []
    else [Asking(q, ch, k, from + Tolerance(k))] + Creeping(q, ch, k, from + Tolerance(k), n - 1)
  }

  /** After the calls the knob is where it was, n tolerances behind, skipped n times. */
  ghost predicate Crept(dev: Device, s: State, qs: seq<Request>, ch: Channel, k: Knob, m: nat, n: nat)
    requires ch in s.hw && ch in s.cache && Known(s.cache[ch], k).Some?
  {
    && RunnableFrom(dev, s, qs) && Skips(s.cache, qs, ch, k, m) == m + n
    && var t := RunIncremental(dev, s, qs);
       && ch in t.hw && ch in t.cache && OnHardware(t.hw[ch], k) == OnHardware(s.hw[ch], k)
       && Known(t.cache[ch], k) == Some(Known(s.cache[ch], k).value + Times(n, k))
  }

  /** The bound is reached, for every knob: n such calls never touch it. */
  lemma {:induction false} DriftReached(dev: Device, s: State, q: Request, ch: Channel, k: Knob, n: nat, m: nat)
    requires q.channels == [ch] && Complete(s, q) && ch in s.hw && ch in s.cache && Known(s.cache[ch], k).Some?
    ensures Crept(dev, s, Creeping(q, ch, k, Known(s.cache[ch], k).value, n), ch, k, m, n)
    decreases n
  {
    hide *;
    var from := Known(s.cache[ch], k).value;
    TimesNext(n, k);
    if n == 0 {
      NoCalls(dev, s, ch, k, m);
      assert Creeping(q, ch, k, from, n) == [];
    } else {
      var r := Asking(q, ch, k, from + Tolerance(k));
      CreepOnce(dev, s, q, ch, k, r);
      DriftReached(dev, Incremental(dev, s, r), q, ch, k, n - 1, m + 1);
      FirstCall(dev, s, r, Creeping(q, ch, k, from + Tolerance(k), n - 1), ch, k, m, n);
      CreepingFrom(q, ch, k, from, n);
    }
  }

  lemma TimesNext(n: nat, k: Knob)
    ensures n == 0 ==> Times(n, k) == 0.0
    ensures n > 0 ==> Times(n, k) == Tolerance(k) + Times(n - 1, k)
  {}

  lemma CreepingFrom(q: Request, ch: Channel, k: Knob, from: real, n: nat)
    requires n > 0
    ensures Creeping(q, ch, k, from, n) ==
      [Asking(q, ch, k, from + Tolerance(k))] + Creeping(q, ch, k, from + Tolerance(k), n - 1)
  {
    hide Asking;
  }

  lemma NoCalls(dev: Device, s: State, ch: Channel, k: Knob, m: nat)
    requires ch in s.hw && ch in s.cache && Known(s.cache[ch], k).Some?
    ensures Crept(dev, s, [], ch, k, m, 0)
  {}

  lemma FirstCall(dev: Device, s: State, r: Request, rest: seq<Request>, ch: Channel, k: Knob, m: nat, n: nat)
    requires n > 0 && ch in s.hw && ch in s.cache && Known(s.cache[ch], k).Some?
    requires Complete(s, r) && Resolved(r) && ch in r.channels && Skipped(s.cache, r, ch, k)
    requires var t := Incremental(dev, s, r);
      && t.cache == Updated(s.cache, r) && ch in t.hw && ch in t.cache && Known(t.cache[ch], k).Some?
      && OnHardware(t.hw[ch], k) == OnHardware(s.hw[ch], k)
      && Known(t.cache[ch], k).value == Known(s.cache[ch], k).value + Tolerance(k)
      && Crept(dev, t, rest, ch, k, m + 1, n - 1)
    ensures Crept(dev, s, [r] + rest, ch, k, m, n)
  {
    TimesNext(n, k);
    hide Incremental, Complete, Skipped, Updated, Resolved, OnHardware, Known, Tolerance, Times;
    var qs := [r] + rest;
    assert qs[0] == r && qs[1..] == rest;
  }

  lemma CreepOnce(dev: Device, s: State, q: Request, ch: Channel, k: Knob, r: Request)
    requires q.channels == [ch] && Complete(s, q) && ch in s.cache && Known(s.cache[ch], k).Some?
    requires r == Asking(q, ch, k, Known(s.cache[ch], k).value + Tolerance(k))
    ensures Complete(s, r) && Resolved(r) && Skipped(s.cache, r, ch, k) && ch in r.channels
    ensures var t := Incremental(dev, s, r);
      && Complete(t, q) && ch in t.hw && ch in t.cache && t.cache == Updated(s.cache, r)
      && OnHardware(t.hw[ch], k) == OnHardware(s.hw[ch], k)
      && Known(t.cache[ch], k) == Some(Known(s.cache[ch], k).value + Tolerance(k))
  {
    assert ch in q.channels;
    RemembersCalls(dev, s, r);
    IncrementalParts(dev, s, r);
    var rated := RateSet(dev, s, r);
    SameKnobs(rated[ch], s.hw[ch]);
    KnobSet(dev, rated[ch], s.cache, r, ch, k);
    hide Incremental, RateSet, SetChanged;
  }

  /** Two small steps are enough for hardware that could apply the last value exactly to be
      reported as a mismatch, while setting everything would have matched. */
  lemma SmallStepsMismatch(dev: Device, s: State, q: Request, ch: Channel)
    requires (forall v :: dev.fc(ch, v) == v) && q.channels == [ch] && Complete(s, q) && ch in s.cache
    requires s.hw[ch].fc == s.cache[ch].fc
    requires ch in q.gain && Close(dev.gain(ch, q.gain[ch]), q.gain[ch], G_ATOL) && Close(dev.fs(q.fs), q.fs, FS_ATOL)
    ensures var qs := Creeping(q, ch, Tuning, s.cache[ch].fc, 2);
      && RunnableFrom(dev, s, qs) && ch in RunIncremental(dev, s, qs).hw && ch in qs[1].gain && ch in qs[1].antenna
      && !Matches(RunIncremental(dev, s, qs).hw[ch], qs[1], ch)
      && Addresses(s.hw, qs[1]) && Matches(Full(dev, s.hw, qs[1])[ch], qs[1], ch)
  {
    assert ch in q.channels && ch in q.antenna;
    DriftReached(dev, s, q, ch, Tuning, 2, 0);
    var last := Asking(q, ch, Tuning, s.cache[ch].fc + Times(2, Tuning));
    FullMatches(dev, s, q, ch, last);
    hide *;
    var qs := Creeping(q, ch, Tuning, s.cache[ch].fc, 2);
    assert qs[1] == last;
    TwoTolerances(dev, s, qs, ch, last);
  }

  lemma FullMatches(dev: Device, s: State, q: Request, ch: Channel, last: Request)
    requires (forall v :: dev.fc(ch, v) == v) && q.channels == [ch] && ch in s.hw && ch in q.gain && ch in q.antenna
    requires Close(dev.gain(ch, q.gain[ch]), q.gain[ch], G_ATOL) && Close(dev.fs(q.fs), q.fs, FS_ATOL)
    requires exists v :: last == Asking(q, ch, Tuning, v)
    ensures Addresses(s.hw, last) && Matches(Full(dev, s.hw, last)[ch], last, ch)
  {
    assert ch in last.channels;
  }

  lemma TwoTolerances(dev: Device, s: State, qs: seq<Request>, ch: Channel, q: Request)
    requires (forall v :: dev.fc(ch, v) == v) && ch in s.hw && ch in s.cache && s.hw[ch].fc == s.cache[ch].fc
    requires Crept(dev, s, qs, ch, Tuning, 0, 2) && ch in q.gain && ch in q.antenna
    requires Asked(q, ch, Tuning) == Some(s.cache[ch].fc + Times(2, Tuning))
    ensures RunnableFrom(dev, s, qs) && ch in RunIncremental(dev, s, qs).hw
    ensures !Matches(RunIncremental(dev, s, qs).hw[ch], q, ch)
  {
    hide RunnableFrom, RunIncremental, Skips;
  }
}

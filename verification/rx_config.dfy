/** Incremental configuration of the receiver (RXDaemon.configure_usrp and the
    CONFIGURE_USRP reply of usrp_testbed_library/rx_daemon.py, with
    check_settings_mismatch of usrp_common.py): settings that look unchanged against a
    cache are not set again. Compared with setting everything every time. */
module RxConfig {
  import opened Collections

  type Channel = nat

  /** What the hardware has on one channel. */
  datatype Front = Front(fs: real, fc: real, gain: real, antenna: string, bw: real)

  /** What the daemon remembers of one channel: requested values (at first, readings). */
  datatype Cached = Cached(fc: real, gain: real, antenna: string, bw: Option<real>)

  /** CONFIGURE_USRP with gains and antennas resolved per channel. */
  datatype Request = Request(fs: real, fc: real, channels: seq<Channel>,
                             gain: map<Channel, real>, antenna: map<Channel, string>, bw: Option<real>)

  /** What the hardware makes of a value that is set; the sampling rate is that of the
      whole device. */
  datatype Device = Device(fs: real -> real, fc: (Channel, real) -> real, gain: (Channel, real) -> real,
                           bw: (Channel, real) -> real)

  datatype State = State(hw: map<Channel, Front>, currentFs: Option<real>, cache: map<Channel, Cached>)

  const FS_ATOL := 1.0
  const FC_ATOL := 1.0
  const G_ATOL := 0.05
  const BW_ATOL := 1.0

  /** np.isclose(a, b, rtol=0, atol=tol) */
  predicate Close(a: real, b: real, tol: real) { -tol <= a - b <= tol }

  predicate Complete(s: State, q: Request) {
    forall ch :: ch in q.channels ==> ch in s.hw && ch in q.gain && ch in q.antenna
  }

  // ----- Specification of both ways ------------------------------------------------------

  function WithRate(hw: map<Channel, Front>, fs: real): (r: map<Channel, Front>)
    ensures r.Keys == hw.Keys
  {
    map ch | ch in hw :: hw[ch].(fs := fs)
  }

  predicate RateNeeded(s: State, q: Request)
    requires Complete(s, q)
  {
    || s.currentFs.None? || !Close(s.currentFs.value, q.fs, FS_ATOL)
    || exists ch :: ch in q.channels && !Close(s.hw[ch].fs, q.fs, FS_ATOL)
  }

  function RateSet(dev: Device, s: State, q: Request): map<Channel, Front>
    requires Complete(s, q)
  {
    if RateNeeded(s, q) then WithRate(s.hw, dev.fs(q.fs)) else s.hw
  }

  /** Channel ch when only what differs from the cache is set. */
  function SetChanged(dev: Device, f: Front, was: Option<Cached>, q: Request, ch: Channel): Front
    requires ch in q.gain && ch in q.antenna
  {
    Front(
      f.fs,
      if was.Some? && Close(was.value.fc, q.fc, FC_ATOL) then f.fc else dev.fc(ch, q.fc),
      if was.Some? && Close(was.value.gain, q.gain[ch], G_ATOL) then f.gain else dev.gain(ch, q.gain[ch]),
      if was.Some? && was.value.antenna == q.antenna[ch] then f.antenna else q.antenna[ch],
      if q.bw.None? then f.bw
      else if was.Some? && was.value.bw.Some? && Close(was.value.bw.value, q.bw.value, BW_ATOL) then f.bw
      else dev.bw(ch, q.bw.value))
  }

  /** Channel ch when everything is set. */
  function SetAll(dev: Device, f: Front, q: Request, ch: Channel): Front
    requires ch in q.gain && ch in q.antenna
  {
    Front(f.fs, dev.fc(ch, q.fc), dev.gain(ch, q.gain[ch]), q.antenna[ch],
          if q.bw.None? then f.bw else dev.bw(ch, q.bw.value))
  }

  function Lookup(cache: map<Channel, Cached>, ch: Channel): Option<Cached> {
    if ch in cache then Some(cache[ch]) else None
  }

  function Remember(q: Request, ch: Channel): Cached
    requires ch in q.gain && ch in q.antenna
  {
    Cached(q.fc, q.gain[ch], q.antenna[ch], q.bw)
  }

  /** s once the rate is settled and only the channels of `done` are updated. */
  function Partly(dev: Device, s: State, q: Request, done: set<Channel>): State
    requires Complete(s, q) && forall ch :: ch in done ==> ch in q.channels
  {
    var hw := RateSet(dev, s, q);
    State(
      map ch | ch in hw :: if ch in done then SetChanged(dev, hw[ch], Lookup(s.cache, ch), q, ch) else hw[ch],
      s.currentFs,
      map ch | ch in s.cache.Keys + done :: if ch in done then Remember(q, ch) else s.cache[ch])
  }

  ghost function First(q: Request, k: nat): (r: set<Channel>)
    requires k <= |q.channels|
    ensures k == 0 ==> r == {}
    ensures forall c :: c in r ==> c in q.channels
  {
    set c | c in q.channels[..k]
  }

  lemma FirstNext(q: Request, k: nat)
    requires k < |q.channels|
    ensures First(q, k + 1) == First(q, k) + {q.channels[k]} && q.channels[k] in q.channels
  {}

  lemma FirstAll(dev: Device, s: State, q: Request)
    requires Complete(s, q)
    ensures Incremental(dev, s, q) == Partly(dev, s, q, First(q, |q.channels|)).(currentFs := Some(q.fs))
  {
    assert q.channels[..|q.channels|] == q.channels;
  }

  function Incremental(dev: Device, s: State, q: Request): State
    requires Complete(s, q)
  {
    Partly(dev, s, q, set c | c in q.channels).(currentFs := Some(q.fs))
  }

  /** set_rx_rate, set_rx_freq, set_rx_gain, ... unconditionally. */
  function Full(dev: Device, hw: map<Channel, Front>, q: Request): map<Channel, Front>
    requires forall ch :: ch in q.channels ==> ch in hw && ch in q.gain && ch in q.antenna
  {
    map ch | ch in hw ::
      if ch in q.channels then SetAll(dev, hw[ch].(fs := dev.fs(q.fs)), q, ch) else hw[ch].(fs := dev.fs(q.fs))
  }

  function Fresh(hw: map<Channel, Front>): State {
    State(hw, if 0 in hw then Some(hw[0].fs) else None,
          map ch | ch in hw :: Cached(hw[ch].fc, hw[ch].gain, hw[ch].antenna, None))
  }

  // ----- The daemon --------------------------------------------------------------------------

  datatype Status = Ok | Mismatch(channels: set<Channel>) | Error

  class RxDaemon {
    const dev: Device
    var hw: map<Channel, Front>
    var currentFs: Option<real>
    var cache: map<Channel, Cached>   // channel_configs

    function Abs(): State
      reads this
    {
      State(hw, currentFs, cache)
    }

    /** _read_hardware_state: the cache starts as a reading of the hardware. */
    constructor (dev: Device, hw: map<Channel, Front>)
      ensures this.dev == dev && Abs() == Fresh(hw)
    {
      this.dev := dev;
      this.hw := hw;
      currentFs := if 0 in hw then Some(hw[0].fs) else None;
      cache := map ch | ch in hw :: Cached(hw[ch].fc, hw[ch].gain, hw[ch].antenna, None);
    }

    /** configure_usrp. `valid` is the verdict of the range checks, which come before
        anything is changed. */
    method ConfigureUsrp(q: Request, valid: bool) returns (ok: bool)
      modifies this
      ensures ok <==> valid && Complete(old(Abs()), q)
      ensures Abs() == if ok then Incremental(dev, old(Abs()), q) else old(Abs())
    {
      hide *;
      if !Complete(Abs(), q) || !valid { return false; }
      ghost var s := Abs();
      SetRate(q);
      for i := 0 to |q.channels|
        invariant Abs() == Partly(dev, s, q, First(q, i))
      {
        FirstNext(q, i);
        UpdateChannel(q, q.channels[i], s, First(q, i));
      }
      SetCurrentFs(q.fs);
      FirstAll(dev, s, q);
      ok := true;
    }

    method SetCurrentFs(fs: real)
      modifies this`currentFs
      ensures Abs() == old(Abs()).(currentFs := Some(fs))
    {
      currentFs := Some(fs);
    }

    /** The rate is global: set when it changed, and again while a requested channel
        runs at another one. */
    method SetRate(q: Request)
      requires Complete(Abs(), q)
      modifies this`hw
      ensures Abs() == Partly(dev, old(Abs()), q, {})
    {
      if currentFs.None? || !Close(currentFs.value, q.fs, FS_ATOL) { hw := WithRate(hw, dev.fs(q.fs)); }
      if exists ch :: ch in q.channels && !Close(hw[ch].fs, q.fs, FS_ATOL) {
        hw := WithRate(hw, dev.fs(q.fs));
      }
      assert hw == RateSet(dev, old(Abs()), q);
      assert cache.Keys + {} == cache.Keys;
    }

    /** One turn of the channel loop; `done` holds the channels of the turns before. */
    method UpdateChannel(q: Request, ch: Channel, ghost s: State, ghost done: set<Channel>)
      requires Complete(s, q) && ch in q.channels && (forall c :: c in done ==> c in q.channels)
      requires Abs() == Partly(dev, s, q, done)
      modifies this`hw, this`cache
      ensures Abs() == Partly(dev, s, q, done + {ch})
    {
      hide RateSet;
      RateSetKeys(dev, s, q);
      var was := if ch in cache then Some(cache[ch]) else None;
      if ch in done { SetAgain(dev, hw[ch], q, ch); }
      var f := SetKnobs(hw[ch], was, q, ch);
      hw := hw[ch := f];
      cache := cache[ch := Cached(q.fc, q.gain[ch], q.antenna[ch], q.bw)];
      hide SetChanged;
      assert cache == Partly(dev, s, q, done + {ch}).cache;
      assert hw == Partly(dev, s, q, done + {ch}).hw;
    }

    /** Frequency, gain, antenna and filter of one channel. */
    method SetKnobs(was: Front, known: Option<Cached>, q: Request, ch: Channel) returns (f: Front)
      requires ch in q.gain && ch in q.antenna
      ensures f == SetChanged(dev, was, known, q, ch)
    {
      f := was;
      if known.None? || !Close(known.value.fc, q.fc, FC_ATOL) { f := f.(fc := dev.fc(ch, q.fc)); }
      if known.None? || !Close(known.value.gain, q.gain[ch], G_ATOL) { f := f.(gain := dev.gain(ch, q.gain[ch])); }
      if known.None? || known.value.antenna != q.antenna[ch] { f := f.(antenna := q.antenna[ch]); }
      if q.bw.Some? && (known.None? || known.value.bw.None? || !Close(known.value.bw.value, q.bw.value, BW_ATOL)) {
        f := f.(bw := dev.bw(ch, q.bw.value));
      }
    }

    lemma AbsParts()
      ensures Abs().hw == hw
    {}

    /** The reply to CONFIGURE_USRP: OK exactly if every requested channel reads back
        within the tolerances. */
    method HandleConfigure(q: Request, valid: bool) returns (r: Status)
      modifies this
      ensures r == Error <==>
        !(valid && forall ch :: ch in q.channels ==> ch in old(hw) && ch in q.gain && ch in q.antenna)
      ensures Abs() == if r != Error then Incremental(dev, old(Abs()), q) else old(Abs())
      ensures r != Error ==> Complete(Abs(), q)
      ensures r != Error ==>
        (r == Ok <==> forall ch :: ch in q.channels ==>
          && -1.0 <= hw[ch].fs - q.fs <= 1.0 && -1.0 <= hw[ch].fc - q.fc <= 1.0
          && -0.05 <= hw[ch].gain - q.gain[ch] <= 0.05 && hw[ch].antenna == q.antenna[ch])
      ensures r.Mismatch? ==> r.channels == set ch | ch in q.channels && !Matches(hw[ch], q, ch)
    {
      CompleteIs(Abs(), q);
      AbsParts();
      hide *;
      var ok := ConfigureUsrp(q, valid);
      if !ok { return Error; }
      AbsParts();
      StaysComplete(dev, old(Abs()), q);
      forall ch | ch in q.channels
        ensures Matches(hw[ch], q, ch) <==>
          && -1.0 <= hw[ch].fs - q.fs <= 1.0 && -1.0 <= hw[ch].fc - q.fc <= 1.0
          && -0.05 <= hw[ch].gain - q.gain[ch] <= 0.05 && hw[ch].antenna == q.antenna[ch]
      {
        MatchesIff(hw[ch], q, ch);
      }
      var bad := CheckMismatch(q);
      r := if bad == {} then Ok else Mismatch(bad);
    }

    /** check_settings_mismatch over the requested channels. */
    method CheckMismatch(q: Request) returns (bad: set<Channel>)
      requires Complete(Abs(), q)
      ensures bad == set ch | ch in q.channels && !Matches(hw[ch], q, ch)
      ensures bad == {} <==> forall ch :: ch in q.channels ==> Matches(hw[ch], q, ch)
    {
      hide Matches;
      bad := {};
      for i := 0 to |q.channels|
        invariant bad == set ch | ch in q.channels[..i] && !Matches(hw[ch], q, ch)
      {
        var ch := q.channels[i];
        if !Matches(hw[ch], q, ch) { bad := bad + {ch}; }
      }
      assert q.channels[..|q.channels|] == q.channels;
      if bad == {} {
        forall ch | ch in q.channels ensures Matches(hw[ch], q, ch) {
          assert ch !in bad;
        }
      }
    }
  }

  /** The parts of one call. */
  lemma IncrementalParts(dev: Device, s: State, q: Request)
    requires Complete(s, q)
    ensures var t, rated := Incremental(dev, s, q), RateSet(dev, s, q);
      && t.hw.Keys == rated.Keys == s.hw.Keys && t.cache.Keys == s.cache.Keys + (set c | c in q.channels)
      && (forall ch :: ch in t.hw && ch !in q.channels ==> t.hw[ch] == rated[ch])
      && (forall ch :: ch in q.channels ==> t.hw[ch] == SetChanged(dev, rated[ch], Lookup(s.cache, ch), q, ch))
      && (forall ch :: ch in q.channels ==> t.cache[ch] == Remember(q, ch))
      && (forall ch :: ch in t.cache && ch !in q.channels ==> t.cache[ch] == s.cache[ch])
      && (forall ch :: ch in rated ==> rated[ch] == s.hw[ch].(fs := rated[ch].fs))
  {}

  lemma StaysComplete(dev: Device, s: State, q: Request)
    requires Complete(s, q)
    ensures Complete(Incremental(dev, s, q), q)
    ensures forall ch :: ch in q.channels ==> ch in Incremental(dev, s, q).hw && ch in q.gain && ch in q.antenna
  {
    IncrementalParts(dev, s, q);
  }

  /** One channel of check_settings_mismatch. */
  predicate Matches(f: Front, q: Request, ch: Channel)
    requires ch in q.gain && ch in q.antenna
  {
    && Close(f.fs, q.fs, FS_ATOL) && Close(f.fc, q.fc, FC_ATOL)
    && Close(f.gain, q.gain[ch], G_ATOL) && f.antenna == q.antenna[ch]
  }

  /** What a channel has to read back, in hertz and decibels. */
  lemma MatchesIff(f: Front, q: Request, ch: Channel)
    requires ch in q.gain && ch in q.antenna
    ensures Matches(f, q, ch) <==>
      && -1.0 <= f.fs - q.fs <= 1.0 && -1.0 <= f.fc - q.fc <= 1.0
      && -0.05 <= f.gain - q.gain[ch] <= 0.05 && f.antenna == q.antenna[ch]
  {}

  lemma CompleteIs(s: State, q: Request)
    ensures Complete(s, q) <==> forall ch :: ch in q.channels ==> ch in s.hw && ch in q.gain && ch in q.antenna
  {}

  /** One call, setting by setting: each is set exactly if it is further than the tolerance
      from what the cache has, and the cache then has what was asked for. */
  lemma CallSpelledOut(dev: Device, s: State, q: Request, ch: Channel)
    requires Complete(s, q) && ch in q.channels
    ensures var t := Incremental(dev, s, q);
      && ch in t.hw && ch in t.cache && t.currentFs == Some(q.fs)
      && t.cache[ch] == Cached(q.fc, q.gain[ch], q.antenna[ch], q.bw)
      && (var known := ch in s.cache;
          && t.hw[ch].fc == (if known && -1.0 <= s.cache[ch].fc - q.fc <= 1.0 then s.hw[ch].fc else dev.fc(ch, q.fc))
          && t.hw[ch].gain == (if known && -0.05 <= s.cache[ch].gain - q.gain[ch] <= 0.05 then s.hw[ch].gain
                               else dev.gain(ch, q.gain[ch]))
          && t.hw[ch].antenna == (if known && s.cache[ch].antenna == q.antenna[ch] then s.hw[ch].antenna
                                  else q.antenna[ch])
          && t.hw[ch].bw == (if || q.bw.None?
                                || (known && s.cache[ch].bw.Some? && -1.0 <= s.cache[ch].bw.value - q.bw.value <= 1.0)
                             then s.hw[ch].bw else dev.bw(ch, q.bw.value)))
  {
    IncrementalParts(dev, s, q);
    hide Incremental, RateSet;
  }

  /** And the rate, on every channel of the device. */
  lemma RateSpelledOut(dev: Device, s: State, q: Request, c: Channel)
    requires Complete(s, q) && c in s.hw
    ensures var t := Incremental(dev, s, q);
      c in t.hw && t.hw[c].fs ==
        if && s.currentFs.Some? && -1.0 <= s.currentFs.value - q.fs <= 1.0
           && forall ch :: ch in q.channels ==> -1.0 <= s.hw[ch].fs - q.fs <= 1.0
        then s.hw[c].fs else dev.fs(q.fs)
  {
    IncrementalParts(dev, s, q);
    hide Incremental;
    var rated := RateSet(dev, s, q);
    if c in q.channels { assert Incremental(dev, s, q).hw[c].fs == rated[c].fs; }
    hide SetChanged;
  }

  lemma RateSetKeys(dev: Device, s: State, q: Request)
    requires Complete(s, q)
    ensures RateSet(dev, s, q).Keys == s.hw.Keys
  {}

  /** A channel listed twice is left alone the second time. */
  lemma SetAgain(dev: Device, f: Front, q: Request, ch: Channel)
    requires ch in q.gain && ch in q.antenna
    ensures SetChanged(dev, f, Some(Remember(q, ch)), q, ch) == f
  {}
}

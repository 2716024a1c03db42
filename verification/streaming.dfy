/** The daemons' sample loops: TXDaemon (configure_usrp's channel and streamer part,
    load_signal, _assemble_tx_signal, transmit_with_delay of
    usrp_testbed_library/tx_daemon.py) and RXDaemon.receive_with_delay of rx_daemon.py.
    A streamer may take or deliver fewer samples than asked for, any time. */
module Streaming {
  import opened Collections
  import M = MimoFormat

  type Sample = M.Sample
  const ZERO := M.ZERO

  // ----- Rows of a matrix ------------------------------------------------------------------

  ghost function Row(m: array2<Sample>, ch: nat): (r: seq<Sample>)
    requires ch < m.Length0
    reads m
    ensures |r| == m.Length1
    ensures forall j :: 0 <= j < |r| ==> r[j] == m[ch, j]
  {
    seq(m.Length1, j requires 0 <= j < m.Length1 reads m => m[ch, j])
  }

  /** Samples of several rows between two columns. */
  method Columns(m: array2<Sample>, channels: seq<nat>, a: nat, b: nat) returns (r: seq<seq<Sample>>)
    requires a <= b <= m.Length1 && forall p :: 0 <= p < |channels| ==> channels[p] < m.Length0
    ensures |r| == |channels|
    ensures forall p :: 0 <= p < |r| ==> r[p] == Row(m, channels[p])[a..b]
  {
    r := [];
    for p := 0 to |channels|
      invariant |r| == p
      invariant forall q :: 0 <= q < p ==> r[q] == Row(m, channels[q])[a..b]
    {
      var row: seq<Sample> := [];
      for j := a to b
        invariant row == Row(m, channels[p])[a..j]
      {
        row := row + [m[channels[p], j]];
      }
      r := r + [row];
    }
  }

  /** What position p gets from pieces that hold one segment per position. */
  ghost function Joined(pieces: seq<seq<seq<Sample>>>, p: nat): seq<Sample>
    requires forall i :: 0 <= i < |pieces| ==> p < |pieces[i]|
    decreases |pieces|
  {
    if pieces == [] then [] else Joined(pieces[..|pieces| - 1], p) + pieces[|pieces| - 1][p]
  }

  lemma JoinedPush(pieces: seq<seq<seq<Sample>>>, x: seq<seq<Sample>>, p: nat)
    requires p < |x| && forall i :: 0 <= i < |pieces| ==> p < |pieces[i]|
    ensures Joined(pieces + [x], p) == Joined(pieces, p) + x[p]
  {
    assert (pieces + [x])[..|pieces|] == pieces;
  }

  // ----- Assembling the matrix -------------------------------------------------------------

  datatype Signal = Mono(samples: seq<Sample>) | Multi(rows: seq<seq<Sample>>, n: nat)

  predicate Rectangular(s: Signal) {
    s.Multi? ==> forall i :: 0 <= i < |s.rows| ==> |s.rows[i]| == s.n
  }

  function Length(s: Option<Signal>): nat {
    match s
    case None => 0
    case Some(Mono(x)) => |x|
    case Some(Multi(_, n)) => n
  }

  /** A 2-D signal whose rows do not match the channel list. */
  predicate RowMismatch(s: Option<Signal>, list: seq<nat>) {
    s.Some? && s.value.Multi? && list != [] && |s.value.rows| != |list|
  }

  /** What signal s puts on channel ch when it is placed on the channels of `list`. */
  function Contribution(s: Option<Signal>, list: seq<nat>, ch: nat): (r: seq<Sample>)
    requires s.Some? ==> Rectangular(s.value)
    ensures |r| <= Length(s)
  {
    var i := LastIndex(list, ch);
    if s.None? || i < 0 then []
    else if s.value.Mono? then s.value.samples
    else if i < |s.value.rows| then s.value.rows[i] else []
  }

  /** b over a over silence. */
  function Overlay(a: seq<Sample>, b: seq<Sample>, n: nat): (r: seq<Sample>)
    ensures |r| == n
    ensures |a| <= n && b == [] ==> r[..|a|] == a && forall j :: |a| <= j < n ==> r[j] == ZERO
    ensures |b| <= n && a == [] ==> r[..|b|] == b && forall j :: |b| <= j < n ==> r[j] == ZERO
  {
    seq(n, j requires 0 <= j < n => if j < |b| then b[j] else if j < |a| then a[j] else ZERO)
  }

  method StoreRow(m: array2<Sample>, ch: nat, data: seq<Sample>)
    requires ch < m.Length0 && |data| <= m.Length1
    modifies m
    ensures forall c, j :: 0 <= c < m.Length0 && 0 <= j < m.Length1 ==>
      m[c, j] == if c == ch && j < |data| then data[j] else old(m[c, j])
  {
    forall j | 0 <= j < |data| { m[ch, j] := data[j]; }
  }

  /** _place */
  method Place(m: array2<Sample>, s: Option<Signal>, list: seq<nat>) returns (ok: bool)
    requires s.Some? ==> Rectangular(s.value)
    requires Length(s) <= m.Length1 && forall i :: 0 <= i < |list| ==> list[i] < m.Length0
    modifies m
    ensures ok == !RowMismatch(s, list)
    ensures !ok <==> s.Some? && s.value.Multi? && list != [] && |s.value.rows| != |list|
    ensures forall c, j :: 0 <= c < m.Length0 && 0 <= j < m.Length1 ==>
      m[c, j] == if ok && j < |Contribution(s, list, c)| then Contribution(s, list, c)[j] else old(m[c, j])
  {
    if s.None? || list == [] { return true; }
    if RowMismatch(s, list) { return false; }
    for i := 0 to |list|
      invariant forall c, j :: 0 <= c < m.Length0 && 0 <= j < m.Length1 ==>
        m[c, j] == if j < |Contribution(s, list[..i], c)| then Contribution(s, list[..i], c)[j] else old(m[c, j])
    {
      NextContribution(s, list, i);
      StoreRow(m, list[i], if s.value.Mono? then s.value.samples else s.value.rows[i]);
    }
    assert list[..|list|] == list;
    ok := true;
  }

  lemma NextContribution(s: Option<Signal>, list: seq<nat>, i: nat)
    requires s.Some? && Rectangular(s.value) && i < |list| && !RowMismatch(s, list)
    ensures Contribution(s, list[..i + 1], list[i]) == if s.value.Mono? then s.value.samples else s.value.rows[i]
    ensures forall c :: c != list[i] ==> Contribution(s, list[..i + 1], c) == Contribution(s, list[..i], c)
    ensures |Contribution(s, list[..i], list[i])| in {0, Length(s)}
  {
    assert list[..i + 1][..i] == list[..i];
  }

  /** The zeroed matrix with both signals placed, as far as that goes. */
  method Matrix(rows: nat, n: nat, sync: Option<Signal>, syncList: seq<nat>, intf: Option<Signal>, intfList: seq<nat>)
    returns (m: array2<Sample>, ok: bool)
    requires (sync.Some? ==> Rectangular(sync.value)) && (intf.Some? ==> Rectangular(intf.value))
    requires Length(sync) <= n && Length(intf) <= n
    requires forall c :: c in syncList + intfList ==> c < rows
    ensures fresh(m) && m.Length0 == rows && m.Length1 == n
    ensures ok <==> !RowMismatch(sync, syncList) && !RowMismatch(intf, intfList)
    ensures Holds(m, if RowMismatch(sync, syncList) then None else sync, syncList, if ok then intf else None, intfList)
  {
    hide Contribution, RowMismatch, Length, Rectangular;
    NoContribution(syncList);
    NoContribution(intfList);
    m := new Sample[rows, n]((_, _) => ZERO);
    forall i | 0 <= i < |syncList| ensures syncList[i] < rows { assert syncList[i] in syncList + intfList; }
    forall i | 0 <= i < |intfList| ensures intfList[i] < rows { assert intfList[i] in syncList + intfList; }
    ok := Place(m, sync, syncList);
    if ok { ok := Place(m, intf, intfList); }
  }

  lemma NoContribution(list: seq<nat>)
    ensures forall c :: Contribution(None, list, c) == []
  {}

  /** Matrix m holds intf over sync over silence on every channel. */
  ghost predicate Holds(m: array2<Sample>, sync: Option<Signal>, syncList: seq<nat>,
                        intf: Option<Signal>, intfList: seq<nat>)
    requires (sync.Some? ==> Rectangular(sync.value)) && (intf.Some? ==> Rectangular(intf.value))
    reads m
  {
    forall c: nat :: c < m.Length0 ==>
      Row(m, c) == Overlay(Contribution(sync, syncList, c), Contribution(intf, intfList, c), m.Length1)
  }

  // ----- The transmitter ---------------------------------------------------------------------

  /** How a streamer's positions map to device channels, and the most it takes at once. */
  datatype Streamer = Streamer(order: seq<nat>, chunk: nat)

  /** A signal file: absent from the command, unusable, or read. */
  datatype File = NotGiven | Unusable | Loaded(signal: Signal)

  datatype Meta = Meta(start: nat, sob: bool, timed: bool, eob: bool)

  datatype Outcome = NotConfigured | BadChannels | TimedOut | Sent(samples: nat)

  datatype LoadOutcome = LoadRefused | LoadFailed | Ready

  class TxDaemon {
    const available: nat               // TX channels of the device
    const chunk: nat
    var syncChannels: seq<nat>
    var intfChannels: seq<nat>
    var configured: Option<seq<nat>>   // current_config['channels'], before sorting
    var syncData: Option<Signal>
    var intfData: Option<Signal>
    var txSignal: array2?<Sample>
    var streamer: Option<Streamer>
    ghost var air: seq<seq<seq<Sample>>>   // accepted pieces, one segment per streamer position
    ghost var meta: seq<Meta>              // and what was said with each

    ghost predicate Valid()
      reads this`syncChannels, this`intfChannels, this`configured, this`streamer, this`syncData, this`intfData
    {
      && ChannelsValid()
      && (syncData.Some? ==> Usable(syncData.value)) && (intfData.Some? ==> Usable(intfData.value))
    }

    ghost predicate ChannelsValid()
      reads this`syncChannels, this`intfChannels, this`configured, this`streamer
    {
      && chunk > 0
      && (configured.Some? ==> configured.value == Channels() != [])
      && (configured.None? ==> streamer.None? && Channels() == [])
      && (forall c :: c in Channels() ==> c < available)
      && (forall c :: c in syncChannels ==> c !in intfChannels)
      && (streamer.Some? ==> streamer.value.chunk == chunk && multiset(streamer.value.order) == multiset(Channels()))
    }

    /** self.channels */
    function Channels(): seq<nat>
      reads this`syncChannels, this`intfChannels
    {
      syncChannels + intfChannels
    }

    /** The matrix holds exactly what the loaded signals put on each channel. */
    ghost predicate Assembled(sync: Option<Signal>, intf: Option<Signal>)
      requires (sync.Some? ==> Rectangular(sync.value)) && (intf.Some? ==> Rectangular(intf.value))
      reads this, txSignal
    {
      && txSignal != null && txSignal.Length1 == Max(Length(syncData), Length(intfData))
      && (forall c :: c in Channels() ==> c < txSignal.Length0) && txSignal.Length0 - 1 in Channels()
      && Holds(txSignal, sync, syncChannels, intf, intfChannels)
    }

    constructor (available: nat, chunk: nat)
      requires chunk > 0
      ensures Valid() && streamer.None? && txSignal == null && configured.None? && air == [] && meta == []
    {
      this.available, this.chunk := available, chunk;
      syncChannels, intfChannels, configured := [], [], None;
      syncData, intfData, txSignal, streamer := None, None, null, None;
      air, meta := [], [];
    }

    /** _assemble_tx_signal. A signal whose rows do not match its channel list stops the
        work, with the zeroed matrix already in place. */
    method Assemble() returns (ok: bool)
      requires Valid()
      modifies this`txSignal
      ensures ok ==> Assembled(syncData, intfData)
      ensures ok <==> && Max(Length(syncData), Length(intfData)) > 0 && Channels() != []
                      && !RowMismatch(syncData, syncChannels) && !RowMismatch(intfData, intfChannels)
      ensures Max(Length(syncData), Length(intfData)) == 0 || Channels() == [] ==> txSignal == old(txSignal)
      ensures !ok && Max(Length(syncData), Length(intfData)) > 0 && Channels() != [] ==>
        txSignal != null && Assembled(if RowMismatch(syncData, syncChannels) then None else syncData, None)
    {
      var n := Max(Length(syncData), Length(intfData));
      if n == 0 || Channels() == [] { return false; }
      hide *;
      forall c | c in Channels() ensures c < Greatest(Channels()) + 1 {}
      txSignal, ok := Matrix(Greatest(Channels()) + 1, n, syncData, syncChannels, intfData, intfChannels);
    }

    /** What a changed channel list makes of loaded signals: dropped if one does not fit, and
        otherwise assembled anew. */
    method Refit()
      requires Valid() && Channels() != []
      modifies this`syncData, this`intfData, this`txSignal
      ensures Valid()
      ensures if Incompatible(old(syncData), syncChannels) || Incompatible(old(intfData), intfChannels)
        then syncData.None? && intfData.None? && txSignal == null
        else && syncData == old(syncData) && intfData == old(intfData)
             && (if syncData.Some? || intfData.Some? then Assembled(syncData, intfData) else txSignal == old(txSignal))
    {
      if Incompatible(syncData, syncChannels) || Incompatible(intfData, intfChannels) {
        syncData, intfData, txSignal := None, None, null;
      } else if syncData.Some? || intfData.Some? {
        var rebuilt := Assemble();
        assert rebuilt;
      }
    }

    /** configure_usrp as far as channels, signal and streamer go. `valid` is the verdict
        of the rate, frequency, gain and antenna checks. The matrix and the streamer are
        renewed only when the SORTED channel list differs from the last one. */
    method ConfigureUsrp(sync: seq<nat>, intf: seq<nat>, valid: bool) returns (ok: bool)
      requires Valid()
      modifies this`syncChannels, this`intfChannels, this`configured, this`streamer
      modifies this`syncData, this`intfData, this`txSignal
      ensures Valid()
      ensures ok <==> Acceptable(sync, intf, available) && valid
      ensures ok <==>
        && (sync != [] || intf != []) && (forall c :: c in sync || c in intf ==> c < available)
        && (forall c :: c in sync ==> c !in intf) && valid
      ensures !ok ==> && syncChannels == old(syncChannels) && intfChannels == old(intfChannels)
                      && configured == old(configured)
                      && syncData == old(syncData) && intfData == old(intfData)
                      && txSignal == old(txSignal) && streamer == old(streamer)
      ensures ok ==>
        && syncChannels == sync && intfChannels == intf && configured == Some(sync + intf)
        && streamer == (if Changed(old(configured), sync + intf) || old(streamer).None?
                        then Some(Streamer(sync + intf, chunk)) else old(streamer))
      ensures ok && !Changed(old(configured), sync + intf) ==>
        syncData == old(syncData) && intfData == old(intfData) && txSignal == old(txSignal)
      ensures ok && Changed(old(configured), sync + intf) ==>
        if || (old(syncData).Some? && old(syncData).value.Multi? && |old(syncData).value.rows| != |sync|)
           || (old(intfData).Some? && old(intfData).value.Multi? && |old(intfData).value.rows| != |intf|)
        then syncData.None? && intfData.None? && txSignal == null
        else && syncData == old(syncData) && intfData == old(intfData)
             && (if syncData.Some? || intfData.Some? then Assembled(syncData, intfData) else txSignal == old(txSignal))
    {
      AcceptableIff(sync, intf, available);
      hide Acceptable, Changed, Assembled, ChannelsValid, Valid;
      if !Acceptable(sync, intf, available) || !valid { return false; }
      Adopt(sync, intf);
      ok := true;
    }

    /** The part of configure_usrp after its checks. */
    method Adopt(sync: seq<nat>, intf: seq<nat>)
      requires Valid() && sync + intf != []
      requires (forall c :: c in sync || c in intf ==> c < available) && forall c :: c in sync ==> c !in intf
      modifies this`syncChannels, this`intfChannels, this`configured, this`streamer
      modifies this`syncData, this`intfData, this`txSignal
      ensures Valid() && syncChannels == sync && intfChannels == intf && configured == Some(sync + intf)
      ensures streamer == if Changed(old(configured), sync + intf) || old(streamer).None?
                          then Some(Streamer(sync + intf, chunk)) else old(streamer)
      ensures if !Changed(old(configured), sync + intf)
        then syncData == old(syncData) && intfData == old(intfData) && txSignal == old(txSignal)
        else if Incompatible(old(syncData), sync) || Incompatible(old(intfData), intf)
        then syncData.None? && intfData.None? && txSignal == null
        else && syncData == old(syncData) && intfData == old(intfData)
             && (if syncData.Some? || intfData.Some? then Assembled(syncData, intfData) else txSignal == old(txSignal))
    {
      var channels := sync + intf;
      var changed := Changed(configured, channels);
      syncChannels, intfChannels := sync, intf;
      configured := Some(channels);
      if changed {
        streamer := None;
        Refit();
      }
      if streamer.None? { streamer := Some(Streamer(channels, chunk)); }
    }

    /** load_signal */
    method LoadSignal(sync: File, intf: File) returns (r: LoadOutcome)
      requires Valid()
      requires (sync.Loaded? ==> Usable(sync.signal)) && (intf.Loaded? ==> Usable(intf.signal))
      modifies this`syncData, this`intfData, this`txSignal
      ensures Valid()
      ensures r == LoadRefused <==> Channels() == [] || (sync.NotGiven? && intf.NotGiven?)
      ensures r == LoadRefused ==> syncData == old(syncData) && intfData == old(intfData) && txSignal == old(txSignal)
      ensures r == Ready <==> && Channels() != [] && !(sync.NotGiven? && intf.NotGiven?)
                              && Placeable(sync, syncChannels) && Placeable(intf, intfChannels)
      ensures r == Ready ==> syncData == Data(sync) && intfData == Data(intf) && Assembled(syncData, intfData)
      ensures r == LoadFailed ==>
        && syncData == (if Loadable(sync, syncChannels) then Data(sync) else None)
        && intfData == (if Loadable(sync, syncChannels) && Loadable(intf, intfChannels) then Data(intf) else None)
        && (txSignal != null <==> Loadable(sync, syncChannels) && Loadable(intf, intfChannels))
        && (txSignal != null ==> && (RowMismatch(syncData, syncChannels) || RowMismatch(intfData, intfChannels))
                                 && Assembled(if RowMismatch(syncData, syncChannels) then None else syncData, None))
    {
      hide ChannelsValid, Rectangular, Length, Assembled, RowMismatch, Max;
      AbsentSignal();
      if Channels() == [] || (sync.NotGiven? && intf.NotGiven?) { return LoadRefused; }
      syncData, intfData, txSignal := None, None, null;
      if !sync.NotGiven? && (syncChannels == [] || sync.Unusable?) { return LoadFailed; }
      syncData := Data(sync);
      if !intf.NotGiven? && (intfChannels == [] || intf.Unusable?) { return LoadFailed; }
      intfData := Data(intf);
      var ok := Assemble();
      r := if ok then Ready else LoadFailed;
    }

    lemma Configured()
      requires Valid()
      ensures chunk > 0 && (streamer.Some? ==> Channels() != [])
      ensures configured.Some? ==> configured.value == Channels()
    {}

    /** transmit_with_delay. `log` is what the streamer took, piece by piece. */
    method TransmitWithDelay(takes: nat -> nat)
      returns (r: Outcome, ghost log: seq<seq<seq<Sample>>>, ghost marks: seq<Meta>)
      requires Valid()
      modifies this`air, this`meta
      ensures air == old(air) + log && meta == old(meta) + marks && |log| == |marks|
      ensures r == NotConfigured <==> streamer.None? || txSignal == null
      ensures r == BadChannels <==>
        streamer.Some? && txSignal != null && exists p :: 0 <= p < |Channels()| && Channels()[p] >= txSignal.Length0
      ensures r == NotConfigured || r == BadChannels ==> log == []
      ensures r.Sent? || r == TimedOut ==>
        && Channels() != [] && txSignal != null
        && (forall p :: 0 <= p < |Channels()| ==> Channels()[p] < txSignal.Length0)
        && Transmission(txSignal, Channels(), chunk, r, log, marks)
      ensures r == TimedOut ==> takes(|log|) == 0
      ensures r.Sent? ==> txSignal != null && r.samples == txSignal.Length1
    {
      log, marks := [], [];
      Configured();
      hide Valid, Transmission;
      if streamer.None? || txSignal == null { return NotConfigured, [], []; }
      var top := Greatest(Channels());
      if top >= txSignal.Length0 {
        assert exists p :: 0 <= p < |Channels()| && Channels()[p] == top;
        return BadChannels, [], [];
      }
      hide *;
      r, log, marks := SendAll(txSignal, Channels(), chunk, takes);
      air, meta := air + log, meta + marks;
    }

    /** A LOAD_SIGNAL, and a TRANSMIT_BURST in spite of its refusal: the burst goes out
        exactly if the files were readable and only their rows were wrong, with the signals
        that were placed before the mismatch was found and silence in place of the rest. */
    method TransmitAfterRefusal(sync: File, intf: File, takes: nat -> nat)
      returns (load: LoadOutcome, r: Outcome, ghost log: seq<seq<seq<Sample>>>)
      requires Valid() && streamer.Some?
      requires (sync.Loaded? ==> Usable(sync.signal)) && (intf.Loaded? ==> Usable(intf.signal))
      modifies this`syncData, this`intfData, this`txSignal, this`air, this`meta
      ensures Valid()
      ensures load == LoadFailed && !(Loadable(sync, syncChannels) && Loadable(intf, intfChannels)) ==>
        r == NotConfigured
      ensures load == LoadFailed && Loadable(sync, syncChannels) && Loadable(intf, intfChannels) ==>
        r == Sent(Max(Length(Data(sync)), Length(Data(intf)))) || (r == TimedOut && takes(|log|) == 0)
      ensures load == LoadFailed && r.Sent? ==>
        && FullPieces(log, |Channels()|)
        && forall p :: 0 <= p < |Channels()| ==>
             Joined(log, p) ==
               RefusedRow(Data(sync), syncChannels, Channels()[p], Max(Length(Data(sync)), Length(Data(intf))))
    {
      hide Assembled, Holds, Valid, ChannelsValid, RowMismatch, Rectangular;
      hide Contribution, Overlay, Transmission, Length, Max;
      Configured();
      load := LoadSignal(sync, intf);
      ghost var marks;
      if load == LoadFailed && txSignal != null { HalfFilled(); }
      r, log, marks := TransmitWithDelay(takes);
      if load == LoadFailed && r.Sent? {
        RefusedRows(txSignal, syncData, syncChannels, intfChannels, Channels(), chunk, r, log, marks);
      }
    }

    lemma HalfFilled()
      requires Valid()
      requires txSignal != null && Assembled(if RowMismatch(syncData, syncChannels) then None else syncData, None)
      ensures txSignal.Length1 == Max(Length(syncData), Length(intfData))
      ensures Holds(txSignal, if RowMismatch(syncData, syncChannels) then None else syncData, syncChannels,
                    None, intfChannels)
      ensures forall p :: 0 <= p < |Channels()| ==> Channels()[p] < txSignal.Length0
    {
      forall p | 0 <= p < |Channels()| ensures Channels()[p] < txSignal.Length0 {
        assert Channels()[p] in Channels();
      }
    }

    /** One test's commands from the worker: configure, load, transmit. Position p of the
        streamer gets row p of the signal, and the streamer's positions are the requested
        channels in order unless an old one for the same set of channels is still there.
        Only the streamer can still fail a test that is configured and loaded. */
    method TransmitTest(channels: seq<nat>, signal: Signal, valid: bool, takes: nat -> nat)
      returns (r: TestOutcome, ghost log: seq<seq<seq<Sample>>>)
      requires Valid() && Usable(signal) && NoDuplicates(channels)
      modifies this
      ensures Valid()
      ensures r == Refused <==> !(Acceptable(channels, [], available) && valid)
      ensures r == Refused <==> channels == [] || (exists c :: c in channels && c >= available) || !valid
      ensures r == NotLoaded <==>
        Acceptable(channels, [], available) && valid && signal.Multi? && |signal.rows| != |channels|
      ensures r == Delivered ==> channels != [] && !RowMismatch(Some(signal), channels) && FullPieces(log, |channels|)
      ensures r == Delivered ==> forall p :: 0 <= p < |channels| ==> Joined(log, p) == RowOf(signal, p)
      ensures r == Stalled ==> takes(|log|) == 0
      ensures r != Refused ==> streamer == Some(Streamer(OrderAfter(old(streamer), old(configured), channels), chunk))
    {
      r, log := Refused, [];
      var ok := ConfigureUsrp(channels, [], valid);
      assert channels + [] == channels;
      NotEmpty(channels, available);
      AcceptableIff(channels, [], available);
      hide *;
      if ok { r, log := LoadAndTransmit(channels, signal, takes); }
    }

    lemma ReadyToSend(channels: seq<nat>, signal: Signal)
      requires Usable(signal) && syncChannels == channels == Channels() && intfChannels == []
      requires syncData == Some(signal) && intfData == None && Assembled(syncData, intfData)
      requires Channels() != [] && Placeable(Loaded(signal), syncChannels)
      ensures channels != [] && !RowMismatch(Some(signal), channels)
      ensures txSignal != null && txSignal.Length1 == Length(Some(signal))
      ensures Holds(txSignal, Some(signal), channels, None, [])
      ensures forall p :: 0 <= p < |Channels()| ==> Channels()[p] < txSignal.Length0
    {
      forall p | 0 <= p < |Channels()| ensures Channels()[p] < txSignal.Length0 {
        assert Channels()[p] in Channels();
      }
    }

    method LoadAndTransmit(channels: seq<nat>, signal: Signal, takes: nat -> nat)
      returns (r: TestOutcome, ghost log: seq<seq<seq<Sample>>>)
      requires Valid() && Usable(signal) && NoDuplicates(channels) && streamer.Some?
      requires syncChannels == channels == Channels() != [] && intfChannels == []
      modifies this`syncData, this`intfData, this`txSignal, this`air, this`meta
      ensures Valid() && r != Refused
      ensures r == NotLoaded <==> signal.Multi? && |signal.rows| != |channels|
      ensures r == Delivered ==> channels != [] && !RowMismatch(Some(signal), channels) && FullPieces(log, |channels|)
      ensures r == Delivered ==> forall p :: 0 <= p < |channels| ==> Joined(log, p) == RowOf(signal, p)
      ensures r == Stalled ==> takes(|log|) == 0
    {
      r, log := NotLoaded, [];
      MismatchIs(channels, signal);
      hide Assembled, Holds, Valid, RowMismatch;
      AbsentSignal();
      var ready := LoadSignal(Loaded(signal), NotGiven);
      if ready != Ready { return; }
      ReadyToSend(channels, signal);
      hide *;
      var sent: Outcome;
      ghost var marks;
      sent, log, marks := TransmitWithDelay(takes);
      r := if sent.Sent? then Delivered else Stalled;
      if sent.Sent? { WholeRows(txSignal, channels, signal, chunk, sent, log, marks); }
    }
  }

  datatype TestOutcome = Refused | NotLoaded | Stalled | Delivered

  lemma MismatchIs(list: seq<nat>, s: Signal)
    requires list != []
    ensures RowMismatch(Some(s), list) <==> s.Multi? && |s.rows| != |list|
  {}

  lemma NotEmpty(channels: seq<nat>, available: nat)
    ensures Acceptable(channels, [], available) ==> channels != []
  {
    assert channels + [] == channels;
  }

  /** What a signal has for its p-th channel. */
  function RowOf(s: Signal, p: nat): seq<Sample>
    requires s.Multi? ==> p < |s.rows|
  {
    if s.Mono? then s.samples else s.rows[p]
  }

  function OrderAfter(was: Option<Streamer>, configured: Option<seq<nat>>, channels: seq<nat>): seq<nat> {
    if was.None? || Changed(configured, channels) then channels else was.value.order
  }

  lemma WholeRows(m: array2<Sample>, channels: seq<nat>, signal: Signal, chunk: nat, r: Outcome,
                  log: seq<seq<seq<Sample>>>, marks: seq<Meta>)
    requires channels != [] && NoDuplicates(channels) && forall p :: 0 <= p < |channels| ==> channels[p] < m.Length0
    requires Usable(signal) && !RowMismatch(Some(signal), channels) && m.Length1 == Length(Some(signal))
    requires Holds(m, Some(signal), channels, None, []) && r.Sent? && Transmission(m, channels, chunk, r, log, marks)
    ensures forall p :: 0 <= p < |channels| ==> Joined(log, p) == RowOf(signal, p)
  {
    forall p | 0 <= p < |channels| ensures Joined(log, p) == RowOf(signal, p) {
      assert Joined(log, p) == Row(m, channels[p]);
      assert LastIndex(channels, channels[p]) == p;
      NoContribution([]);
    }
  }

  /** What a refused load leaves on channel c. */
  function RefusedRow(sync: Option<Signal>, list: seq<nat>, c: nat, n: nat): (r: seq<Sample>)
    requires sync.Some? ==> Rectangular(sync.value)
    ensures RowMismatch(sync, list) ==> |r| == n && forall j :: 0 <= j < n ==> r[j] == ZERO
  {
    Overlay(Contribution(if RowMismatch(sync, list) then None else sync, list, c), [], n)
  }

  lemma RefusedRows(m: array2<Sample>, sync: Option<Signal>, syncList: seq<nat>, intfList: seq<nat>, channels: seq<nat>,
                    chunk: nat, r: Outcome, log: seq<seq<seq<Sample>>>, marks: seq<Meta>)
    requires channels != [] && forall p :: 0 <= p < |channels| ==> channels[p] < m.Length0
    requires sync.Some? ==> Rectangular(sync.value)
    requires Holds(m, if RowMismatch(sync, syncList) then None else sync, syncList, None, intfList)
    requires r.Sent? && Transmission(m, channels, chunk, r, log, marks)
    ensures FullPieces(log, |channels|)
    ensures forall p :: 0 <= p < |channels| ==> Joined(log, p) == RefusedRow(sync, syncList, channels[p], m.Length1)
  {
    NoContribution(intfList);
    hide Contribution, RowMismatch, Overlay;
    forall p | 0 <= p < |channels| ensures Joined(log, p) == RefusedRow(sync, syncList, channels[p], m.Length1) {
      assert Joined(log, p) == Row(m, channels[p]);
    }
  }

  // ----- Which device channel radiates what --------------------------------------------------

  /** What device channel c radiates when the streamer's positions are `order`. */
  ghost function Radiated(order: seq<nat>, rows: seq<seq<Sample>>, c: nat): seq<Sample>
    requires c in order && |rows| == |order|
  {
    rows[LastIndex(order, c)]
  }

  ghost predicate AllDiffer(rows: seq<seq<Sample>>) {
    forall i, j :: 0 <= i < j < |rows| ==> rows[i] != rows[j]
  }

  lemma RightPlace(order: seq<nat>, rows: seq<seq<Sample>>, c: nat, p: nat)
    requires c in order && |rows| == |order| && AllDiffer(rows) && p < |rows|
    ensures Radiated(order, rows, c) == rows[p] ==> order[p] == c
  {
    var q := LastIndex(order, c);
    assert q < p ==> rows[q] != rows[p];
    assert p < q ==> rows[p] != rows[q];
  }

  /** With different rows, every requested channel radiates its own row exactly if the
      streamer in use lists the channels in the requested order. */
  lemma RowsReachTheirChannels(order: seq<nat>, channels: seq<nat>, rows: seq<seq<Sample>>)
    requires multiset(order) == multiset(channels) && NoDuplicates(channels) && |rows| == |order| == |channels|
    requires AllDiffer(rows)
    ensures (forall p :: 0 <= p < |channels| ==> channels[p] in order && Radiated(order, rows, channels[p]) == rows[p])
      <==> order == channels
  {
    forall p | 0 <= p < |channels|
      ensures channels[p] in order
      ensures Radiated(order, rows, channels[p]) == rows[p] ==> order[p] == channels[p]
      ensures order == channels ==> Radiated(order, rows, channels[p]) == rows[p]
    {
      assert channels[p] in multiset(order);
      RightPlace(order, rows, channels[p], p);
      if order == channels { assert LastIndex(order, channels[p]) == p; }
    }
    hide Radiated, NoDuplicates, AllDiffer;
  }

  predicate Ascending(s: seq<nat>) {
    forall i, j :: 0 <= i < j < |s| ==> s[i] < s[j]
  }

  /** So tests that list their channels in ascending order always have the right one. */
  lemma AscendingStaysAligned(was: Option<Streamer>, configured: Option<seq<nat>>, channels: seq<nat>)
    requires Ascending(channels) && (was.Some? ==> Ascending(was.value.order))
    requires was.Some? && configured.Some? ==> multiset(was.value.order) == multiset(configured.value)
    ensures OrderAfter(was, configured, channels) == channels
  {
    if was.Some? && !Changed(configured, channels) {
      AscendingUnique(was.value.order, channels);
    }
  }

  lemma {:induction false} AscendingUnique(a: seq<nat>, b: seq<nat>)
    requires Ascending(a) && Ascending(b) && multiset(a) == multiset(b)
    ensures a == b
  {
    SameSize(a, b);
    if a != [] {
      Peel(a, b);
      AscendingUnique(a[1..], b[1..]);
      SameByParts(a, b);
    }
  }

  lemma Peel(a: seq<nat>, b: seq<nat>)
    requires Ascending(a) && Ascending(b) && multiset(a) == multiset(b) && |a| == |b| > 0
    ensures a[0] == b[0] && Ascending(a[1..]) && Ascending(b[1..]) && multiset(a[1..]) == multiset(b[1..])
  {
    hide *;
    Shift(a);
    Shift(b);
    assert b[0] in multiset(a);
    FirstIsLeast(a, b[0]);
    assert a[0] in multiset(b);
    FirstIsLeast(b, a[0]);
  }

  lemma SameByParts(a: seq<nat>, b: seq<nat>)
    requires |a| == |b| > 0 && a[0] == b[0] && a[1..] == b[1..]
    ensures a == b
  {
    assert a == [a[0]] + a[1..] && b == [b[0]] + b[1..];
  }

  lemma SameSize(a: seq<nat>, b: seq<nat>)
    requires multiset(a) == multiset(b)
    ensures |a| == |b|
  {
    assert |multiset(a)| == |a| && |multiset(b)| == |b|;
  }

  lemma FirstIsLeast(s: seq<nat>, x: nat)
    requires Ascending(s) && x in s
    ensures s[0] <= x
  {}

  lemma Shift(s: seq<nat>)
    requires s != [] && Ascending(s)
    ensures Ascending(s[1..]) && multiset(s[1..]) == multiset(s) - multiset{s[0]}
  {
    assert s == [s[0]] + s[1..];
  }

  /** Otherwise not: [1, 0] and then [0, 1] keeps the first streamer. */
  lemma ReorderedKeepsOldStreamer(chunk: nat)
    ensures OrderAfter(Some(Streamer([1, 0], chunk)), Some([1, 0]), [0, 1]) == [1, 0] != [0, 1]
  {
    assert multiset([1, 0]) == multiset([0, 1]);
  }

  /** What a transmission hands to the streamer: per position a prefix of its channel's
      row, all of it on success; begin of burst and the start time on the first send only,
      end of burst on every send whose chunk reaches the last sample, so on the last one. */
  ghost predicate Transmission(m: array2<Sample>, channels: seq<nat>, chunk: nat, r: Outcome,
                               log: seq<seq<seq<Sample>>>, marks: seq<Meta>)
    requires forall p :: 0 <= p < |channels| ==> channels[p] < m.Length0
    requires channels != []
    reads m
  {
    && (r.Sent? || r == TimedOut)
    && (r.Sent? ==> r.samples == m.Length1)
    && (exists sent: nat :: Upto(m, channels, log, sent) && (if r.Sent? then sent == m.Length1 else sent < m.Length1))
    && |log| == |marks| && FullPieces(log, |channels|) && Marked(log, marks, chunk, m.Length1)
    && (r.Sent? && log != [] ==> marks[|marks| - 1].eob)
  }

  /** Every position has received exactly the first `sent` samples of its row. */
  ghost predicate Upto(m: array2<Sample>, channels: seq<nat>, log: seq<seq<seq<Sample>>>, sent: nat)
    requires forall p :: 0 <= p < |channels| ==> channels[p] < m.Length0
    reads m
  {
    && sent <= m.Length1 && FullPieces(log, |channels|)
    && forall p :: 0 <= p < |channels| ==> Joined(log, p) == Row(m, channels[p])[..sent]
  }

  /** The loop of transmit_with_delay. The streamer takes up to takes(k) samples from the
      k-th send; nothing means that it timed out. */
  method SendAll(m: array2<Sample>, channels: seq<nat>, chunk: nat, takes: nat -> nat)
    returns (r: Outcome, ghost log: seq<seq<seq<Sample>>>, ghost marks: seq<Meta>)
    requires chunk > 0 && channels != [] && forall p :: 0 <= p < |channels| ==> channels[p] < m.Length0
    ensures Transmission(m, channels, chunk, r, log, marks)
    ensures r == Sent(m.Length1) || (r == TimedOut && takes(|log|) == 0)
    ensures Taken(log, takes)
  {
    hide Joined, Marked, Upto, FullPieces;
    log, marks := [], [];
    var n, sent, sends := m.Length1, 0, 0;
    NothingSent(m, channels, chunk);
    while sent < n
      invariant sent <= n && sends == |log| == |marks| && Taken(log, takes)
      invariant Upto(m, channels, log, sent) && FullPieces(log, |channels|)
      invariant forall i :: 0 <= i < |log| ==> log[i] != []
      invariant Marked(log, marks, chunk, n)
      invariant sent == n && log != [] ==> marks[|marks| - 1].eob
      decreases n - sent
    {
      var end := if sent + chunk < n then sent + chunk else n;
      var buffer := Columns(m, channels, sent, end);
      var mark := Meta(sent, sends == 0, sends == 0, end == n);
      var taken := if takes(sends) <= end - sent then takes(sends) else end - sent;
      if taken == 0 { return TimedOut, log, marks; }
      ghost var piece := seq(|channels|, p requires 0 <= p < |channels| => buffer[p][..taken]);
      forall p | 0 <= p < |channels| ensures piece[p] == Row(m, channels[p])[sent..sent + taken] {
        SliceOfSlice(Row(m, channels[p]), sent, end, taken);
      }
      NextPiece(m, channels, log, piece, sent, taken);
      NextMark(m, channels, log, marks, piece, mark, chunk, n);
      log, marks := log + [piece], marks + [mark];
      sent, sends := sent + taken, sends + 1;
    }
    r := Sent(sent);
  }

  /** Send k took no more than the streamer accepts from it, and at least one sample. */
  ghost predicate Taken(log: seq<seq<seq<Sample>>>, takes: nat -> nat) {
    forall k: nat :: k < |log| ==> log[k] != [] && 0 < |log[k][0]| <= takes(k)
  }

  lemma SliceOfSlice(s: seq<Sample>, a: nat, b: nat, k: nat)
    requires a <= b <= |s| && k <= b - a
    ensures s[a..b][..k] == s[a..a + k]
  {}

  lemma NothingSent(m: array2<Sample>, channels: seq<nat>, chunk: nat)
    requires forall p :: 0 <= p < |channels| ==> channels[p] < m.Length0
    ensures Upto(m, channels, [], 0) && FullPieces([], |channels|) && Marked([], [], chunk, m.Length1)
  {}

  lemma NextPiece(m: array2<Sample>, channels: seq<nat>, log: seq<seq<seq<Sample>>>, piece: seq<seq<Sample>>,
                  sent: nat, taken: nat)
    requires forall p :: 0 <= p < |channels| ==> channels[p] < m.Length0
    requires Upto(m, channels, log, sent) && |piece| == |channels| && sent + taken <= m.Length1
    requires forall p :: 0 <= p < |channels| ==> piece[p] == Row(m, channels[p])[sent..sent + taken]
    ensures Upto(m, channels, log + [piece], sent + taken) && FullPieces(log + [piece], |channels|)
  {
    forall p | 0 <= p < |channels|
      ensures Joined(log + [piece], p) == Row(m, channels[p])[..sent + taken]
    {
      JoinedPush(log, piece, p);
      var row := Row(m, channels[p]);
      assert row[..sent] + row[sent..sent + taken] == row[..sent + taken];
    }
  }

  lemma NextMark(m: array2<Sample>, channels: seq<nat>, log: seq<seq<seq<Sample>>>, marks: seq<Meta>,
                 piece: seq<seq<Sample>>, mark: Meta, chunk: nat, n: nat)
    requires channels != [] && forall p :: 0 <= p < |channels| ==> channels[p] < m.Length0
    requires Upto(m, channels, log, mark.start) && |piece| == |channels|
    requires |log| == |marks| && forall i :: 0 <= i < |log| ==> log[i] != []
    requires Marked(log, marks, chunk, n)
    requires (mark.sob <==> log == []) && (mark.timed <==> log == [])
    requires mark.eob <==> mark.start + chunk >= n
    ensures forall i :: 0 <= i < |log + [piece]| ==> (log + [piece])[i] != []
    ensures Marked(log + [piece], marks + [mark], chunk, n)
  {
    forall i | 0 <= i <= |log| ensures (log + [piece])[..i] == log[..i] {}
    assert log[..|log|] == log;
    assert |Joined(log, 0)| == mark.start;
  }

  ghost predicate FullPieces(log: seq<seq<seq<Sample>>>, positions: nat) {
    forall i :: 0 <= i < |log| ==> |log[i]| == positions
  }

  /** The flags of every send: begin only on the first, end wherever the offered chunk
      reaches the last sample. */
  ghost predicate Marked(log: seq<seq<seq<Sample>>>, marks: seq<Meta>, chunk: nat, n: nat)
    requires |log| == |marks| && forall i :: 0 <= i < |log| ==> log[i] != []
  {
    forall i :: 0 <= i < |marks| ==>
      && marks[i].start == |Joined(log[..i], 0)|
      && (marks[i].sob <==> i == 0) && (marks[i].timed <==> i == 0)
      && (marks[i].eob <==> marks[i].start + chunk >= n)
  }

  predicate Acceptable(sync: seq<nat>, intf: seq<nat>, available: nat) {
    && sync + intf != []
    && (forall i :: 0 <= i < |sync + intf| ==> (sync + intf)[i] < available)
    && (forall i :: 0 <= i < |sync| ==> sync[i] !in intf)
  }

  lemma AcceptableIff(sync: seq<nat>, intf: seq<nat>, available: nat)
    ensures Acceptable(sync, intf, available) <==>
      && (sync != [] || intf != []) && (forall c :: c in sync || c in intf ==> c < available)
      && (forall c :: c in sync ==> c !in intf)
  {
    var all := sync + intf;
    assert forall i :: 0 <= i < |sync| ==> all[i] == sync[i];
    assert forall i :: 0 <= i < |intf| ==> all[|sync| + i] == intf[i];
    forall i | 0 <= i < |all| ensures all[i] in sync || all[i] in intf {
      if i >= |sync| { assert all[i] == intf[i - |sync|]; }
    }
    if Acceptable(sync, intf, available) {
      forall c | c in sync || c in intf ensures c < available { assert c in all; }
    }
  }

  /** sorted(new) != current_config['channels'] */
  predicate Changed(configured: Option<seq<nat>>, channels: seq<nat>) {
    configured.None? || multiset(configured.value) != multiset(channels)
  }

  /** A 2-D signal with another number of rows than there are channels, even none. */
  predicate Incompatible(s: Option<Signal>, list: seq<nat>) {
    s.Some? && s.value.Multi? && |s.value.rows| != |list|
  }

  /** What reading a signal file can produce. */
  predicate Usable(s: Signal) { Rectangular(s) && Length(Some(s)) > 0 }

  function Data(f: File): Option<Signal> {
    if f.Loaded? then Some(f.signal) else None
  }

  lemma AbsentSignal()
    ensures Length(None) == 0 && forall list :: !RowMismatch(None, list)
    ensures forall a, b :: Max(a, b) > 0 <==> a > 0 || b > 0
  {}

  /** What the checks before the assembly let through. */
  predicate Loadable(f: File, list: seq<nat>) {
    f.NotGiven? || (f.Loaded? && list != [])
  }

  predicate Placeable(f: File, list: seq<nat>) {
    f.NotGiven? || (f.Loaded? && list != [] && !RowMismatch(Data(f), list))
  }

  // ----- The receiver -------------------------------------------------------------------------

  datatype RxOutcome = Received | StreamError | Capped

  /** One successful recv: a segment per row, all of one length. */
  ghost predicate Deliveries(log: seq<seq<seq<Sample>>>, rows: nat, chunk: nat)
    requires rows > 0
  {
    forall k :: 0 <= k < |log| ==>
      && |log[k]| == rows && |log[k][0]| <= chunk && forall i :: 0 <= i < rows ==> |log[k][i]| == |log[k][0]|
  }

  /** How many recvs brought less than a full chunk. */
  ghost function Shorts(log: seq<seq<seq<Sample>>>, chunk: nat): nat
    requires forall k :: 0 <= k < |log| ==> log[k] != []
    decreases |log|
  {
    if log == [] then 0
    else Shorts(log[..|log| - 1], chunk) + if |log[|log| - 1][0]| < chunk then 1 else 0
  }

  lemma {:induction false} ShortsAre(log: seq<seq<seq<Sample>>>, chunk: nat)
    requires forall k :: 0 <= k < |log| ==> log[k] != []
    ensures Shorts(log, chunk) == |set k | 0 <= k < |log| && |log[k][0]| < chunk|
    decreases |log|
  {
    if log != [] {
      var m := |log| - 1;
      ShortsAre(log[..m], chunk);
      var before := set k | 0 <= k < m && |log[..m][k][0]| < chunk;
      assert (set k | 0 <= k < |log| && |log[k][0]| < chunk) == before + if |log[m][0]| < chunk then {m} else {};
    }
  }

  /** The receive daemon's channels and streamer. */
  class RxStreams {
    const available: nat
    const chunk: nat
    var configured: Option<seq<nat>>   // current_config['channels'], before sorting
    var streamer: Option<Streamer>

    ghost predicate Valid()
      reads this
    {
      && chunk > 0
      && (configured.None? ==> streamer.None?)
      && (streamer.Some? ==> streamer.value.chunk == chunk)
      && (configured.Some? && streamer.Some? ==> multiset(streamer.value.order) == multiset(configured.value))
    }

    constructor (available: nat, chunk: nat)
      requires chunk > 0
      ensures Valid() && configured.None? && this.available == available && this.chunk == chunk
    {
      this.available, this.chunk := available, chunk;
      configured, streamer := None, None;
    }

    /** configure_usrp as far as channels and streamer go: here too the streamer is renewed
        only when the sorted channel list differs from the last one. */
    method ConfigureUsrp(channels: seq<nat>, valid: bool) returns (ok: bool)
      requires Valid()
      modifies this
      ensures Valid()
      ensures ok <==> channels != [] && (forall i :: 0 <= i < |channels| ==> channels[i] < available) && valid
      ensures ok ==> && configured == Some(channels)
                     && streamer == Some(Streamer(OrderAfter(old(streamer), old(configured), channels), chunk))
      ensures !ok ==> configured == old(configured) && streamer == old(streamer)
    {
      if channels == [] || !(forall i :: 0 <= i < |channels| ==> channels[i] < available) || !valid { return false; }
      if streamer.None? || Changed(configured, channels) { streamer := Some(Streamer(channels, chunk)); }
      configured := Some(channels);
      ok := true;
    }
  }

  /** receive_with_delay from the timed command on: the first n samples of every row, in
      order, of what the calls of recv bring. The iteration cap ends it only after a
      hundred recvs that were not full. */
  method ReceiveWithDelay(rows: nat, n: nat, chunk: nat, recv: nat -> Option<seq<seq<Sample>>>)
    returns (r: RxOutcome, rx: array2<Sample>, ghost log: seq<seq<seq<Sample>>>)
    requires rows > 0 && chunk > 0 && forall k: nat :: recv(k).Some? ==> Deliveries([recv(k).value], rows, chunk)
    ensures Deliveries(log, rows, chunk) && forall k: nat :: k < |log| ==> recv(k) == Some(log[k])
    ensures r.StreamError? ==> recv(|log|).None?
    ensures rx.Length0 == rows && rx.Length1 == n
    ensures r.Received? ==> forall i :: 0 <= i < rows ==> n <= |Joined(log, i)| && Row(rx, i) == Joined(log, i)[..n]
    ensures !r.Received? ==> forall i :: 0 <= i < rows ==> |Joined(log, i)| < n
    ensures r.Capped? ==> Shorts(log, chunk) >= 100
    ensures |log| <= n / chunk + 100
  {
    hide Joined, Shorts, Deliveries, Row;
    rx := new Sample[rows, n]((_, _) => ZERO);
    log := [];
    NothingReceived(rx, chunk);
    var received: nat, iterations: nat := 0, 0;
    while received < n
      invariant received <= n && iterations == |log| <= n / chunk + 100
      invariant Deliveries(log, rows, chunk) && Placed(rx, log, received)
      invariant forall k: nat :: k < |log| ==> recv(k) == Some(log[k])
      decreases n / chunk + 100 - iterations
    {
      var delivery := recv(iterations);
      iterations := iterations + 1;
      if iterations > n / chunk + 100 {
        FullOnes(log, rows, chunk, n);
        return Capped, rx, log;
      }
      if delivery.None? { return StreamError, rx, log; }
      var segments := delivery.value;
      DeliveryLengths(segments, rows, chunk);
      var length := |segments[0]|;
      NextDelivery(log, segments, rows, chunk);
      if length == 0 {
        NothingNew(rx, log, segments, received);
      } else {
        var copied := if length < n - received then length else n - received;
        ghost var before := seq(rows, i requires 0 <= i < rows reads rx => Row(rx, i));
        CopyIn(rx, received, copied, segments);
        NextPlaced(rx, before, log, segments, received, copied);
        received := received + copied;
      }
      log := log + [segments];
    }
    r := Received;
  }

  /** The first `received` samples are in place, and nothing is left over before the end. */
  ghost predicate Placed(rx: array2<Sample>, log: seq<seq<seq<Sample>>>, received: nat)
    reads rx
  {
    && received <= rx.Length1
    && (forall k :: 0 <= k < |log| ==> |log[k]| == rx.Length0)
    && forall i :: 0 <= i < rx.Length0 ==>
      && received <= |Joined(log, i)| && Row(rx, i)[..received] == Joined(log, i)[..received]
      && (received < rx.Length1 ==> |Joined(log, i)| == received)
  }

  lemma NothingReceived(rx: array2<Sample>, chunk: nat)
    requires rx.Length0 > 0
    ensures Placed(rx, [], 0) && Deliveries([], rx.Length0, chunk)
  {}

  lemma DeliveryLengths(segments: seq<seq<Sample>>, rows: nat, chunk: nat)
    requires rows > 0 && Deliveries([segments], rows, chunk)
    ensures |segments| == rows && forall i :: 0 <= i < rows ==> |segments[i]| == |segments[0]|
  {
    assert [segments][0] == segments;
  }

  lemma NextDelivery(log: seq<seq<seq<Sample>>>, segments: seq<seq<Sample>>, rows: nat, chunk: nat)
    requires rows > 0 && Deliveries(log, rows, chunk) && Deliveries([segments], rows, chunk)
    ensures Deliveries(log + [segments], rows, chunk)
  {
    assert [segments][0] == segments;
  }

  lemma NothingNew(rx: array2<Sample>, log: seq<seq<seq<Sample>>>, segments: seq<seq<Sample>>, received: nat)
    requires Placed(rx, log, received) && |segments| == rx.Length0
    requires forall i :: 0 <= i < |segments| ==> segments[i] == []
    ensures Placed(rx, log + [segments], received)
  {
    forall i | 0 <= i < rx.Length0 ensures Joined(log + [segments], i) == Joined(log, i) {
      JoinedPush(log, segments, i);
    }
  }

  /** rx_signal[i, at : at + count] = rx_buffer[i, :count] for every row */
  method CopyIn(rx: array2<Sample>, at: nat, count: nat, segments: seq<seq<Sample>>)
    requires at + count <= rx.Length1 && |segments| == rx.Length0
    requires forall i :: 0 <= i < |segments| ==> count <= |segments[i]|
    modifies rx
    ensures forall i, j :: 0 <= i < rx.Length0 && 0 <= j < rx.Length1 ==>
      rx[i, j] == if at <= j < at + count then segments[i][j - at] else old(rx[i, j])
    ensures forall i :: 0 <= i < rx.Length0 ==>
      Row(rx, i) == old(Row(rx, i))[..at] + segments[i][..count] + old(Row(rx, i))[at + count..]
  {
    forall i, j | 0 <= i < rx.Length0 && at <= j < at + count { rx[i, j] := segments[i][j - at]; }
  }

  lemma NextPlaced(rx: array2<Sample>, before: seq<seq<Sample>>, log: seq<seq<seq<Sample>>>, segments: seq<seq<Sample>>,
                   received: nat, copied: nat)
    requires |before| == rx.Length0 == |segments| && received + copied <= rx.Length1 && received < rx.Length1
    requires forall k :: 0 <= k < |log| ==> |log[k]| == rx.Length0
    requires forall i :: 0 <= i < rx.Length0 ==>
      && |before[i]| == rx.Length1 && |Joined(log, i)| == received && before[i][..received] == Joined(log, i)
      && copied <= |segments[i]| && (received + copied < rx.Length1 ==> copied == |segments[i]|)
      && Row(rx, i) == before[i][..received] + segments[i][..copied] + before[i][received + copied..]
    ensures Placed(rx, log + [segments], received + copied)
  {
    forall i | 0 <= i < rx.Length0
      ensures Joined(log + [segments], i) == Joined(log, i) + segments[i]
      ensures Row(rx, i)[..received + copied] == Joined(log + [segments], i)[..received + copied]
    {
      JoinedPush(log, segments, i);
    }
  }

  /** Full chunks alone cannot use up the iterations. */
  lemma FullOnes(log: seq<seq<seq<Sample>>>, rows: nat, chunk: nat, n: nat)
    requires rows > 0 && chunk > 0 && Deliveries(log, rows, chunk) && |Joined(log, 0)| < n
    ensures |log| <= n / chunk + Shorts(log, chunk)
  {
    FullChunks(log, rows, chunk);
    AtMostQuotient(|log| - Shorts(log, chunk), chunk, n);
  }

  lemma AtMostQuotient(a: int, c: nat, n: nat)
    requires c > 0 && a * c < n
    ensures a <= n / c
  {
    if a > n / c { Times(n / c + 1, a, c); }
  }

  lemma Times(a: int, b: int, c: nat)
    requires a <= b
    ensures a * c <= b * c
  {}

  lemma {:induction false} FullChunks(log: seq<seq<seq<Sample>>>, rows: nat, chunk: nat)
    requires rows > 0 && Deliveries(log, rows, chunk)
    ensures (|log| - Shorts(log, chunk)) * chunk <= |Joined(log, 0)|
    decreases |log|
  {
    if log != [] {
      var k := |log| - 1;
      FullChunks(log[..k], rows, chunk);
      var full := k - Shorts(log[..k], chunk);
      assert (full + 1) * chunk == full * chunk + chunk;
    }
  }

  function Max(a: nat, b: nat): (r: nat)
    ensures r >= a && r >= b && (r == a || r == b)
  {
    if a < b then b else a
  }

  function Greatest(s: seq<nat>): (r: nat)
    requires s != []
    ensures r in s && forall i :: 0 <= i < |s| ==> s[i] <= r
  {
    if |s| == 1 then s[0] else Max(s[0], Greatest(s[1..]))
  }
}

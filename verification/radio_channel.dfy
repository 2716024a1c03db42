/** The socket side of USRPChannel in worker/channel.py: cached REQ sockets to the
    daemons, used by send_and_receive, receive_only and their helpers. Any call into
    the host (file system, inventory, settings) may raise, any reply may be an error,
    any receive may time out; an exception is the outcome Raised. */
module RadioChannel {
  import opened Collections
  import opened ReqSockets

  datatype Role = Tx | Rx

  /** A socket is cached per USRP and role. */
  datatype Key = Key(usrp: string, role: Role)

  /** `transient` tells the errors that the worker retries (stream glitches). */
  datatype Outcome = Done | Raised(transient: bool)

  method AnyError() returns (r: Outcome)
    ensures r.Raised?
  {
    var t: bool := *;
    r := Raised(t);
  }

  /** How many bursts a log requests. */
  ghost function Bursts(log: seq<WireEvent>): nat {
    if log == [] then 0
    else
      var e := log[|log| - 1];
      Bursts(log[..|log| - 1]) + if e.Sent? && e.op == TransmitBurst then 1 else 0
  }

  /** The log has only grown, by `bursts` bursts; replies received since then answer
      requests sent at `mark` or later; and a burst was only ever requested right
      after the capture had been. */
  ghost predicate Grew(before: seq<WireEvent>, now: seq<WireEvent>, mark: nat, bursts: nat) {
    && before <= now && Bursts(now) == Bursts(before) + bursts
    && (forall i :: |before| <= i < |now| && now[i].Received? ==> now[i].request >= mark)
    && (forall i :: |before| <= i < |now| && now[i].Sent? && now[i].op == TransmitBurst ==>
          i > |before| && now[i - 1].Sent? && now[i - 1].op == ReceiveToFile)
  }

  lemma GrewNot(log: seq<WireEvent>, mark: nat)
    ensures Grew(log, log, mark, 0)
  {}

  lemma GrewBy(before: seq<WireEvent>, now: seq<WireEvent>, e: WireEvent, mark: nat, bursts: nat)
    requires Grew(before, now, mark, bursts)
    requires e.Received? ==> e.request >= mark
    requires !(e.Sent? && e.op == TransmitBurst)
    ensures Grew(before, now + [e], mark, bursts)
  {
    assert (now + [e])[..|now|] == now;
  }

  lemma GrewByBurst(before: seq<WireEvent>, now: seq<WireEvent>, k: SockId, mark: nat, bursts: nat)
    requires Grew(before, now, mark, bursts)
    requires |now| > |before| && now[|now| - 1].Sent? && now[|now| - 1].op == ReceiveToFile
    ensures Grew(before, now + [Sent(k, TransmitBurst)], mark, bursts + 1)
  {
    assert (now + [Sent(k, TransmitBurst)])[..|now|] == now;
  }

  lemma GrewOn(a: seq<WireEvent>, b: seq<WireEvent>, c: seq<WireEvent>, mark: nat, m: nat, n: nat)
    requires Grew(a, b, mark, m) && Grew(b, c, mark, n)
    ensures Grew(a, c, mark, m + n)
  {}

  lemma GrewSince(a: seq<WireEvent>, b: seq<WireEvent>, mark: nat, later: nat, bursts: nat)
    requires Grew(a, b, later, bursts) && mark <= later
    ensures Grew(a, b, mark, bursts)
  {}

  /** What goes over the wire when a burst succeeds, from log position `at` on: load,
      flush, arm the capture, send the burst, collect both replies. */
  function BurstExchange(tx: SockId, rx: SockId, at: nat): seq<WireEvent> {
    [Sent(tx, LoadSignal), Received(tx, at), Sent(rx, FlushRx), Received(rx, at + 2),
     Sent(rx, ReceiveToFile), Sent(tx, TransmitBurst), Received(tx, at + 5), Received(rx, at + 4)]
  }

  /** The same for a capture alone. */
  function CaptureExchange(rx: SockId, at: nat): seq<WireEvent> {
    [Sent(rx, FlushRx), Received(rx, at), Sent(rx, ReceiveToFile), Received(rx, at + 2)]
  }

  /** The log is `before` followed by one such exchange. */
  ghost predicate BurstDone(before: seq<WireEvent>, log: seq<WireEvent>, tx: SockId, rx: SockId) {
    log == before + BurstExchange(tx, rx, |before|)
  }

  ghost predicate CaptureDone(before: seq<WireEvent>, log: seq<WireEvent>, rx: SockId) {
    log == before + CaptureExchange(rx, |before|)
  }

  /** A log that ends with a capture, by itself or right before a burst. */
  ghost predicate EndsWithCapture(log: seq<WireEvent>, rx: SockId) {
    |log| >= 4 && CaptureDone(log[..|log| - 4], log, rx)
  }

  ghost predicate EndsWithBurst(log: seq<WireEvent>, tx: SockId, rx: SockId, heard: bool) {
    |log| >= 8 && BurstDone(log[..|log| - 8], log, tx, rx) && (heard ==> EndsWithCapture(log[..|log| - 8], rx))
  }

  /** Since position `from` socket k has been configured, and has answered. */
  ghost predicate Configured(log: seq<WireEvent>, from: nat, k: SockId) {
    exists n: nat :: from <= n < |log| - 1 && log[n] == Sent(k, ConfigureUsrp) && log[n + 1] == Received(k, n)
  }

  lemma JustConfigured(before: seq<WireEvent>, log: seq<WireEvent>, from: nat, k: SockId)
    requires from <= |before| && log == before + [Sent(k, ConfigureUsrp), Received(k, |before|)]
    ensures Configured(log, from, k)
  {
    var n := |before|;
    assert log[n] == Sent(k, ConfigureUsrp) && log[n + 1] == Received(k, n);
  }

  lemma ConfiguredEarlier(log: seq<WireEvent>, from: nat, later: nat, k: SockId)
    requires from <= later && Configured(log, later, k)
    ensures Configured(log, from, k)
  {}

  lemma StaysConfigured(before: seq<WireEvent>, now: seq<WireEvent>, mark: nat, bursts: nat, from: nat, k: SockId)
    requires Grew(before, now, mark, bursts) && Configured(before, from, k)
    ensures Configured(now, from, k)
  {
    var n: nat :| from <= n < |before| - 1 && before[n] == Sent(k, ConfigureUsrp) && before[n + 1] == Received(k, n);
    assert now[n] == before[n] && now[n + 1] == before[n + 1];
  }

  lemma CaptureEnds(before: seq<WireEvent>, log: seq<WireEvent>, rx: SockId)
    requires CaptureDone(before, log, rx)
    ensures EndsWithCapture(log, rx)
  {
    assert log[..|log| - 4] == before;
  }

  lemma BurstEnds(before: seq<WireEvent>, log: seq<WireEvent>, tx: SockId, rx: SockId, heard: bool)
    requires BurstDone(before, log, tx, rx) && (heard ==> EndsWithCapture(before, rx))
    ensures EndsWithBurst(log, tx, rx, heard)
  {
    assert log[..|log| - 8] == before;
  }

  lemma CapturePieces(a: seq<WireEvent>, b: seq<WireEvent>, c: seq<WireEvent>, rx: SockId)
    requires b == a + [Sent(rx, FlushRx), Received(rx, |a|)]
    requires c == b + [Sent(rx, ReceiveToFile)] + [Received(rx, |b|)]
    ensures CaptureDone(a, c, rx)
  {}

  lemma BurstPieces(a: seq<WireEvent>, b: seq<WireEvent>, c: seq<WireEvent>, d: seq<WireEvent>, tx: SockId, rx: SockId)
    requires b == a + [Sent(tx, LoadSignal), Received(tx, |a|)]
    requires c == b + [Sent(rx, FlushRx), Received(rx, |b|)]
    requires d == c + [Sent(rx, ReceiveToFile)] + [Sent(tx, TransmitBurst)]
                  + [Received(tx, |c| + 1)] + [Received(rx, |c|)]
    ensures BurstDone(a, d, tx, rx)
  {}

  function ClosedIn(st: map<SockId, ReqState>, gone: set<SockId>): map<SockId, ReqState> {
    map s | s in st :: if s in gone then Closed else st[s]
  }

  class UsrpChannel {
    const zmq: Context
    var socks: map<Key, SockId>
    var txReq: Option<SockId>
    var rxReq: Option<SockId>

    ghost predicate Known()
      reads this, zmq
    {
      zmq.Valid() && forall k :: k in socks ==> socks[k] in zmq.st
    }

    /** No cached socket has an outstanding request, and no two keys share a socket. */
    ghost predicate Clean()
      reads this, zmq
    {
      && Known()
      && (forall k :: k in socks ==> zmq.st[socks[k]] == Idle)
      && (forall k, l :: k in socks && l in socks && k != l ==> socks[k] != socks[l])
    }

    constructor (zmq: Context)
      requires zmq.Valid()
      ensures Clean() && this.zmq == zmq
    {
      this.zmq := zmq;
      socks, txReq, rxReq := map[], None, None;
    }

    /** Opens a socket and pings the endpoint; the other sockets are left alone. */
    method Connect(ghost mark: nat) returns (ok: bool, s: SockId)
      requires zmq.Valid() && mark <= |zmq.log|
      modifies zmq
      ensures zmq.Valid() && Grew(old(zmq.log), zmq.log, mark, 0)
      ensures |old(zmq.log)| <= |zmq.log|
      ensures ok <==> zmq.failures == old(zmq.failures)
      ensures old(zmq.failures) <= zmq.failures
      ensures zmq.unheard == old(zmq.unheard)
      ensures ok ==> zmq.timeouts == old(zmq.timeouts)
      ensures s !in old(zmq.st) && s in zmq.st
      ensures forall t :: t in old(zmq.st) ==> t in zmq.st && zmq.st[t] == old(zmq.st)[t]
      ensures ok ==> zmq.st[s] == Idle
    {
      hide Grew, Replay, Step;
      ghost var l0 := zmq.log;
      GrewNot(l0, mark);
      s := zmq.Open();
      GrewBy(l0, l0, Opened(s), mark, 0);
      ghost var l1 := zmq.log;
      zmq.Send(s, Ping);
      GrewBy(l0, l1, Sent(s, Ping), mark, 0);
      ghost var l2 := zmq.log;
      ok := zmq.Recv(s);
      if !ok { return; }
      GrewBy(l0, l2, zmq.log[|l2|], mark, 0);
      var pong := zmq.Host();
      if !pong {
        ghost var l3 := zmq.log;
        zmq.Close(s);
        GrewBy(l0, l3, Shut(s), mark, 0);
        return false, s;
      }
      ok := zmq.Host();  // os.makedirs
    }

    /** _sock: the cached socket, or a new one that has answered a PING. A socket that
        did not answer is never cached. */
    method Sock(key: Key, ghost mark: nat) returns (r: Outcome, s: SockId)
      requires Clean() && mark <= |zmq.log|
      modifies this`socks, zmq
      ensures Clean() && Grew(old(zmq.log), zmq.log, mark, 0)
      ensures |old(zmq.log)| <= |zmq.log|
      ensures r == Done <==> zmq.failures == old(zmq.failures)
      ensures old(zmq.failures) <= zmq.failures
      ensures zmq.unheard == old(zmq.unheard)
      ensures r == Done || r == Raised(true) ==> zmq.timeouts == old(zmq.timeouts)
      ensures r == Done ==> key in socks && socks[key] == s
      ensures forall k :: k in old(socks) ==> k in socks && socks[k] == old(socks)[k]
    {
      hide Grew, Replay, Step;
      s := 0;
      GrewNot(zmq.log, mark);
      if key in socks { return Done, socks[key]; }
      var known := zmq.Host();
      if !known { return Raised(false), s; }
      var ok;
      ok, s := Connect(mark);
      if !ok { return Raised(false), s; }
      socks := socks[key := s];
      r := Done;
    }

    /** Sends one request and waits for its reply. */
    method Ask(s: SockId, op: Op, ghost mark: nat) returns (arrived: bool)
      requires zmq.Valid() && s in zmq.st && zmq.st[s] == Idle && mark <= |zmq.log| && op != TransmitBurst
      modifies zmq
      ensures zmq.Valid() && Grew(old(zmq.log), zmq.log, mark, 0)
      ensures |old(zmq.log)| <= |zmq.log|
      ensures zmq.failures == old(zmq.failures) + if arrived then 0 else 1
      ensures zmq.unheard == old(zmq.unheard)
      ensures zmq.timeouts == old(zmq.timeouts) + if arrived then 0 else 1
      ensures arrived ==> zmq.st == old(zmq.st) && zmq.log == old(zmq.log) + [Sent(s, op), Received(s, |old(zmq.log)|)]
      ensures !arrived ==>
        zmq.st == old(zmq.st)[s := Awaiting(|old(zmq.log)|)] && zmq.log == old(zmq.log) + [Sent(s, op)]
    {
      hide Grew, Replay, Step;
      ghost var l0 := zmq.log;
      GrewNot(l0, mark);
      zmq.Send(s, op);
      GrewBy(l0, l0, Sent(s, op), mark, 0);
      ghost var l1 := zmq.log;
      arrived := zmq.Recv(s);
      if arrived {
        GrewBy(l0, l1, zmq.log[|l1|], mark, 0);
        assert zmq.st == old(zmq.st);
      }
    }

    /** _configure: on success _tx_req and _rx_req are the sockets of the picked pair.
        `txKey` is absent for a listen-only task. */
    method Configure(txKey: Option<Key>, rxKey: Key, ghost mark: nat) returns (r: Outcome)
      requires Clean() && mark <= |zmq.log|
      modifies this, zmq
      ensures Known() && Grew(old(zmq.log), zmq.log, mark, 0)
      ensures |old(zmq.log)| <= |zmq.log|
      ensures r == Done <==> zmq.failures == old(zmq.failures)
      ensures old(zmq.failures) <= zmq.failures
      ensures zmq.unheard == old(zmq.unheard)
      ensures r == Done || r == Raised(true) ==> zmq.timeouts == old(zmq.timeouts)
      ensures r == Done ==> Clean() && rxKey in socks && rxReq == Some(socks[rxKey])
      ensures r == Done && txKey.Some? ==> txKey.value in socks && txReq == Some(socks[txKey.value])
      ensures r == Done && txKey.None? ==> txReq == None
      ensures r == Done ==> Configured(zmq.log, |old(zmq.log)|, socks[rxKey])
      ensures r == Done && txKey.Some? ==> Configured(zmq.log, |old(zmq.log)|, socks[txKey.value])
    {
      hide Grew, Replay, Step, Configured;
      ghost var l0 := zmq.log;
      GrewNot(l0, mark);
      var picked := zmq.Host();  // inventory, channel indices, one USRP pair, gains
      if !picked { r := AnyError(); return; }
      if txKey.Some? {
        r := ConfigureSide(txKey.value, mark);
        if r.Raised? { return; }
        txReq := Some(socks[txKey.value]);
      } else {
        txReq := None;
      }
      ghost var l1 := zmq.log;
      r := ConfigureSide(rxKey, mark);
      GrewOn(l0, l1, zmq.log, mark, 0, 0);
      if r.Raised? { return; }
      ConfiguredEarlier(zmq.log, |l0|, |l1|, socks[rxKey]);
      if txKey.Some? { StaysConfigured(l1, zmq.log, mark, 0, |l0|, socks[txKey.value]); }
      rxReq := Some(socks[rxKey]);
    }

    method ConfigureSide(key: Key, ghost mark: nat) returns (r: Outcome)
      requires Clean() && mark <= |zmq.log|
      modifies this`socks, zmq
      ensures Known() && Grew(old(zmq.log), zmq.log, mark, 0)
      ensures |old(zmq.log)| <= |zmq.log|
      ensures r == Done <==> zmq.failures == old(zmq.failures)
      ensures old(zmq.failures) <= zmq.failures
      ensures zmq.unheard == old(zmq.unheard)
      ensures r == Done || r == Raised(true) ==> zmq.timeouts == old(zmq.timeouts)
      ensures r == Done ==> Clean() && key in socks && Configured(zmq.log, |old(zmq.log)|, socks[key])
      ensures forall k :: k in old(socks) ==> k in socks && socks[k] == old(socks)[k]
    {
      hide Grew, Replay, Step, Configured;
      ghost var l0 := zmq.log;
      var s;
      r, s := Sock(key, mark);
      if r.Raised? { return; }
      var distinct := zmq.Host();  // no device channel twice
      if !distinct { r := AnyError(); return; }
      ghost var l1 := zmq.log;
      var arrived := Ask(s, ConfigureUsrp, mark);
      GrewOn(l0, l1, zmq.log, mark, 0, 0);
      if !arrived { return Raised(false); }
      JustConfigured(l1, zmq.log, |l0|, s);
      var accepted := zmq.Host();  // neither ERROR nor MISMATCH
      if !accepted { r := AnyError(); }
    }

    /** One capture of the channel, whatever it holds. */
    method Sense(rx: SockId, ghost mark: nat) returns (arrived: bool)
      requires Clean() && mark <= |zmq.log| && rx in socks.Values
      modifies zmq
      ensures Known() && Grew(old(zmq.log), zmq.log, mark, 0)
      ensures |old(zmq.log)| <= |zmq.log|
      ensures zmq.failures == old(zmq.failures) + if arrived then 0 else 1
      ensures zmq.timeouts == old(zmq.timeouts) + if arrived then 0 else 1
      ensures zmq.unheard == old(zmq.unheard)
      ensures arrived ==> zmq.st == old(zmq.st) && CaptureDone(old(zmq.log), zmq.log, rx)
      ensures arrived ==> |zmq.log| == |old(zmq.log)| + 4
      ensures !arrived ==> zmq.st[rx] != Idle
    {
      hide Grew, Replay, Step, CaptureDone;
      ghost var l0 := zmq.log;
      arrived := Ask(rx, FlushRx, mark);
      if !arrived { return; }
      ghost var l1 := zmq.log;
      arrived := Ask(rx, ReceiveToFile, mark);
      GrewOn(l0, l1, zmq.log, mark, 0, 0);
      if arrived { CapturePieces(l0, l1, zmq.log, rx); }
    }

    /** _listen_before_talk */
    method ListenBeforeTalk(enabled: bool, maxRetries: nat, ghost mark: nat) returns (r: Outcome)
      requires Clean() && mark <= |zmq.log| && rxReq.Some? && rxReq.value in socks.Values
      modifies zmq
      ensures Known() && Grew(old(zmq.log), zmq.log, mark, 0)
      ensures |old(zmq.log)| <= |zmq.log|
      ensures old(zmq.failures) <= zmq.failures
      ensures zmq.unheard == old(zmq.unheard)
      ensures r != Raised(true) && (r == Done ==> zmq.timeouts == old(zmq.timeouts))
      ensures r == Done && enabled ==>
                var busy := zmq.failures - old(zmq.failures);
                busy < maxRetries && |zmq.log| == |old(zmq.log)| + 4 * (busy + 1)
      ensures r == Done && !enabled ==> zmq.failures == old(zmq.failures) && zmq.log == old(zmq.log)
      ensures r.Raised? ==> enabled
      ensures r.Raised? && zmq.st[rxReq.value] == Idle ==>
                zmq.failures == old(zmq.failures) + maxRetries && |zmq.log| == |old(zmq.log)| + 4 * maxRetries
      ensures r.Raised? && zmq.st[rxReq.value] != Idle ==> zmq.failures > old(zmq.failures)
      ensures r == Done ==> Clean()
      ensures r == Done && enabled ==> EndsWithCapture(zmq.log, rxReq.value)
    {
      hide Grew, Replay, Step, CaptureDone, EndsWithCapture;
      GrewNot(zmq.log, mark);
      if !enabled { return Done; }
      ghost var l0 := zmq.log;
      for attempt := 0 to maxRetries
        invariant Clean() && |l0| <= |zmq.log| && Grew(l0, zmq.log, mark, 0)
        invariant zmq.failures == old(zmq.failures) + attempt && |zmq.log| == |l0| + 4 * attempt
        invariant zmq.timeouts == old(zmq.timeouts) && zmq.unheard == old(zmq.unheard)
      {
        ghost var l1 := zmq.log;
        var arrived := Sense(rxReq.value, mark);
        GrewOn(l0, l1, zmq.log, mark, 0, 0);
        if !arrived { return Raised(false); }
        CaptureEnds(l1, zmq.log, rxReq.value);
        var clear := zmq.Host();  // capture accepted, file readable, power below the threshold
        if clear { return Done; }
      }
      r := Raised(false);
    }

    /** _reset_sockets: what was cached is closed, and nothing else is touched. */
    method ResetSockets(ghost mark: nat)
      requires Known() && mark <= |zmq.log|
      modifies this, zmq
      ensures Clean() && socks == map[] && Grew(old(zmq.log), zmq.log, mark, 0)
      ensures |old(zmq.log)| <= |zmq.log|
      ensures zmq.failures == old(zmq.failures) && old(zmq.log) <= zmq.log
      ensures zmq.timeouts == old(zmq.timeouts) && zmq.unheard == old(zmq.unheard)
      ensures zmq.st == ClosedIn(old(zmq.st), old(socks).Values) && txReq == rxReq == None
    {
      hide Grew, Replay, Step;
      ghost var l0, st0 := zmq.log, zmq.st;
      GrewNot(l0, mark);
      var left := socks.Keys;
      ghost var gone: set<SockId> := {};
      while left != {}
        invariant Known() && left <= socks.Keys && |l0| <= |zmq.log| && Grew(l0, zmq.log, mark, 0)
        invariant zmq.failures == old(zmq.failures) && l0 <= zmq.log && zmq.timeouts == old(zmq.timeouts)
        invariant zmq.unheard == old(zmq.unheard)
        invariant socks == old(socks) && gone <= socks.Values <= zmq.st.Keys && zmq.st == ClosedIn(st0, gone)
        invariant forall k :: k in socks && k !in left ==> socks[k] in gone
        decreases left
      {
        var k :| k in left;
        GrewBy(l0, zmq.log, Shut(socks[k]), mark, 0);
        zmq.Close(socks[k]);
        gone := gone + {socks[k]};
        left := left - {k};
      }
      assert gone == socks.Values;
      socks, txReq, rxReq := map[], None, None;
    }

    /** Writes the signal file, has it loaded, and flushes the receiver. */
    method PrepareBurst(tx: SockId, rx: SockId, ghost mark: nat) returns (r: Outcome)
      requires Clean() && mark <= |zmq.log| && tx in socks.Values && rx in socks.Values
      modifies zmq
      ensures Known() && Grew(old(zmq.log), zmq.log, mark, 0)
      ensures |old(zmq.log)| <= |zmq.log|
      ensures r == Done <==> zmq.failures == old(zmq.failures)
      ensures old(zmq.failures) <= zmq.failures
      ensures zmq.unheard == old(zmq.unheard)
      ensures r == Done || r == Raised(true) ==> zmq.timeouts == old(zmq.timeouts)
      ensures r == Done ==> Clean()
      ensures r == Done ==> zmq.log == old(zmq.log) + [Sent(tx, LoadSignal), Received(tx, |old(zmq.log)|)]
                                       + [Sent(rx, FlushRx), Received(rx, |old(zmq.log)| + 2)]
    {
      hide Grew, Replay, Step;
      ghost var l0 := zmq.log;
      GrewNot(l0, mark);
      var written := zmq.Host();  // the signal file
      if !written { return Raised(false); }
      var arrived := Ask(tx, LoadSignal, mark);
      if !arrived { return Raised(false); }
      var loaded := zmq.Host();
      if !loaded { r := AnyError(); return; }
      ghost var l1 := zmq.log;
      arrived := Ask(rx, FlushRx, mark);
      GrewOn(l0, l1, zmq.log, mark, 0, 0);
      if !arrived { return Raised(false); }
      r := Done;
    }

    /** The guarded part of send_and_receive: load the signal, arm the capture, send the
        burst, collect both replies. The flags say which commands the exception handler
        has to drain. */
    method TryBurst(tx: SockId, rx: SockId, ghost mark: nat)
      returns (r: Outcome, txSent: bool, rxSent: bool, ghost bursts: nat)
      requires Clean() && mark <= |zmq.log| && tx != rx && tx in socks.Values && rx in socks.Values
      modifies zmq
      ensures Known() && Grew(old(zmq.log), zmq.log, mark, bursts) && bursts <= 1
      ensures |old(zmq.log)| <= |zmq.log|
      ensures r == Done <==> zmq.failures == old(zmq.failures)
      ensures old(zmq.failures) <= zmq.failures
      ensures if bursts == 1 then (txSent <==> zmq.st[tx].Awaiting?) && (rxSent <==> zmq.st[rx].Awaiting?)
        else !txSent && !rxSent
      ensures zmq.unheard <= old(zmq.unheard) + if rxSent then 1 else 0
      ensures r == Raised(true) ==> !txSent
      ensures r == Done || r == Raised(true) ==> zmq.timeouts == old(zmq.timeouts)
      ensures r == Done ==> Clean() && bursts == 1 && BurstDone(old(zmq.log), zmq.log, tx, rx)
      ensures txSent ==> tx in zmq.st && zmq.st[tx].Awaiting? && zmq.st[tx].request >= mark
      ensures rxSent ==> rx in zmq.st && zmq.st[rx].Awaiting? && zmq.st[rx].request >= mark
    {
      hide Grew, Replay, Step, BurstDone;
      ghost var l0 := zmq.log;
      txSent, rxSent, bursts := false, false, 0;
      r := PrepareBurst(tx, rx, mark);
      if r.Raised? { return; }
      ghost var l1 := zmq.log;
      r, txSent, rxSent, bursts := FireBurst(tx, rx, mark);
      GrewOn(l0, l1, zmq.log, mark, 0, bursts);
      if r == Done { BurstPieces(l0, l0 + [Sent(tx, LoadSignal), Received(tx, |l0|)], l1, zmq.log, tx, rx); }
    }

    /** Arms the capture, sends the burst and collects both replies. */
    method FireBurst(tx: SockId, rx: SockId, ghost mark: nat)
      returns (r: Outcome, txSent: bool, rxSent: bool, ghost bursts: nat)
      requires Clean() && mark <= |zmq.log| && tx != rx && tx in socks.Values && rx in socks.Values
      modifies zmq
      ensures Known() && Grew(old(zmq.log), zmq.log, mark, bursts) && bursts == 1
      ensures |old(zmq.log)| <= |zmq.log|
      ensures r == Done <==> zmq.failures == old(zmq.failures)
      ensures old(zmq.failures) <= zmq.failures
      ensures (txSent <==> zmq.st[tx].Awaiting?) && (rxSent <==> zmq.st[rx].Awaiting?)
      ensures zmq.unheard <= old(zmq.unheard) + if rxSent then 1 else 0
      ensures r == Raised(true) ==> !txSent
      ensures r == Done || r == Raised(true) ==> zmq.timeouts == old(zmq.timeouts)
      ensures r == Done ==> Clean()
      ensures r == Done ==> zmq.log == old(zmq.log) + [Sent(rx, ReceiveToFile)] + [Sent(tx, TransmitBurst)]
                                       + [Received(tx, |old(zmq.log)| + 1)] + [Received(rx, |old(zmq.log)|)]
      ensures txSent ==> tx in zmq.st && zmq.st[tx].Awaiting? && zmq.st[tx].request >= mark
      ensures rxSent ==> rx in zmq.st && zmq.st[rx].Awaiting? && zmq.st[rx].request >= mark
    {
      hide Grew, Replay, Step;
      ghost var l0 := zmq.log;
      GrewNot(l0, mark);
      zmq.Send(rx, ReceiveToFile);
      GrewBy(l0, l0, Sent(rx, ReceiveToFile), mark, 0);
      rxSent := true;
      ghost var l1 := zmq.log;
      zmq.Send(tx, TransmitBurst);
      GrewByBurst(l0, l1, tx, mark, 0);
      bursts := 1;
      txSent := true;
      ghost var l2 := zmq.log;
      r, txSent, rxSent := CollectReplies(tx, rx, mark);
      GrewOn(l0, l2, zmq.log, mark, 1, 0);
    }

    /** The replies to a burst and to its capture, in this order. */
    method CollectReplies(tx: SockId, rx: SockId, ghost mark: nat) returns (r: Outcome, txSent: bool, rxSent: bool)
      requires Known() && mark <= |zmq.log| && tx != rx && tx in zmq.st && rx in zmq.st
      requires zmq.st[tx].Awaiting? && zmq.st[tx].request >= mark && zmq.st[rx].Awaiting? && zmq.st[rx].request >= mark
      modifies zmq
      ensures Known() && Grew(old(zmq.log), zmq.log, mark, 0)
      ensures |old(zmq.log)| <= |zmq.log|
      ensures r == Done <==> zmq.failures == old(zmq.failures)
      ensures old(zmq.failures) <= zmq.failures
      ensures tx in zmq.st && rx in zmq.st
      ensures (txSent <==> zmq.st[tx].Awaiting?) && (rxSent <==> zmq.st[rx].Awaiting?)
      ensures zmq.unheard <= old(zmq.unheard) + if rxSent then -1 else -2
      ensures r == Raised(true) ==> !txSent
      ensures r == Done || r == Raised(true) ==> zmq.timeouts == old(zmq.timeouts)
      ensures r == Done ==>
        && zmq.st == old(zmq.st)[tx := Idle][rx := Idle]
        && zmq.log == old(zmq.log) + [Received(tx, old(zmq.st)[tx].request)] + [Received(rx, old(zmq.st)[rx].request)]
      ensures zmq.st[tx] in {Idle, old(zmq.st)[tx]} && zmq.st[rx] in {Idle, old(zmq.st)[rx]}
    {
      hide Grew, Replay, Step;
      ghost var l0 := zmq.log;
      GrewNot(l0, mark);
      var arrived := zmq.Recv(tx);
      if !arrived { return Raised(false), true, true; }
      GrewBy(l0, l0, zmq.log[|l0|], mark, 0);
      var sent := zmq.Host();
      if !sent {
        r := AnyError();
        return r, false, true;
      }
      ghost var l1 := zmq.log;
      arrived := zmq.Recv(rx);
      if !arrived { return Raised(false), false, true; }
      GrewBy(l0, l1, zmq.log[|l1|], mark, 0);
      var captured := zmq.Host();  // status OK and the file readable
      r := Done;
      if !captured { r := AnyError(); }
      return r, false, false;
    }

    /** The exception handler of both calls: drain what is outstanding, then drop all
        sockets anyway. */
    method Recover(tx: SockId, txSent: bool, rx: SockId, rxSent: bool, ghost mark: nat)
      requires Known() && mark <= |zmq.log|
      requires txSent ==> tx in zmq.st && zmq.st[tx].Awaiting? && zmq.st[tx].request >= mark
      requires rxSent ==> rx in zmq.st && zmq.st[rx].Awaiting? && zmq.st[rx].request >= mark
      requires tx != rx
      modifies this, zmq
      ensures Clean() && socks == map[] && Grew(old(zmq.log), zmq.log, mark, 0)
      ensures |old(zmq.log)| <= |zmq.log|
      ensures old(zmq.failures) <= zmq.failures
      ensures zmq.unheard == old(zmq.unheard) - (if txSent then 1 else 0) - (if rxSent then 1 else 0)
      ensures old(zmq.timeouts) <= zmq.timeouts
      ensures zmq.timeouts <= old(zmq.timeouts) + (if txSent then 1 else 0) + (if rxSent then 1 else 0)
      ensures zmq.failures == old(zmq.failures) ==>
        old(zmq.log) + (if txSent then [Received(tx, old(zmq.st)[tx].request)] else [])
                     + (if rxSent then [Received(rx, old(zmq.st)[rx].request)] else []) <= zmq.log
      ensures forall k :: k in old(socks) ==> old(socks)[k] in zmq.st && zmq.st[old(socks)[k]] == Closed
    {
      hide Grew, Replay, Step;
      ghost var l0 := zmq.log;
      GrewNot(l0, mark);
      if txSent {
        var drained := zmq.Recv(tx);
        if drained { GrewBy(l0, l0, zmq.log[|l0|], mark, 0); }
      }
      ghost var l1 := zmq.log;
      if rxSent {
        var drained := zmq.Recv(rx);
        if drained { GrewBy(l0, l1, zmq.log[|l1|], mark, 0); }
      }
      ghost var l2 := zmq.log;
      ResetSockets(mark);
      GrewOn(l0, l2, zmq.log, mark, 0, 0);
    }

    /** send_and_receive: from idle sockets to idle sockets on every path. Every reply it
        receives answers a request of this very call, the capture is always requested
        right before the burst, and a success took exactly one burst. */
    method SendAndReceive(txUsrp: string, rxUsrp: string, lbt: bool, lbtRetries: nat)
      returns (r: Outcome, ghost bursts: nat)
      requires Clean()
      modifies this, zmq
      ensures Clean() && Grew(old(zmq.log), zmq.log, |old(zmq.log)|, bursts)
      ensures |old(zmq.log)| <= |zmq.log|
      ensures old(zmq.failures) <= zmq.failures
      ensures zmq.unheard <= old(zmq.unheard)
      ensures r == Raised(true) ==> zmq.timeouts <= old(zmq.timeouts) + 1
      ensures zmq.failures == old(zmq.failures) && (lbt ==> lbtRetries > 0) ==> r == Done
      ensures r == Done ==> zmq.failures - old(zmq.failures) <= if lbt then lbtRetries - 1 else 0
      ensures bursts <= 1 && (r == Done ==> bursts == 1)
      ensures r == Done ==> Key(txUsrp, Tx) in socks && Key(rxUsrp, Rx) in socks
      ensures r == Done ==> EndsWithBurst(zmq.log, socks[Key(txUsrp, Tx)], socks[Key(rxUsrp, Rx)], lbt)
      ensures r == Done ==> && Configured(zmq.log, |old(zmq.log)|, socks[Key(txUsrp, Tx)])
                            && Configured(zmq.log, |old(zmq.log)|, socks[Key(rxUsrp, Rx)])
    {
      hide Configured, Grew, Replay, Step, EndsWithBurst, EndsWithCapture, BurstDone;
      bursts := 0;
      ghost var l0, mark := zmq.log, |zmq.log|;
      var txKey, rxKey := Key(txUsrp, Tx), Key(rxUsrp, Rx);
      r := Configure(Some(txKey), rxKey, mark);
      ghost var l1 := zmq.log;
      if r.Raised? {
        ResetSockets(mark);
        GrewOn(l0, l1, zmq.log, mark, 0, 0);
        return;
      }
      var settings := zmq.Host();  // settings, guards and the duty-cycle limit, outside any handler
      if !settings { r := Raised(false); return; }
      var tx, rx := txReq.value, rxReq.value;
      r := ListenBeforeTalk(lbt, lbtRetries, mark);
      ghost var l2 := zmq.log;
      GrewOn(l0, l1, l2, mark, 0, 0);
      if r.Raised? {
        ResetSockets(mark);
        GrewOn(l0, l2, zmq.log, mark, 0, 0);
        return;
      }
      var txSent, rxSent;
      r, txSent, rxSent, bursts := TryBurst(tx, rx, mark);
      ghost var l3 := zmq.log;
      GrewOn(l0, l2, l3, mark, 0, bursts);
      if r.Raised? {
        Recover(tx, txSent, rx, rxSent, mark);
        GrewOn(l0, l3, zmq.log, mark, bursts, 0);
      } else {
        BurstEnds(l2, zmq.log, tx, rx, lbt);
        GrewOn(l1, l2, l3, mark, 0, bursts);
        StaysConfigured(l1, l3, mark, bursts, |l0|, tx);
        StaysConfigured(l1, l3, mark, bursts, |l0|, rx);
      }
    }

    /** receive_only: the same, and nothing is transmitted. */
    method ReceiveOnly(rxUsrp: string) returns (r: Outcome)
      requires Clean()
      modifies this, zmq
      ensures Clean() && Grew(old(zmq.log), zmq.log, |old(zmq.log)|, 0)
      ensures |old(zmq.log)| <= |zmq.log|
      ensures r == Done <==> zmq.failures == old(zmq.failures)
      ensures old(zmq.failures) <= zmq.failures
      ensures zmq.unheard <= old(zmq.unheard)
      ensures r == Raised(true) ==> zmq.timeouts == old(zmq.timeouts)
      ensures r == Done ==> Key(rxUsrp, Rx) in socks && EndsWithCapture(zmq.log, socks[Key(rxUsrp, Rx)])
      ensures r == Done ==> Configured(zmq.log, |old(zmq.log)|, socks[Key(rxUsrp, Rx)])
    {
      hide Configured, Grew, Replay, Step, EndsWithCapture, CaptureDone;
      ghost var l0, mark := zmq.log, |zmq.log|;
      GrewNot(l0, mark);
      var positive := zmq.Host();
      if !positive { return Raised(false); }
      var rxKey := Key(rxUsrp, Rx);
      r := Configure(None, rxKey, mark);
      ghost var l1 := zmq.log;
      if r.Raised? {
        ResetSockets(mark);
        GrewOn(l0, l1, zmq.log, mark, 0, 0);
        return;
      }
      var settings := zmq.Host();
      if !settings { return Raised(false); }
      var rx := rxReq.value;
      var rxSent;
      r, rxSent := TryCapture(rx, mark);
      ghost var l2 := zmq.log;
      GrewOn(l0, l1, l2, mark, 0, 0);
      if r.Raised? {
        Recover(rx + 1, false, rx, rxSent, mark);
        GrewOn(l0, l2, zmq.log, mark, 0, 0);
      } else {
        CaptureEnds(l1, zmq.log, rx);
        StaysConfigured(l1, l2, mark, 0, |l0|, rx);
      }
    }

    method TryCapture(rx: SockId, ghost mark: nat) returns (r: Outcome, rxSent: bool)
      requires Clean() && mark <= |zmq.log| && rx in socks.Values
      modifies zmq
      ensures Known() && Grew(old(zmq.log), zmq.log, mark, 0)
      ensures |old(zmq.log)| <= |zmq.log|
      ensures r == Done <==> zmq.failures == old(zmq.failures)
      ensures old(zmq.failures) <= zmq.failures
      ensures rxSent <==> zmq.log != [] && zmq.log[|zmq.log| - 1] == Sent(rx, ReceiveToFile)
      ensures zmq.unheard <= old(zmq.unheard) + if rxSent then 1 else 0
      ensures r == Raised(true) ==> !rxSent
      ensures r == Done || r == Raised(true) ==> zmq.timeouts == old(zmq.timeouts)
      ensures r == Done ==> Clean() && CaptureDone(old(zmq.log), zmq.log, rx)
      ensures rxSent ==> rx in zmq.st && zmq.st[rx].Awaiting? && zmq.st[rx].request >= mark
    {
      hide Grew, Replay, Step, CaptureDone;
      ghost var l0 := zmq.log;
      GrewNot(l0, mark);
      var arrived := Ask(rx, FlushRx, mark);
      if !arrived { return Raised(false), false; }
      ghost var l1 := zmq.log;
      zmq.Send(rx, ReceiveToFile);
      GrewBy(l0, l1, Sent(rx, ReceiveToFile), mark, 0);
      ghost var l2 := zmq.log;
      arrived := zmq.Recv(rx);
      if !arrived { return Raised(false), true; }
      GrewBy(l0, l2, zmq.log[|l2|], mark, 0);
      rxSent := false;
      var captured := zmq.Host();
      if !captured { r := AnyError(); return; }
      CapturePieces(l0, l1, zmq.log, rx);
      r := Done;
    }

    /** _with_rf_retry around send_and_receive: only transient errors are tried again,
        at most `attempts` times in all, each time from idle sockets. */
    method WithRfRetry(attempts: nat, txUsrp: string, rxUsrp: string, lbt: bool, lbtRetries: nat)
      returns (r: Outcome, tries: nat, ghost outcomes: seq<Outcome>, ghost bursts: nat)
      requires Clean() && attempts >= 1
      modifies this, zmq
      ensures Clean() && Grew(old(zmq.log), zmq.log, |old(zmq.log)|, bursts)
      ensures |old(zmq.log)| <= |zmq.log|
      ensures old(zmq.failures) <= zmq.failures
      ensures zmq.unheard <= old(zmq.unheard)
      ensures zmq.failures == old(zmq.failures) && (lbt ==> lbtRetries > 0) ==> r == Done && tries == 1
      ensures 1 <= tries <= attempts && bursts <= tries
      ensures |outcomes| == tries && outcomes[tries - 1] == r
      ensures forall i :: 0 <= i < tries - 1 ==> outcomes[i] == Raised(true)
      ensures r.Raised? && r.transient ==> tries == attempts
      ensures r == Done ==> bursts >= 1
      ensures r == Done ==> Key(txUsrp, Tx) in socks && Key(rxUsrp, Rx) in socks
      ensures r == Done ==> EndsWithBurst(zmq.log, socks[Key(txUsrp, Tx)], socks[Key(rxUsrp, Rx)], lbt)
    {
      hide Grew, Replay, Step, EndsWithBurst, Configured;
      ghost var l0, mark := zmq.log, |zmq.log|;
      tries, bursts, r, outcomes := 0, 0, Raised(true), [];
      GrewNot(l0, mark);
      while tries < attempts
        invariant tries <= attempts && bursts <= tries && r == Raised(true)
        invariant |outcomes| == tries && forall i :: 0 <= i < tries ==> outcomes[i] == Raised(true)
        invariant Clean() && mark <= |zmq.log| && Grew(l0, zmq.log, mark, bursts)
        invariant old(zmq.failures) <= zmq.failures && zmq.unheard <= old(zmq.unheard)
        invariant zmq.failures == old(zmq.failures) && (lbt ==> lbtRetries > 0) ==> tries == 0
      {
        ghost var l1, before, b := zmq.log, bursts, 0;
        r, b := SendAndReceive(txUsrp, rxUsrp, lbt, lbtRetries);
        tries, outcomes := tries + 1, outcomes + [r];
        bursts := before + b;
        GrewSince(l1, zmq.log, mark, |l1|, b);
        GrewOn(l0, l1, zmq.log, mark, before, b);
        if r == Done || !r.transient || tries == attempts { return; }
      }
    }
  }

  /** No burst leaves before the receiver was told to capture it. */
  lemma CapturedBeforeSent(before: seq<WireEvent>, now: seq<WireEvent>, mark: nat, bursts: nat, i: nat)
    requires Grew(before, now, mark, bursts)
    requires |before| <= i < |now| && now[i].Sent? && now[i].op == TransmitBurst
    ensures i > |before| && now[i - 1].Sent? && now[i - 1].op == ReceiveToFile && bursts >= 1
  {
    BurstIsCounted(now, |before|, i);
    assert now[..|before|] == before;
  }

  lemma {:induction false} BurstIsCounted(log: seq<WireEvent>, from: nat, i: nat)
    requires from <= i < |log| && log[i].Sent? && log[i].op == TransmitBurst
    ensures Bursts(log) > Bursts(log[..from])
    decreases |log|
  {
    var m := |log| - 1;
    if i < m {
      BurstIsCounted(log[..m], from, i);
      assert log[..m][..from] == log[..from];
    } else {
      BurstsGrow(log[..m], from);
      assert log[..m][..from] == log[..from];
    }
  }

  lemma {:induction false} BurstsGrow(log: seq<WireEvent>, from: nat)
    requires from <= |log|
    ensures Bursts(log) >= Bursts(log[..from])
    decreases |log|
  {
    if from < |log| {
      BurstsGrow(log[..|log| - 1], from);
      assert log[..|log| - 1][..from] == log[..from];
    } else {
      assert log[..from] == log;
    }
  }

  /** So no task ever receives the reply to a request of an earlier task, or of an
      earlier attempt: whatever arrives during a call was asked for during that call. */
  lemma NoStaleReplies(before: seq<WireEvent>, now: seq<WireEvent>, bursts: nat, i: nat)
    requires Grew(before, now, |before|, bursts) && Replay(now).Legal?
    requires |before| <= i < |now| && now[i].Received?
    ensures |before| <= now[i].request < i && now[now[i].request].Sent?
    ensures now[now[i].request].sock == now[i].sock
    ensures forall j :: now[i].request < j < i ==> !(now[j].Sent? && now[j].sock == now[i].sock)
  {
    ReplyAnswersLatest(now, i);
  }
}

/** The contract of ZeroMQ REQ sockets (the REQ socket of RFC 28/REQREP): strict
    alternation of send and receive, with a log of everything that went over the wire. */
module ReqSockets {
  type SockId = nat

  datatype Op = Ping | ConfigureUsrp | FlushRx | ReceiveToFile | LoadSignal | TransmitBurst

  /** Awaiting(r): the request logged at position r has not been answered yet. */
  datatype ReqState = Idle | Awaiting(request: nat) | Closed

  datatype WireEvent =
    | Opened(sock: SockId)
    | Sent(sock: SockId, op: Op)
    | Received(sock: SockId, request: nat)
    | Shut(sock: SockId)

  /** The states of all sockets after a log, or nothing if some socket was sent to
      while not idle, or read from without an outstanding request. */
  datatype Sockets = Legal(st: map<SockId, ReqState>) | Illegal

  function Step(s: Sockets, e: WireEvent, position: nat): Sockets {
    if s.Illegal? then Illegal
    else match e
      case Opened(k) => if k in s.st then Illegal else Legal(s.st[k := Idle])
      case Sent(k, _) => if k in s.st && s.st[k] == Idle then Legal(s.st[k := Awaiting(position)]) else Illegal
      case Received(k, r) => if k in s.st && s.st[k] == Awaiting(r) then Legal(s.st[k := Idle]) else Illegal
      case Shut(k) => if k in s.st then Legal(s.st[k := Closed]) else Illegal
  }

  function Replay(log: seq<WireEvent>): Sockets {
    if log == [] then Legal(map[])
    else Step(Replay(log[..|log| - 1]), log[|log| - 1], |log| - 1)
  }

  /** What alternation is for: a reply always answers the latest request on its socket. */
  lemma {:induction false} ReplyAnswersLatest(log: seq<WireEvent>, i: nat)
    requires Replay(log).Legal? && i < |log| && log[i].Received?
    ensures var r := log[i].request;
      && r < i && log[r].Sent? && log[r].sock == log[i].sock
      && forall j :: r < j < i ==> !(log[j].Sent? && log[j].sock == log[i].sock)
    decreases |log|
  {
    var m := |log| - 1;
    if i < m {
      ReplyAnswersLatest(log[..m], i);
    } else {
      OutstandingIsLatest(log[..m], log[i].sock);
    }
  }

  lemma {:induction false} OutstandingIsLatest(log: seq<WireEvent>, k: SockId)
    requires Replay(log).Legal? && k in Replay(log).st && Replay(log).st[k].Awaiting?
    ensures var r := Replay(log).st[k].request;
      && r < |log| && log[r].Sent? && log[r].sock == k
      && forall j :: r < j < |log| ==> !(log[j].Sent? && log[j].sock == k)
    decreases |log|
  {
    var m := |log| - 1;
    var e := log[m];
    assert Replay(log) == Step(Replay(log[..m]), e, m);
    if !(e.Sent? && e.sock == k) {
      assert Replay(log[..m]).st[k] == Replay(log).st[k];
      OutstandingIsLatest(log[..m], k);
    }
  }

  class Context {
    var st: map<SockId, ReqState>
    var log: seq<WireEvent>
    var next: SockId
    var failures: nat  // how many of the host's answers were failures
    var timeouts: nat  // and of these, replies that did not come
    var unheard: int   // requests sent, less the times a reply was waited for

    ghost predicate Valid()
      reads this
    {
      Replay(log) == Legal(st) && forall k :: k in st ==> k < next
    }

    constructor ()
      ensures Valid() && log == [] && failures == 0 == timeouts && unheard == 0
    {
      st, log, next, failures, timeouts, unheard := map[], [], 0, 0, 0, 0;
    }

    method Log(e: WireEvent)
      requires Valid() && Step(Legal(st), e, |log|).Legal? && e.sock <= next
      modifies this`st, this`log, this`next
      ensures Valid() && log == old(log) + [e] && Legal(st) == Step(Legal(old(st)), e, |old(log)|)
    {
      st := Step(Legal(st), e, |log|).st;
      assert (log + [e])[..|log|] == log;
      log := log + [e];
      if e.sock == next { next := next + 1; }
    }

    method Open() returns (k: SockId)
      requires Valid()
      modifies this`st, this`log, this`next
      ensures Valid() && k !in old(st) && st == old(st)[k := Idle] && log == old(log) + [Opened(k)]
    {
      k := next;
      Log(Opened(k));
    }

    method Send(k: SockId, op: Op)
      requires Valid() && k in st && st[k] == Idle
      modifies this`st, this`log, this`next, this`unheard
      ensures Valid() && st == old(st)[k := Awaiting(|old(log)|)] && log == old(log) + [Sent(k, op)]
      ensures unheard == old(unheard) + 1
    {
      unheard := unheard + 1;
      Log(Sent(k, op));
    }

    /** Any call into the host but those on sockets, and whether it went well. */
    method Host() returns (well: bool)
      modifies this`failures
      ensures failures == old(failures) + if well then 0 else 1
    {
      well := *;
      if !well { failures := failures + 1; }
    }

    /** A receive either delivers the outstanding reply or times out and changes nothing. */
    method Recv(k: SockId) returns (arrived: bool)
      requires Valid() && k in st && st[k].Awaiting?
      modifies this
      ensures Valid()
      ensures arrived ==> st == old(st)[k := Idle] && log == old(log) + [Received(k, old(st)[k].request)]
      ensures !arrived ==> st == old(st) && log == old(log)
      ensures failures == old(failures) + if arrived then 0 else 1
      ensures timeouts == old(timeouts) + if arrived then 0 else 1
      ensures unheard == old(unheard) - 1
    {
      unheard := unheard - 1;
      arrived := Host();
      if !arrived { timeouts := timeouts + 1; }
      if arrived { Log(Received(k, st[k].request)); }
    }

    method Close(k: SockId)
      requires Valid() && k in st
      modifies this`st, this`log, this`next
      ensures Valid() && st == old(st)[k := Closed] && log == old(log) + [Shut(k)]
    {
      Log(Shut(k));
    }
  }
}

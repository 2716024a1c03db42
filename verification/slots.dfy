/** The connection slots of ws_run (entrypoint/main.py): a global counter and one per
    client address, taken before the first await and released in the finally block. */
module Slots {
  type Address = string

  datatype Caps = Caps(total: int, perIp: int)

  /** What the counters should say, given the addresses of the live handlers. */
  ghost predicate Agrees(count: int, perIp: map<Address, int>, live: multiset<Address>) {
    && count == |live|
    && forall ip :: (ip in perIp <==> live[ip] > 0) && (ip in perIp ==> perIp[ip] == live[ip])
  }

  ghost predicate Within(live: multiset<Address>, caps: Caps) {
    |live| <= caps.total && forall ip :: ip in live ==> live[ip] <= caps.perIp
  }

  /** Whether a handshake from ip is let in. */
  ghost predicate Free(live: multiset<Address>, ip: Address, caps: Caps) {
    |live| < caps.total && live[ip] < caps.perIp
  }

  class Server {
    var wsCount: int
    var wsPerIp: map<Address, int>
    ghost var live: multiset<Address>   // one entry per handler between reservation and release

    ghost predicate Valid()
      reads this
    {
      Agrees(wsCount, wsPerIp, live)
    }

    constructor ()
      ensures Valid() && live == multiset{}
    {
      wsCount, wsPerIp, live := 0, map[], multiset{};
    }

    /** ws_run up to the first await, under the caps in force at that moment. */
    method Reserve(ip: Address, caps: Caps) returns (admitted: bool)
      requires Valid()
      modifies this
      ensures Valid()
      ensures admitted <==> |old(live)| < caps.total && old(live)[ip] < caps.perIp
      ensures live == if admitted then old(live) + multiset{ip} else old(live)
      ensures old(Within(live, caps)) ==> Within(live, caps)
    {
      var mine := if ip in wsPerIp then wsPerIp[ip] else 0;
      if wsCount >= caps.total || mine >= caps.perIp { return false; }
      wsCount := wsCount + 1;
      wsPerIp := wsPerIp[ip := mine + 1];
      live := live + multiset{ip};
      admitted := true;
    }

    /** The finally block: every way out of a handler that reserved a slot. */
    method Release(ip: Address)
      requires Valid() && ip in live
      modifies this
      ensures Valid()
      ensures live == old(live) - multiset{ip}
      ensures forall caps :: old(Within(live, caps)) ==> Within(live, caps)
    {
      wsCount := wsCount - 1;
      var c := (if ip in wsPerIp then wsPerIp[ip] else 0) - 1;
      if c <= 0 {
        wsPerIp := wsPerIp - {ip};
      } else {
        wsPerIp := wsPerIp[ip := c];
      }
      live := live - multiset{ip};
    }

    /** One event of some handler. */
    method Handle(e: SlotEvent, caps: Caps) returns (admitted: bool)
      requires Valid()
      modifies this
      ensures Valid() && live == LiveStep(old(live), e, caps)
      ensures admitted <==> e.Arrive? && |old(live)| < caps.total && old(live)[e.ip] < caps.perIp
    {
      admitted := false;
      match e {
        case Arrive(ip) => admitted := Reserve(ip, caps);
        case Leave(ip) => if ip in wsPerIp { Release(ip); }
      }
    }

    /** Any interleaving of handlers, each event under the caps in force at its moment: the
        live handlers are those of LiveAfter, and who is admitted depends on them alone. */
    method Serve(events: seq<SlotEvent>, caps: seq<Caps>) returns (admitted: seq<bool>)
      requires Valid() && |caps| == |events|
      modifies this
      ensures Valid() && live == LiveAfter(old(live), events, caps)
      ensures admitted == AdmittedIn(old(live), events, caps)
    {
      hide *;
      admitted := [];
      ghost var was := live;
      NothingYet(was, events, caps);
      for i := 0 to |events|
        invariant Valid() && live == LiveAfter(was, events[..i], caps[..i])
        invariant admitted == AdmittedIn(was, events[..i], caps[..i])
      {
        NextEvent(was, events, caps, i);
        var ok := Handle(events[i], caps[i]);
        admitted := admitted + [ok];
      }
      assert events[..|events|] == events && caps[..|events|] == caps;
    }
  }

  /** A handshake, and the end of a handler (of none, if none of that address is live). */
  datatype SlotEvent = Arrive(ip: Address) | Leave(ip: Address)

  ghost function LiveStep(live: multiset<Address>, e: SlotEvent, caps: Caps): multiset<Address> {
    match e
    case Arrive(ip) => if Free(live, ip, caps) then live + multiset{ip} else live
    case Leave(ip) => live - multiset{ip}
  }

  ghost function LiveAfter(live: multiset<Address>, events: seq<SlotEvent>, caps: seq<Caps>): multiset<Address>
    requires |caps| == |events|
  {
    if events == [] then live
    else
      var m := |events| - 1;
      LiveStep(LiveAfter(live, events[..m], caps[..m]), events[m], caps[m])
  }

  ghost function AdmittedIn(live: multiset<Address>, events: seq<SlotEvent>, caps: seq<Caps>): seq<bool>
    requires |caps| == |events|
  {
    if events == [] then []
    else
      var m := |events| - 1;
      var before := LiveAfter(live, events[..m], caps[..m]);
      AdmittedIn(live, events[..m], caps[..m])
      + [events[m].Arrive? && |before| < caps[m].total && before[events[m].ip] < caps[m].perIp]
  }

  lemma NothingYet(live: multiset<Address>, events: seq<SlotEvent>, caps: seq<Caps>)
    requires |caps| == |events|
    ensures LiveAfter(live, events[..0], caps[..0]) == live && AdmittedIn(live, events[..0], caps[..0]) == []
  {}

  lemma NextEvent(live: multiset<Address>, events: seq<SlotEvent>, caps: seq<Caps>, i: nat)
    requires i < |events| == |caps|
    ensures var before := LiveAfter(live, events[..i], caps[..i]);
      && LiveAfter(live, events[..i + 1], caps[..i + 1]) == LiveStep(before, events[i], caps[i])
      && AdmittedIn(live, events[..i + 1], caps[..i + 1]) == AdmittedIn(live, events[..i], caps[..i])
           + [events[i].Arrive? && |before| < caps[i].total && before[events[i].ip] < caps[i].perIp]
  {
    hide LiveStep;
    assert events[..i + 1][..i] == events[..i] && caps[..i + 1][..i] == caps[..i];
  }

  /** Under fixed caps no interleaving ever exceeds them. */
  lemma {:induction false} CapsHold(live: multiset<Address>, events: seq<SlotEvent>, caps: Caps)
    requires |live| <= caps.total && forall ip :: ip in live ==> live[ip] <= caps.perIp
    ensures var after := LiveAfter(live, events, seq(|events|, _ => caps));
      |after| <= caps.total && forall ip :: ip in after ==> after[ip] <= caps.perIp
    decreases |events|
  {
    if events != [] {
      var m := |events| - 1;
      CapsHold(live, events[..m], caps);
      assert seq(|events|, _ => caps)[..m] == seq(m, _ => caps);
      StepWithinCaps(LiveAfter(live, events[..m], seq(m, _ => caps)), events[m], caps);
      hide LiveStep;
    }
  }

  lemma StepWithinCaps(live: multiset<Address>, e: SlotEvent, caps: Caps)
    requires |live| <= caps.total && forall ip :: ip in live ==> live[ip] <= caps.perIp
    ensures var after := LiveStep(live, e, caps);
      |after| <= caps.total && forall ip :: ip in after ==> after[ip] <= caps.perIp
  {}
}

/** From the hardware inventory to device channels: write_inventory
    (entrypoint/inventory.py), endpoints_from_inventory
    (usrp_testbed_library/endpoints.py), _resolved_channels and the routing in
    _configure, send_and_receive and _read_rx_file (worker/channel.py). */
module Routing {
  import opened Collections
  import E = TextLines
  import S = Streaming

  /** A device channel index as typed: empty, an integer or anything else. */
  datatype ChanField = Empty | Integer(n: int) | Junk

  datatype Usrp = Usrp(id: string, identifier: string, role: string, ports: seq<string>)
  /** `gain` is absent unless the field holds a number. */
  datatype Side = Side(usrp: string, port: string, chan: ChanField, gain: Option<real>)
  datatype Channel = Channel(id: string, tx: Side, rx: Side)
  datatype Inventory = Inventory(usrps: seq<Usrp>, channels: seq<Channel>)

  function Lower(s: string): (r: string)
    ensures |r| == |s|
  {
    seq(|s|, i requires 0 <= i < |s| => if 'A' <= s[i] <= 'Z' then s[i] - 'A' + 'a' else s[i])
  }

  /** role.strip().lower() */
  function RoleOf(role: string): string { Lower(E.Strip(role)) }

  /** A role field means a two-letter role exactly if it is that role in any case, among
      blanks. */
  lemma RoleIs(role: string, letter: char)
    requires letter == 't' || letter == 'r'
    ensures RoleOf(role) == [letter, 'x'] <==>
      var s := E.Strip(role);
      |s| == 2 && (s[0] == letter || s[0] == letter - 'a' + 'A') && (s[1] == 'x' || s[1] == 'X')
  {
    hide E.Strip;
    var s, r := E.Strip(role), RoleOf(role);
    if |s| == 2 {
      assert r == [r[0], r[1]];
      assert r[0] == if 'A' <= s[0] <= 'Z' then s[0] - 'A' + 'a' else s[0];
      assert r[1] == if 'A' <= s[1] <= 'Z' then s[1] - 'A' + 'a' else s[1];
    }
  }

  lemma StripTwice(s: string)
    ensures E.Strip(E.Strip(s)) == E.Strip(s)
  {
    hide E.Space;
    var a, r := E.LStrip(s), E.Strip(s);
    if r != "" { assert r[0] == a[0]; }
  }

  // ----- Validation ------------------------------------------------------------------------------

  function CleanUsrp(u: Usrp): Usrp {
    Usrp(E.Strip(u.id), E.Strip(u.identifier), E.Strip(u.role), CleanPorts(u.ports))
  }

  function CleanPorts(ports: seq<string>): seq<string> {
    if ports == [] then []
    else
      var p := E.Strip(ports[|ports| - 1]);
      CleanPorts(ports[..|ports| - 1]) + if p == "" then [] else [p]
  }

  /** The ports that are kept. */
  lemma {:induction false} CleanPortsAre(ports: seq<string>)
    ensures forall p :: p in CleanPorts(ports) <==> p != "" && exists q :: q in ports && E.Strip(q) == p
  {
    hide E.Strip;
    if ports != [] {
      var front, last := ports[..|ports| - 1], ports[|ports| - 1];
      CleanPortsAre(front);
      assert forall q :: q in ports <==> q in front || q == last;
    }
  }

  function CleanSide(s: Side): Side { Side(E.Strip(s.usrp), E.Strip(s.port), s.chan, s.gain) }

  function CleanChannel(c: Channel): Channel { Channel(E.Strip(c.id), CleanSide(c.tx), CleanSide(c.rx)) }

  function Ids(us: seq<Usrp>): (r: seq<string>)
    ensures |r| == |us|
  {
    seq(|us|, i requires 0 <= i < |us| => us[i].id)
  }

  function Identifiers(us: seq<Usrp>): (r: seq<string>)
    ensures |r| == |us|
  {
    seq(|us|, i requires 0 <= i < |us| => us[i].identifier)
  }

  function ChannelIds(cs: seq<Channel>): (r: seq<string>)
    ensures |r| == |cs|
  {
    seq(|cs|, i requires 0 <= i < |cs| => cs[i].id)
  }

  /** A side of a channel names a USRP of the list, one of its ports if any, a role that
      the USRP serves and a device channel that is a natural number if given. */
  predicate SideFits(s: Side, us: seq<Usrp>, refused: string) {
    && (exists i :: && 0 <= i < |us| && us[i].id == s.usrp && (s.port == "" || s.port in us[i].ports)
                    && RoleOf(us[i].role) != refused)
    && (s.chan.Empty? || (s.chan.Integer? && s.chan.n >= 0))
  }

  predicate ValidUsrps(us: seq<Usrp>) {
    && NoDuplicates(Ids(us)) && NoDuplicates(Identifiers(us))
    && forall i :: 0 <= i < |us| ==> us[i].id != "" && us[i].identifier != ""
  }

  predicate ValidInventory(inv: Inventory) {
    && ValidUsrps(inv.usrps) && NoDuplicates(ChannelIds(inv.channels))
    && forall i :: 0 <= i < |inv.channels| ==>
         && inv.channels[i].id != ""
         && SideFits(inv.channels[i].tx, inv.usrps, "rx") && SideFits(inv.channels[i].rx, inv.usrps, "tx")
  }

  function CleanUsrps(us: seq<Usrp>): (r: seq<Usrp>)
    ensures |r| == |us|
  {
    seq(|us|, i requires 0 <= i < |us| => CleanUsrp(us[i]))
  }

  function CleanChannels(cs: seq<Channel>): (r: seq<Channel>)
    ensures |r| == |cs|
  {
    seq(|cs|, i requires 0 <= i < |cs| => CleanChannel(cs[i]))
  }

  /** One more entry in the list of USRPs. */
  lemma NextUsrp(us: seq<Usrp>, u: Usrp)
    ensures ValidUsrps(us + [u]) <==>
      && ValidUsrps(us) && u.id != "" && u.id !in Ids(us) && u.identifier != "" && u.identifier !in Identifiers(us)
    ensures Ids(us + [u]) == Ids(us) + [u.id] && Identifiers(us + [u]) == Identifiers(us) + [u.identifier]
  {
    assert Ids(us + [u]) == Ids(us) + [u.id];
    assert Identifiers(us + [u]) == Identifiers(us) + [u.identifier];
    NextDistinct(Ids(us), u.id);
    NextDistinct(Identifiers(us), u.identifier);
    hide NoDuplicates, Ids, Identifiers;
    assert (us + [u])[|us|] == u;
    assert forall i :: 0 <= i < |us| ==> (us + [u])[i] == us[i];
  }

  lemma NextDistinct(s: seq<string>, x: string)
    ensures NoDuplicates(s + [x]) <==> NoDuplicates(s) && x !in s
  {
    var t := s + [x];
    assert t[|s|] == x && forall i :: 0 <= i < |s| ==> t[i] == s[i];
  }

  lemma PrefixOfUsrps(us: seq<Usrp>, i: nat)
    requires i < |us|
    ensures CleanUsrps(us[..i + 1]) == CleanUsrps(us[..i]) + [CleanUsrp(us[i])]
    ensures ValidUsrps(CleanUsrps(us)) ==> ValidUsrps(CleanUsrps(us[..i + 1]))
  {
    hide CleanUsrp;
    var all, part := CleanUsrps(us), CleanUsrps(us[..i + 1]);
    forall k | 0 <= k <= i
      ensures part[k] == all[k] && Ids(part)[k] == Ids(all)[k] && Identifiers(part)[k] == Identifiers(all)[k]
    {}
  }

  method CheckUsrps(us: seq<Usrp>) returns (r: Option<seq<Usrp>>)
    ensures r == if ValidUsrps(CleanUsrps(us)) then Some(CleanUsrps(us)) else None
  {
    hide *;
    var seenIds: set<string>, seenIdents: set<string>, cleaned := {}, {}, [];
    NoUsrps(us);
    for i := 0 to |us|
      invariant cleaned == CleanUsrps(us[..i]) && ValidUsrps(cleaned)
      invariant forall x :: x in seenIds <==> x in Ids(cleaned)
      invariant forall x :: x in seenIdents <==> x in Identifiers(cleaned)
    {
      var u := CleanUsrp(us[i]);
      PrefixOfUsrps(us, i);
      NextUsrp(cleaned, u);
      if u.id == "" || u.id in seenIds || u.identifier == "" || u.identifier in seenIdents {
        return None;
      }
      seenIds, seenIdents := seenIds + {u.id}, seenIdents + {u.identifier};
      cleaned := cleaned + [u];
    }
    assert us[..|us|] == us;
    r := Some(cleaned);
  }

  lemma NoUsrps(us: seq<Usrp>)
    ensures us[..0] == [] && CleanUsrps([]) == [] && ValidUsrps([]) && Ids([]) == [] == Identifiers([])
  {}

  /** The channel list against USRPs that passed. */
  predicate ValidChannels(cs: seq<Channel>, us: seq<Usrp>) {
    && NoDuplicates(ChannelIds(cs)) && forall i :: 0 <= i < |cs| ==> ChannelFits(cs[i], us)
  }

  predicate ChannelFits(c: Channel, us: seq<Usrp>) {
    c.id != "" && SideFits(c.tx, us, "rx") && SideFits(c.rx, us, "tx")
  }

  lemma NextChannel(cs: seq<Channel>, c: Channel, us: seq<Usrp>)
    ensures ValidChannels(cs + [c], us) <==> ValidChannels(cs, us) && ChannelFits(c, us) && c.id !in ChannelIds(cs)
    ensures ChannelIds(cs + [c]) == ChannelIds(cs) + [c.id]
  {
    assert ChannelIds(cs + [c]) == ChannelIds(cs) + [c.id];
    NextDistinct(ChannelIds(cs), c.id);
    hide NoDuplicates, ChannelIds, ChannelFits;
    NextFits(cs, c, us);
  }

  lemma NextFits(cs: seq<Channel>, c: Channel, us: seq<Usrp>)
    ensures (forall i :: 0 <= i < |cs + [c]| ==> ChannelFits((cs + [c])[i], us)) <==>
      (forall i :: 0 <= i < |cs| ==> ChannelFits(cs[i], us)) && ChannelFits(c, us)
  {
    hide ChannelFits;
    var all := cs + [c];
    assert all[|cs|] == c;
    assert forall i :: 0 <= i < |cs| ==> all[i] == cs[i];
  }

  lemma PrefixOfChannels(cs: seq<Channel>, i: nat, us: seq<Usrp>)
    requires i < |cs|
    ensures CleanChannels(cs[..i + 1]) == CleanChannels(cs[..i]) + [CleanChannel(cs[i])]
    ensures ValidChannels(CleanChannels(cs), us) ==> ValidChannels(CleanChannels(cs[..i + 1]), us)
  {
    hide CleanChannel, ChannelFits;
    var all, part := CleanChannels(cs), CleanChannels(cs[..i + 1]);
    forall k | 0 <= k <= i ensures part[k] == all[k] && ChannelIds(part)[k] == ChannelIds(all)[k] {}
  }

  lemma NoChannels(cs: seq<Channel>, us: seq<Usrp>)
    ensures cs[..0] == [] && CleanChannels([]) == [] && ValidChannels([], us) && ChannelIds([]) == []
  {}

  method FindUsrp(us: seq<Usrp>, id: string) returns (u: Option<Usrp>)
    requires ValidUsrps(us)
    ensures u.Some? ==> exists i :: 0 <= i < |us| && us[i] == u.value && us[i].id == id
    ensures u.Some? ==> forall i :: 0 <= i < |us| && us[i].id == id ==> us[i] == u.value
    ensures u.None? ==> forall i :: 0 <= i < |us| ==> us[i].id != id
  {
    for i := 0 to |us|
      invariant forall k :: 0 <= k < i ==> us[k].id != id
    {
      if us[i].id == id {
        forall k | 0 <= k < |us| && us[k].id == id ensures k == i {
          assert Ids(us)[k] == Ids(us)[i];
        }
        return Some(us[i]);
      }
    }
    u := None;
  }

  /** One side of a channel in write_inventory. */
  method CheckSide(s: Side, us: seq<Usrp>, refused: string) returns (ok: bool)
    requires ValidUsrps(us)
    ensures ok == SideFits(s, us, refused)
  {
    hide RoleOf, ValidUsrps;
    var u := FindUsrp(us, s.usrp);
    if u.None? || (s.port != "" && s.port !in u.value.ports) || RoleOf(u.value.role) == refused { return false; }
    ok := s.chan.Empty? || (s.chan.Integer? && s.chan.n >= 0);
  }

  /** write_inventory: what is accepted is valid, and everything valid is accepted. */
  method WriteInventory(raw: Inventory) returns (r: Option<Inventory>)
    ensures var clean := Inventory(CleanUsrps(raw.usrps), CleanChannels(raw.channels));
      r == if ValidInventory(clean) then Some(clean) else None
    ensures r.Some? ==> UsrpsStripped(raw.usrps, r.value.usrps) && ChannelsStripped(raw.channels, r.value.channels)
  {
    hide *;
    CleanIsStripped(raw);
    InventoryParts(Inventory(CleanUsrps(raw.usrps), CleanChannels(raw.channels)));
    var usrps := CheckUsrps(raw.usrps);
    if usrps.None? { return None; }
    var us, seen: set<string>, cleaned := usrps.value, {}, [];
    NoChannels(raw.channels, us);
    for i := 0 to |raw.channels|
      invariant cleaned == CleanChannels(raw.channels[..i]) && ValidChannels(cleaned, us)
      invariant forall x :: x in seen <==> x in ChannelIds(cleaned)
    {
      var c := CleanChannel(raw.channels[i]);
      PrefixOfChannels(raw.channels, i, us);
      NextChannel(cleaned, c, us);
      var tx := CheckSide(c.tx, us, "rx");
      var rx := CheckSide(c.rx, us, "tx");
      Fits(c, us);
      if c.id == "" || c.id in seen || !tx || !rx { return None; }
      seen := seen + {c.id};
      cleaned := cleaned + [c];
    }
    assert raw.channels[..|raw.channels|] == raw.channels;
    r := Some(Inventory(us, cleaned));
  }

  /** Every field is stored without the blanks around it, and ports without the blank ones. */
  ghost predicate UsrpsStripped(raw: seq<Usrp>, us: seq<Usrp>) {
    |us| == |raw| && forall i :: 0 <= i < |raw| ==> UsrpStripped(raw[i], us[i])
  }

  ghost predicate UsrpStripped(raw: Usrp, u: Usrp) {
    && u.id == E.Strip(raw.id) && u.identifier == E.Strip(raw.identifier) && u.role == E.Strip(raw.role)
    && forall p :: p in u.ports <==> p != "" && exists q :: q in raw.ports && E.Strip(q) == p
  }

  ghost predicate ChannelsStripped(raw: seq<Channel>, cs: seq<Channel>) {
    |cs| == |raw| && forall i :: 0 <= i < |raw| ==> ChannelStripped(raw[i], cs[i])
  }

  predicate ChannelStripped(raw: Channel, c: Channel) {
    c.id == E.Strip(raw.id) && SideStripped(raw.tx, c.tx) && SideStripped(raw.rx, c.rx)
  }

  predicate SideStripped(raw: Side, s: Side) {
    s.usrp == E.Strip(raw.usrp) && s.port == E.Strip(raw.port) && s.chan == raw.chan && s.gain == raw.gain
  }

  lemma CleanIsStripped(raw: Inventory)
    ensures UsrpsStripped(raw.usrps, CleanUsrps(raw.usrps))
    ensures ChannelsStripped(raw.channels, CleanChannels(raw.channels))
  {
    hide *;
    forall u ensures UsrpStripped(u, CleanUsrp(u)) { UsrpIsStripped(u); }
    forall c ensures ChannelStripped(c, CleanChannel(c)) { ChannelIsStripped(c); }
    AllStripped(raw);
  }

  lemma AllStripped(raw: Inventory)
    requires forall u :: UsrpStripped(u, CleanUsrp(u))
    requires forall c :: ChannelStripped(c, CleanChannel(c))
    ensures UsrpsStripped(raw.usrps, CleanUsrps(raw.usrps))
    ensures ChannelsStripped(raw.channels, CleanChannels(raw.channels))
  {
    hide UsrpStripped, CleanUsrp, ChannelStripped, CleanChannel;
  }

  lemma UsrpIsStripped(u: Usrp)
    ensures UsrpStripped(u, CleanUsrp(u))
  {
    CleanPortsAre(u.ports);
    hide E.Strip, CleanPorts;
  }

  lemma ChannelIsStripped(c: Channel)
    ensures ChannelStripped(c, CleanChannel(c))
  {
    hide E.Strip;
  }

  lemma Fits(c: Channel, us: seq<Usrp>)
    ensures ChannelFits(c, us) <==> c.id != "" && SideFits(c.tx, us, "rx") && SideFits(c.rx, us, "tx")
  {}

  lemma InventoryParts(inv: Inventory)
    ensures ValidInventory(inv) <==> ValidUsrps(inv.usrps) && ValidChannels(inv.channels, inv.usrps)
  {
    hide SideFits, NoDuplicates, ValidUsrps;
  }

  // ----- Endpoints ----------------------------------------------------------------------------------

  datatype Role = Tx | Rx | TxRx

  function NormalizeRole(role: string): Role {
    var r := RoleOf(role);
    if r == "tx" then Tx else if r == "rx" then Rx else TxRx
  }

  const BASE_PORT := 5600
  const PORTS_PER_USRP := 4

  datatype Ports = Ports(txRep: int, txPub: int, rxRep: int, rxPub: int)

  function PortsForIndex(i: nat): Ports {
    var base := BASE_PORT + PORTS_PER_USRP * i;
    Ports(base, base + 1, base + 2, base + 3)
  }

  function PortSet(p: Ports): set<int> { {p.txRep, p.txPub, p.rxRep, p.rxPub} }

  /** No two sockets of the testbed share a port. */
  lemma PortsDisjoint(i: nat, j: nat)
    requires i != j
    ensures PortSet(PortsForIndex(i)) !! PortSet(PortsForIndex(j)) && |PortSet(PortsForIndex(i))| == 4
  {
    var p := PortsForIndex(i);
    assert PortSet(p) == {p.txRep} + {p.txPub} + {p.rxRep} + {p.rxPub};
  }

  datatype Endpoint = Endpoint(index: nat, role: Role, ports: Ports)

  /** The ids as the worker reads them. */
  function StrippedIds(us: seq<Usrp>): (r: seq<string>)
    ensures |r| == |us|
  {
    seq(|us|, i requires 0 <= i < |us| => E.Strip(us[i].id))
  }

  function EndpointAt(us: seq<Usrp>, i: nat): Endpoint
    requires i < |us|
  {
    Endpoint(i, NormalizeRole(us[i].role), PortsForIndex(i))
  }

  /** The endpoint of id is at the position of its last entry. */
  ghost predicate Describes(r: map<string, Endpoint>, us: seq<Usrp>) {
    forall id ::
      var i := LastIndex(StrippedIds(us), id);
      && (id in r <==> id != "" && i >= 0)
      && (id in r ==> r[id] == EndpointAt(us, i))
  }

  method EndpointsFromInventory(us: seq<Usrp>) returns (r: map<string, Endpoint>)
    ensures Describes(r, us)
    ensures forall id :: id in r <==> id != "" && exists i :: 0 <= i < |us| && E.Strip(us[i].id) == id
    ensures forall id :: id in r ==> EndpointIs(r[id], us, id)
  {
    hide E.Strip, NormalizeRole, PortsForIndex, EndpointIs;
    r := map[];
    for i := 0 to |us|
      invariant Describes(r, us[..i])
    {
      var id := E.Strip(us[i].id);
      NextEndpoint(r, us, i);
      if id != "" { r := r[id := EndpointAt(us, i)]; }
    }
    assert us[..|us|] == us;
    forall id
      ensures id in r <==> id != "" && exists i :: 0 <= i < |us| && E.Strip(us[i].id) == id
      ensures id in r ==> EndpointIs(r[id], us, id)
    {
      DescribedOne(r, us, id);
    }
  }

  /** The four ports of the device with this name, at its last position, and its role:
      a field that is neither "tx" nor "rx" means both. */
  predicate EndpointIs(e: Endpoint, us: seq<Usrp>, id: string) {
    && e.index < |us| && E.Strip(us[e.index].id) == id
    && (forall j :: e.index < j < |us| ==> E.Strip(us[j].id) != id)
    && e.ports.txRep == 5600 + 4 * e.index && e.ports.txPub == 5601 + 4 * e.index
    && e.ports.rxRep == 5602 + 4 * e.index && e.ports.rxPub == 5603 + 4 * e.index
    && var role := Lower(E.Strip(us[e.index].role));
       (e.role == Tx <==> role == "tx") && (e.role == Rx <==> role == "rx")
  }

  lemma DescribedOne(r: map<string, Endpoint>, us: seq<Usrp>, id: string)
    requires Describes(r, us)
    ensures id in r <==> id != "" && exists i :: 0 <= i < |us| && E.Strip(us[i].id) == id
    ensures id in r ==> EndpointIs(r[id], us, id)
  {
    hide E.Strip, Lower;
    var ids, i := StrippedIds(us), LastIndex(StrippedIds(us), id);
    assert id in ids <==> exists k :: 0 <= k < |us| && E.Strip(us[k].id) == id by {
      if k :| 0 <= k < |us| && E.Strip(us[k].id) == id { assert ids[k] == id; }
    }
    if id in r {
      assert ids[i] == id;
      assert forall j :: i < j < |us| ==> ids[j] == E.Strip(us[j].id);
    }
  }

  lemma NextEndpoint(r: map<string, Endpoint>, us: seq<Usrp>, i: nat)
    requires i < |us| && Describes(r, us[..i])
    ensures var id := E.Strip(us[i].id);
      Describes(if id != "" then r[id := EndpointAt(us, i)] else r, us[..i + 1])
  {
    hide E.Strip, NormalizeRole, PortsForIndex;
    assert StrippedIds(us[..i + 1])[..i] == StrippedIds(us[..i]);
  }

  /** Names are stored without surrounding blanks. */
  predicate Tidy(inv: Inventory) {
    && (forall i :: 0 <= i < |inv.usrps| ==> E.Strip(inv.usrps[i].id) == inv.usrps[i].id)
    && (forall i :: 0 <= i < |inv.channels| ==>
          && E.Strip(inv.channels[i].tx.usrp) == inv.channels[i].tx.usrp
          && E.Strip(inv.channels[i].rx.usrp) == inv.channels[i].rx.usrp)
  }

  lemma CleanIsTidy(raw: Inventory)
    ensures Tidy(Inventory(CleanUsrps(raw.usrps), CleanChannels(raw.channels)))
  {
    forall s ensures E.Strip(E.Strip(s)) == E.Strip(s) { StripTwice(s); }
    hide E.Strip, CleanPorts;
  }

  /** For every channel of a stored inventory the worker finds both endpoints, at the
      position of the one device with that name, and neither is refused for its role. */
  lemma ChannelsHaveEndpoints(inv: Inventory, eps: map<string, Endpoint>, k: nat)
    requires ValidInventory(inv) && Tidy(inv) && Describes(eps, inv.usrps) && k < |inv.channels|
    ensures Reachable(inv, eps, k)
  {
    hide E.Strip, RoleOf, PortsForIndex, NormalizeRole;
    var c := inv.channels[k];
    SideHasEndpoint(inv.usrps, c.tx, "rx", eps);
    SideHasEndpoint(inv.usrps, c.rx, "tx", eps);
  }

  /** Both sides of channel k can be reached: the endpoint is that of the named device and
      serves the side's role. */
  predicate Reachable(inv: Inventory, eps: map<string, Endpoint>, k: nat)
    requires k < |inv.channels|
  {
    var tx, rx := inv.channels[k].tx.usrp, inv.channels[k].rx.usrp;
    && tx in eps && eps[tx].role != Rx && eps[tx].index < |inv.usrps| && inv.usrps[eps[tx].index].id == tx
    && rx in eps && eps[rx].role != Tx && eps[rx].index < |inv.usrps| && inv.usrps[eps[rx].index].id == rx
  }

  /** From what an administrator submits to what the worker connects to: every channel of
      every inventory that is stored can be reached. */
  method StoreAndResolve(raw: Inventory) returns (inv: Option<Inventory>, eps: map<string, Endpoint>)
    ensures inv.Some? <==> ValidInventory(Inventory(CleanUsrps(raw.usrps), CleanChannels(raw.channels)))
    ensures inv.Some? ==> |inv.value.channels| == |raw.channels|
    ensures inv.Some? ==> forall k: nat :: k < |inv.value.channels| ==> Reachable(inv.value, eps, k)
  {
    hide *;
    inv := WriteInventory(raw);
    eps := map[];
    if inv.Some? {
      eps := EndpointsFromInventory(inv.value.usrps);
      CleanIsTidy(raw);
      forall k: nat | k < |inv.value.channels| ensures Reachable(inv.value, eps, k) {
        ChannelsHaveEndpoints(inv.value, eps, k);
      }
    }
  }

  lemma SideHasEndpoint(us: seq<Usrp>, s: Side, refused: string, eps: map<string, Endpoint>)
    requires ValidUsrps(us) && SideFits(s, us, refused) && refused in {"tx", "rx"} && Describes(eps, us)
    requires forall i :: 0 <= i < |us| ==> E.Strip(us[i].id) == us[i].id
    ensures s.usrp in eps && eps[s.usrp].index < |us| && us[eps[s.usrp].index].id == s.usrp
    ensures eps[s.usrp].role != if refused == "rx" then Rx else Tx
  {
    hide E.Strip, RoleOf, PortsForIndex;
    var i :| 0 <= i < |us| && us[i].id == s.usrp && RoleOf(us[i].role) != refused;
    assert StrippedIds(us) == Ids(us);
    assert Ids(us)[i] == s.usrp;
    assert LastIndex(Ids(us), s.usrp) == i;
  }

  // ----- Device channels -------------------------------------------------------------------------

  datatype Route = Route(txUsrp: string, txChan: int, rxUsrp: string, rxChan: int)

  function Count(ids: seq<string>, id: string): nat {
    if ids == [] then 0 else Count(ids[..|ids| - 1], id) + if ids[|ids| - 1] == id then 1 else 0
  }

  function TxIds(cs: seq<Channel>): (r: seq<string>)
    ensures |r| == |cs|
  {
    seq(|cs|, i requires 0 <= i < |cs| => E.Strip(cs[i].tx.usrp))
  }

  function RxIds(cs: seq<Channel>): (r: seq<string>)
    ensures |r| == |cs|
  {
    seq(|cs|, i requires 0 <= i < |cs| => E.Strip(cs[i].rx.usrp))
  }

  /** The device channel of entry i: explicit, or how many entries before it are on the
      same USRP. */
  function ChanOf(f: ChanField, ids: seq<string>, i: nat): int
    requires i < |ids|
  {
    if f.Integer? then f.n else Count(ids[..i], ids[i])
  }

  /** _resolved_channels */
  method ResolvedChannels(cs: seq<Channel>) returns (out: seq<Route>)
    ensures |out| == |cs|
    ensures forall i :: 0 <= i < |cs| ==>
      out[i] == Route(TxIds(cs)[i], ChanOf(cs[i].tx.chan, TxIds(cs), i),
                      RxIds(cs)[i], ChanOf(cs[i].rx.chan, RxIds(cs), i))
    ensures forall i :: 0 <= i < |cs| ==>
      && out[i].txUsrp == E.Strip(cs[i].tx.usrp) && out[i].rxUsrp == E.Strip(cs[i].rx.usrp)
      && (cs[i].tx.chan.Integer? ==> out[i].txChan == cs[i].tx.chan.n)
      && (cs[i].rx.chan.Integer? ==> out[i].rxChan == cs[i].rx.chan.n)
      && (!cs[i].tx.chan.Integer? ==>
            out[i].txChan == |set j | 0 <= j < i && E.Strip(cs[j].tx.usrp) == E.Strip(cs[i].tx.usrp)|)
      && (!cs[i].rx.chan.Integer? ==>
            out[i].rxChan == |set j | 0 <= j < i && E.Strip(cs[j].rx.usrp) == E.Strip(cs[i].rx.usrp)|)
  {
    hide E.Strip;
    var txCounter: map<string, nat>, rxCounter: map<string, nat> := map[], map[];
    out := [];
    for i := 0 to |cs|
      invariant |out| == i
      invariant Counts(txCounter, TxIds(cs)[..i]) && Counts(rxCounter, RxIds(cs)[..i])
      invariant forall k :: 0 <= k < i ==>
        out[k] == Route(TxIds(cs)[k], ChanOf(cs[k].tx.chan, TxIds(cs), k),
                        RxIds(cs)[k], ChanOf(cs[k].rx.chan, RxIds(cs), k))
    {
      hide Counts, ChanOf;
      var tx, rx := E.Strip(cs[i].tx.usrp), E.Strip(cs[i].rx.usrp);
      var txChan, rxChan;
      txChan, txCounter := NextChan(cs[i].tx.chan, txCounter, tx, TxIds(cs), i);
      rxChan, rxCounter := NextChan(cs[i].rx.chan, rxCounter, rx, RxIds(cs), i);
      out := out + [Route(tx, txChan, rx, rxChan)];
    }
    forall i | 0 <= i < |cs|
      ensures !cs[i].tx.chan.Integer? ==>
        out[i].txChan == |set j | 0 <= j < i && E.Strip(cs[j].tx.usrp) == E.Strip(cs[i].tx.usrp)|
      ensures !cs[i].rx.chan.Integer? ==>
        out[i].rxChan == |set j | 0 <= j < i && E.Strip(cs[j].rx.usrp) == E.Strip(cs[i].rx.usrp)|
    {
      EarlierOnSame(cs, i);
    }
  }

  lemma EarlierOnSame(cs: seq<Channel>, i: nat)
    requires i < |cs|
    ensures Count(TxIds(cs)[..i], TxIds(cs)[i]) ==
      |set j | 0 <= j < i && E.Strip(cs[j].tx.usrp) == E.Strip(cs[i].tx.usrp)|
    ensures Count(RxIds(cs)[..i], RxIds(cs)[i]) ==
      |set j | 0 <= j < i && E.Strip(cs[j].rx.usrp) == E.Strip(cs[i].rx.usrp)|
  {
    hide E.Strip, Count;
    CountIsSize(TxIds(cs)[..i], TxIds(cs)[i]);
    CountIsSize(RxIds(cs)[..i], RxIds(cs)[i]);
    assert (set j | 0 <= j < i && E.Strip(cs[j].tx.usrp) == E.Strip(cs[i].tx.usrp))
        == (set j | 0 <= j < i && TxIds(cs)[..i][j] == TxIds(cs)[i]);
    assert (set j | 0 <= j < i && E.Strip(cs[j].rx.usrp) == E.Strip(cs[i].rx.usrp))
        == (set j | 0 <= j < i && RxIds(cs)[..i][j] == RxIds(cs)[i]);
  }

  lemma {:induction false} CountIsSize(ids: seq<string>, id: string)
    ensures Count(ids, id) == |set j | 0 <= j < |ids| && ids[j] == id|
  {
    if ids != [] {
      var m := |ids| - 1;
      CountIsSize(ids[..m], id);
      var before := set j | 0 <= j < m && ids[..m][j] == id;
      assert (set j | 0 <= j < |ids| && ids[j] == id) == before + if ids[m] == id then {m} else {};
    }
  }

  ghost predicate Counts(counter: map<string, nat>, ids: seq<string>) {
    forall id :: (if id in counter then counter[id] else 0) == Count(ids, id)
  }

  /** _chan: the counter moves even when the index is explicit. */
  method NextChan(f: ChanField, counter: map<string, nat>, id: string, ghost ids: seq<string>, ghost i: nat)
    returns (chan: int, next: map<string, nat>)
    requires i < |ids| && ids[i] == id && Counts(counter, ids[..i])
    ensures chan == ChanOf(f, ids, i) && Counts(next, ids[..i + 1])
  {
    var idx := if id in counter then counter[id] else 0;
    next := counter[id := idx + 1];
    chan := if f.Integer? then f.n else idx;
    assert ids[..i + 1][..i] == ids[..i];
  }

  lemma {:induction false} CountGrows(ids: seq<string>, id: string, i: nat, j: nat)
    requires i <= j <= |ids|
    ensures Count(ids[..i], id) <= Count(ids[..j], id)
    ensures i < j && ids[i] == id ==> Count(ids[..i], id) < Count(ids[..j], id)
    decreases j - i
  {
    if i < j {
      assert ids[..j][..j - 1] == ids[..j - 1];
      CountGrows(ids, id, i, j - 1);
    }
  }

  /** Without explicit indices the channels of one USRP ascend, so no two collide. */
  lemma DefaultsAscend(ids: seq<string>, i: nat, j: nat)
    requires i < j < |ids| && ids[i] == ids[j]
    ensures ChanOf(Empty, ids, i) < ChanOf(Empty, ids, j)
  {
    CountGrows(ids, ids[i], i, j);
  }

  /** And where the first n entries are all on one USRP they are 0, 1, 2, ... */
  lemma {:induction false} PrefixIsIdentity(ids: seq<string>, n: nat)
    requires n <= |ids| && forall i :: 0 <= i < n ==> ids[i] == ids[0]
    ensures forall i :: 0 <= i < n ==> ChanOf(Empty, ids, i) == i
    ensures n > 0 ==> Count(ids[..n], ids[0]) == n
  {
    if n > 0 {
      PrefixIsIdentity(ids, n - 1);
      assert ids[..n][..n - 1] == ids[..n - 1];
      if n == 1 { assert ids[..0] == []; }
    }
  }

  // ----- Picking the channels of a test --------------------------------------------------------

  datatype Picked = Picked(txUsrp: string, txChans: seq<int>, rxUsrp: string, rxChans: seq<int>)

  predicate InRange(idx: seq<int>, n: nat) { forall k :: 0 <= k < |idx| ==> 0 <= idx[k] < n }

  predicate OneUsrp(ids: seq<string>, idx: seq<int>)
    requires InRange(idx, |ids|)
  {
    idx != [] && forall k :: 0 <= k < |idx| ==> ids[idx[k]] == ids[idx[0]]
  }

  function TxChans(cs: seq<Channel>, idx: seq<int>): (r: seq<int>)
    requires InRange(idx, |cs|)
    ensures |r| == |idx|
  {
    seq(|idx|, k requires 0 <= k < |idx| => ChanOf(cs[idx[k]].tx.chan, TxIds(cs), idx[k]))
  }

  function RxChans(cs: seq<Channel>, idx: seq<int>): (r: seq<int>)
    requires InRange(idx, |cs|)
    ensures |r| == |idx|
  {
    seq(|idx|, k requires 0 <= k < |idx| => ChanOf(cs[idx[k]].rx.chan, RxIds(cs), idx[k]))
  }

  /** There is no gain to fall back on: every picked side that is used needs its own. */
  predicate GainsGiven(cs: seq<Channel>, idx: seq<int>, configureTx: bool)
    requires InRange(idx, |cs|)
  {
    forall k :: 0 <= k < |idx| ==> (configureTx ==> cs[idx[k]].tx.gain.Some?) && cs[idx[k]].rx.gain.Some?
  }

  /** When a test over inventory channels idx is not refused for its channels. */
  predicate Routable(cs: seq<Channel>, idx: seq<int>, configureTx: bool) {
    && InRange(idx, |cs|) && GainsGiven(cs, idx, configureTx) && OneUsrp(TxIds(cs), idx) && OneUsrp(RxIds(cs), idx)
    && (configureTx ==> NoDuplicates(TxChans(cs, idx))) && NoDuplicates(RxChans(cs, idx))
  }

  /** All picked channels transmit on one device, and all receive on one. */
  predicate OneDeviceEach(cs: seq<Channel>, idx: seq<int>)
    requires forall k :: 0 <= k < |idx| ==> 0 <= idx[k] < |cs|
  {
    forall j, k :: 0 <= j < |idx| && 0 <= k < |idx| ==>
      && E.Strip(cs[idx[j]].tx.usrp) == E.Strip(cs[idx[k]].tx.usrp)
      && E.Strip(cs[idx[j]].rx.usrp) == E.Strip(cs[idx[k]].rx.usrp)
  }

  /** That is: some channel is picked, all of them exist and have gains, they are on one
      device a side, and no device channel is picked twice. */
  lemma RoutableIff(cs: seq<Channel>, idx: seq<int>, configureTx: bool)
    ensures Routable(cs, idx, configureTx) <==>
      && idx != [] && (forall k :: 0 <= k < |idx| ==> 0 <= idx[k] < |cs|)
      && (forall k :: 0 <= k < |idx| ==> (configureTx ==> cs[idx[k]].tx.gain.Some?) && cs[idx[k]].rx.gain.Some?)
      && OneDeviceEach(cs, idx)
      && (configureTx ==> NoDuplicates(TxChans(cs, idx))) && NoDuplicates(RxChans(cs, idx))
  {
    hide E.Strip, TxChans, RxChans;
  }

  /** The routing part of _configure. */
  method PickChannels(cs: seq<Channel>, idx: seq<int>, configureTx: bool) returns (r: Option<Picked>)
    ensures r == if Routable(cs, idx, configureTx)
                 then Some(Picked(TxIds(cs)[idx[0]], TxChans(cs, idx), RxIds(cs)[idx[0]], RxChans(cs, idx))) else None
    ensures r.Some? <==>
      && idx != [] && (forall k :: 0 <= k < |idx| ==> 0 <= idx[k] < |cs|)
      && (forall k :: 0 <= k < |idx| ==> (configureTx ==> cs[idx[k]].tx.gain.Some?) && cs[idx[k]].rx.gain.Some?)
      && OneDeviceEach(cs, idx)
      && (configureTx ==> NoDuplicates(TxChans(cs, idx))) && NoDuplicates(RxChans(cs, idx))
  {
    RoutableIff(cs, idx, configureTx);
    hide ChanOf, E.Strip, NoDuplicates, TxIds, RxIds, OneUsrp, TxChans, RxChans, Routable, GainsGiven;
    if !InRange(idx, |cs|) {
      NotInRange(cs, idx, configureTx);
      return None;
    }
    var routes := ResolvedChannels(cs);
    var txUsrps := seq(|idx|, k requires 0 <= k < |idx| => routes[idx[k]].txUsrp);
    var rxUsrps := seq(|idx|, k requires 0 <= k < |idx| => routes[idx[k]].rxUsrp);
    var txChans := seq(|idx|, k requires 0 <= k < |idx| => routes[idx[k]].txChan);
    var rxChans := seq(|idx|, k requires 0 <= k < |idx| => routes[idx[k]].rxChan);
    PickedUsrps(txUsrps, TxIds(cs), idx);
    PickedUsrps(rxUsrps, RxIds(cs), idx);
    PickedChans(cs, idx, txChans, rxChans, configureTx);
    if |set x | x in txUsrps| != 1 || |set x | x in rxUsrps| != 1 { return None; }
    if !GainsGiven(cs, idx, configureTx) { return None; }
    if (configureTx && !NoDuplicates(txChans)) || !NoDuplicates(rxChans) { return None; }
    r := Some(Picked(txUsrps[0], txChans, rxUsrps[0], rxChans));
  }

  lemma NotInRange(cs: seq<Channel>, idx: seq<int>, configureTx: bool)
    requires !InRange(idx, |cs|)
    ensures !Routable(cs, idx, configureTx)
  {
    hide InRange, OneUsrp, GainsGiven;
  }

  lemma PickedChans(cs: seq<Channel>, idx: seq<int>, txChans: seq<int>, rxChans: seq<int>, configureTx: bool)
    requires InRange(idx, |cs|) && |txChans| == |rxChans| == |idx|
    requires forall k :: 0 <= k < |idx| ==> txChans[k] == ChanOf(cs[idx[k]].tx.chan, TxIds(cs), idx[k])
    requires forall k :: 0 <= k < |idx| ==> rxChans[k] == ChanOf(cs[idx[k]].rx.chan, RxIds(cs), idx[k])
    ensures txChans == TxChans(cs, idx) && rxChans == RxChans(cs, idx)
    ensures Routable(cs, idx, configureTx) <==>
      && GainsGiven(cs, idx, configureTx) && OneUsrp(TxIds(cs), idx) && OneUsrp(RxIds(cs), idx)
      && (configureTx ==> NoDuplicates(txChans)) && NoDuplicates(rxChans)
  {
    hide ChanOf, NoDuplicates, OneUsrp, GainsGiven;
    assert txChans == TxChans(cs, idx) && rxChans == RxChans(cs, idx);
  }

  lemma PickedUsrps(usrps: seq<string>, ids: seq<string>, idx: seq<int>)
    requires InRange(idx, |ids|) && |usrps| == |idx| && forall k :: 0 <= k < |idx| ==> usrps[k] == ids[idx[k]]
    ensures |set x | x in usrps| == 1 <==> OneUsrp(ids, idx)
    ensures OneUsrp(ids, idx) ==> idx != []
  {
    AllSame(usrps);
  }

  lemma AllSame(s: seq<string>)
    ensures |set x | x in s| == 1 <==> s != [] && forall k :: 0 <= k < |s| ==> s[k] == s[0]
  {
    var all := set x | x in s;
    if s != [] {
      if forall k :: 0 <= k < |s| ==> s[k] == s[0] {
        assert all == {s[0]};
      } else {
        var k :| 0 <= k < |s| && s[k] != s[0];
        assert s[k] in all - {s[0]} && |all - {s[0]}| == |all| - 1;
      }
    }
  }

  /** An inventory that leaves every index to its position never trips the duplicate check:
      a test is refused only for a channel that does not exist or has no gain, or for
      spanning devices. */
  lemma DefaultsNeverCollide(cs: seq<Channel>, idx: seq<int>, configureTx: bool)
    requires Defaults(cs)
    requires NoDuplicates(idx)
    ensures Routable(cs, idx, configureTx) <==>
      InRange(idx, |cs|) && GainsGiven(cs, idx, configureTx) && OneUsrp(TxIds(cs), idx) && OneUsrp(RxIds(cs), idx)
  {
    hide E.Strip;
    if InRange(idx, |cs|) && OneUsrp(TxIds(cs), idx) && OneUsrp(RxIds(cs), idx) {
      forall j, k | 0 <= j < k < |idx|
        ensures TxChans(cs, idx)[j] != TxChans(cs, idx)[k] && RxChans(cs, idx)[j] != RxChans(cs, idx)[k]
      {
        var a, b := if idx[j] < idx[k] then idx[j] else idx[k], if idx[j] < idx[k] then idx[k] else idx[j];
        DefaultsAscend(TxIds(cs), a, b);
        DefaultsAscend(RxIds(cs), a, b);
      }
    }
  }

  function UpTo(n: nat): (r: seq<nat>)
    ensures |r| == n && forall i :: 0 <= i < n ==> r[i] == i
  {
    seq(n, i requires 0 <= i < n => i)
  }

  lemma SamePrefix(ids: seq<string>, n: nat)
    requires InRange(UpTo(n), |ids|) && OneUsrp(ids, UpTo(n))
    ensures 0 < n <= |ids| && forall i :: 0 <= i < n ==> ids[i] == ids[0]
  {
    var idx := UpTo(n);
    assert idx != [] && idx[n - 1] == n - 1 && idx[0] == 0;
    forall i | 0 <= i < n ensures ids[i] == ids[0] {
      assert ids[idx[i]] == ids[idx[0]];
    }
  }

  /** A MIMO test over the first n entries then drives device channels 0 .. n-1 in order. */
  lemma DefaultsAreIdentity(cs: seq<Channel>, n: nat, configureTx: bool)
    requires Defaults(cs)
    requires Routable(cs, UpTo(n), configureTx)
    ensures TxChans(cs, UpTo(n)) == UpTo(n) == RxChans(cs, UpTo(n))
  {
    hide E.Strip;
    var idx := UpTo(n);
    hide TxIds, RxIds, ChanOf, UpTo;
    if n > 0 { assert idx[n - 1] == n - 1 && idx[0] == 0; }
    SamePrefix(TxIds(cs), n);
    SamePrefix(RxIds(cs), n);
    PrefixIsIdentity(TxIds(cs), n);
    PrefixIsIdentity(RxIds(cs), n);
  }

  // ----- From columns to device channels and back ---------------------------------------------

  /** Column i of a two-dimensional array with one row per sample. */
  function Column(x: seq<seq<S.Sample>>, i: nat): (r: seq<S.Sample>)
    requires forall t :: 0 <= t < |x| ==> i < |x[t]|
    ensures |r| == |x|
    ensures forall t :: 0 <= t < |x| ==> r[t] == x[t][i]
  {
    seq(|x|, t requires 0 <= t < |x| => x[t][i])
  }

  /** signal.T */
  function Transposed(x: seq<seq<S.Sample>>, n: nat): (r: seq<seq<S.Sample>>)
    requires forall t :: 0 <= t < |x| ==> |x[t]| == n
    ensures |r| == n
    ensures forall i :: 0 <= i < n ==> r[i] == Column(x, i)
  {
    seq(n, i requires 0 <= i < n => Column(x, i))
  }

  /** The transmitting half of a MIMO test on inventory channels 0 .. n-1: position i of the
      streamer sends column i. With default indices and a streamer made for an ascending
      list (or none yet), that position is device channel i. */
  method SendColumns(d: S.TxDaemon, cs: seq<Channel>, x: seq<seq<S.Sample>>, n: nat, valid: bool, takes: nat -> nat)
    returns (r: S.TestOutcome, chans: seq<nat>, ghost log: seq<seq<seq<S.Sample>>>)
    requires d.Valid() && forall t :: 0 <= t < |x| ==> |x[t]| == n
    modifies d
    ensures d.Valid()
    ensures r != S.Refused ==> Routable(cs, UpTo(n), true) && Naturals(chans, TxChans(cs, UpTo(n)))
    ensures |x| > 0 && ValidRoute(cs, n, d.available) && valid ==>
      r == S.Delivered || (r == S.Stalled && takes(|log|) == 0)
    ensures r == S.Delivered ==> S.FullPieces(log, n) && forall i :: 0 <= i < n ==> S.Joined(log, i) == Column(x, i)
    ensures r != S.Refused ==>
      && d.streamer.Some?
      && d.streamer.value.order == S.OrderAfter(old(d.streamer), old(d.configured), chans)
    ensures r != S.Refused && S.Ascending(chans) && AlignedBefore(old(d.streamer)) ==> d.streamer.value.order == chans
    ensures r != S.Refused && Defaults(cs) && AlignedBefore(old(d.streamer)) ==>
      d.streamer.value.order == chans == UpTo(n)
  {
    hide *;
    var ok;
    ok, chans := DeviceChannels(cs, n);
    r, log := S.Refused, [];
    RouteParts(cs, n, d.available, chans, ok);
    if !ok || |x| == 0 { return; }
    var rows := Transposed(x, n);
    MatrixIsUsable(x, n, chans);
    OrdersMatch(d);
    ghost var was, configured := d.streamer, d.configured;
    r, log := d.TransmitTest(chans, S.Multi(rows, |x|), valid, takes);
    if r == S.Delivered { RowsAreColumns(x, n, chans, log); }
    if r != S.Refused && S.Ascending(chans) && AlignedBefore(was) { AscendingOrder(was, configured, chans); }
    if r != S.Refused && Defaults(cs) && AlignedBefore(was) { DefaultOrder(was, configured, cs, n, chans); }
  }

  /** The route of a test exists and the device has its channels. */
  predicate ValidRoute(cs: seq<Channel>, n: nat, available: nat) {
    && Routable(cs, UpTo(n), true)
    && forall i :: 0 <= i < n ==> 0 <= TxChans(cs, UpTo(n))[i] < available
  }

  lemma RouteParts(cs: seq<Channel>, n: nat, available: nat, chans: seq<nat>, ok: bool)
    requires ok <==> Routable(cs, UpTo(n), true) && forall i :: 0 <= i < n ==> TxChans(cs, UpTo(n))[i] >= 0
    requires ok ==> Naturals(chans, TxChans(cs, UpTo(n))) && NoDuplicates(chans) && |chans| == n
    ensures ValidRoute(cs, n, available) ==> ok && S.Acceptable(chans, [], available)
  {
    hide TxChans, RxChans, NoDuplicates;
    assert chans + [] == chans;
    if ValidRoute(cs, n, available) { assert UpTo(n) != []; }
  }

  /** The device channels of the first n entries, as the daemon takes them. */
  method DeviceChannels(cs: seq<Channel>, n: nat) returns (ok: bool, chans: seq<nat>)
    ensures ok ==> Routable(cs, UpTo(n), true) && Naturals(chans, TxChans(cs, UpTo(n)))
    ensures ok ==> NoDuplicates(chans) && |chans| == n
    ensures ok <==> Routable(cs, UpTo(n), true) && forall i :: 0 <= i < n ==> TxChans(cs, UpTo(n))[i] >= 0
  {
    hide *;
    var p := PickChannels(cs, UpTo(n), true);
    if p.None? { return false, []; }
    IndicesInRange(cs, n, true);
    ok, chans := AsNaturals(p.value.txChans);
    if ok { StillDistinct(chans, p.value.txChans, cs, UpTo(n)); }
  }

  lemma IndicesInRange(cs: seq<Channel>, n: nat, configureTx: bool)
    requires Routable(cs, UpTo(n), configureTx)
    ensures InRange(UpTo(n), |cs|) && |TxChans(cs, UpTo(n))| == n == |RxChans(cs, UpTo(n))|
  {}

  predicate Defaults(cs: seq<Channel>) {
    forall i :: 0 <= i < |cs| ==> cs[i].tx.chan == Empty == cs[i].rx.chan
  }

  ghost predicate AlignedBefore(was: Option<S.Streamer>) {
    was.Some? ==> S.Ascending(was.value.order)
  }

  predicate Naturals(a: seq<nat>, b: seq<int>) {
    |a| == |b| && forall i :: 0 <= i < |a| ==> a[i] == b[i]
  }

  method AsNaturals(s: seq<int>) returns (ok: bool, r: seq<nat>)
    ensures ok ==> Naturals(r, s)
    ensures ok <==> forall i :: 0 <= i < |s| ==> s[i] >= 0
  {
    ok, r := true, [];
    for i := 0 to |s|
      invariant ok && |r| == i && forall k :: 0 <= k < i ==> r[k] == s[k]
    {
      if s[i] < 0 { return false, []; }
      r := r + [s[i]];
    }
  }

  lemma MatrixIsUsable(x: seq<seq<S.Sample>>, n: nat, chans: seq<nat>)
    requires |x| > 0 && |chans| == n && forall t :: 0 <= t < |x| ==> |x[t]| == n
    ensures S.Usable(S.Multi(Transposed(x, n), |x|))
    ensures !S.RowMismatch(Some(S.Multi(Transposed(x, n), |x|)), chans)
  {}

  lemma StillDistinct(chans: seq<nat>, ints: seq<int>, cs: seq<Channel>, idx: seq<int>)
    requires Routable(cs, idx, true) && ints == TxChans(cs, idx) && Naturals(chans, ints)
    ensures NoDuplicates(chans) && |chans| == |idx|
  {
    hide TxChans, RxChans, OneUsrp;
  }

  lemma RowsAreColumns(x: seq<seq<S.Sample>>, n: nat, chans: seq<nat>, log: seq<seq<seq<S.Sample>>>)
    requires |x| > 0 && (forall t :: 0 <= t < |x| ==> |x[t]| == n) && |chans| == n && S.FullPieces(log, n)
    requires forall p :: 0 <= p < n ==> S.Joined(log, p) == S.RowOf(S.Multi(Transposed(x, n), |x|), p)
    ensures forall i :: 0 <= i < n ==> S.Joined(log, i) == Column(x, i)
  {
    hide S.Joined, Column;
  }

  lemma OrdersMatch(d: S.TxDaemon)
    requires d.Valid()
    ensures d.streamer.Some? && d.configured.Some? ==> multiset(d.streamer.value.order) == multiset(d.configured.value)
  {}

  lemma AscendingOrder(was: Option<S.Streamer>, configured: Option<seq<nat>>, chans: seq<nat>)
    requires S.Ascending(chans) && AlignedBefore(was)
    requires was.Some? && configured.Some? ==> multiset(was.value.order) == multiset(configured.value)
    ensures S.OrderAfter(was, configured, chans) == chans
  {
    S.AscendingStaysAligned(was, configured, chans);
  }

  lemma DefaultOrder(was: Option<S.Streamer>, configured: Option<seq<nat>>, cs: seq<Channel>, n: nat, chans: seq<nat>)
    requires Routable(cs, UpTo(n), true) && Naturals(chans, TxChans(cs, UpTo(n))) && Defaults(cs) && AlignedBefore(was)
    requires was.Some? && configured.Some? ==> multiset(was.value.order) == multiset(configured.value)
    ensures S.OrderAfter(was, configured, chans) == chans == UpTo(n)
  {
    DefaultsAreIdentity(cs, n, true);
    hide TxChans, RxChans, Routable;
    assert chans == UpTo(n);
    AscendingOrder(was, configured, chans);
  }

  /** What a receiving test comes to. */
  datatype Listening = Refused | Failed | Heard(y: seq<seq<S.Sample>>)

  /** The receiving half, on its own or beside a transmission: rows come back as columns, so
      entry (t, i) is the t-th sample from position i of the streamer. That position is the
      i-th picked device channel whenever those ascend, and device channel i with default
      indices, on a streamer made for an ascending list (or none yet). */
  method ReceiveColumns(d: S.RxStreams, cs: seq<Channel>, n: nat, samples: nat, configureTx: bool, valid: bool,
                        recv: nat -> Option<seq<seq<S.Sample>>>)
    returns (r: Listening, chans: seq<nat>, ghost log: seq<seq<seq<S.Sample>>>)
    requires d.Valid() && n > 0
    requires forall k: nat :: recv(k).Some? ==> S.Deliveries([recv(k).value], n, d.chunk)
    modifies d
    ensures d.Valid()
    ensures r == Refused <==> !(ValidRxRoute(cs, n, configureTx, d.available) && valid)
    ensures r != Refused ==> Naturals(chans, RxChans(cs, UpTo(n)))
    ensures r != Refused ==>
      && d.streamer.Some?
      && d.streamer.value.order == S.OrderAfter(old(d.streamer), old(d.configured), chans)
    ensures r != Refused && S.Ascending(chans) && AlignedBefore(old(d.streamer)) ==> d.streamer.value.order == chans
    ensures r != Refused && Defaults(cs) && AlignedBefore(old(d.streamer)) ==>
      d.streamer.value.order == chans == UpTo(n)
    ensures r != Refused ==> S.Deliveries(log, n, d.chunk) && forall k: nat :: k < |log| ==> recv(k) == Some(log[k])
    ensures r == Failed ==> recv(|log|).None? || S.Shorts(log, d.chunk) >= 100
    ensures r.Heard? ==> |r.y| == samples && forall t :: 0 <= t < samples ==> |r.y[t]| == n
    ensures r.Heard? ==> forall i :: 0 <= i < n ==>
      samples <= |S.Joined(log, i)| && Column(r.y, i) == S.Joined(log, i)[..samples]
  {
    assert d.chunk > 0;
    ghost var was, configured := d.streamer, d.configured;
    RxOrdersMatch(d);
    hide *;
    var ok;
    ok, chans := RxDeviceChannels(cs, n, configureTx);
    r, log := Refused, [];
    RxRouteParts(cs, n, configureTx, d.available, chans, ok);
    if !ok { return; }
    ok := d.ConfigureUsrp(chans, valid);
    if !ok { return; }
    if S.Ascending(chans) && AlignedBefore(was) { AscendingOrder(was, configured, chans); }
    if Defaults(cs) && AlignedBefore(was) { DefaultRxOrder(was, configured, cs, n, configureTx, chans); }
    var y;
    ok, y, log := CaptureColumns(n, samples, d.chunk, recv);
    r := if ok then Heard(y) else Failed;
  }

  predicate ValidRxRoute(cs: seq<Channel>, n: nat, configureTx: bool, available: nat) {
    && Routable(cs, UpTo(n), configureTx)
    && forall i :: 0 <= i < n ==> 0 <= RxChans(cs, UpTo(n))[i] < available
  }

  lemma RxOrdersMatch(d: S.RxStreams)
    requires d.Valid()
    ensures d.streamer.Some? && d.configured.Some? ==> multiset(d.streamer.value.order) == multiset(d.configured.value)
  {}

  lemma RxRouteParts(cs: seq<Channel>, n: nat, configureTx: bool, available: nat, chans: seq<nat>, ok: bool)
    requires n > 0
    requires ok <==> Routable(cs, UpTo(n), configureTx) && forall i :: 0 <= i < n ==> RxChans(cs, UpTo(n))[i] >= 0
    requires ok ==> Naturals(chans, RxChans(cs, UpTo(n))) && |chans| == n
    ensures ValidRxRoute(cs, n, configureTx, available) <==>
      ok && chans != [] && forall i :: 0 <= i < |chans| ==> chans[i] < available
  {
    hide RxChans, Routable;
  }

  method RxDeviceChannels(cs: seq<Channel>, n: nat, configureTx: bool) returns (ok: bool, chans: seq<nat>)
    ensures ok ==> Routable(cs, UpTo(n), configureTx) && Naturals(chans, RxChans(cs, UpTo(n))) && |chans| == n
    ensures ok <==> Routable(cs, UpTo(n), configureTx) && forall i :: 0 <= i < n ==> RxChans(cs, UpTo(n))[i] >= 0
  {
    hide *;
    var p := PickChannels(cs, UpTo(n), configureTx);
    if p.None? { return false, []; }
    IndicesInRange(cs, n, configureTx);
    ok, chans := AsNaturals(p.value.rxChans);
    if ok { SameLength(chans, p.value.rxChans); }
  }

  lemma SameLength(a: seq<nat>, b: seq<int>)
    requires Naturals(a, b)
    ensures |a| == |b|
  {}

  lemma DefaultRxOrder(was: Option<S.Streamer>, configured: Option<seq<nat>>, cs: seq<Channel>, n: nat,
                       configureTx: bool, chans: seq<nat>)
    requires Routable(cs, UpTo(n), configureTx) && Naturals(chans, RxChans(cs, UpTo(n)))
    requires Defaults(cs) && AlignedBefore(was)
    requires was.Some? && configured.Some? ==> multiset(was.value.order) == multiset(configured.value)
    ensures S.OrderAfter(was, configured, chans) == chans == UpTo(n)
  {
    DefaultsAreIdentity(cs, n, configureTx);
    hide TxChans, RxChans, Routable;
    assert chans == UpTo(n);
    AscendingOrder(was, configured, chans);
  }

  /** receive_with_delay and _read_rx_file. */
  method CaptureColumns(n: nat, samples: nat, chunk: nat, recv: nat -> Option<seq<seq<S.Sample>>>)
    returns (ok: bool, y: seq<seq<S.Sample>>, ghost log: seq<seq<seq<S.Sample>>>)
    requires n > 0 && chunk > 0 && forall k: nat :: recv(k).Some? ==> S.Deliveries([recv(k).value], n, chunk)
    ensures S.Deliveries(log, n, chunk) && forall k: nat :: k < |log| ==> recv(k) == Some(log[k])
    ensures !ok ==> recv(|log|).None? || S.Shorts(log, chunk) >= 100
    ensures ok ==> |y| == samples && forall t :: 0 <= t < samples ==> |y[t]| == n
    ensures ok ==> forall i :: 0 <= i < n ==>
      samples <= |S.Joined(log, i)| && Column(y, i) == S.Joined(log, i)[..samples]
  {
    hide S.Joined, S.Deliveries;
    var r, rx;
    r, rx, log := S.ReceiveWithDelay(n, samples, chunk, recv);
    ok, y := r.Received?, [];
    if !ok { return; }
    ghost var rows := seq(n, i requires 0 <= i < n reads rx => S.Row(rx, i));
    for t := 0 to samples
      invariant |y| == t
      invariant forall k :: 0 <= k < t ==> |y[k]| == n && forall i :: 0 <= i < n ==> y[k][i] == rows[i][k]
    {
      var row: seq<S.Sample> := [];
      for i := 0 to n
        invariant |row| == i && forall k :: 0 <= k < i ==> row[k] == rows[k][t]
      {
        row := row + [rx[i, t]];
      }
      y := y + [row];
    }
    forall i | 0 <= i < n ensures Column(y, i) == rows[i] {}
  }
}

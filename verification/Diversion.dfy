/** A run in which a rule that outlived its link catches the packets of another graph, until the graph it
    came from takes it away. */
module Diversion {
  import Traces
  import Datapath
  import opened HighLevel
  import opened FlowTable
  import opened Lsis
  import opened Names
  import opened Options
  import opened Seqs
  import opened Translator
  import opened Forwarding
  import opened Vlinks
  import opened VlinkUpdate
  import LowGraph
  import opened RuleDiff
  import opened Lifecycle
  import opened Updates
  import opened UpdateLinks
  import opened UpdatePlan
  import opened InternalGroups
  import opened Manager
  import opened Isolation
  import opened Runs
  import opened Leftovers

  const PORTS := map["p" := 1, "q" := 2]

  /** A node with two ports, no internal groups, and these graphs and rules. */
  ghost predicate Plain(m: Manager, tenants: map<string, Tenant>, lsi0: seq<LowRule>) {
    && Steady(m) && m.state.node == Node(PORTS, map[], tenants, lsi0) && m.groups == NO_GROUPS
    && forall g :: g in m.members ==> m.members[g] == []
  }

  // ----- graphs with one rule -----

  const WIRED := Tenant([Datapath.WIRE], Datapath.BARE, [])

  function WireRequest(g: string): Request {
    Request(g, [Datapath.WIRE], [], map[], map[], [], [])
  }

  function WireRule(g: string): LowRule {
    LowRule(RuleName(g, "1"), LowMatch(Some(1), Some("")), Output(2, []), 1)
  }

  lemma WireLowered(g: string)
    ensures Lowered([Datapath.WIRE], Lower0(g, Datapath.BARE, PORTS, map[])) == [WireRule(g)]
    ensures Lowered([Datapath.WIRE], LowerT(Datapath.BARE)) == []
  {
    assert [Datapath.WIRE][..0] == [];
  }

  lemma WireAfter(m: Manager, g: string, tenants: map<string, Tenant>, lsi0: seq<LowRule>)
    requires Plain(m, tenants, lsi0)
    ensures WireRequest(g).Node'(m, map[]) == Node(PORTS, map[], tenants[g := WIRED], lsi0 + [WireRule(g)])
  {
    assert WireRequest(g).Lsi(m.state.nextId, map[]) == Datapath.BARE;
    WireLowered(g);
  }

  lemma WirePorts(d: Node, d': Node, g: string)
    requires Lsi0PortsDistinct(d) && d'.physical == d.physical && d'.connections == d.connections
    requires d'.tenants == d.tenants[g := WIRED]
    ensures Lsi0PortsDistinct(d')
  {
    forall x, number | HasLsi0Port(d', x, number)
      ensures HasLsi0Port(d, x, number) || (x.LinkEnd? && x.graph == g)
    {
    }
  }

  lemma WireFair(m: Manager, g: string, tenants: map<string, Tenant>, lsi0: seq<LowRule>)
    requires Plain(m, tenants, lsi0) && g !in tenants && Unused(m.state.node, RuleName(g, "1"))
    ensures WireRequest(g).Fair(m) && Allocated(m, WireRequest(g), map[])
  {
    var d' := WireRequest(g).Node'(m, map[]);
    assert Required([Datapath.WIRE]) == {} && LinksFor({}) == 0;
    WireAfter(m, g, tenants, lsi0);
    OneNewName(m.state.node, d', g, Datapath.WIRE);
    WirePorts(m.state.node, d', g);
  }

  lemma PlainAfter(c: GoodCreation, t: Tenant, l: LowRule, tenants: map<string, Tenant>, lsi0: seq<LowRule>)
    requires Plain(c.m, tenants, lsi0) && c.r.internals == []
    requires c.r.Node'(c.m, c.vlinks) == Node(PORTS, map[], tenants[c.r.g := t], lsi0 + [l])
    ensures Plain(c.After(), tenants[c.r.g := t], lsi0 + [l])
  {
    NewGraphSteady(c);
  }

  /** Such a graph can be created. */
  lemma Create(m: Manager, r: Request, vlinks: map<LinkName, nat>, t: Tenant, l: LowRule, tenants: map<string, Tenant>,
      lsi0: seq<LowRule>) returns (m': Manager)
    requires Plain(m, tenants, lsi0) && r.internals == [] && r.Fair(m) && Allocated(m, r, vlinks)
    requires r.Node'(m, vlinks) == Node(PORTS, map[], tenants[r.g := t], lsi0 + [l])
    ensures Runs.Next(m, m', r.g) && Plain(m', tenants[r.g := t], lsi0 + [l])
  {
    var c := MakeCreation(m, r, vlinks);
    CreationIsNext(c);
    PlainAfter(c, t, l, tenants, lsi0);
    m' := c.After();
  }

  lemma CreateWire(m: Manager, g: string, tenants: map<string, Tenant>, lsi0: seq<LowRule>) returns (m': Manager)
    requires Plain(m, tenants, lsi0) && g !in tenants && Unused(m.state.node, RuleName(g, "1"))
    ensures Runs.Next(m, m', g) && Plain(m', tenants[g := WIRED], lsi0 + [WireRule(g)])
  {
    WireFair(m, g, tenants, lsi0);
    WireAfter(m, g, tenants, lsi0);
    m' := Create(m, WireRequest(g), map[], WIRED, WireRule(g), tenants, lsi0);
  }

  lemma OwnWire(m: Manager, g: string, tenants: map<string, Tenant>, l: LowRule, rest: seq<LowRule>)
    requires Plain(m, tenants, [l] + rest) && g in tenants && tenants[g] == WIRED
    requires LowGraph.SameFlow(l, WireRule(g))
    ensures LowGraph.Minus(m.state.node.lsi0, Own(m.state.node, g)) == Some(rest)
  {
    WireLowered(g);
    assert Own(m.state.node, g) == [WireRule(g)] && [WireRule(g)][1..] == [];
    assert LowGraph.IndexOf([l] + rest, WireRule(g)) == 0;
    assert Erase([l] + rest, 0) == rest;
  }

  /** Deleting the graph takes the first equal wire out of the list. */
  lemma DeleteWire(m: Manager, g: string, tenants: map<string, Tenant>, l: LowRule, rest: seq<LowRule>)
      returns (m': Manager)
    requires Plain(m, tenants, [l] + rest) && g in tenants && tenants[g] == WIRED
    requires LowGraph.SameFlow(l, WireRule(g))
    ensures Runs.Next(m, m', g) && Plain(m', tenants - {g}, rest)
  {
    OwnWire(m, g, tenants, l, rest);
    m' := DeletedManager(m, g).value;
    DeleteSteady(m, g);
  }

  // ----- graphs with a function -----

  function Relay(out: string): Rule {
    Rule("1", Match(NfPort("f", 1), ""), Action(Port(out), []), 1)
  }

  function RelayLsi(out: string, id: nat): LsiState {
    LsiState(map["f" := map[NfPortName("f", 1) := 1]], {}, map[], [VLink(id, 2, 9)], map[LinkName(Ports, out) := id])
  }

  /** All that the function sends goes up the link, which ends at port 9 of LSI-0. */
  const RELAY_HALF := LowRule("1", LowMatch(Some(1), Some("")), Output(2, []), 1)

  function Relayed(out: string, id: nat): Tenant {
    Tenant([Relay(out)], RelayLsi(out, id), [RELAY_HALF])
  }

  function RelayRequest(g: string, out: string): Request {
    Request(g, [Relay(out)], [], map["f" := map[NfPortName("f", 1) := 1]], map[], [(2, 9)], [])
  }

  function RelayRule(g: string, out: string): LowRule
    requires out in PORTS
  {
    LowRule(RuleName(g, "1"), LowMatch(Some(9), None), Output(PORTS[out], []), 1)
  }

  lemma RelayLink(out: string, id: nat)
    ensures Link(RelayLsi(out, id), Port(out)) == Some(VLink(id, 2, 9))
  {
  }

  lemma RelayLowered(g: string, out: string, id: nat)
    requires out in PORTS
    ensures Lowered([Relay(out)], Lower0(g, RelayLsi(out, id), PORTS, map[])) == [RelayRule(g, out)]
    ensures Lowered([Relay(out)], LowerT(RelayLsi(out, id))) == [RELAY_HALF]
  {
    RelayLink(out, id);
    assert [Relay(out)][..0] == [];
  }

  lemma RelayNeeds(out: string)
    ensures Required([Relay(out)]) == {LinkName(Ports, out)} && LinksFor(Required([Relay(out)])) == 1
  {
    var names := Required([Relay(out)]);
    assert Relay(out) in [Relay(out)];
    assert names == {LinkName(Ports, out)};
    assert OfKind(names, Nfs) == {} && OfKind(names, Gres) == {} && OfKind(names, Internals) == {};
    assert OfKind(names, Ports) == {LinkName(Ports, out)};
  }

  lemma RelayAfter(m: Manager, g: string, out: string, tenants: map<string, Tenant>, lsi0: seq<LowRule>)
    requires Plain(m, tenants, lsi0) && out in PORTS
    ensures var id := m.state.nextId;
      RelayRequest(g, out).Node'(m, map[LinkName(Ports, out) := id]) ==
      Node(PORTS, map[], tenants[g := Relayed(out, id)], lsi0 + [RelayRule(g, out)])
  {
    var id := m.state.nextId;
    assert Fresh(id, [(2, 9)]) == [VLink(id, 2, 9)];
    assert RelayRequest(g, out).Lsi(id, map[LinkName(Ports, out) := id]) == RelayLsi(out, id);
    RelayLowered(g, out, id);
  }

  lemma RelayTenantPorts(lsi: LsiState, out: string, id: nat)
    requires lsi == RelayLsi(out, id).(vlinks := lsi.vlinks)
    ensures TenantPortsDistinct(lsi) && NfSwitchPort(lsi, "f", 1) == Some(1)
  {
    forall x, number | HasTenantPort(lsi, x, number)
      ensures (x == OfNf("f", 1) && number == 1) || (x == OfLink(id) && number == 2)
    {
      if x.OfNf? {
        NfPortNameInjective("f", 1, "f", x.port);
      }
    }
  }

  /** Port 9 is not in use. */
  ghost predicate Free(d: Node) {
    forall x :: !HasLsi0Port(d, x, 9)
  }

  lemma RelayPorts(d: Node, d': Node, g: string, id: nat)
    requires Lsi0PortsDistinct(d) && Free(d) && d'.physical == d.physical && d'.connections == d.connections
    requires g !in d.tenants && g in d'.tenants && d'.tenants == d.tenants[g := d'.tenants[g]]
    requires d'.tenants[g].lsi.virtualLinks == [VLink(id, 2, 9)]
    ensures Lsi0PortsDistinct(d')
  {
    forall x, number | HasLsi0Port(d', x, number)
      ensures HasLsi0Port(d, x, number) || (x == LinkEnd(g, id) && number == 9)
    {
    }
  }

  lemma RelayAllocated(m: Manager, g: string, out: string)
    ensures Allocated(m, RelayRequest(g, out), map[LinkName(Ports, out) := m.state.nextId])
  {
    var id := m.state.nextId;
    RelayNeeds(out);
    assert Fresh(id, [(2, 9)]) == [VLink(id, 2, 9)];
    assert map[LinkName(Ports, out) := id].Keys == {LinkName(Ports, out)};
    assert LinkName(Ports, out) in map[LinkName(Ports, out) := id];
  }

  lemma RelayUnnamed(m: Manager, g: string, out: string, tenants: map<string, Tenant>, lsi0: seq<LowRule>)
      returns (t: Tenant)
    requires Plain(m, tenants, lsi0)
    ensures t.rules == [Relay(out)] && t.lsi == RelayLsi(out, m.state.nextId).(vlinks := map[])
    ensures var d' := RelayRequest(g, out).Node'(m, map[]);
      d'.physical == PORTS && d'.connections == map[] && d'.tenants == tenants[g := t]
  {
    t := RelayRequest(g, out).Node'(m, map[]).tenants[g];
    assert Fresh(m.state.nextId, [(2, 9)]) == [VLink(m.state.nextId, 2, 9)];
  }

  lemma RelayFair(m: Manager, g: string, out: string, tenants: map<string, Tenant>, lsi0: seq<LowRule>)
    requires Plain(m, tenants, lsi0) && g !in tenants && Unused(m.state.node, RuleName(g, "1"))
    requires out in PORTS && Free(m.state.node)
    ensures RelayRequest(g, out).Fair(m)
  {
    var d' := RelayRequest(g, out).Node'(m, map[]);
    RelayNeeds(out);
    var t := RelayUnnamed(m, g, out, tenants, lsi0);
    RelayTenantPorts(t.lsi, out, m.state.nextId);
    OneNewName(m.state.node, d', g, Relay(out));
    RelayPorts(m.state.node, d', g, m.state.nextId);
  }

  lemma CreateRelay(m: Manager, g: string, out: string, tenants: map<string, Tenant>, lsi0: seq<LowRule>)
      returns (m': Manager)
    requires Plain(m, tenants, lsi0) && g !in tenants && Unused(m.state.node, RuleName(g, "1"))
    requires out in PORTS && Free(m.state.node)
    ensures Runs.Next(m, m', g)
    ensures Plain(m', tenants[g := Relayed(out, m.state.nextId)], lsi0 + [RelayRule(g, out)])
  {
    var id := m.state.nextId;
    RelayFair(m, g, out, tenants, lsi0);
    RelayAllocated(m, g, out);
    RelayAfter(m, g, out, tenants, lsi0);
    m' := Create(m, RelayRequest(g, out), map[LinkName(Ports, out) := id], Relayed(out, id), RelayRule(g, out), tenants,
      lsi0);
  }

  // ----- an update that takes the only rule away -----

  const CLEARED := Tenant([], LsiState(map["f" := map[NfPortName("f", 1) := 1]], {}, map[], [], map[]), [])

  function ClearPlan(g: string, out: string, id: nat, nextId: nat): Plan {
    Plan(g, [], Change(map[], map[], {}, {}), Links(RelayLsi(out, id).virtualLinks, RelayLsi(out, id).vlinks),
         Links([], map[]), nextId)
  }

  lemma ClearRemoves(h: Rule)
    ensures Removed([h], []) == [h]
  {
    assert [h] + Missing([h], []) == [h];
    MissingMembers([], [h]);
    SingleRule(Missing([], [h]), h);
  }

  lemma ClearLeaves(h: Rule)
    ensures Merged([h], []) == []
  {
    var merged := Merged([h], []);
    assert merged != [] ==> merged[0] in merged;
    MergedMembers([h], []);
  }

  lemma ClearDiff(h: Rule)
    ensures Added([h], []) == [] && Removed([h], []) == [h] && Merged([h], []) == []
  {
    ClearRemoves(h);
    ClearLeaves(h);
  }

  lemma ClearAfter(m: Manager, g: string, out: string, id: nat, tenants: map<string, Tenant>, lsi0: seq<LowRule>)
    requires Plain(m, tenants, lsi0) && g in tenants && tenants[g] == Relayed(out, id)
    ensures ClearPlan(g, out, id, m.state.nextId).Node'(m.state.node) ==
      Node(PORTS, map[], tenants[g := CLEARED], LowGraph.WithoutId(lsi0, RuleName(g, "1")))
  {
    var p := ClearPlan(g, out, id, m.state.nextId);
    ClearDiff(Relay(out));
    assert p.change.Done(RelayLsi(out, id), p.now) == CLEARED.lsi;
    assert Ids([Relay(out)]) == ["1"] && Lsi0Ids(g, [Relay(out)]) == [RuleName(g, "1")];
    WithoutOne(lsi0, RuleName(g, "1"));
    WithoutOne([RELAY_HALF], "1");
    assert LowGraph.WithoutId([RELAY_HALF], "1") == [];
  }

  lemma ClearAdded(links: Links, h: Rule, nextId: nat)
    requires Tidy(links.links, links.vlinks, nextId) && forall a :: a in links.vlinks <==> a in Required([h])
    ensures LinksAdded(links, links, [h], [], nextId, nextId)
  {
    ClearDiff(h);
    assert Required([]) == {};
  }

  lemma ClearDropped(links: Links, h: Rule, nextId: nat)
    requires forall a :: a in links.vlinks <==> a in Required([h])
    ensures LinksDropped(links, Links([], map[]), [h], [], nextId)
  {
    ClearDiff(h);
    assert Required([]) == {};
    assert NamesOf([h])[0] == h.To().Key();
  }

  lemma ClearCarried(m: Manager, g: string, out: string, id: nat, tenants: map<string, Tenant>, lsi0: seq<LowRule>)
    requires Plain(m, tenants, lsi0) && g in tenants && tenants[g] == Relayed(out, id)
    ensures ClearPlan(g, out, id, m.state.nextId).Carried(m.state)
  {
    var links := Links(RelayLsi(out, id).virtualLinks, RelayLsi(out, id).vlinks);
    assert Settled(m.state.node, g, m.state.nextId);
    ClearAdded(links, Relay(out), m.state.nextId);
    ClearDropped(links, Relay(out), m.state.nextId);
  }

  lemma ClearFair(m: Manager, g: string, out: string, id: nat, tenants: map<string, Tenant>, lsi0: seq<LowRule>)
    requires Plain(m, tenants, lsi0) && g in tenants && tenants[g] == Relayed(out, id)
    ensures ClearPlan(g, out, id, m.state.nextId).Fair(m.state.node)
  {
    var d, p := m.state.node, ClearPlan(g, out, id, m.state.nextId);
    assert Settled(d, g, m.state.nextId);
    ClearAfter(m, g, out, id, tenants, lsi0);
    assert p.change.Attached(RelayLsi(out, id), p.grown) == RelayLsi(out, id);
    SameLsi0Ports(d, g, RelayLsi(out, id));
    forall g', h | Holds(p.Node'(d), g', h)
      ensures Holds(d, g', h)
    {
    }
  }

  lemma ClearGood(m: Manager, g: string, out: string, id: nat, tenants: map<string, Tenant>, lsi0: seq<LowRule>)
      returns (u: GoodRenewal)
    requires Plain(m, tenants, lsi0) && g in tenants && tenants[g] == Relayed(out, id)
    ensures u == Renewal(m, ClearPlan(g, out, id, m.state.nextId))
  {
    ClearFair(m, g, out, id, tenants, lsi0);
    ClearCarried(m, g, out, id, tenants, lsi0);
    u := Renewal(m, ClearPlan(g, out, id, m.state.nextId));
  }

  /** The link goes, and with it the first rule of the name, whichever it is. */
  lemma Clear(m: Manager, g: string, out: string, id: nat, tenants: map<string, Tenant>, lsi0: seq<LowRule>)
      returns (m': Manager)
    requires Plain(m, tenants, lsi0) && g in tenants && tenants[g] == Relayed(out, id)
    ensures Runs.Next(m, m', g) && Plain(m', tenants[g := CLEARED], LowGraph.WithoutId(lsi0, RuleName(g, "1")))
  {
    var u := ClearGood(m, g, out, id, tenants, lsi0);
    UpdateIsNext(u);
    UpdateSteady(u);
    ClearAfter(m, g, out, id, tenants, lsi0);
    m' := u.After();
  }

  // ----- what becomes of a packet -----

  ghost predicate Sending(d: Node, g: string, out: string, id: nat) {
    && d.physical == PORTS && Lsi0PortsDistinct(d) && g in d.tenants && d.tenants[g] == Relayed(out, id)
    && TenantPortsDistinct(d.tenants[g].lsi)
  }

  /** The function's packet arrives at port 9 of LSI-0, and nowhere else. */
  lemma FirstStep(d: Node, sem: Semantics, g: string, out: string, id: nat, packet: Packet, s: Stage)
    requires Sending(d, g, out, id) && sem.accepts("", packet)
    ensures Step(d, sem, OnTenant(g, 1), packet, s) <==> s == Moved(OnLsi0(9), packet)
  {
    var lsi := d.tenants[g].lsi;
    assert VLink(id, 2, 9) in lsi.virtualLinks && HasTenantPort(lsi, OfLink(id), 2);
    assert Forwarding.Wired(d, OnTenant(g, 1), 2, Enters(OnLsi0(9)));
    assert Hit(sem, [RELAY_HALF], 1, packet, RELAY_HALF) && Selected(sem, [RELAY_HALF], 1, packet, RELAY_HALF);
    forall x | Forwarding.Wired(d, OnTenant(g, 1), 2, x)
      ensures x == Enters(OnLsi0(9))
    {
    }
    assert Lands(d, OnTenant(g, 1), 2, packet, s) <==> s == Moved(OnLsi0(9), packet);
    assert Executes(d, sem, OnTenant(g, 1), packet, RELAY_HALF, s) <==> Lands(d, OnTenant(g, 1), 2, packet, s);
  }

  /** What a rule of LSI-0 sends out of a physical port leaves there, and nowhere else. */
  lemma LeavesAt(d: Node, pos: Position, out: string, packet: Packet, s: Stage)
    requires d.physical == PORTS && Lsi0PortsDistinct(d) && pos.OnLsi0? && out in PORTS
    ensures Lands(d, pos, PORTS[out], packet, s) <==> s == Done(Deliver(AtPort(out), packet))
  {
    assert HasLsi0Port(d, Phys(out), PORTS[out]);
    assert Forwarding.Wired(d, pos, PORTS[out], Leaves(AtPort(out)));
    forall x | Forwarding.Wired(d, pos, PORTS[out], x)
      ensures x == Leaves(AtPort(out))
    {
      if x.Enters? && x.pos.OnTenant? {
        var v :| v in d.tenants[x.pos.graph].lsi.virtualLinks && v.remoteId == PORTS[out];
        assert HasLsi0Port(d, LinkEnd(x.pos.graph, v.id), PORTS[out]);
      }
    }
  }

  /** What a rule for port 9 makes of it is a fate of the packet. */
  lemma Reaches(d: Node, sem: Semantics, g: string, out: string, id: nat, packet: Packet, l: LowRule, to: string)
    requires Sending(d, g, out, id) && sem.accepts("", packet) && to in PORTS && l == RelayRule(l.id, to).(id := l.id)
    requires Selected(sem, d.lsi0, 9, packet, l)
    ensures Walk(d, sem, 2, OnTenant(g, 1), packet, Deliver(AtPort(to), packet))
  {
    var s := Done(Deliver(AtPort(to), packet));
    FirstStep(d, sem, g, out, id, packet, Moved(OnLsi0(9), packet));
    LeavesAt(d, OnLsi0(9), to, packet, s);
    assert Executes(d, sem, OnLsi0(9), packet, l, s);
    assert Step(d, sem, OnLsi0(9), packet, s);
    assert Walk(d, sem, 1, OnLsi0(9), packet, Deliver(AtPort(to), packet));
  }

  /** If there is only one, it is the only fate. */
  lemma OnlyReaches(d: Node, sem: Semantics, g: string, out: string, id: nat, packet: Packet, v: Verdict)
    requires Sending(d, g, out, id) && sem.accepts("", packet) && out in PORTS && d.lsi0 == [RelayRule(g, out)]
    ensures Walk(d, sem, 2, OnTenant(g, 1), packet, v) <==> v == Deliver(AtPort(out), packet)
  {
    var l := RelayRule(g, out);
    assert Hit(sem, d.lsi0, 9, packet, l) && Selected(sem, d.lsi0, 9, packet, l);
    Reaches(d, sem, g, out, id, packet, l, out);
    forall s
      ensures Step(d, sem, OnTenant(g, 1), packet, s) <==> s == Moved(OnLsi0(9), packet)
      ensures Step(d, sem, OnLsi0(9), packet, s) ==> s == Done(Deliver(AtPort(out), packet))
    {
      FirstStep(d, sem, g, out, id, packet, s);
      LeavesAt(d, OnLsi0(9), out, packet, s);
    }
  }

  // ----- the run -----

  lemma NamesDiffer(g: string, g': string)
    requires |g| == |g'| == 1 && g != g'
    ensures RuleName(g, "1") != RuleName(g', "1")
  {
    assert RuleName(g, "1")[0] == g[0] && RuleName(g', "1")[0] == g'[0];
  }

  const START := Manager(State(Node(PORTS, map[], map[], []), 0), NO_GROUPS, map[])
  const ONE := map["a" := WIRED]
  const TWO := ONE["b" := CLEARED]
  const CAUGHT := [RelayRule("b", "q")] + [RelayRule("c", "p")]

  lemma StartPlain()
    ensures Plain(START, map[], [])
  {
    NoneCounted();
  }

  /** The lists of LSI-0 along the run. */
  lemma Lists()
    ensures [] + [WireRule("a")] == [WireRule("a")]
    ensures LowGraph.WithoutId([WireRule("b")] + [RelayRule("b", "q")], RuleName("b", "1")) == [RelayRule("b", "q")]
    ensures LowGraph.WithoutId(CAUGHT, RuleName("b", "1")) == [RelayRule("c", "p")]
  {
    NamesDiffer("b", "c");
  }

  /** The graphs along the run. */
  lemma Graphs(t: Tenant)
    ensures map[]["a" := WIRED] == ONE && ONE["b" := WIRED] - {"b"} == ONE && ONE["b" := t]["b" := CLEARED] == TWO
  {
  }

  /** Some run from the empty node ends here. */
  ghost predicate Reached(m: Manager) {
    Traces.Reachable(Runs.Next, START, m)
  }

  lemma ReachedNext(m: Manager, m': Manager, g: string)
    requires Reached(m) && Runs.Next(m, m', g)
    ensures Reached(m')
  {
    Traces.ReachableNext(Runs.Next, START, m, m', g);
  }

  lemma WireFirst() returns (m: Manager)
    ensures Reached(m) && Plain(m, ONE, [WireRule("a")])
  {
    StartPlain();
    Lists();
    Graphs(WIRED);
    m := CreateWire(START, "a", map[], []);
    Traces.ReachableSelf(Runs.Next, START);
    ReachedNext(START, m, "a");
  }

  lemma WireSecond() returns (m: Manager)
    ensures Reached(m) && Plain(m, ONE["b" := WIRED], [WireRule("a")] + [WireRule("b")])
  {
    var m0 := WireFirst();
    NamesDiffer("a", "b");
    m := CreateWire(m0, "b", ONE, [WireRule("a")]);
    ReachedNext(m0, m, "b");
  }

  /** Of two graphs with the same wire, deleting the second takes the rule of the first and leaves its own. */
  lemma LeaveWire() returns (m: Manager)
    ensures Reached(m) && Plain(m, ONE, [WireRule("b")])
  {
    var m0 := WireSecond();
    Graphs(WIRED);
    m := DeleteWire(m0, "b", ONE["b" := WIRED], WireRule("a"), [WireRule("b")]);
    ReachedNext(m0, m, "b");
  }

  lemma ComeBack() returns (m: Manager, id: nat)
    ensures Reached(m) && Plain(m, ONE["b" := Relayed("q", id)], [WireRule("b")] + [RelayRule("b", "q")])
  {
    var m0 := LeaveWire();
    NamesDiffer("a", "b");
    m := CreateRelay(m0, "b", "q", ONE, [WireRule("b")]);
    id := m0.state.nextId;
    ReachedNext(m0, m, "b");
  }

  /** The graph comes back with another rule of the same name: taking that away takes the old wire, and
      leaves the rule for a link that is gone. */
  lemma LeaveRelay() returns (m: Manager)
    ensures Reached(m) && Plain(m, TWO, [RelayRule("b", "q")])
  {
    var m0, id := ComeBack();
    Lists();
    Graphs(Relayed("q", id));
    m := Clear(m0, "b", "q", id, ONE["b" := Relayed("q", id)], [WireRule("b")] + [RelayRule("b", "q")]);
    ReachedNext(m0, m, "b");
  }

  /** A third graph is given the same port: the rule left there applies to its packets. */
  lemma Catch() returns (m: Manager, id: nat)
    ensures Reached(m) && Plain(m, TWO["c" := Relayed("p", id)], CAUGHT)
  {
    var m0 := LeaveRelay();
    NamesDiffer("a", "c");
    m := CreateRelay(m0, "c", "p", TWO, [RelayRule("b", "q")]);
    id := m0.state.nextId;
    ReachedNext(m0, m, "c");
  }

  lemma TakenUnused(m: Manager, id: nat)
    requires Plain(m, TWO["c" := Relayed("p", id)], CAUGHT)
    ensures Unused(m.state.node, RuleName("b", "1"))
  {
    NamesDiffer("a", "b");
    NamesDiffer("c", "b");
  }

  /** The second graph gets a rule of that name and gives it up again. */
  lemma Release(m: Manager, id: nat) returns (ms: seq<Manager>, gs: seq<string>)
    requires Plain(m, TWO["c" := Relayed("p", id)], CAUGHT)
    ensures RunPast(ms, gs, m, "c") && ms[|gs|].state.node.lsi0 == [RelayRule("c", "p")]
  {
    TakenUnused(m, id);
    var h;
    ms, gs, h := Take(m, "c", "b", "1");
    RunSteady(ms, gs, |gs|);
    var m' := GiveUpName(ms[|gs|], "b", h);
    OneMoreStep(ms, gs, m, "c", m', "b");
    Lists();
    ms, gs := ms + [m'], gs + ["b"];
  }

  lemma CaughtSelects(sem: Semantics, packet: Packet)
    ensures Selected(sem, CAUGHT, 9, packet, RelayRule("b", "q"))
  {
    assert RelayRule("b", "q") in CAUGHT;
  }

  lemma CaughtSends(m: Manager, id: nat, sem: Semantics, packet: Packet)
    requires Plain(m, TWO["c" := Relayed("p", id)], CAUGHT) && sem.accepts("", packet)
    ensures Sending(m.state.node, "c", "p", id)
    ensures Walk(m.state.node, sem, 2, OnTenant("c", 1), packet, Deliver(AtPort("q"), packet))
  {
    assert Settled(m.state.node, "c", m.state.nextId);
    CaughtSelects(sem, packet);
    Reaches(m.state.node, sem, "c", "p", id, packet, RelayRule("b", "q"), "q");
  }

  lemma ReleasedSends(m: Manager, d: Node, id: nat, sem: Semantics, packet: Packet)
    requires Steady(m) && Sending(d, "c", "p", id) && SameFor(d, m.state.node, "c") && sem.accepts("", packet)
    requires m.state.node.lsi0 == [RelayRule("c", "p")]
    ensures !Walk(m.state.node, sem, 2, OnTenant("c", 1), packet, Deliver(AtPort("q"), packet))
  {
    OnlyReaches(m.state.node, sem, "c", "p", id, packet, Deliver(AtPort("q"), packet));
  }

  lemma CaughtNotOwn(m: Manager, id: nat)
    requires Plain(m, TWO["c" := Relayed("p", id)], CAUGHT)
    ensures !LinksOwn(m.state.node, "c")
  {
    var d, l := m.state.node, RelayRule("b", "q");
    assert VLink(id, 2, 9) in d.tenants["c"].lsi.virtualLinks;
    assert l in d.lsi0 && AtLinkOf(d, "c", l);
    NamesDiffer("b", "c");
    forall h
      ensures !FromRule(d, "c", h, l)
    {
      if FromRule(d, "c", h, l) {
        FromRuleName(d, "c", h, l);
      }
    }
  }

  /** Without the condition on the links isolation fails: a run from the empty node reaches a state in which
      a packet of graph "c" can leave by a port "c" never named, and operations on another graph change that. */
  lemma DiversionExample(sem: Semantics, packet: Packet) returns (m: Manager, ms: seq<Manager>, gs: seq<string>)
    requires sem.accepts("", packet)
    ensures Reached(m) && Steady(m) && !LinksOwn(m.state.node, "c") && RunPast(ms, gs, m, "c")
    ensures Walk(m.state.node, sem, 2, OnTenant("c", 1), packet, Deliver(AtPort("q"), packet))
    ensures !Walk(ms[|gs|].state.node, sem, 2, OnTenant("c", 1), packet, Deliver(AtPort("q"), packet))
  {
    var id;
    m, id := Catch();
    CaughtSends(m, id, sem, packet);
    CaughtNotOwn(m, id);
    ms, gs := Release(m, id);
    RunSteady(ms, gs, |gs|);
    RunOthers(ms, gs, "c");
    ReleasedSends(ms[|gs|], m.state.node, id, sem, packet);
  }
}

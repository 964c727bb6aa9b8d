/** The node as a whole forwards every packet as the big switches of its graphs would. */
module Forwarding {
  import opened HighLevel
  import opened FlowTable
  import opened Lsis
  import opened Names
  import opened Options
  import opened Translator

  datatype Tenant = Tenant(rules: seq<Rule>, lsi: LsiState, table: seq<LowRule>)
  datatype Node = Node(physical: map<string, nat>, connections: Connections, tenants: map<string, Tenant>,
                       lsi0: seq<LowRule>)

  // ----- the specification: one big switch per graph, sharing the physical ports -----

  datatype Location =
    | AtPort(name: string)
    | AtNf(graph: string, nf: string, port: nat)
    | AtGre(graph: string, id: string)
    | AtInternal(graph: string, group: string)

  function Where(graph: string, e: Endpoint): Location {
    match e
    case Port(name) => AtPort(name)
    case NfPort(nf, port) => AtNf(graph, nf, port)
    case Gre(id) => AtGre(graph, id)
    case Internal(group) => AtInternal(graph, group)
  }

  datatype Verdict = Drop | Deliver(at: Location, packet: Packet)

  ghost predicate Listens(d: Node, sem: Semantics, at: Location, packet: Packet, g: string, h: Rule) {
    && g in d.tenants && h in d.tenants[g].rules
    && Where(g, h.On()) == at && sem.accepts(h.pattern.fields, packet)
  }

  ghost predicate Wins(d: Node, sem: Semantics, at: Location, packet: Packet, g: string, h: Rule) {
    && Listens(d, sem, at, packet, g, h)
    && forall g', h' :: Listens(d, sem, at, packet, g', h') ==> h'.priority <= h.priority
  }

  /** `v` is a possible fate of a packet entering at `at`. */
  ghost predicate BigSwitch(d: Node, sem: Semantics, at: Location, packet: Packet, v: Verdict) {
    if v.Drop? then
      !exists g, h :: Listens(d, sem, at, packet, g, h)
    else
      exists g, h :: Wins(d, sem, at, packet, g, h) &&
        v == Deliver(Where(g, h.To()), Apply(sem, h.action.generic, packet))
  }

  // ----- the implementation: LSI-0 and the tenant LSIs, chained by virtual links -----

  /** What hangs on a port of LSI-0. */
  datatype Lsi0Port = Phys(name: string) | Conn(group: string, graph: string) | LinkEnd(graph: string, link: nat)

  ghost predicate HasLsi0Port(d: Node, x: Lsi0Port, number: nat) {
    match x
    case Phys(name) => name in d.physical && d.physical[name] == number
    case Conn(group, g) => group in d.connections && g in d.connections[group] && d.connections[group][g] == number
    case LinkEnd(g, id) =>
      g in d.tenants && exists v :: v in d.tenants[g].lsi.virtualLinks && v.id == id && v.remoteId == number
  }

  ghost predicate Lsi0PortsDistinct(d: Node) {
    forall x, y, number :: HasLsi0Port(d, x, number) && HasLsi0Port(d, y, number) ==> x == y
  }

  datatype Position = OnLsi0(port: nat) | OnTenant(graph: string, port: nat)
  datatype Exit = Leaves(at: Location) | Enters(pos: Position)

  /** Where a packet sent out of a port goes: out of the node, or over a link into another LSI. */
  ghost predicate Wired(d: Node, pos: Position, out: nat, x: Exit) {
    match (pos, x)
    case (OnLsi0(_), Leaves(AtPort(name))) => HasLsi0Port(d, Phys(name), out)
    case (OnLsi0(_), Leaves(AtInternal(g, group))) => HasLsi0Port(d, Conn(group, g), out)
    case (OnLsi0(_), Enters(OnTenant(g, port))) =>
      g in d.tenants && exists v :: v in d.tenants[g].lsi.virtualLinks && v.remoteId == out && v.localId == port
    case (OnTenant(g, _), Leaves(AtNf(g', nf, port))) =>
      g == g' && g in d.tenants && HasTenantPort(d.tenants[g].lsi, OfNf(nf, port), out)
    case (OnTenant(g, _), Leaves(AtGre(g', id))) =>
      g == g' && g in d.tenants && HasTenantPort(d.tenants[g].lsi, OfGre(id), out)
    case (OnTenant(g, _), Enters(OnLsi0(port))) =>
      g in d.tenants && exists v :: v in d.tenants[g].lsi.virtualLinks && v.localId == out && v.remoteId == port
    case _ => false
  }

  function TableAt(d: Node, pos: Position): seq<LowRule> {
    match pos
    case OnLsi0(_) => d.lsi0
    case OnTenant(g, _) => if g in d.tenants then d.tenants[g].table else []
  }

  datatype Stage = Done(verdict: Verdict) | Moved(pos: Position, packet: Packet)

  /** What becomes of a packet sent out of a port. */
  ghost predicate Lands(d: Node, pos: Position, out: nat, packet: Packet, s: Stage) {
    if !exists x :: Wired(d, pos, out, x) then
      s == Done(Drop)
    else
      exists x :: Wired(d, pos, out, x) && s == if x.Leaves? then Done(Deliver(x.at, packet)) else Moved(x.pos, packet)
  }

  ghost predicate Executes(d: Node, sem: Semantics, pos: Position, packet: Packet, l: LowRule, s: Stage) {
    && Selected(sem, TableAt(d, pos), pos.port, packet, l) && l.action.Output?
    && Lands(d, pos, l.action.port, Apply(sem, l.action.generic, packet), s)
  }

  /** One table lookup. */
  ghost predicate Step(d: Node, sem: Semantics, pos: Position, packet: Packet, s: Stage) {
    if !exists l :: Hit(sem, TableAt(d, pos), pos.port, packet, l) then s == Done(Drop)
    else exists l :: Executes(d, sem, pos, packet, l, s)
  }

  /** `v` is a possible fate, settled within `hops` lookups, of a packet at `pos`. */
  ghost predicate Walk(d: Node, sem: Semantics, hops: nat, pos: Position, packet: Packet, v: Verdict) {
    && hops > 0
    && exists s :: Step(d, sem, pos, packet, s) &&
         if s.Done? then v == s.verdict else Walk(d, sem, hops - 1, s.pos, s.packet, v)
  }

  /** Packets coming in at a location show up on this port. */
  ghost predicate Ingress(d: Node, at: Location, pos: Position) {
    match (at, pos)
    case (AtPort(name), OnLsi0(port)) => HasLsi0Port(d, Phys(name), port)
    case (AtInternal(g, group), OnLsi0(port)) => HasLsi0Port(d, Conn(group, g), port)
    case (AtNf(g, nf, k), OnTenant(g', port)) =>
      g == g' && g in d.tenants && HasTenantPort(d.tenants[g].lsi, OfNf(nf, k), port)
    case (AtGre(g, id), OnTenant(g', port)) =>
      g == g' && g in d.tenants && HasTenantPort(d.tenants[g].lsi, OfGre(id), port)
    case _ => false
  }

  // ----- when the two agree -----

  /** Pairs neither translation rejects. */
  predicate Translatable(h: Rule) {
    && !(h.On().Gre? && h.To().Gre?)
    && !(h.On().Internal? && (h.To().Port? || h.To().Internal?))
  }

  ghost predicate Attached(d: Node, g: string, e: Endpoint)
    requires g in d.tenants
  {
    var lsi := d.tenants[g].lsi;
    match e
    case Port(name) => name in d.physical
    case Internal(group) => group in d.connections && g in d.connections[group]
    case Gre(id) => id in lsi.greEndpoints && id in lsi.grePorts
    case NfPort(nf, port) => NfSwitchPort(lsi, nf, port).Some?
  }

  /** Packets can come in at every endpoint that is there. */
  lemma IngressOf(d: Node, g: string, e: Endpoint) returns (pos: Position)
    requires g in d.tenants && Attached(d, g, e)
    ensures Ingress(d, Where(g, e), pos) && (pos.OnTenant? <==> e.Inner())
  {
    match e
    case Port(name) => pos := OnLsi0(d.physical[name]);
    case Internal(group) => pos := OnLsi0(d.connections[group][g]);
    case NfPort(nf, port) => pos := OnTenant(g, NfSwitchPort(d.tenants[g].lsi, nf, port).value);
    case Gre(id) => pos := OnTenant(g, d.tenants[g].lsi.grePorts[id]);
  }

  /** The graph's endpoints exist and every crossing rule finds its virtual link. */
  ghost predicate Ready(d: Node, g: string)
    requires g in d.tenants
  {
    var t := d.tenants[g];
    && UniqueIds(t.lsi.virtualLinks) && OneNamePerDirection(t.lsi.vlinks) && TenantPortsDistinct(t.lsi)
    && forall h :: h in t.rules ==>
         && Translatable(h) && Attached(d, g, h.On()) && Attached(d, g, h.To())
         && (h.Crosses() ==> Link(t.lsi, h.To()).Some?)
  }

  function Half0(d: Node, g: string, h: Rule): Lowering
    requires g in d.tenants
  {
    LowerToLsi0(h, g, d.tenants[g].lsi, d.physical, d.connections)
  }

  ghost predicate FromRule(d: Node, g: string, h: Rule, l: LowRule) {
    g in d.tenants && h in d.tenants[g].rules && Half0(d, g, h) == Emit(l)
  }

  /** The installed rules are the translations of the deployed ones. */
  ghost predicate Compiled(d: Node) {
    && (forall l :: l in d.lsi0 ==> exists g, h :: FromRule(d, g, h, l))
    && (forall g, h :: g in d.tenants && h in d.tenants[g].rules && Half0(d, g, h).Emit? ==>
         Half0(d, g, h).rule in d.lsi0)
    && (forall g :: g in d.tenants ==> CompiledTenant(d.tenants[g]))
  }

  ghost predicate CompiledTenant(t: Tenant) {
    && (forall l :: l in t.table ==> exists h :: h in t.rules && LowerToTenant(h, t.lsi) == Emit(l))
    && (forall h :: h in t.rules && LowerToTenant(h, t.lsi).Emit? ==> LowerToTenant(h, t.lsi).rule in t.table)
  }

  /** Accepted by both translations and put in neither table. */
  predicate LostByBoth(h: Rule) {
    h.On().Port? && h.To().Internal?
  }

  /** Keeps its fields and generic actions in both halves. */
  predicate Rewriting(r: Rule) {
    r.On().Gre? && r.To().Port? && r.action.generic != []
  }

  /** A higher rule enters at the same place and accepts whatever has one of these fields. */
  ghost predicate Beaten(d: Node, at: Location, fields: set<Fields>, priority: nat) {
    exists g, h :: ComesIn(d, at, fields, g, h) && h.priority > priority
  }

  predicate ComesIn(d: Node, at: Location, fields: set<Fields>, g: string, h: Rule) {
    g in d.tenants && h in d.tenants[g].rules && Where(g, h.On()) == at && h.pattern.fields in fields
  }

  /** The rule can win and is put in neither table. */
  ghost predicate Lost(d: Node, g: string, h: Rule) {
    LostByBoth(h) && !Beaten(d, Where(g, h.On()), {h.pattern.fields}, h.priority)
  }

  /** Behind the link to `e`, this half takes whatever has one of these fields. */
  predicate Relays(rules: seq<Rule>, e: Endpoint, fields: set<Fields>, k: Rule) {
    k in rules && k.On().Inner() && k.To() == e && (k.On().NfPort? || k.pattern.fields in fields)
  }

  ghost predicate Relayed(rules: seq<Rule>, e: Endpoint, fields: set<Fields>) {
    exists k :: Relays(rules, e, fields, k)
  }

  ghost predicate Outranked(rules: seq<Rule>, r: Rule, fields: set<Fields>) {
    exists k :: Relays(rules, r.To(), fields, k) && k.priority > r.priority
  }

  /** The rule can win, and what it rewrites may look like nothing that is relayed. */
  ghost predicate Unrelayed(d: Node, g: string, h: Rule)
    requires g in d.tenants
  {
    && Rewriting(h) && !Beaten(d, Where(g, h.On()), {h.pattern.fields}, h.priority)
    && !Relayed(d.tenants[g].rules, h.To(), {})
  }

  /** The fields a packet of `h` may have at first and behind the link, where `r` takes it. */
  function Before(h: Rule, r: Rule): set<Fields> {
    if h.action.generic == [] then {h.pattern.fields, r.pattern.fields} else {h.pattern.fields}
  }

  function Behind(h: Rule, r: Rule): set<Fields> {
    if h.action.generic == [] then {h.pattern.fields, r.pattern.fields} else {r.pattern.fields}
  }

  /** The rule can win, and then its packet be rewritten again by the half of `r`. */
  ghost predicate Rewritten(d: Node, g: string, h: Rule, r: Rule)
    requires g in d.tenants
  {
    && h.On().Inner() && Rewriting(r) && r.To() == h.To() && r in d.tenants[g].rules
    && !Beaten(d, Where(g, h.On()), Before(h, r), h.priority) && !Outranked(d.tenants[g].rules, r, Behind(h, r))
  }

  /** The structural invariant of the node. */
  ghost predicate Deployed(d: Node) {
    && Lsi0PortsDistinct(d) && Compiled(d)
    && forall g :: g in d.tenants ==> Ready(d, g)
  }

  /** No rule that can win is lost, drops its packet behind a link, or has it rewritten again there. */
  ghost predicate Faithful(d: Node) {
    forall g, h :: g in d.tenants && h in d.tenants[g].rules ==> Served(d, g, h)
  }

  ghost predicate Served(d: Node, g: string, h: Rule)
    requires g in d.tenants
  {
    !Lost(d, g, h) && !Unrelayed(d, g, h) && forall r :: r in d.tenants[g].rules ==> !Rewritten(d, g, h, r)
  }

  /** The part of both that concerns the tenant LSI of one graph. */
  ghost predicate ReadyTenant(d: Node, g: string) {
    g in d.tenants && Ready(d, g) && CompiledTenant(d.tenants[g])
  }

  // ----- inverting the two translations -----

  function InPort0(d: Node, g: string, h: Rule): Lsi0Port
    requires g in d.tenants && (h.On().Inner() ==> Link(d.tenants[g].lsi, h.To()).Some?)
  {
    match h.On()
    case Port(name) => Phys(name)
    case Internal(group) => Conn(group, g)
    case _ => LinkEnd(g, Link(d.tenants[g].lsi, h.To()).value.id)
  }

  function OutPort0(d: Node, g: string, h: Rule): Lsi0Port
    requires g in d.tenants && (h.To().Inner() ==> Link(d.tenants[g].lsi, h.To()).Some?)
  {
    match h.To()
    case Port(name) => Phys(name)
    case Internal(group) => Conn(group, g)
    case _ => LinkEnd(g, Link(d.tenants[g].lsi, h.To()).value.id)
  }

  /** Everything the node proof needs to know about the LSI-0 half of a rule. */
  lemma Half0Shape(d: Node, g: string, h: Rule)
    requires g in d.tenants && Ready(d, g) && h in d.tenants[g].rules
    ensures Half0(d, g, h).Emit? == !(LostByBoth(h) || (h.On().Inner() && h.To().Inner()))
    ensures Half0(d, g, h).Emit? ==>
      var l := Half0(d, g, h).rule;
      && l.priority == h.priority && l.action.Output? && l.pattern.inPort.Some?
      && HasLsi0Port(d, InPort0(d, g, h), l.pattern.inPort.value)
      && HasLsi0Port(d, OutPort0(d, g, h), l.action.port)
      && (h.To().Inner() ==> l.action.port == Link(d.tenants[g].lsi, h.To()).value.remoteId)
      && l.pattern.fields == (if h.On().NfPort? || h.To().Internal? then None else Some(h.pattern.fields))
      && l.action.generic == (if h.On().NfPort? || h.To().Internal? then [] else h.action.generic)
  {
    if h.Crosses() {
      var v := Link(d.tenants[g].lsi, h.To()).value;
      assert v in d.tenants[g].lsi.virtualLinks;
    }
  }

  function InPortT(t: Tenant, h: Rule): TenantPort
    requires h.On().Inner() || Link(t.lsi, h.To()).Some?
  {
    match h.On()
    case NfPort(nf, port) => OfNf(nf, port)
    case Gre(id) => OfGre(id)
    case _ => OfLink(Link(t.lsi, h.To()).value.id)
  }

  function OutPortT(t: Tenant, h: Rule): TenantPort
    requires h.To().Inner() || Link(t.lsi, h.To()).Some?
  {
    match h.To()
    case NfPort(nf, port) => OfNf(nf, port)
    case Gre(id) => OfGre(id)
    case _ => OfLink(Link(t.lsi, h.To()).value.id)
  }

  lemma HalfTShape(d: Node, g: string, h: Rule)
    requires g in d.tenants && Ready(d, g) && h in d.tenants[g].rules
    ensures LowerToTenant(h, d.tenants[g].lsi).Emit? == (h.On().Inner() || h.To().Inner())
    ensures LowerToTenant(h, d.tenants[g].lsi).Emit? ==>
      var t := d.tenants[g];
      var l := LowerToTenant(h, t.lsi).rule;
      && l.priority == h.priority && l.action.Output? && l.pattern.inPort.Some?
      && HasTenantPort(t.lsi, InPortT(t, h), l.pattern.inPort.value)
      && HasTenantPort(t.lsi, OutPortT(t, h), l.action.port)
      && (!h.To().Inner() ==> l.action.port == Link(t.lsi, h.To()).value.localId)
      && l.pattern.fields == (if h.On().Inner() then Some(h.pattern.fields) else None)
      && l.action.generic == (if h.On().Inner() then h.action.generic else [])
  {
    if h.Crosses() {
      var v := Link(d.tenants[g].lsi, h.To()).value;
      assert v in d.tenants[g].lsi.virtualLinks;
    }
  }

  type DeployedNode = d: Node | Deployed(d) ghost witness EMPTY_NODE
  type SoundNode = d: DeployedNode | Faithful(d) ghost witness EMPTY_NODE

  const EMPTY_NODE := Node(map[], map[], map[], [])

  // ----- one hop: the exit of a port is determined by what hangs on it -----

  lemma LandsOutside(d: Node, pos: Position, g: string, e: Endpoint, out: nat, packet: Packet, s: Stage)
    requires pos.OnLsi0? && Lsi0PortsDistinct(d)
    requires (e.Port? && HasLsi0Port(d, Phys(e.name), out)) || (e.Internal? && HasLsi0Port(d, Conn(e.group, g), out))
    ensures Lands(d, pos, out, packet, s) <==> s == Done(Deliver(Where(g, e), packet))
  {
    var x := Leaves(Where(g, e));
    assert Wired(d, pos, out, x);
    forall y | Wired(d, pos, out, y)
      ensures y == x
    {
      if y.Enters? {
        var v :| v in d.tenants[y.pos.graph].lsi.virtualLinks && v.remoteId == out && v.localId == y.pos.port;
        assert HasLsi0Port(d, LinkEnd(y.pos.graph, v.id), out);
      }
    }
  }

  lemma LandsUp(d: DeployedNode, pos: Position, g: string, link: VLink, packet: Packet, s: Stage)
    requires pos.OnLsi0? && g in d.tenants && link in d.tenants[g].lsi.virtualLinks
    ensures Lands(d, pos, link.remoteId, packet, s) <==> s == Moved(OnTenant(g, link.localId), packet)
  {
    var out := link.remoteId;
    var x := Enters(OnTenant(g, link.localId));
    assert Wired(d, pos, out, x);
    assert HasLsi0Port(d, LinkEnd(g, link.id), out);
    forall y | Wired(d, pos, out, y)
      ensures y == x
    {
      if y.Enters? {
        var v :| v in d.tenants[y.pos.graph].lsi.virtualLinks && v.remoteId == out && v.localId == y.pos.port;
        assert HasLsi0Port(d, LinkEnd(y.pos.graph, v.id), out);
        assert Ready(d, g);
      }
    }
  }

  lemma LandsInside(d: DeployedNode, pos: Position, e: Endpoint, out: nat, packet: Packet, s: Stage)
    requires pos.OnTenant? && pos.graph in d.tenants
    requires var lsi := d.tenants[pos.graph].lsi;
      (e.NfPort? && HasTenantPort(lsi, OfNf(e.nf, e.port), out)) || (e.Gre? && HasTenantPort(lsi, OfGre(e.id), out))
    ensures Lands(d, pos, out, packet, s) <==> s == Done(Deliver(Where(pos.graph, e), packet))
  {
    var x := Leaves(Where(pos.graph, e));
    assert Wired(d, pos, out, x);
    assert Ready(d, pos.graph);
    forall y | Wired(d, pos, out, y)
      ensures y == x
    {
      if y.Enters? {
        var v :| v in d.tenants[pos.graph].lsi.virtualLinks && v.localId == out && v.remoteId == y.pos.port;
        assert HasTenantPort(d.tenants[pos.graph].lsi, OfLink(v.id), out);
      }
    }
  }

  lemma LandsDown(d: DeployedNode, pos: Position, link: VLink, packet: Packet, s: Stage)
    requires pos.OnTenant? && pos.graph in d.tenants && link in d.tenants[pos.graph].lsi.virtualLinks
    ensures Lands(d, pos, link.localId, packet, s) <==> s == Moved(OnLsi0(link.remoteId), packet)
  {
    var out := link.localId;
    var x := Enters(OnLsi0(link.remoteId));
    assert Wired(d, pos, out, x);
    assert Ready(d, pos.graph) && HasTenantPort(d.tenants[pos.graph].lsi, OfLink(link.id), out);
    forall y | Wired(d, pos, out, y)
      ensures y == x
    {
      if y.Enters? {
        var v :| v in d.tenants[pos.graph].lsi.virtualLinks && v.localId == out && v.remoteId == y.pos.port;
        assert HasTenantPort(d.tenants[pos.graph].lsi, OfLink(v.id), out);
      }
    }
  }

  /** If every rule that may be selected lands on the same stage, so does the lookup. */
  lemma StepSettles(d: Node, sem: Semantics, pos: Position, packet: Packet, s: Stage, top: LowRule, next: Stage)
    requires Selected(sem, TableAt(d, pos), pos.port, packet, top)
    requires forall l :: Selected(sem, TableAt(d, pos), pos.port, packet, l) ==>
      l.action.Output? && (Lands(d, pos, l.action.port, Apply(sem, l.action.generic, packet), s) <==> s == next)
    ensures Step(d, sem, pos, packet, s) <==> s == next
  {
    assert s == next ==> Executes(d, sem, pos, packet, top, s);
  }

  // ----- the second hop: all the traffic of one direction of a link ends at one endpoint -----

  lemma SameTarget(lsi: LsiState, a: Endpoint, b: Endpoint)
    requires OneNamePerDirection(lsi.vlinks) && a.Inner() == b.Inner()
    requires Link(lsi, a).Some? && Link(lsi, b).Some? && Link(lsi, a).value.id == Link(lsi, b).value.id
    ensures a == b
  {
    assert lsi.vlinks[a.Key()] == lsi.vlinks[b.Key()];
    EndpointByName(a, b);
  }

  /** A rule hit on a port of LSI-0 comes from a rule that enters there. */
  lemma Lsi0Origin(d: Node, sem: Semantics, x: Lsi0Port, port: nat, packet: Packet, g: string, h: Rule, l: LowRule)
    requires Lsi0PortsDistinct(d) && HasLsi0Port(d, x, port) && Hit(sem, d.lsi0, port, packet, l)
    requires FromRule(d, g, h, l) && Ready(d, g)
    ensures h.On().Inner() ==> Link(d.tenants[g].lsi, h.To()).Some?
    ensures InPort0(d, g, h) == x
  {
    Half0Shape(d, g, h);
  }

  lemma RelayOrigin(d: DeployedNode, sem: Semantics, g: string, e: Endpoint, link: VLink, packet: Packet, l: LowRule)
      returns (h: Rule)
    requires g in d.tenants && !e.Inner() && Link(d.tenants[g].lsi, e) == Some(link)
    requires Hit(sem, d.lsi0, link.remoteId, packet, l)
    ensures h in d.tenants[g].rules && h.On().Inner() && h.To() == e && Half0(d, g, h) == Emit(l)
  {
    var g' :| exists h' :: FromRule(d, g', h', l);
    h :| FromRule(d, g', h, l);
    assert HasLsi0Port(d, LinkEnd(g, link.id), link.remoteId);
    Lsi0Origin(d, sem, LinkEnd(g, link.id), link.remoteId, packet, g', h, l);
    assert ReadyTenant(d, g);
    SameTarget(d.tenants[g].lsi, h.To(), e);
  }

  lemma RelayHit(d: DeployedNode, sem: Semantics, g: string, h: Rule, link: VLink, packet: Packet)
    requires g in d.tenants && h in d.tenants[g].rules && h.On().Inner() && !h.To().Inner()
    requires Link(d.tenants[g].lsi, h.To()) == Some(link)
    requires h.On().NfPort? || h.To().Internal? || sem.accepts(h.pattern.fields, packet)
    ensures Half0(d, g, h).Emit?
    ensures Hit(sem, d.lsi0, link.remoteId, packet, Half0(d, g, h).rule)
  {
    assert Ready(d, g);
    Half0Shape(d, g, h);
  }

  /** Whatever has these fields is accepted. */
  ghost predicate TakesAll(sem: Semantics, fields: set<Fields>, packet: Packet) {
    forall f :: f in fields ==> sem.accepts(f, packet)
  }

  /** A winner is not beaten on fields its packet has. */
  lemma WinsUnbeaten(d: Node, sem: Semantics, at: Location, packet: Packet, g: string, h: Rule, fields: set<Fields>)
    requires Wins(d, sem, at, packet, g, h) && TakesAll(sem, fields, packet)
    ensures !Beaten(d, at, fields, h.priority)
  {
    forall g', h' | ComesIn(d, at, fields, g', h')
      ensures h'.priority <= h.priority
    {
      assert Listens(d, sem, at, packet, g', h');
    }
  }

  /** A selected half is not outranked on fields the packet has. */
  lemma SelectedUnranked(d: DeployedNode, sem: Semantics, g: string, r: Rule, link: VLink, packet: Packet,
      fields: set<Fields>)
    requires g in d.tenants && r in d.tenants[g].rules && !r.To().Inner()
    requires Link(d.tenants[g].lsi, r.To()) == Some(link)
    requires Half0(d, g, r).Emit? && Selected(sem, d.lsi0, link.remoteId, packet, Half0(d, g, r).rule)
    requires TakesAll(sem, fields, packet)
    ensures !Outranked(d.tenants[g].rules, r, fields)
  {
    assert Ready(d, g);
    Half0Shape(d, g, r);
    forall k | Relays(d.tenants[g].rules, r.To(), fields, k)
      ensures k.priority <= r.priority
    {
      RelayHit(d, sem, g, k, link, packet);
      Half0Shape(d, g, k);
    }
  }

  /** What a rule makes of a packet, and what it then looks like. */
  lemma SentLooks(sem: Semantics, h: Rule, r: Rule, packet: Packet)
    requires sem.accepts(h.pattern.fields, packet)
    requires sem.accepts(r.pattern.fields, Apply(sem, h.action.generic, packet))
    ensures TakesAll(sem, Before(h, r), packet) && TakesAll(sem, Behind(h, r), Apply(sem, h.action.generic, packet))
  {
  }

  /** Nothing selected behind a link rewrites a winner's packet. */
  lemma RelayKeepsPacket(d: SoundNode, sem: Semantics, packet: Packet, g: string, h: Rule, link: VLink, r: Rule)
    requires Wins(d, sem, Where(g, h.On()), packet, g, h) && h.On().Inner() && !h.To().Inner()
    requires Link(d.tenants[g].lsi, h.To()) == Some(link)
    requires r in d.tenants[g].rules && r.On().Inner() && r.To() == h.To() && Half0(d, g, r).Emit?
    requires Selected(sem, d.lsi0, link.remoteId, Apply(sem, h.action.generic, packet), Half0(d, g, r).rule)
    ensures Half0(d, g, r).rule.action.Output? && Half0(d, g, r).rule.action.generic == []
  {
    assert Ready(d, g);
    Half0Shape(d, g, r);
    assert Served(d, g, h);
    if Rewriting(r) {
      SentLooks(sem, h, r, packet);
      WinsUnbeaten(d, sem, Where(g, h.On()), packet, g, h, Before(h, r));
      SelectedUnranked(d, sem, g, r, link, Apply(sem, h.action.generic, packet), Behind(h, r));
    }
  }

  lemma RelayLands(d: SoundNode, sem: Semantics, packet: Packet, g: string, h: Rule, link: VLink, l: LowRule, s: Stage)
    requires Wins(d, sem, Where(g, h.On()), packet, g, h) && h.On().Inner() && !h.To().Inner()
    requires Link(d.tenants[g].lsi, h.To()) == Some(link)
    requires Selected(sem, d.lsi0, link.remoteId, Apply(sem, h.action.generic, packet), l)
    ensures l.action.Output?
    ensures var sent := Apply(sem, h.action.generic, packet);
      Lands(d, OnLsi0(link.remoteId), l.action.port, Apply(sem, l.action.generic, sent), s)
      <==> s == Done(Deliver(Where(g, h.To()), sent))
  {
    var sent := Apply(sem, h.action.generic, packet);
    var r := RelayOrigin(d, sem, g, h.To(), link, sent, l);
    assert Ready(d, g);
    Half0Shape(d, g, r);
    RelayKeepsPacket(d, sem, packet, g, h, link, r);
    LandsOutside(d, OnLsi0(link.remoteId), g, h.To(), l.action.port, sent, s);
  }

  /** Some half behind the link takes a winner's packet. */
  lemma RelayFound(d: SoundNode, sem: Semantics, packet: Packet, g: string, h: Rule, link: VLink) returns (r: Rule)
    requires Wins(d, sem, Where(g, h.On()), packet, g, h) && h.On().Inner() && !h.To().Inner()
    requires Link(d.tenants[g].lsi, h.To()) == Some(link)
    ensures r in d.tenants[g].rules && Half0(d, g, r).Emit?
    ensures Hit(sem, d.lsi0, link.remoteId, Apply(sem, h.action.generic, packet), Half0(d, g, r).rule)
  {
    r := h;
    if Rewriting(h) {
      WinsUnbeaten(d, sem, Where(g, h.On()), packet, g, h, {h.pattern.fields});
      assert Served(d, g, h);
      r :| Relays(d.tenants[g].rules, h.To(), {}, r);
    }
    RelayHit(d, sem, g, r, link, Apply(sem, h.action.generic, packet));
  }

  lemma RelayStep(d: SoundNode, sem: Semantics, packet: Packet, g: string, h: Rule, link: VLink, s: Stage)
    requires Wins(d, sem, Where(g, h.On()), packet, g, h) && h.On().Inner() && !h.To().Inner()
    requires Link(d.tenants[g].lsi, h.To()) == Some(link)
    ensures var sent := Apply(sem, h.action.generic, packet);
      Step(d, sem, OnLsi0(link.remoteId), sent, s) <==> s == Done(Deliver(Where(g, h.To()), sent))
  {
    var pos, sent := OnLsi0(link.remoteId), Apply(sem, h.action.generic, packet);
    var r := RelayFound(d, sem, packet, g, h, link);
    var top := SelectedExists(sem, d.lsi0, pos.port, sent, Half0(d, g, r).rule);
    forall l | Selected(sem, d.lsi0, pos.port, sent, l)
      ensures l.action.Output?
      ensures Lands(d, pos, l.action.port, Apply(sem, l.action.generic, sent), s)
              <==> s == Done(Deliver(Where(g, h.To()), sent))
    {
      RelayLands(d, sem, packet, g, h, link, l, s);
    }
    StepSettles(d, sem, pos, sent, s, top, Done(Deliver(Where(g, h.To()), sent)));
  }

  lemma ArrivalOrigin(d: Node, sem: Semantics, g: string, e: Endpoint, link: VLink, packet: Packet, l: LowRule)
      returns (h: Rule)
    requires ReadyTenant(d, g) && e.Inner() && Link(d.tenants[g].lsi, e) == Some(link)
    requires Hit(sem, d.tenants[g].table, link.localId, packet, l)
    ensures h in d.tenants[g].rules && !h.On().Inner() && h.To() == e && LowerToTenant(h, d.tenants[g].lsi) == Emit(l)
  {
    var t := d.tenants[g];
    h :| h in t.rules && LowerToTenant(h, t.lsi) == Emit(l);
    HalfTShape(d, g, h);
    assert HasTenantPort(t.lsi, OfLink(link.id), link.localId);
    assert InPortT(t, h) == OfLink(link.id);
    SameTarget(t.lsi, h.To(), e);
  }

  lemma ArrivalLands(d: DeployedNode, sem: Semantics, g: string, e: Endpoint, link: VLink, packet: Packet, l: LowRule,
      s: Stage)
    requires g in d.tenants && e.Inner() && Link(d.tenants[g].lsi, e) == Some(link)
    requires Hit(sem, d.tenants[g].table, link.localId, packet, l)
    ensures l.action.Output?
    ensures Lands(d, OnTenant(g, link.localId), l.action.port, Apply(sem, l.action.generic, packet), s)
            <==> s == Done(Deliver(Where(g, e), packet))
  {
    assert ReadyTenant(d, g);
    var h := ArrivalOrigin(d, sem, g, e, link, packet, l);
    HalfTShape(d, g, h);
    LandsInside(d, OnTenant(g, link.localId), e, l.action.port, packet, s);
  }

  lemma ArrivalStep(d: DeployedNode, sem: Semantics, g: string, h: Rule, link: VLink, packet: Packet, s: Stage)
    requires g in d.tenants && h in d.tenants[g].rules && !h.On().Inner() && h.To().Inner()
    requires Link(d.tenants[g].lsi, h.To()) == Some(link)
    ensures Step(d, sem, OnTenant(g, link.localId), packet, s) <==> s == Done(Deliver(Where(g, h.To()), packet))
  {
    var t := d.tenants[g];
    assert ReadyTenant(d, g);
    HalfTShape(d, g, h);
    var pos := OnTenant(g, link.localId);
    var top := SelectedExists(sem, t.table, pos.port, packet, LowerToTenant(h, t.lsi).rule);
    forall l | Selected(sem, t.table, pos.port, packet, l)
      ensures l.action.Output?
      ensures Lands(d, pos, l.action.port, Apply(sem, l.action.generic, packet), s)
              <==> s == Done(Deliver(Where(g, h.To()), packet))
    {
      ArrivalLands(d, sem, g, h.To(), link, packet, l, s);
    }
    StepSettles(d, sem, pos, packet, s, top, Done(Deliver(Where(g, h.To()), packet)));
  }

  // ----- the first hop: the rules hit at an ingress are the rules listening there -----

  ghost predicate Implements(d: Node, pos: Position, g: string, h: Rule, l: LowRule) {
    && g in d.tenants && h in d.tenants[g].rules
    && match pos
       case OnLsi0(_) => Half0(d, g, h) == Emit(l)
       case OnTenant(g', _) => g == g' && LowerToTenant(h, d.tenants[g].lsi) == Emit(l)
  }

  lemma Lsi0HitListens(d: DeployedNode, sem: Semantics, at: Location, pos: Position, packet: Packet, l: LowRule)
      returns (g: string, h: Rule)
    requires pos.OnLsi0? && Ingress(d, at, pos) && Hit(sem, d.lsi0, pos.port, packet, l)
    ensures Implements(d, pos, g, h, l) && Listens(d, sem, at, packet, g, h) && h.priority == l.priority
  {
    g :| exists h :: FromRule(d, g, h, l);
    h :| FromRule(d, g, h, l);
    var x := if at.AtPort? then Phys(at.name) else Conn(at.group, at.graph);
    Lsi0Origin(d, sem, x, pos.port, packet, g, h, l);
    Half0Shape(d, g, h);
  }

  lemma TenantHitListens(d: Node, sem: Semantics, at: Location, pos: Position, packet: Packet, l: LowRule)
      returns (h: Rule)
    requires pos.OnTenant? && ReadyTenant(d, pos.graph) && Ingress(d, at, pos)
    requires Hit(sem, TableAt(d, pos), pos.port, packet, l)
    ensures Implements(d, pos, pos.graph, h, l) && Listens(d, sem, at, packet, pos.graph, h) && h.priority == l.priority
  {
    var t := d.tenants[pos.graph];
    h :| h in t.rules && LowerToTenant(h, t.lsi) == Emit(l);
    HalfTShape(d, pos.graph, h);
    var x := if at.AtNf? then OfNf(at.nf, at.port) else OfGre(at.id);
    assert HasTenantPort(t.lsi, x, pos.port);
    assert InPortT(t, h) == x;
  }

  lemma HitListens(d: DeployedNode, sem: Semantics, at: Location, pos: Position, packet: Packet, l: LowRule)
      returns (g: string, h: Rule)
    requires Ingress(d, at, pos) && Hit(sem, TableAt(d, pos), pos.port, packet, l)
    ensures Implements(d, pos, g, h, l) && Listens(d, sem, at, packet, g, h) && h.priority == l.priority
  {
    match pos
    case OnLsi0(_) => g, h := Lsi0HitListens(d, sem, at, pos, packet, l);
    case OnTenant(g', _) => g := g'; h := TenantHitListens(d, sem, at, pos, packet, l);
  }

  lemma ListensHit(d: DeployedNode, sem: Semantics, at: Location, pos: Position, packet: Packet, g: string, h: Rule)
      returns (l: LowRule)
    requires Ingress(d, at, pos) && Listens(d, sem, at, packet, g, h) && !LostByBoth(h)
    ensures Implements(d, pos, g, h, l) && Hit(sem, TableAt(d, pos), pos.port, packet, l) && h.priority == l.priority
  {
    assert ReadyTenant(d, g);
    match pos
    case OnLsi0(port) =>
      Half0Shape(d, g, h);
      l := Half0(d, g, h).rule;
    case OnTenant(g', port) =>
      HalfTShape(d, g, h);
      l := LowerToTenant(h, d.tenants[g].lsi).rule;
  }

  // ----- where there are rules, one of them is the greatest -----

  function AllRules(d: Node): set<(string, Rule)> {
    set g, h | g in d.tenants && h in d.tenants[g].rules :: (g, h)
  }

  lemma {:induction false} Greatest(rules: set<(string, Rule)>, measure: Rule -> nat, x: (string, Rule))
      returns (top: (string, Rule))
    requires x in rules
    ensures top in rules && measure(x.1) <= measure(top.1) && forall y :: y in rules ==> measure(y.1) <= measure(top.1)
    decreases |rules|
  {
    var rest := rules - {x};
    if rest == {} {
      assert rules == {x};
      top := x;
    } else {
      var y :| y in rest;
      top := Greatest(rest, measure, y);
      assert forall z :: z in rules ==> z == x || z in rest;
      if measure(top.1) < measure(x.1) {
        top := x;
      }
    }
  }

  ghost function Listeners(d: Node, sem: Semantics, at: Location, packet: Packet): set<(string, Rule)> {
    set x | x in AllRules(d) && Listens(d, sem, at, packet, x.0, x.1)
  }

  lemma WinnerExists(d: Node, sem: Semantics, at: Location, packet: Packet, g: string, h: Rule)
      returns (g': string, h': Rule)
    requires Listens(d, sem, at, packet, g, h)
    ensures Wins(d, sem, at, packet, g', h') && h.priority <= h'.priority
  {
    var all := Listeners(d, sem, at, packet);
    assert (g, h) in AllRules(d);
    var top := Greatest(all, (r: Rule) => r.priority, (g, h));
    g', h' := top.0, top.1;
    forall g'', h'' | Listens(d, sem, at, packet, g'', h'')
      ensures h''.priority <= h'.priority
    {
      assert (g'', h'') in AllRules(d);
      assert (g'', h'') in all;
    }
  }

  lemma WinnerKept(d: SoundNode, sem: Semantics, at: Location, packet: Packet, g: string, h: Rule)
    requires Wins(d, sem, at, packet, g, h)
    ensures !LostByBoth(h)
  {
    WinsUnbeaten(d, sem, at, packet, g, h, {h.pattern.fields});
    assert Served(d, g, h);
  }

  lemma SelectedWins(d: SoundNode, sem: Semantics, at: Location, pos: Position, packet: Packet, l: LowRule)
      returns (g: string, h: Rule)
    requires Ingress(d, at, pos) && Selected(sem, TableAt(d, pos), pos.port, packet, l)
    ensures Implements(d, pos, g, h, l) && Wins(d, sem, at, packet, g, h)
  {
    g, h := HitListens(d, sem, at, pos, packet, l);
    var g', h' := WinnerExists(d, sem, at, packet, g, h);
    WinnerKept(d, sem, at, packet, g', h');
    var l' := ListensHit(d, sem, at, pos, packet, g', h');
  }

  lemma WinsSelected(d: DeployedNode, sem: Semantics, at: Location, pos: Position, packet: Packet, g: string, h: Rule)
      returns (l: LowRule)
    requires Ingress(d, at, pos) && Wins(d, sem, at, packet, g, h) && !LostByBoth(h)
    ensures Implements(d, pos, g, h, l) && Selected(sem, TableAt(d, pos), pos.port, packet, l)
  {
    l := ListensHit(d, sem, at, pos, packet, g, h);
    forall k | Hit(sem, TableAt(d, pos), pos.port, packet, k)
      ensures k.priority <= l.priority
    {
      var g', h' := HitListens(d, sem, at, pos, packet, k);
    }
  }

  /** Where a rule that wins at its ingress takes the packet in one lookup: to its target, or to
      the link that leads there. */
  function Next(d: Node, sem: Semantics, packet: Packet, g: string, h: Rule): Stage
    requires g in d.tenants && (h.Crosses() ==> Link(d.tenants[g].lsi, h.To()).Some?)
  {
    var packet' := Apply(sem, h.action.generic, packet);
    if !h.Crosses() then Done(Deliver(Where(g, h.To()), packet'))
    else
      var link := Link(d.tenants[g].lsi, h.To()).value;
      Moved(if h.On().Inner() then OnLsi0(link.remoteId) else OnTenant(g, link.localId), packet')
  }

  lemma ImplementsLands(d: DeployedNode, sem: Semantics, at: Location, pos: Position, packet: Packet, g: string,
      h: Rule, l: LowRule, s: Stage)
    requires Ingress(d, at, pos) && Implements(d, pos, g, h, l) && Where(g, h.On()) == at
    ensures h.Crosses() ==> Link(d.tenants[g].lsi, h.To()).Some?
    ensures l.action.Output?
    ensures Lands(d, pos, l.action.port, Apply(sem, l.action.generic, packet), s) <==> s == Next(d, sem, packet, g, h)
  {
    assert ReadyTenant(d, g);
    var packet' := Apply(sem, h.action.generic, packet);
    match pos
    case OnLsi0(_) =>
      Half0Shape(d, g, h);
      if h.To().Inner() {
        LandsUp(d, pos, g, Link(d.tenants[g].lsi, h.To()).value, packet', s);
      } else {
        LandsOutside(d, pos, g, h.To(), l.action.port, packet', s);
      }
    case OnTenant(_, _) =>
      HalfTShape(d, g, h);
      if h.To().Inner() {
        LandsInside(d, pos, h.To(), l.action.port, packet', s);
      } else {
        LandsDown(d, pos, Link(d.tenants[g].lsi, h.To()).value, packet', s);
      }
  }

  /** The possible results of the first lookup, in terms of the big switch. */
  ghost predicate Leaving(d: Node, sem: Semantics, at: Location, packet: Packet, s: Stage) {
    if !exists g, h :: Listens(d, sem, at, packet, g, h) then s == Done(Drop)
    else exists g, h :: Sends(d, sem, at, packet, g, h, s)
  }

  ghost predicate Sends(d: Node, sem: Semantics, at: Location, packet: Packet, g: string, h: Rule, s: Stage) {
    && Wins(d, sem, at, packet, g, h)
    && (h.Crosses() ==> Link(d.tenants[g].lsi, h.To()).Some?)
    && s == Next(d, sem, packet, g, h)
  }

  lemma ExecutesSends(d: SoundNode, sem: Semantics, at: Location, pos: Position, packet: Packet, l: LowRule, s: Stage)
      returns (g: string, h: Rule)
    requires Ingress(d, at, pos) && Executes(d, sem, pos, packet, l, s)
    ensures Sends(d, sem, at, packet, g, h, s)
  {
    g, h := SelectedWins(d, sem, at, pos, packet, l);
    ImplementsLands(d, sem, at, pos, packet, g, h, l, s);
  }

  lemma SendsExecutes(d: SoundNode, sem: Semantics, at: Location, pos: Position, packet: Packet, g: string, h: Rule,
      s: Stage) returns (l: LowRule)
    requires Ingress(d, at, pos) && Sends(d, sem, at, packet, g, h, s)
    ensures Executes(d, sem, pos, packet, l, s)
  {
    WinnerKept(d, sem, at, packet, g, h);
    l := WinsSelected(d, sem, at, pos, packet, g, h);
    ImplementsLands(d, sem, at, pos, packet, g, h, l, s);
  }

  lemma HitIffListens(d: SoundNode, sem: Semantics, at: Location, pos: Position, packet: Packet)
    requires Ingress(d, at, pos)
    ensures (exists l :: Hit(sem, TableAt(d, pos), pos.port, packet, l))
            <==> (exists g, h :: Listens(d, sem, at, packet, g, h))
    ensures (exists g, h :: Listens(d, sem, at, packet, g, h)) ==> exists g, h :: Wins(d, sem, at, packet, g, h)
  {
    if l :| Hit(sem, TableAt(d, pos), pos.port, packet, l) {
      var top := SelectedExists(sem, TableAt(d, pos), pos.port, packet, l);
      var g, h := SelectedWins(d, sem, at, pos, packet, top);
    } else if g, h :| Listens(d, sem, at, packet, g, h) {
      var g', h' := WinnerExists(d, sem, at, packet, g, h);
      WinnerKept(d, sem, at, packet, g', h');
      var l := ListensHit(d, sem, at, pos, packet, g', h');
    }
  }

  lemma ExecutesIffSends(d: SoundNode, sem: Semantics, at: Location, pos: Position, packet: Packet, s: Stage)
    requires Ingress(d, at, pos)
    ensures (exists l :: Executes(d, sem, pos, packet, l, s)) <==> (exists g, h :: Sends(d, sem, at, packet, g, h, s))
  {
    if l :| Executes(d, sem, pos, packet, l, s) {
      var g, h := ExecutesSends(d, sem, at, pos, packet, l, s);
    } else if g, h :| Sends(d, sem, at, packet, g, h, s) {
      var l := SendsExecutes(d, sem, at, pos, packet, g, h, s);
    }
  }

  lemma SameStages(d: Node, sem: Semantics, at: Location, pos: Position, packet: Packet, s: Stage)
    requires (exists l :: Hit(sem, TableAt(d, pos), pos.port, packet, l))
             <==> (exists g, h :: Listens(d, sem, at, packet, g, h))
    requires (exists l :: Executes(d, sem, pos, packet, l, s)) <==> (exists g, h :: Sends(d, sem, at, packet, g, h, s))
    ensures Step(d, sem, pos, packet, s) <==> Leaving(d, sem, at, packet, s)
  {
  }

  lemma IngressStep(d: SoundNode, sem: Semantics, at: Location, pos: Position, packet: Packet, s: Stage)
    requires Ingress(d, at, pos)
    ensures Step(d, sem, pos, packet, s) <==> Leaving(d, sem, at, packet, s)
  {
    HitIffListens(d, sem, at, pos, packet);
    ExecutesIffSends(d, sem, at, pos, packet, s);
    SameStages(d, sem, at, pos, packet, s);
  }

  // ----- the theorem -----

  /** A winning rule's packet reaches the rule's target, rewritten once, within two lookups. */
  lemma NextArrives(d: SoundNode, sem: Semantics, packet: Packet, g: string, h: Rule, s: Stage)
    requires Wins(d, sem, Where(g, h.On()), packet, g, h) && h.Crosses()
    ensures Link(d.tenants[g].lsi, h.To()).Some?
    ensures var next := Next(d, sem, packet, g, h);
      Step(d, sem, next.pos, next.packet, s)
      <==> s == Done(Deliver(Where(g, h.To()), Apply(sem, h.action.generic, packet)))
  {
    assert Ready(d, g);
    var link := Link(d.tenants[g].lsi, h.To()).value;
    if h.On().Inner() {
      RelayStep(d, sem, packet, g, h, link, s);
    } else {
      ArrivalStep(d, sem, g, h, link, Apply(sem, h.action.generic, packet), s);
    }
  }

  /** Two lookups of this shape compose to the big switch. */
  lemma TwoHops(d: Node, sem: Semantics, hops: nat, at: Location, pos: Position, packet: Packet, v: Verdict)
    requires hops >= 2
    requires forall s :: Step(d, sem, pos, packet, s) <==> Leaving(d, sem, at, packet, s)
    requires forall g, h :: Wins(d, sem, at, packet, g, h) && h.Crosses() ==>
      && Link(d.tenants[g].lsi, h.To()).Some?
      && var next := Next(d, sem, packet, g, h);
         forall s :: Step(d, sem, next.pos, next.packet, s) <==>
           s == Done(Deliver(Where(g, h.To()), Apply(sem, h.action.generic, packet)))
    requires (exists g, h :: Listens(d, sem, at, packet, g, h)) ==> exists g, h :: Wins(d, sem, at, packet, g, h)
    ensures Walk(d, sem, hops, pos, packet, v) <==> BigSwitch(d, sem, at, packet, v)
  {
    if BigSwitch(d, sem, at, packet, v) {
      if v.Drop? {
        assert Leaving(d, sem, at, packet, Done(Drop));
      } else {
        var g, h :| Wins(d, sem, at, packet, g, h) &&
          v == Deliver(Where(g, h.To()), Apply(sem, h.action.generic, packet));
        var s := Next(d, sem, packet, g, h);
        assert Sends(d, sem, at, packet, g, h, s) && Listens(d, sem, at, packet, g, h);
        if h.Crosses() {
          assert Step(d, sem, s.pos, s.packet, Done(v));
          assert Walk(d, sem, hops - 1, s.pos, s.packet, v);
        }
      }
    }
  }

  /** Every packet, at every physical, network function, tunnel or internal ingress: the fates the
      chained tables allow are exactly those of the big switches, with the generic actions applied
      once, and two lookups settle every one of them (so nothing circulates between the LSIs). */
  lemma NodeIsBigSwitch(d: SoundNode, sem: Semantics, hops: nat, at: Location, pos: Position, packet: Packet,
      v: Verdict)
    requires Ingress(d, at, pos) && hops >= 2
    ensures Walk(d, sem, hops, pos, packet, v) <==> BigSwitch(d, sem, at, packet, v)
  {
    forall s {
      IngressStep(d, sem, at, pos, packet, s);
    }
    forall g, h, s | Wins(d, sem, at, packet, g, h) && h.Crosses()
      ensures Link(d.tenants[g].lsi, h.To()).Some?
      ensures var next := Next(d, sem, packet, g, h);
        Step(d, sem, next.pos, next.packet, s)
        <==> s == Done(Deliver(Where(g, h.To()), Apply(sem, h.action.generic, packet)))
    {
      NextArrives(d, sem, packet, g, h, s);
    }
    HitIffListens(d, sem, at, pos, packet);
    TwoHops(d, sem, hops, at, pos, packet, v);
  }
}

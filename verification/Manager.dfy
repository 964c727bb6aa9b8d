/** The whole state of the graph manager as a value: the node, the link counter and the internal groups. */
module Manager {
  import opened HighLevel
  import opened FlowTable
  import opened Lsis
  import opened Names
  import opened Options
  import opened Translator
  import opened Forwarding
  import opened Vlinks
  import opened VlinkUpdate
  import LowGraph
  import opened RuleDiff
  import opened Lifecycle
  import opened Updates
  import opened UpdateLinks
  import opened UpdatePlan
  import opened InternalGroups

  /** `members` gives each graph the groups of its internal endpoints. */
  datatype Manager = Manager(state: State, groups: Groups, members: map<string, seq<string>>)

  ghost predicate IdsBelow(gs: Groups, nextId: nat) {
    forall group, i :: group in gs.lsis && 0 <= i < |gs.lsis[group].links| ==> gs.lsis[group].links[i].id < nextId
  }

  /** The node stands and its connections are those of the groups, which count their users right. */
  ghost predicate Steady(m: Manager) {
    && Standing(m.state) && m.state.node.connections == m.groups.connections
    && m.members.Keys == m.state.node.tenants.Keys
    && (forall g {:trigger Distinct(m.members[g])} :: g in m.members ==> Distinct(m.members[g]))
    && AllCounted(m.groups, m.members) && IdsBelow(m.groups, m.state.nextId)
  }

  /** And LSI-0 holds exactly the lowering of every graph. */
  ghost predicate Orderly(m: Manager) {
    Steady(m) && Installed(m.state.node)
  }

  type SteadyManager = m: Manager | Steady(m)
    ghost witness (NoneCounted(); Manager(State(EMPTY_NODE, 0), NO_GROUPS, map[]))

  type OrderlyManager = m: Manager | Orderly(m)
    ghost witness (NoneCounted(); Manager(State(EMPTY_NODE, 0), NO_GROUPS, map[]))

  // ----- a new graph -----

  /** The request for a graph and what the switch answered: ports of functions and tunnels, and the two
      ends of each link to LSI-0 and to the internal LSIs. */
  datatype Request = Request(
    g: string, rules: seq<Rule>, internals: seq<string>,
    nfPorts: map<string, map<string, nat>>, grePorts: map<string, nat>,
    linkPorts: seq<(nat, nat)>, groupPorts: seq<(nat, nat)>)
  {
    function Lsi(nextId: nat, vlinks: map<LinkName, nat>): LsiState {
      LsiState(nfPorts, grePorts.Keys, grePorts, Fresh(nextId, linkPorts), vlinks)
    }

    function GroupLinks(nextId: nat): seq<VLink> {
      Fresh(nextId + |linkPorts|, groupPorts)
    }

    function NextId(nextId: nat): nat {
      nextId + |linkPorts| + |groupPorts|
    }

    function Groups'(gs: Groups, nextId: nat): Groups
      requires |groupPorts| == |internals|
    {
      JoinAll(gs, g, internals, GroupLinks(nextId))
    }

    ghost function Node'(m: Manager, vlinks: map<LinkName, nat>): Node
      requires |groupPorts| == |internals|
    {
      var d, lsi, connections := m.state.node, Lsi(m.state.nextId, vlinks), Groups'(m.groups,
          m.state.nextId).connections;
      Node(d.physical, connections, d.tenants[g := Tenant(rules, lsi, Lowered(rules, LowerT(lsi)))],
           d.lsi0 + Lowered(rules, Lower0(g, lsi, d.physical, connections)))
    }

    ghost function Manager'(m: Manager, vlinks: map<LinkName, nat>): Manager
      requires |groupPorts| == |internals|
    {
      Manager(State(Node'(m, vlinks), NextId(m.state.nextId)), Groups'(m.groups, m.state.nextId),
              m.members[g := internals])
    }

    /** What the request and the switch owe: a new graph, rules with distinct ids and names between
        endpoints that exist, one endpoint per group, as many links as asked for, ports not in use. */
    ghost predicate Fair(m: Manager) {
      && g !in m.state.node.tenants && DistinctRules(rules) && Distinct(internals)
      && |groupPorts| == |internals| && |linkPorts| == LinksFor(Required(rules))
      && Supported(Node'(m, map[]), g) && NamesDistinct(Node'(m, map[]))
      && TenantPortsDistinct(Lsi(m.state.nextId, map[])) && Lsi0PortsDistinct(Node'(m, map[]))
    }
  }

  /** Fairness does not depend on how names are given links. */
  lemma FairAnyNames(m: Manager, r: Request, vlinks: map<LinkName, nat>)
    requires r.Fair(m)
    ensures var d' := r.Node'(m, vlinks);
      Supported(d', r.g) && NamesDistinct(d') && TenantPortsDistinct(d'.tenants[r.g].lsi) && Lsi0PortsDistinct(d')
  {
    var d, d' := r.Node'(m, map[]), r.Node'(m, vlinks);
    assert forall g :: g in d'.tenants && g != r.g ==> d'.tenants[g] == d.tenants[g];
    FairSupported(d, d', r.g);
    FairNames(d, d', r.g);
    FairPorts(d, d', r.g);
    FairTenantPorts(d.tenants[r.g].lsi, d'.tenants[r.g].lsi);
  }

  ghost predicate SameButNames(d: Node, d': Node, g: string) {
    && d'.physical == d.physical && d'.connections == d.connections && d'.tenants.Keys == d.tenants.Keys
    && g in d.tenants
    && (forall g' :: g' in d'.tenants && g' != g ==> d'.tenants[g'] == d.tenants[g'])
    && d'.tenants[g].rules == d.tenants[g].rules
    && d'.tenants[g].lsi == d.tenants[g].lsi.(vlinks := d'.tenants[g].lsi.vlinks)
  }

  lemma FairSupported(d: Node, d': Node, g: string)
    requires SameButNames(d, d', g) && Supported(d, g)
    ensures Supported(d', g)
  {
  }

  lemma FairNames(d: Node, d': Node, g: string)
    requires SameButNames(d, d', g) && NamesDistinct(d)
    ensures NamesDistinct(d')
  {
    forall g', h | Holds(d', g', h)
      ensures Holds(d, g', h)
    {
    }
  }

  lemma FairPorts(d: Node, d': Node, g: string)
    requires SameButNames(d, d', g) && Lsi0PortsDistinct(d)
    ensures Lsi0PortsDistinct(d')
  {
    forall x, number | HasLsi0Port(d', x, number)
      ensures HasLsi0Port(d, x, number)
    {
    }
  }

  lemma FairTenantPorts(lsi: LsiState, lsi': LsiState)
    requires TenantPortsDistinct(lsi) && lsi' == lsi.(vlinks := lsi'.vlinks)
    ensures TenantPortsDistinct(lsi')
  {
    forall x, number | HasTenantPort(lsi', x, number)
      ensures HasTenantPort(lsi, x, number)
    {
    }
  }

  // ----- creating keeps the manager orderly -----

  lemma FreshTidy(nextId: nat, answers: seq<(nat, nat)>, nextId': nat)
    requires nextId + |answers| <= nextId'
    ensures UniqueIds(Fresh(nextId, answers)) && forall v :: v in Fresh(nextId, answers) ==> nextId <= v.id < nextId'
  {
    UniqueIdsByPairs(Fresh(nextId, answers));
  }

  lemma CompiledExact(rules: seq<Rule>, lsi: LsiState)
    requires DistinctRules(rules)
    ensures TableExact(Tenant(rules, lsi, Lowered(rules, LowerT(lsi))))
  {
    forall h | h in rules && LowerT(lsi)(h).Emit?
      ensures LowerT(lsi)(h).rule.id == "" + h.id
    {
      TenantName(h, lsi);
    }
    LoweredUnique(rules, LowerT(lsi), "");
    forall l
      ensures l in Lowered(rules, LowerT(lsi)) <==> exists h :: h in rules && LowerToTenant(h, lsi) == Emit(l)
    {
      LoweredMembers(rules, LowerT(lsi), l);
    }
  }

  /** What the allocation promises of the names. */
  ghost predicate Allocated(m: Manager, r: Request, vlinks: map<LinkName, nat>) {
    && vlinks.Keys == Required(r.rules) && OneNamePerDirection(vlinks)
    && Conserved(Fresh(m.state.nextId, r.linkPorts), vlinks)
  }

  lemma NewGraphSettled(m: Manager, r: Request, vlinks: map<LinkName, nat>)
    requires r.Fair(m) && Allocated(m, r, vlinks)
    ensures Settled(r.Node'(m, vlinks), r.g, r.NextId(m.state.nextId))
    ensures NamesDistinct(r.Node'(m, vlinks)) && Lsi0PortsDistinct(r.Node'(m, vlinks))
  {
    FairAnyNames(m, r, vlinks);
    FreshTidy(m.state.nextId, r.linkPorts, r.NextId(m.state.nextId));
    CompiledExact(r.rules, r.Lsi(m.state.nextId, vlinks));
  }

  lemma NewGraphOthers(m: Manager, r: Request, vlinks: map<LinkName, nat>, g: string)
    requires r.Fair(m) && g in m.state.node.tenants && m.state.node.connections == m.groups.connections
    ensures SameFor(m.state.node, r.Node'(m, vlinks), g)
  {
    forall group
      ensures SameConnection(m.state.node.connections, r.Node'(m, vlinks).connections, group, g)
    {
      JoinAllSame(m.groups, r.g, r.internals, r.GroupLinks(m.state.nextId), group, g);
    }
  }

  lemma NewGraphShape(m: Manager, r: Request, vlinks: map<LinkName, nat>)
    requires |r.groupPorts| == |r.internals|
    ensures var d, d' := m.state.node, r.Node'(m, vlinks);
      d'.tenants.Keys == d.tenants.Keys + {r.g} && d'.lsi0 == d.lsi0 + Own(d', r.g)
  {
  }

  lemma NewGraphCreated(m: Manager, r: Request, vlinks: map<LinkName, nat>)
    requires r.Fair(m) && Allocated(m, r, vlinks) && m.state.node.connections == m.groups.connections
    ensures Created(m.state, r.Manager'(m, vlinks).state, r.g)
  {
    NewGraphShape(m, r, vlinks);
    NewGraphSettled(m, r, vlinks);
    forall g | g in m.state.node.tenants
      ensures SameFor(m.state.node, r.Node'(m, vlinks), g)
    {
      NewGraphOthers(m, r, vlinks, g);
    }
  }

  /** The switch gives each new connection a port of its own, so its link is new to the group. */
  lemma ConnectionFresh(d': Node, gs: Groups, g: string, internals: seq<string>, links: seq<VLink>, i: nat,
      users: seq<string>, j: nat)
    requires |links| == |internals| && Distinct(internals)
    requires d'.connections == JoinAll(gs, g, internals, links).connections
    requires Lsi0PortsDistinct(d') && i < |internals| && j < |users| && Agrees(gs, internals[i], users) && g !in users
    ensures gs.lsis[internals[i]].links[j].remoteId != links[i].remoteId
  {
    var group := internals[i];
    JoinAllConnects(gs, g, internals, links, i);
    assert HasLsi0Port(d', Conn(group, g), links[i].remoteId);
    assert users[j] in users;
    JoinAllSame(gs, g, internals, links, group, users[j]);
    assert HasLsi0Port(d', Conn(group, users[j]), gs.lsis[group].links[j].remoteId);
  }

  lemma GroupLinkFresh(gs: Groups, members: map<string, seq<string>>, nextId: nat, d': Node, g: string,
      internals: seq<string>, links: seq<VLink>, i: nat)
    requires |links| == |internals| && i < |internals| && links[i].id >= nextId
    requires Counted(gs, members, internals[i]) && IdsBelow(gs, nextId) && g !in members && Distinct(internals)
    requires d'.connections == JoinAll(gs, g, internals, links).connections && Lsi0PortsDistinct(d')
    ensures FreshLink(gs, internals[i], links[i])
  {
    var users :| Agrees(gs, internals[i], users) && UsersAre(users, members, internals[i]);
    if internals[i] in gs.lsis {
      forall j | 0 <= j < |users| {
        ConnectionFresh(d', gs, g, internals, links, i, users, j);
      }
    }
  }

  lemma {:induction false} JoinAllIds(gs: Groups, graph: string, groups: seq<string>, links: seq<VLink>, nextId: nat)
    requires |links| == |groups| && IdsBelow(gs, nextId) && forall i :: 0 <= i < |links| ==> links[i].id < nextId
    ensures IdsBelow(JoinAll(gs, graph, groups, links), nextId)
  {
    if groups != [] {
      var n := |groups| - 1;
      JoinAllIds(gs, graph, groups[..n], links[..n], nextId);
    }
  }

  /** A creation as it happened: the state before, the request and the links its names were given. */
  datatype Creation = Creation(m: Manager, r: Request, vlinks: map<LinkName, nat>) {
    ghost predicate Good() {
      Steady(m) && r.Fair(m) && Allocated(m, r, vlinks)
    }

    ghost function After(): Manager
      requires |r.groupPorts| == |r.internals|
    {
      r.Manager'(m, vlinks)
    }
  }

  const NO_CREATION := Creation(Manager(State(EMPTY_NODE, 0), NO_GROUPS, map[]),
                                Request("", [], [], map[], map[], [], []), map[])

  lemma EmptyManagerOrderly()
    ensures Orderly(NO_CREATION.m)
  {
    NoneCounted();
  }

  lemma EmptyRequestFair()
    ensures NO_CREATION.r.Fair(NO_CREATION.m)
  {
    assert Required([]) == {} && LinksFor({}) == 0;
  }

  lemma NoCreationGood()
    ensures NO_CREATION.Good()
  {
    EmptyManagerOrderly();
    EmptyRequestFair();
  }

  type GoodCreation = c: Creation | c.Good() ghost witness (NoCreationGood(); NO_CREATION)

  /** Creating a graph is a step of the life cycle. */
  lemma NewGraphStep(c: GoodCreation)
    ensures Created(c.m.state, c.After().state, c.r.g)
  {
    NewGraphCreated(c.m, c.r, c.vlinks);
  }

  lemma NewGraphFresh(m: SteadyManager, r: Request)
    requires r.Fair(m)
    ensures forall i :: 0 <= i < |r.internals| ==> FreshLink(m.groups, r.internals[i], r.GroupLinks(m.state.nextId)[i])
  {
    var links := r.GroupLinks(m.state.nextId);
    forall i | 0 <= i < |r.internals|
      ensures FreshLink(m.groups, r.internals[i], links[i])
    {
      GroupLinkFresh(m.groups, m.members, m.state.nextId, r.Node'(m, map[]), r.g, r.internals, links, i);
    }
  }

  lemma NewGraphGroups(m: SteadyManager, r: Request)
    requires r.Fair(m)
    ensures AllCounted(r.Groups'(m.groups, m.state.nextId), m.members[r.g := r.internals])
    ensures IdsBelow(r.Groups'(m.groups, m.state.nextId), r.NextId(m.state.nextId))
  {
    var links := r.GroupLinks(m.state.nextId);
    NewGraphFresh(m, r);
    JoinAllCounts(m.groups, m.members, r.g, r.internals, links);
    JoinAllIds(m.groups, r.g, r.internals, links, r.NextId(m.state.nextId));
  }

  /** The switch of a new graph has the functions, tunnels and links asked for, on the ports answered. */
  ghost predicate LsiAsRequested(r: Request, nextId: nat, lsi: LsiState) {
    && lsi.nfPorts == r.nfPorts && lsi.grePorts == r.grePorts
    && (forall id :: id in lsi.greEndpoints <==> id in r.grePorts)
    && |lsi.virtualLinks| == |r.linkPorts|
    && (forall i :: 0 <= i < |r.linkPorts| ==>
         lsi.virtualLinks[i] == VLink(nextId + i, r.linkPorts[i].0, r.linkPorts[i].1))
  }

  ghost predicate GroupsAsRequested(r: Request, nextId: nat, groups: Groups)
    requires |r.groupPorts| == |r.internals|
  {
    forall i :: 0 <= i < |r.internals| ==>
      JoinedOver(groups, r.g, r.internals[i], VLink(nextId + i, r.groupPorts[i].0, r.groupPorts[i].1))
  }

  /** A new graph is what was asked for: its rules, its switch, and its links to its groups. */
  ghost predicate AsRequested(m: Manager, r: Request, m': Manager)
    requires |r.groupPorts| == |r.internals|
  {
    var n, d, d' := m.state.nextId, m.state.node, m'.state.node;
    && d'.tenants.Keys == d.tenants.Keys + {r.g} && d'.tenants[r.g].rules == r.rules && d'.physical == d.physical
    && LsiAsRequested(r, n, d'.tenants[r.g].lsi) && GroupsAsRequested(r, n + |r.linkPorts|, m'.groups)
    && m'.members == m.members[r.g := r.internals] && m'.state.nextId == n + |r.linkPorts| + |r.groupPorts|
  }

  lemma NewGraphGroupsAsRequested(gs: Groups, r: Request, nextId: nat)
    requires |r.groupPorts| == |r.internals| && Distinct(r.internals)
    ensures GroupsAsRequested(r, nextId, JoinAll(gs, r.g, r.internals, Fresh(nextId, r.groupPorts)))
  {
    forall i | 0 <= i < |r.internals| {
      JoinAllJoins(gs, r.g, r.internals, Fresh(nextId, r.groupPorts), i);
    }
  }

  lemma LsiBuiltAsRequested(r: Request, nextId: nat, vlinks: map<LinkName, nat>)
    ensures LsiAsRequested(r, nextId, r.Lsi(nextId, vlinks))
  {
  }

  lemma BuiltAsRequested(m: Manager, r: Request, vlinks: map<LinkName, nat>)
    requires |r.groupPorts| == |r.internals| && Distinct(r.internals)
    ensures AsRequested(m, r, r.Manager'(m, vlinks))
  {
    LsiBuiltAsRequested(r, m.state.nextId, vlinks);
    NewGraphGroupsAsRequested(m.groups, r, m.state.nextId + |r.linkPorts|);
    assert r.Manager'(m, vlinks).state.node.tenants[r.g].lsi == r.Lsi(m.state.nextId, vlinks);
  }

  lemma NewGraphAsRequested(c: GoodCreation)
    ensures AsRequested(c.m, c.r, c.After())
  {
    BuiltAsRequested(c.m, c.r, c.vlinks);
  }

  /** Creating a graph keeps the manager steady, and orderly if it was. */
  lemma NewGraphSteady(c: GoodCreation)
    ensures Steady(c.After())
  {
    NewGraphStep(c);
    CreatedStanding(c.m.state, c.After().state, c.r.g);
    NewGraphGroups(c.m, c.r);
  }

  lemma NewGraphOrderly(c: GoodCreation)
    requires Orderly(c.m)
    ensures Orderly(c.After())
  {
    NewGraphSteady(c);
    NewGraphStep(c);
    CreatedSane(c.m.state, c.After().state, c.r.g);
  }

  lemma NewGraphLowers(c: GoodCreation, h: Rule)
    requires h in c.r.rules
    ensures var lsi := c.r.Lsi(c.m.state.nextId, c.vlinks);
      && !LowerToLsi0(h, c.r.g, lsi, c.m.state.node.physical,
                      c.r.Groups'(c.m.groups, c.m.state.nextId).connections).Fail?
      && !LowerToTenant(h, lsi).Fail?
  {
    NewGraphSettled(c.m, c.r, c.vlinks);
    NothingMissing(c.r.Node'(c.m, c.vlinks), c.r.g, c.r.NextId(c.m.state.nextId), h);
  }

  // ----- updating -----

  /** The request for an update and what the switch answered. */
  datatype UpdateRequest = UpdateRequest(g: string, target: seq<Rule>, change: Change, linkPorts: seq<(nat, nat)>) {

    /** The update if every link the switch could offer were taken. */
    function Offer(m: Manager): Plan
      requires g in m.state.node.tenants
    {
      var lsi := m.state.node.tenants[g].lsi;
      Plan(g, target, change, Links(lsi.virtualLinks + Fresh(m.state.nextId, linkPorts), lsi.vlinks), Links([], map[]),
           m.state.nextId)
    }

    /** What the request and the switch owe: see `Plan.Fair`; and a link to offer for every new rule. */
    ghost predicate Fair(m: Manager) {
      && g in m.state.node.tenants && Offer(m).Fair(m.state.node)
      && |linkPorts| >= |Added(m.state.node.tenants[g].rules, target)|
    }
  }

  /** Taking fewer links and deciding on names leaves a fair update fair. */
  lemma FairCarries(d: Node, p: Plan, p': Plan)
    requires p.g in d.tenants && p.Fair(d) && p'.g == p.g && p'.target == p.target && p'.change == p.change
    requires forall v :: v in p'.grown.links ==> v in p.grown.links
    ensures p'.Fair(d)
  {
    var t := d.tenants[p.g];
    SupportedAnyLinks(p.Node'(d), p'.Node'(d), p.g);
    FairRules(p.Node'(d), p'.Node'(d));
    FewerTenantPorts(p.change.Attached(t.lsi, p.grown), p'.change.Attached(t.lsi, p'.grown));
    Lsi0PortsStayDistinct(d, Alone(d, p.g, Tenant([], p'.change.Attached(t.lsi, p'.grown), [])), p.g,
                          Tenant([], p.change.Attached(t.lsi, p.grown), []));
  }

  lemma SupportedAnyLinks(d: Node, d': Node, g: string)
    requires g in d.tenants && g in d'.tenants && d'.physical == d.physical && d'.connections == d.connections
    requires d'.tenants[g].rules == d.tenants[g].rules
    requires var lsi, lsi' := d.tenants[g].lsi, d'.tenants[g].lsi;
      lsi' == lsi.(virtualLinks := lsi'.virtualLinks, vlinks := lsi'.vlinks)
    requires Supported(d, g)
    ensures Supported(d', g)
  {
  }

  lemma FairRules(d: Node, d': Node)
    requires NamesDistinct(d) && d'.tenants.Keys == d.tenants.Keys
    requires forall g :: g in d.tenants ==> d'.tenants[g].rules == d.tenants[g].rules
    ensures NamesDistinct(d')
  {
    forall g, h | Holds(d', g, h)
      ensures Holds(d, g, h)
    {
    }
  }

  lemma FewerTenantPorts(lsi: LsiState, lsi': LsiState)
    requires TenantPortsDistinct(lsi) && lsi' == lsi.(virtualLinks := lsi'.virtualLinks, vlinks := lsi'.vlinks)
    requires forall v :: v in lsi'.virtualLinks ==> v in lsi.virtualLinks
    ensures TenantPortsDistinct(lsi')
  {
    forall x, number | HasTenantPort(lsi', x, number)
      ensures HasTenantPort(lsi, x, number)
    {
      if x.OfLink? {
        var v :| v in lsi'.virtualLinks && v.id == x.link && v.localId == number;
        assert v in lsi.virtualLinks;
      }
    }
  }

  /** An update as it happened. */
  datatype Renewal = Renewal(m: Manager, p: Plan) {
    ghost predicate Good() {
      && Steady(m) && p.g in m.state.node.tenants && p.Fair(m.state.node) && p.Carried(m.state)
      && m.state.nextId <= p.nextId'
    }

    ghost function After(): Manager
      requires p.g in m.state.node.tenants
    {
      Manager(State(p.Node'(m.state.node), p.nextId'), m.groups, m.members)
    }
  }

  const EMPTY_PLAN := Plan("", [], Change(map[], map[], {}, {}), Links([], map[]), Links([], map[]), 0)

  /** The empty update of the empty graph. */
  const EMPTY_TENANT := Tenant([], LsiState(map[], {}, map[], [], map[]), [])
  const EMPTY_GRAPH := Node(map[], map[], map["" := EMPTY_TENANT], [])
  const NO_RENEWAL := Renewal(Manager(State(EMPTY_GRAPH, 0), NO_GROUPS, map["" := []]), EMPTY_PLAN)

  lemma EmptyGraphOrderly()
    ensures Orderly(NO_RENEWAL.m)
  {
    NoneCounted();
    NoGroupsCounts(NO_GROUPS, map[], "");
  }

  lemma EmptyPlanFair()
    ensures EMPTY_PLAN.Fair(NO_RENEWAL.m.state.node)
  {
  }

  lemma EmptyPlanCarried()
    ensures EMPTY_PLAN.Carried(NO_RENEWAL.m.state)
  {
  }

  lemma NoRenewalGood()
    ensures NO_RENEWAL.Good()
  {
    EmptyGraphOrderly();
    EmptyPlanFair();
    EmptyPlanCarried();
  }

  type GoodRenewal = u: Renewal | u.Good() ghost witness (NoRenewalGood(); NO_RENEWAL)

  /** Updating a graph is a step of the life cycle. */
  lemma UpdateStep(u: GoodRenewal)
    ensures Updated(u.m.state, u.After().state, u.p.g, u.p.target)
  {
    PlanUpdates(u.m.state, u.p);
  }

  /** Updating a graph keeps the manager steady, and orderly if it was. */
  lemma UpdateSteady(u: GoodRenewal)
    ensures Steady(u.After())
  {
    UpdateStep(u);
    UpdatedStanding(u.m.state, u.After().state, u.p.g, u.p.target);
  }

  lemma UpdateOrderly(u: GoodRenewal)
    requires Orderly(u.m)
    ensures Orderly(u.After())
  {
    UpdateSteady(u);
    UpdateStep(u);
    UpdatedSane(u.m.state, u.After().state, u.p.g, u.p.target);
  }

  lemma UpdateLowers(u: GoodRenewal, h: Rule)
    requires h in Added(u.m.state.node.tenants[u.p.g].rules, u.p.target)
    ensures var d := u.m.state.node;
      var lsi := u.p.change.Done(d.tenants[u.p.g].lsi, u.p.now);
      !LowerToLsi0(h, u.p.g, lsi, d.physical, d.connections).Fail? && !LowerToTenant(h, lsi).Fail?
  {
    UpdateSteady(u);
    assert Settled(u.m.state.node, u.p.g, u.m.state.nextId);
    KeptOrAdded(u.m.state.node.tenants[u.p.g].rules, u.p.target, h);
    NothingMissing(u.After().state.node, u.p.g, u.p.nextId', h);
  }

  // ----- deleting -----

  ghost function DeletedManager(m: Manager, g: string): Option<Manager>
    requires g in m.state.node.tenants && g in m.members
  {
    var d := m.state.node;
    var rest, left := LowGraph.Minus(d.lsi0, Own(d, g)), LeaveAll(m.groups, g, m.members[g]);
    if rest.None? || left.None? then None
    else
      Some(Manager(State(Node(d.physical, left.value.connections, d.tenants - {g}, rest.value), m.state.nextId),
                   left.value, m.members - {g}))
  }

  lemma {:induction false} WithoutSubset(links: seq<VLink>, id: nat)
    ensures forall v :: v in Without(links, id) ==> v in links
  {
    if links != [] {
      WithoutSubset(links[1..], id);
    }
  }

  lemma LeaveIds(gs: Groups, graph: string, group: string, nextId: nat)
    requires IdsBelow(gs, nextId) && Leave(gs, graph, group).Some?
    ensures IdsBelow(Leave(gs, graph, group).value, nextId)
  {
    var gs' := Leave(gs, graph, group).value;
    if group in gs'.lsis {
      var links := gs.lsis[group].links;
      var links' := gs'.lsis[group].links;
      var i := LinkAt(links, gs.Ports(group)[graph]);
      WithoutSubset(links, links[i].id);
      forall k | 0 <= k < |links'|
        ensures links'[k].id < nextId
      {
        assert links'[k] in links;
      }
    }
  }

  lemma {:induction false} LeaveAllIds(gs: Groups, graph: string, groups: seq<string>, nextId: nat)
    requires IdsBelow(gs, nextId) && LeaveAll(gs, graph, groups).Some?
    ensures IdsBelow(LeaveAll(gs, graph, groups).value, nextId)
    decreases groups
  {
    if groups != [] {
      LeaveIds(gs, graph, groups[0], nextId);
      LeaveAllIds(Leave(gs, graph, groups[0]).value, graph, groups[1..], nextId);
    }
  }

  lemma DeleteGroups(m: SteadyManager, g: string)
    requires g in m.members
    ensures var left := LeaveAll(m.groups, g, m.members[g]);
      && left.Some? && AllCounted(left.value, m.members - {g}) && IdsBelow(left.value, m.state.nextId)
      && forall group, g' :: g' != g ==> SameConnection(m.groups.connections, left.value.connections, group, g')
  {
    var groups := m.members[g];
    assert m.members[g := groups] == m.members;
    LeaveAllCounts(m.groups, m.members, g, groups);
    LeaveAllIds(m.groups, g, groups, m.state.nextId);
    forall group, g' | g' != g
      ensures SameConnection(m.groups.connections, LeaveAll(m.groups, g, groups).value.connections, group, g')
    {
      LeaveAllSame(m.groups, m.members, g, groups, g', group);
    }
  }

  lemma GoneFromGroups(gs: Groups, members: map<string, seq<string>>, g: string, group: string)
    requires AllCounted(gs, members) && g !in members
    ensures g !in gs.Ports(group)
  {
    assert Counted(gs, members, group);
    var users :| Agrees(gs, group, users) && UsersAre(users, members, group);
  }

  lemma DeleteStep(m: SteadyManager, g: string)
    requires g in m.members && DeletedManager(m, g).Some?
    ensures Deleted(m.state, DeletedManager(m, g).value.state, g)
  {
    var m' := DeletedManager(m, g).value;
    DeleteGroups(m, g);
    forall group, g' | group in m'.groups.connections && g' in m'.groups.connections[group]
      ensures SameConnection(m.groups.connections, m'.groups.connections, group, g')
    {
      GoneFromGroups(m'.groups, m'.members, g, group);
    }
  }

  /** Deleting a graph keeps the manager steady, whatever the other graphs ask LSI-0 for. */
  lemma DeleteSteady(m: SteadyManager, g: string)
    requires g in m.members && DeletedManager(m, g).Some?
    ensures Steady(DeletedManager(m, g).value)
  {
    DeleteGroups(m, g);
    DeleteStep(m, g);
    DeletedStanding(m.state, DeletedManager(m, g).value.state, g);
  }

  /** From an orderly state, deleting a graph passes every assertion of the source, and leads to an
      orderly state if and only if no equal rule of another graph was in LSI-0 before one of its own. */
  lemma DeleteOrderlyExactly(m: OrderlyManager, g: string)
    requires g in m.members
    ensures DeletedManager(m, g).Some? && Deleted(m.state, DeletedManager(m, g).value.state, g)
    ensures Orderly(DeletedManager(m, g).value) <==> OwnFirst(m.state.node, g)
  {
    DeleteGroups(m, g);
    OwnFound(m.state, g);
    DeleteStep(m, g);
    DeleteSteady(m, g);
    DeletedSaneExactly(m.state, DeletedManager(m, g).value.state, g);
  }
}

/** The graph manager: creating, updating and deleting graphs on the node. */
module GraphManager {
  import opened HighLevel
  import opened FlowTable
  import opened Lsis
  import opened Names
  import opened Options
  import opened Translator
  import opened Forwarding
  import opened Vlinks
  import opened VlinkUpdate
  import opened VlinkRemoval
  import LowGraph
  import opened RuleDiff
  import opened Lifecycle
  import opened Updates
  import opened UpdateLinks
  import opened UpdatePlan
  import opened InternalGroups
  import opened Manager

  // ----- the LSI through an update -----

  lemma GrownAsAnswered(before: seq<VLink>, nextId: nat, answers: seq<(nat, nat)>, made: nat, links: seq<VLink>)
    requires made <= |answers| && forall v :: v in links ==> v in before + Fresh(nextId, answers[..made])
    ensures LinksAsAnswered(before, links, nextId, answers)
  {
  }

  lemma DroppedAsAnswered(before: seq<VLink>, nextId: nat, answers: seq<(nat, nat)>, made: nat, grown: Links,
      now: Links, rules: seq<Rule>, target: seq<Rule>)
    requires made <= |answers| && grown.links == before + Fresh(nextId, answers[..made])
    requires LinksDropped(grown, now, rules, target, nextId + made)
    ensures LinksAsAnswered(before, now.links, nextId, answers)
  {
    LinksLeftAreOld(grown, now, rules, target, nextId + made);
    GrownAsAnswered(before, nextId, answers, made, now.links);
  }

  lemma DoneAsAnswered(lsi: LsiState, change: Change, now: Links, nextId: nat, answers: seq<(nat, nat)>)
    requires LinksAsAnswered(lsi.virtualLinks, now.links, nextId, answers)
    ensures AsAnswered(lsi, change.Done(lsi, now), change, nextId, answers)
  {
    if change.OnlyNew(lsi) {
      DoneReplugs(lsi, change, now);
    }
  }

  /** The links and ports the new rules need. */
  method AddToLsi(lsi: Lsi, rules: seq<Rule>, target: seq<Rule>, change: Change, nextId: nat, answers: seq<(nat, nat)>)
      returns (made: nat, added: seq<Rule>, ghost grown: Links)
    requires Linked(rules, lsi.State(), nextId) && |answers| >= |Added(rules, target)|
    modifies lsi
    ensures made <= |answers| && added == Added(rules, target)
    ensures grown.links == old(lsi.virtualLinks) + Fresh(nextId, answers[..made])
    ensures LinksAdded(Links(old(lsi.virtualLinks), old(lsi.vlinks)), grown, rules, target, nextId, nextId + made)
    ensures lsi.State() == change.Attached(old(lsi.State()), grown)
  {
    added := CalculateDiffRules(rules, target);
    var needs := IdentifyMissing(added, lsi);
    MissingFew(added, lsi.vlinks.Keys);
    AtMostOneEach(needs);
    made := AddMissing(lsi, needs, nextId, answers);
    grown := Links(lsi.virtualLinks, lsi.vlinks);
    lsi.Plug(change.nfs, change.gres);
  }

  /** The old rules go, and with them the links and ports nothing uses any more. */
  method RemoveFromLsi(lsi: Lsi, rules: seq<Rule>, target: seq<Rule>, change: Change, added: seq<Rule>,
      ghost grown: Links, ghost nextId: nat) returns (removed: seq<Rule>, rules': seq<Rule>, ghost now: Links)
    requires DistinctRules(rules) && DistinctRules(target) && added == Added(rules, target)
    requires grown == Links(lsi.virtualLinks, lsi.vlinks) && Tidy(grown.links, grown.vlinks, nextId)
    modifies lsi
    ensures removed == Removed(rules, target) && rules' == Merged(rules, target)
    ensures LinksDropped(grown, now, rules, target, nextId)
    ensures lsi.State() == Unplugged(old(lsi.State()), change.goneNfs, change.goneGres).(virtualLinks := now.links,
                                                                                         vlinks := now.vlinks)
  {
    removed := CalculateDiffRules(target, rules + added);
    GrownDistinct(rules, target);
    MissingMembers(target, rules + added);
    var names;
    rules', names := RemoveRules(rules + added, removed);
    assert names == NamesOf(removed);
    RemoveUselessVlinks(lsi, names, rules', nextId);
    now := Links(lsi.virtualLinks, lsi.vlinks);
    lsi.Unplug(change.goneNfs, change.goneGres);
  }

  /** Adds the links and ports the new version needs and drops what the old one leaves behind: field by field,
      the LSI is then as asked for and as the switch answered. */
  method UpdateLsi(lsi: Lsi, rules: seq<Rule>, target: seq<Rule>, change: Change, nextId: nat, answers: seq<(nat, nat)>)
      returns (made: nat, added: seq<Rule>, removed: seq<Rule>, rules': seq<Rule>, ghost grown: Links, ghost now: Links)
    requires DistinctRules(rules) && DistinctRules(target) && Linked(rules, lsi.State(), nextId)
    requires |answers| >= |Added(rules, target)|
    modifies lsi
    ensures made <= |answers| && added == Added(rules, target) && removed == Removed(rules, target)
    ensures rules' == Merged(rules, target)
    ensures grown.links == old(lsi.virtualLinks) + Fresh(nextId, answers[..made])
    ensures LinksAdded(Links(old(lsi.virtualLinks), old(lsi.vlinks)), grown, rules, target, nextId, nextId + made)
    ensures LinksDropped(grown, now, rules, target, nextId + made)
    ensures lsi.State() == change.Done(old(lsi.State()), now)
    ensures AsAnswered(old(lsi.State()), lsi.State(), change, nextId, answers)
  {
    ghost var was := lsi.State();
    made, added, grown := AddToLsi(lsi, rules, target, change, nextId, answers);
    removed, rules', now := RemoveFromLsi(lsi, rules, target, change, added, grown, nextId + made);
    DroppedAsAnswered(was.virtualLinks, nextId, answers, made, grown, now, rules, target);
    DoneAsAnswered(was, change, now, nextId, answers);
  }

  // ----- the LSI of a new graph -----

  /** New links, numbered on, whose ports are not known yet. */
  method NewLinks(nextId: nat, count: nat) returns (links: seq<VLink>)
    ensures |links| == count && forall i :: 0 <= i < count ==> links[i] == VLink(nextId + i, 0, 0)
  {
    links := [];
    for i := 0 to count
      invariant |links| == i && forall j :: 0 <= j < i ==> links[j] == VLink(nextId + j, 0, 0)
    {
      links := links + [VLink(nextId + i, 0, 0)];
    }
  }

  /** The ports the switch answers, in the order of the links. */
  method SetLinkPorts(lsi: Lsi, nextId: nat, answers: seq<(nat, nat)>)
    requires |lsi.virtualLinks| == |answers| && forall i :: 0 <= i < |answers| ==> lsi.virtualLinks[i].id == nextId + i
    modifies lsi`virtualLinks
    ensures lsi.virtualLinks == Fresh(nextId, answers)
  {
    for i := 0 to |answers|
      invariant |lsi.virtualLinks| == |answers|
      invariant forall j :: 0 <= j < |answers| ==> lsi.virtualLinks[j].id == nextId + j
      invariant forall j :: 0 <= j < i ==> lsi.virtualLinks[j] == Fresh(nextId, answers)[j]
    {
      lsi.SetVlinkPorts(i, answers[i].0, answers[i].1);
    }
  }

  lemma PluggedNew(links: seq<VLink>, nfs: map<string, map<string, nat>>, gres: map<string, nat>)
    ensures Plugged(LsiState(map[], {}, map[], links, map[]), nfs, gres) == LsiState(nfs, gres.Keys, gres, links, map[])
  {
    assert WithPorts(map[], nfs) == nfs;
    assert {} + gres.Keys == gres.Keys && map[] + gres == gres;
  }

  /** The LSI with its ports and links, before any name is given a link. */
  method ConnectLsi(r: Request, nextId: nat, count: nat) returns (lsi: Lsi)
    requires |r.linkPorts| == count
    ensures fresh(lsi) && lsi.State() == r.Lsi(nextId, map[])
  {
    var links := NewLinks(nextId, count);
    lsi := new Lsi(LsiState(map[], {}, map[], links, map[]));
    PluggedNew(links, r.nfPorts, r.grePorts);
    lsi.Plug(r.nfPorts, r.grePorts);
    SetLinkPorts(lsi, nextId, r.linkPorts);
  }

  /** As many links as the larger direction needs, shared between the two. */
  method CreateLsi(r: Request, nextId: nat) returns (lsi: Lsi)
    requires |r.linkPorts| == LinksFor(Required(r.rules))
    ensures fresh(lsi) && lsi.State() == r.Lsi(nextId, lsi.vlinks)
    ensures lsi.vlinks.Keys == Required(r.rules) && OneNamePerDirection(lsi.vlinks)
    ensures Conserved(Fresh(nextId, r.linkPorts), lsi.vlinks)
  {
    var names := IdentifyRequired(r.rules);
    lsi := ConnectLsi(r, nextId, LinksFor(names));
    FreshTidy(nextId, r.linkPorts, nextId + |r.linkPorts|);
    Allocate(lsi, names);
  }

  // ----- internal groups -----

  lemma JoinAllStep(gs: Groups, graph: string, groups: seq<string>, links: seq<VLink>, i: nat)
    requires |links| == |groups| && i < |groups|
    ensures JoinAll(gs, graph, groups[..i + 1], links[..i + 1]) ==
      Join(JoinAll(gs, graph, groups[..i], links[..i]), graph, groups[i], links[i])
  {
    assert groups[..i + 1][..i] == groups[..i] && links[..i + 1][..i] == links[..i];
  }

  lemma AllJoined(gs: Groups, graph: string, internals: seq<string>, nextId: nat, answers: seq<(nat, nat)>)
    requires |answers| == |internals| && Distinct(internals)
    ensures forall i :: 0 <= i < |internals| ==>
      JoinedOver(JoinAll(gs, graph, internals, Fresh(nextId, answers)), graph, internals[i],
                 VLink(nextId + i, answers[i].0, answers[i].1))
  {
    forall i | 0 <= i < |internals| {
      JoinAllJoins(gs, graph, internals, Fresh(nextId, answers), i);
    }
  }

  method JoinEach(gs: Groups, graph: string, internals: seq<string>, nextId: nat, answers: seq<(nat, nat)>)
      returns (gs': Groups)
    requires |answers| == |internals|
    ensures gs' == JoinAll(gs, graph, internals, Fresh(nextId, answers))
  {
    gs' := gs;
    ghost var links := Fresh(nextId, answers);
    for i := 0 to |internals|
      invariant gs' == JoinAll(gs, graph, internals[..i], links[..i])
    {
      JoinAllStep(gs, graph, internals, links, i);
      gs' := Join(gs', graph, internals[i], VLink(nextId + i, answers[i].0, answers[i].1));
    }
    assert internals[..|internals|] == internals && links[..|internals|] == links;
  }

  method HandleGraphForInternalEndpoint(gs: Groups, graph: string, internals: seq<string>, nextId: nat,
      answers: seq<(nat, nat)>) returns (gs': Groups)
    requires |answers| == |internals|
    ensures gs' == JoinAll(gs, graph, internals, Fresh(nextId, answers))
    ensures Distinct(internals) ==> forall i :: 0 <= i < |internals| ==>
      JoinedOver(gs', graph, internals[i], VLink(nextId + i, answers[i].0, answers[i].1))
  {
    gs' := JoinEach(gs, graph, internals, nextId, answers);
    if Distinct(internals) {
      AllJoined(gs, graph, internals, nextId, answers);
    }
  }

  /** The link of the internal LSI that ends at this port of LSI-0. */
  method FindLinkAt(links: seq<VLink>, port: nat) returns (i: nat)
    ensures i == LinkAt(links, port)
  {
    i := 0;
    while i < |links| && links[i].remoteId != port
      invariant i <= LinkAt(links, port)
    {
      i := i + 1;
    }
  }

  /** One group: removed with its last user, otherwise only the graph's rule, link and connection go. */
  method LeaveGroup(gs: Groups, graph: string, group: string) returns (gs': Option<Groups>)
    ensures gs' == Leave(gs, graph, group)
  {
    if group !in gs.lsis || |gs.lsis[group].links| != gs.Times(group) || gs.Times(group) == 0 {
      return None;
    }
    if gs.Times(group) == 1 {
      if group !in gs.connections {
        return None;
      }
      return Some(Groups(gs.created[group := false], gs.timesUsed[group := 0], gs.connections - {group},
                         gs.lsis - {group}));
    }
    var lsi := gs.lsis[group];
    var rules, twin := LowGraph.RemoveRuleFromId(lsi.rules, NormalId(group, graph));
    if graph !in gs.Ports(group) {
      return None;
    }
    var i := FindLinkAt(lsi.links, gs.Ports(group)[graph]);
    if i == |lsi.links| {
      return None;
    }
    var lsiObject := new Lsi(LsiState(map[], {}, map[], lsi.links, map[]));
    lsiObject.RemoveVlink(lsi.links[i].id);
    return Some(Groups(gs.created, gs.timesUsed[group := gs.Times(group) - 1],
                       gs.connections[group := gs.Ports(group) - {graph}],
                       gs.lsis[group := GroupLsi(lsiObject.virtualLinks, rules)]));
  }

  method LeaveGroups(gs: Groups, graph: string, internals: seq<string>) returns (gs': Option<Groups>)
    ensures gs' == LeaveAll(gs, graph, internals)
  {
    var left := gs;
    for i := 0 to |internals|
      invariant LeaveAll(gs, graph, internals) == LeaveAll(left, graph, internals[i..])
    {
      var next := LeaveGroup(left, graph, internals[i]);
      if next.None? {
        return None;
      }
      left := next.value;
    }
    return Some(left);
  }

  method RemoveRulesFromIds(rules: seq<LowRule>, ids: seq<string>) returns (rest: seq<LowRule>)
    ensures rest == LowGraph.WithoutIds(rules, ids)
  {
    rest := rules;
    for i := 0 to |ids|
      invariant LowGraph.WithoutIds(rules, ids) == LowGraph.WithoutIds(rest, ids[i..])
    {
      var twin;
      rest, twin := LowGraph.RemoveRuleFromId(rest, ids[i]);
    }
  }

  // ----- the manager -----

  method JoinGroups(groups: Groups, r: Request, nextId: nat) returns (groups': Groups)
    requires |r.groupPorts| == |r.internals|
    ensures groups' == r.Groups'(groups, nextId)
  {
    groups' := HandleGraphForInternalEndpoint(groups, r.g, r.internals, nextId + |r.linkPorts|, r.groupPorts);
  }

  /** The rules of a new graph on both switches. */
  method LowerBoth(rules: seq<Rule>, g: string, lsi: Lsi, physical: map<string, nat>, connections: Connections)
      returns (table: seq<LowRule>, own: seq<LowRule>)
    requires forall h :: h in rules ==>
      !LowerToLsi0(h, g, lsi.State(), physical, connections).Fail? && !LowerToTenant(h, lsi.State()).Fail?
    ensures table == Lowered(rules, LowerT(lsi.State()))
    ensures own == Lowered(rules, Lower0(g, lsi.State(), physical, connections))
  {
    var low0 := LowerGraphToLsi0(rules, g, lsi, physical, connections);
    var low := LowerGraphToTenant(rules, lsi);
    table, own := low.rules, low0.rules;
  }

  /** The state after a creation, from its pieces. */
  function Assembled(m: Manager, r: Request, lsi: LsiState, groups': Groups, table: seq<LowRule>,
      own: seq<LowRule>): Manager {
    var d := m.state.node;
    var d' := Node(d.physical, groups'.connections, d.tenants[r.g := Tenant(r.rules, lsi, table)], d.lsi0 + own);
    Manager(State(d', m.state.nextId + |r.linkPorts| + |r.groupPorts|), groups', m.members[r.g := r.internals])
  }

  lemma AssembledAfter(c: Creation, lsi: LsiState, groups': Groups, table: seq<LowRule>, own: seq<LowRule>)
    requires |c.r.groupPorts| == |c.r.internals| && groups' == c.r.Groups'(c.m.groups, c.m.state.nextId)
    requires lsi == c.r.Lsi(c.m.state.nextId, c.vlinks)
    requires table == Lowered(c.r.rules, LowerT(lsi))
    requires own == Lowered(c.r.rules, Lower0(c.r.g, lsi, c.m.state.node.physical, groups'.connections))
    ensures Assembled(c.m, c.r, lsi, groups', table, own) == c.After()
  {
  }

  /** Everything a new graph needs: its LSI, its groups and its rules on both switches. */
  method BuildGraph(m: Manager, r: Request) returns (lsi: Lsi, m': Manager, ghost c: GoodCreation)
    requires Steady(m) && r.Fair(m)
    ensures fresh(lsi) && lsi.State() == r.Lsi(m.state.nextId, lsi.vlinks)
    ensures c == Creation(m, r, lsi.vlinks) && m' == c.After()
  {
    lsi := CreateLsi(r, m.state.nextId);
    var groups' := JoinGroups(m.groups, r, m.state.nextId);
    c := Creation(m, r, lsi.vlinks);
    forall h | h in r.rules {
      NewGraphLowers(c, h);
    }
    var table, own := LowerBoth(r.rules, r.g, lsi, m.state.node.physical, groups'.connections);
    AssembledAfter(c, lsi.State(), groups', table, own);
    m' := Assembled(m, r, lsi.State(), groups', table, own);
  }

  /** The state after an update, from its pieces. */
  function Renewed(m: Manager, g: string, rules: seq<Rule>, lsi: LsiState, table: seq<LowRule>, lsi0: seq<LowRule>,
      nextId: nat): Manager {
    var d := m.state.node;
    Manager(State(Node(d.physical, d.connections, d.tenants[g := Tenant(rules, lsi, table)], lsi0), nextId), m.groups,
            m.members)
  }

  lemma RenewedAfter(u: Renewal, lsi: LsiState, table: seq<LowRule>, own: seq<LowRule>)
    requires u.p.g in u.m.state.node.tenants
    requires var t := u.m.state.node.tenants[u.p.g];
      && lsi == u.p.change.Done(t.lsi, u.p.now) && table == Lowered(Added(t.rules, u.p.target), LowerT(lsi))
      && own == Lowered(Added(t.rules, u.p.target),
                        Lower0(u.p.g, lsi, u.m.state.node.physical, u.m.state.node.connections))
    ensures var t := u.m.state.node.tenants[u.p.g];
      Renewed(u.m, u.p.g, Merged(t.rules, u.p.target), lsi,
              LowGraph.WithoutIds(t.table, Ids(Removed(t.rules, u.p.target))) + table,
              LowGraph.WithoutIds(u.m.state.node.lsi0, Lsi0Ids(u.p.g, Removed(t.rules, u.p.target))) + own, u.p.nextId')
      == u.After()
  {
  }

  lemma OfferFair(m: Manager, q: UpdateRequest, made: nat, p: Plan)
    requires q.Fair(m) && made <= |q.linkPorts| && p.g == q.g && p.target == q.target && p.change == q.change
    requires p.grown.links == m.state.node.tenants[q.g].lsi.virtualLinks + Fresh(m.state.nextId, q.linkPorts[..made])
    ensures p.Fair(m.state.node)
  {
    FreshPrefix(m.state.nextId, q.linkPorts, made);
    FairCarries(m.state.node, q.Offer(m), p);
  }

  lemma OfferCarried(s: State, p: Plan, was: Links)
    requires p.g in s.node.tenants && was == Links(s.node.tenants[p.g].lsi.virtualLinks, s.node.tenants[p.g].lsi.vlinks)
    requires LinksAdded(was, p.grown, s.node.tenants[p.g].rules, p.target, s.nextId, p.nextId')
    requires LinksDropped(p.grown, p.now, s.node.tenants[p.g].rules, p.target, p.nextId')
    ensures p.Carried(s)
  {
  }

  lemma OfferTaken(m: SteadyManager, q: UpdateRequest, made: nat, was: Links, grown: Links, now: Links)
      returns (u: GoodRenewal)
    requires q.Fair(m) && made <= |q.linkPorts|
    requires was == Links(m.state.node.tenants[q.g].lsi.virtualLinks, m.state.node.tenants[q.g].lsi.vlinks)
    requires grown.links == was.links + Fresh(m.state.nextId, q.linkPorts[..made])
    requires LinksAdded(was, grown, m.state.node.tenants[q.g].rules, q.target, m.state.nextId, m.state.nextId + made)
    requires LinksDropped(grown, now, m.state.node.tenants[q.g].rules, q.target, m.state.nextId + made)
    ensures u == Renewal(m, Plan(q.g, q.target, q.change, grown, now, m.state.nextId + made))
  {
    var p := Plan(q.g, q.target, q.change, grown, now, m.state.nextId + made);
    OfferFair(m, q, made, p);
    OfferCarried(m.state, p, was);
    u := Renewal(m, p);
  }

  lemma FreshPrefix(nextId: nat, answers: seq<(nat, nat)>, made: nat)
    requires made <= |answers|
    ensures Fresh(nextId, answers[..made]) <= Fresh(nextId, answers)
  {
  }

  lemma TaskFacts(m: SteadyManager, q: UpdateRequest)
    requires q.Fair(m)
    ensures var t := m.state.node.tenants[q.g];
      && DistinctRules(t.rules) && DistinctRules(q.target) && Linked(t.rules, t.lsi, m.state.nextId)
      && |q.linkPorts| >= |Added(t.rules, q.target)|
  {
    assert Settled(m.state.node, q.g, m.state.nextId);
  }

  /** Links and ports of the new version. */
  method RenewLsi(m: Manager, q: UpdateRequest, lsi: Lsi)
      returns (made: nat, added: seq<Rule>, removed: seq<Rule>, rules: seq<Rule>, ghost u: GoodRenewal)
    requires Steady(m) && q.Fair(m) && lsi.State() == m.state.node.tenants[q.g].lsi
    modifies lsi
    ensures u == Renewal(m, Plan(q.g, q.target, q.change, u.p.grown, u.p.now, m.state.nextId + made))
    ensures var t := m.state.node.tenants[q.g];
      && added == Added(t.rules, q.target) && removed == Removed(t.rules, q.target)
      && rules == Merged(t.rules, q.target)
      && lsi.State() == q.change.Done(t.lsi, u.p.now)
      && AsAnswered(t.lsi, lsi.State(), q.change, m.state.nextId, q.linkPorts)
  {
    ghost var was, nextId := m.state.node.tenants[q.g].lsi, m.state.nextId;
    TaskFacts(m, q);
    ghost var grown, now;
    made, added, removed, rules, grown, now := UpdateLsi(lsi, m.state.node.tenants[q.g].rules, q.target, q.change,
                                                         m.state.nextId, q.linkPorts);
    u := OfferTaken(m, q, made, Links(was.virtualLinks, was.vlinks), grown, now);
  }

  /** The old rules out, then the new rules in. */
  method RenewRules(ghost u: GoodRenewal, m: Manager, g: string, lsi: Lsi, added: seq<Rule>, removed: seq<Rule>,
      rules: seq<Rule>, nextId: nat) returns (m': Manager)
    requires u.m == m && u.p.g == g && nextId == u.p.nextId' && g in m.state.node.tenants
    requires var t := m.state.node.tenants[g];
      && added == Added(t.rules, u.p.target) && removed == Removed(t.rules, u.p.target)
      && rules == Merged(t.rules, u.p.target)
      && lsi.State() == u.p.change.Done(t.lsi, u.p.now)
    ensures m' == u.After() && lsi.State() == m'.state.node.tenants[g].lsi
  {
    var lsi0 := RemoveRulesFromIds(m.state.node.lsi0, Lsi0Ids(g, removed));
    var table := RemoveRulesFromIds(m.state.node.tenants[g].table, Ids(removed));
    forall h | h in added {
      UpdateLowers(u, h);
    }
    var newTable, newOwn := LowerBoth(added, g, lsi, m.state.node.physical, m.state.node.connections);
    RenewedAfter(u, lsi.State(), newTable, newOwn);
    m' := Renewed(m, g, rules, lsi.State(), table + newTable, lsi0 + newOwn, nextId);
  }

  /** The whole update of one graph. */
  method BuildUpdate(m: Manager, q: UpdateRequest) returns (m': Manager, ghost u: GoodRenewal)
    requires Steady(m) && q.Fair(m)
    ensures u.m == m && u.p.g == q.g && u.p.target == q.target && u.p.change == q.change && m' == u.After()
    ensures q.g in m'.state.node.tenants
    ensures m'.state.node.tenants[q.g].rules == Merged(m.state.node.tenants[q.g].rules, q.target)
    ensures AsAnswered(m.state.node.tenants[q.g].lsi, m'.state.node.tenants[q.g].lsi, q.change, m.state.nextId,
                       q.linkPorts)
  {
    var lsi := new Lsi(m.state.node.tenants[q.g].lsi);
    var made, added, removed, rules;
    made, added, removed, rules, u := RenewLsi(m, q, lsi);
    m' := RenewRules(u, m, q.g, lsi, added, removed, rules, m.state.nextId + made);
  }

  /** The state after a deletion, from its pieces. */
  function Reduced(m: Manager, g: string, lsi0: seq<LowRule>, groups: Groups): Manager {
    var d := m.state.node;
    Manager(State(Node(d.physical, groups.connections, d.tenants - {g}, lsi0), m.state.nextId), groups, m.members - {g})
  }

  /** The graph's rules are recomputed and taken out of LSI-0, and the graph leaves its groups; None
      where the source fails an assertion. */
  method BuildDelete(m: Manager, g: string) returns (m': Option<Manager>)
    requires Steady(m) && g in m.members
    ensures m' == DeletedManager(m, g)
  {
    var lsi := new Lsi(m.state.node.tenants[g].lsi);
    OwnLowers(m, g);
    var own := LowerGraphToLsi0(m.state.node.tenants[g].rules, g, lsi, m.state.node.physical, m.state.node.connections);
    var rest := LowGraph.RemoveRules(m.state.node.lsi0, own.rules);
    if rest.None? {
      return None;
    }
    var left := LeaveGroups(m.groups, g, m.members[g]);
    if left.None? {
      return None;
    }
    m' := Some(Reduced(m, g, rest.value, left.value));
  }

  lemma OwnLowers(m: SteadyManager, g: string)
    requires g in m.members
    ensures forall h :: h in m.state.node.tenants[g].rules ==>
      !LowerToLsi0(h, g, m.state.node.tenants[g].lsi, m.state.node.physical, m.state.node.connections).Fail?
  {
    forall h | h in m.state.node.tenants[g].rules
      ensures !Half0(m.state.node, g, h).Fail?
    {
      assert Settled(m.state.node, g, m.state.nextId);
      NothingMissing(m.state.node, g, m.state.nextId, h);
    }
  }

  class GraphManager {
    var state: Manager

    ghost predicate Valid()
      reads this
    {
      Steady(state)
    }

    constructor (physical: map<string, nat>)
      requires forall p, q :: p in physical && q in physical && physical[p] == physical[q] ==> p == q
      ensures Valid() && Orderly(state)
      ensures state == Manager(State(Node(physical, map[], map[], []), 0), NO_GROUPS, map[])
    {
      state := Manager(State(Node(physical, map[], map[], []), 0), NO_GROUPS, map[]);
      NoneCounted();
    }

    method NewGraph(r: Request)
      requires Valid() && r.Fair(state)
      modifies this
      ensures Valid() && Created(old(state).state, state.state, r.g) && (Orderly(old(state)) ==> Orderly(state))
      ensures r.g in state.state.node.tenants
      ensures state == r.Manager'(old(state), state.state.node.tenants[r.g].lsi.vlinks)
      ensures AsRequested(old(state), r, state)
    {
      var lsi, next, c := BuildGraph(state, r);
      NewGraphAsRequested(c);
      NewGraphStep(c);
      NewGraphSteady(c);
      if Orderly(state) {
        NewGraphOrderly(c);
      }
      state := next;
    }

    method UpdateGraph(q: UpdateRequest)
      requires Valid() && q.Fair(state)
      modifies this
      ensures Valid() && Updated(old(state).state, state.state, q.g, q.target)
      ensures Replugged(old(state).state.node.tenants[q.g].lsi, state.state.node.tenants[q.g].lsi, q.change)
      ensures LinksAsAnswered(old(state).state.node.tenants[q.g].lsi.virtualLinks,
                              state.state.node.tenants[q.g].lsi.virtualLinks, old(state).state.nextId, q.linkPorts)
      ensures state.groups == old(state).groups && state.members == old(state).members
      ensures Orderly(old(state)) ==> Orderly(state)
    {
      var next, u := BuildUpdate(state, q);
      UpdateStep(u);
      UpdateSteady(u);
      if Orderly(state) {
        UpdateOrderly(u);
      }
      state := next;
    }

    /** False, and nothing happens, if there is no such graph; None where the source fails an assertion,
        which it never does in an orderly state. The state stays valid, and it stays orderly unless an
        equal rule of another graph was in LSI-0 first. */
    method DeleteGraph(g: string) returns (found: Option<bool>)
      requires Valid()
      modifies this
      ensures Valid() && (found == Some(false) <==> g !in old(state).members)
      ensures found != Some(true) ==> state == old(state)
      ensures g in old(state).members ==> DeletedManager(old(state), g) == if found.Some? then Some(state) else None
      ensures found == Some(true) ==>
        Deleted(old(state).state, state.state, g) && state.members == old(state).members - {g}
      ensures Orderly(old(state)) ==>
        found.Some? && (found.value ==> (Orderly(state) <==> OwnFirst(old(state).state.node, g)))
    {
      if g !in state.members {
        return Some(false);
      }
      if Orderly(state) {
        DeleteOrderlyExactly(state, g);
      }
      var next := BuildDelete(state, g);
      if next.None? {
        return None;
      }
      DeleteStep(state, g);
      DeleteSteady(state, g);
      state := next.value;
      return Some(true);
    }
  }
}

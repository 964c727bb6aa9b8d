/** What holds over every run of creations, updates and deletions. */
module Runs {
  import Traces
  import opened HighLevel
  import opened FlowTable
  import opened Lsis
  import opened Options
  import opened Translator
  import opened Forwarding
  import opened Lifecycle
  import opened Updates
  import opened UpdatePlan
  import opened InternalGroups
  import opened Manager
  import opened Isolation
  import LowGraph

  /** One operation of the manager, on graph `g`. A deletion is one that fails no assertion; nothing is
      asked of the other graphs. */
  ghost predicate Next(m: Manager, m': Manager, g: string) {
    || (exists c: GoodCreation :: c.m == m && c.r.g == g && m' == c.After())
    || (exists u: GoodRenewal :: u.m == m && u.p.g == g && m' == u.After())
    || (g in m.state.node.tenants && g in m.members && DeletedManager(m, g) == Some(m'))
  }

  /** The states of a run and the graph each operation was for. */
  ghost predicate Run(ms: seq<Manager>, gs: seq<string>) {
    Traces.Run(ms, gs, Next)
  }

  lemma NextSteady(m: SteadyManager, m': Manager, g: string)
    requires Next(m, m', g)
    ensures Steady(m')
  {
    if c: GoodCreation :| c.m == m && c.r.g == g && m' == c.After() {
      NewGraphSteady(c);
    } else if u: GoodRenewal :| u.m == m && u.p.g == g && m' == u.After() {
      UpdateSteady(u);
    } else {
      DeleteSteady(m, g);
    }
  }

  /** Links, tenant tables, connections and counters agree in every state of every run. */
  lemma RunSteady(ms: seq<Manager>, gs: seq<string>, i: nat)
    requires Run(ms, gs) && Steady(ms[0]) && i <= |gs|
    ensures Steady(ms[i])
  {
    forall m, m', g | Steady(m) && Next(m, m', g)
      ensures Steady(m')
    {
      NextSteady(m, m', g);
    }
    Traces.Always(ms, gs, Next, Steady, i);
  }

  // ----- the list of LSI-0 -----

  /** If the operation deletes the graph, no equal rule of another graph is in LSI-0 before its own. */
  ghost predicate Careful(m: Manager, m': Manager, g: string) {
    g in m.state.node.tenants && g !in m'.state.node.tenants ==> OwnFirst(m.state.node, g)
  }

  lemma CreationCareful(c: GoodCreation)
    ensures Careful(c.m, c.After(), c.r.g) && c.r.g in c.After().state.node.tenants
  {
  }

  lemma UpdateCareful(u: GoodRenewal)
    ensures Careful(u.m, u.After(), u.p.g) && u.p.g in u.After().state.node.tenants
  {
  }

  /** An operation keeps LSI-0 with exactly the lowering of all graphs if and only if it is careful. */
  lemma NextOrderlyExactly(m: OrderlyManager, m': Manager, g: string)
    requires Next(m, m', g)
    ensures Orderly(m') <==> Careful(m, m', g)
  {
    if c: GoodCreation :| c.m == m && c.r.g == g && m' == c.After() {
      NewGraphOrderly(c);
      CreationCareful(c);
    } else if u: GoodRenewal :| u.m == m && u.p.g == g && m' == u.After() {
      UpdateOrderly(u);
      UpdateCareful(u);
    } else {
      DeleteOrderlyExactly(m, g);
    }
  }

  ghost predicate CarefulUntil(ms: seq<Manager>, gs: seq<string>, i: nat) {
    Traces.Until(ms, gs, Careful, i)
  }

  /** Safety: as long as deletions are careful, LSI-0 too holds exactly the lowering of every graph. */
  lemma RunOrderly(ms: seq<Manager>, gs: seq<string>, i: nat)
    requires Run(ms, gs) && Orderly(ms[0]) && i <= |gs| && CarefulUntil(ms, gs, i)
    ensures Orderly(ms[i])
  {
    forall m, m', g | Orderly(m) && Next(m, m', g) && Careful(m, m', g)
      ensures Orderly(m')
    {
      NextOrderlyExactly(m, m', g);
    }
    Traces.Keeps(ms, gs, Next, Careful, Orderly, i);
  }

  /** In every such state, every packet entering anywhere meets the fate the big switches give it, unless
      a rule that can win is lost or rewritten again. */
  lemma RunForwards(ms: seq<Manager>, gs: seq<string>, i: nat, sem: Semantics, hops: nat, at: Location, pos: Position,
      packet: Packet, v: Verdict)
    requires Run(ms, gs) && Orderly(ms[0]) && i <= |gs| && CarefulUntil(ms, gs, i) && Faithful(ms[i].state.node)
    requires Ingress(ms[i].state.node, at, pos) && hops >= 2
    ensures Walk(ms[i].state.node, sem, hops, pos, packet, v) <==> BigSwitch(ms[i].state.node, sem, at, packet, v)
  {
    RunOrderly(ms, gs, i);
    SaneDeployed(ms[i].state);
    NodeIsBigSwitch(ms[i].state.node, sem, hops, at, pos, packet, v);
  }

  // ----- links and groups -----

  /** In every state of every run, the links of a graph are exactly those its names use, no two names of
      one direction share a link, and the names are exactly those its rules require. */
  lemma RunConserves(ms: seq<Manager>, gs: seq<string>, i: nat, g: string)
    requires Run(ms, gs) && Steady(ms[0]) && i <= |gs| && g in ms[i].state.node.tenants
    ensures var t := ms[i].state.node.tenants[g];
      && (set v | v in t.lsi.virtualLinks :: v.id) == t.lsi.vlinks.Values
      && OneNamePerDirection(t.lsi.vlinks) && t.lsi.vlinks.Keys == Required(t.rules)
  {
    RunSteady(ms, gs, i);
    assert Settled(ms[i].state.node, g, ms[i].state.nextId);
    var lsi := ms[i].state.node.tenants[g].lsi;
    SameIds(lsi.virtualLinks, lsi.vlinks);
  }

  lemma SameIds(links: seq<VLink>, vlinks: map<LinkName, nat>)
    requires Conserved(links, vlinks)
    ensures (set v | v in links :: v.id) == vlinks.Values
  {
    forall id
      ensures id in (set v | v in links :: v.id) <==> id in vlinks.Values
    {
      if v :| v in links && v.id == id {
        var a :| a in vlinks && vlinks[a] == id;
      }
      if a :| a in vlinks && vlinks[a] == id {
        assert Find(links, id).Some?;
      }
    }
  }

  /** In every state of every run, a group's counter, connections, links and rules number its users, and
      the group exists exactly while it has some. */
  lemma RunCounts(ms: seq<Manager>, gs: seq<string>, i: nat, group: string)
    requires Run(ms, gs) && Steady(ms[0]) && i <= |gs|
    ensures var users := set g | g in ms[i].members && group in ms[i].members[g];
      var groups := ms[i].groups;
      && groups.Times(group) == |users| && groups.Ports(group).Keys == users && (groups.Created(group) <==> users != {})
      && (users != {} ==>
            group in groups.lsis && |groups.lsis[group].links| == |users| && |groups.lsis[group].rules| == |users|)
  {
    RunSteady(ms, gs, i);
    CountedSays(ms[i].groups, ms[i].members, group);
  }

  /** In every state of every run, what a graph sends to a group is flooded by the group's internal LSI: there
      is a rule for the end of the graph's link there, with no fields, action NORMAL and the highest priority.
      There are no other rules. */
  lemma RunFloods(ms: seq<Manager>, gs: seq<string>, i: nat, group: string)
    requires Run(ms, gs) && Steady(ms[0]) && i <= |gs|
    ensures forall g :: g in ms[i].members && group in ms[i].members[g] ==>
      exists k :: FloodedAt(ms[i].groups, group, g, k)
    ensures group in ms[i].groups.lsis ==> forall k :: 0 <= k < |ms[i].groups.lsis[group].rules| ==>
      UserAt(ms[i].groups, ms[i].members, group, k)
  {
    RunSteady(ms, gs, i);
    var groups, members := ms[i].groups, ms[i].members;
    assert Counted(groups, members, group);
    forall g | g in members && group in members[g] {
      UserFloods(groups, members, group, g);
    }
    if group in groups.lsis {
      forall k | 0 <= k < |groups.lsis[group].rules| {
        RuleOfUser(groups, members, group, k);
      }
    }
  }

  // ----- other graphs -----

  ghost predicate Untouched(s: State, s': State, a: string) {
    && (a in s.node.tenants <==> a in s'.node.tenants)
    && (a in s.node.tenants ==> SameFor(s.node, s'.node, a))
  }

  lemma CreatedOther(s: State, s': State, g: string, a: string)
    requires Created(s, s', g) && a != g
    ensures Untouched(s, s', a)
  {
    assert a in s.node.tenants ==> SameFor(s.node, s'.node, a);
  }

  lemma UpdatedOther(s: State, s': State, g: string, target: seq<Rule>, a: string)
    requires Updated(s, s', g, target) && a != g
    ensures Untouched(s, s', a)
  {
  }

  lemma DeletedOther(s: State, s': State, g: string, a: string)
    requires Deleted(s, s', g) && a != g
    ensures Untouched(s, s', a)
  {
    assert a in s'.node.tenants ==> SameFor(s.node, s'.node, a);
  }

  lemma NextOthers(m: SteadyManager, m': Manager, g: string, a: string)
    requires Next(m, m', g) && a != g
    ensures Untouched(m.state, m'.state, a)
  {
    if c: GoodCreation :| c.m == m && c.r.g == g && m' == c.After() {
      NewGraphStep(c);
      CreatedOther(m.state, m'.state, g, a);
    } else if u: GoodRenewal :| u.m == m && u.p.g == g && m' == u.After() {
      UpdateStep(u);
      UpdatedOther(m.state, m'.state, g, u.p.target, a);
    } else {
      DeleteStep(m, g);
      DeletedOther(m.state, m'.state, g, a);
    }
  }

  ghost predicate SameMember(m: Manager, m': Manager, a: string) {
    (a in m.members <==> a in m'.members) && (a in m.members ==> m'.members[a] == m.members[a])
  }

  lemma NextMembers(m: SteadyManager, m': Manager, g: string, a: string)
    requires Next(m, m', g) && a != g
    ensures SameMember(m, m', a)
  {
  }

  lemma SameForTrans(d: Node, d1: Node, d2: Node, a: string)
    requires SameFor(d, d1, a) && SameFor(d1, d2, a)
    ensures SameFor(d, d2, a)
  {
    forall group
      ensures SameConnection(d.connections, d2.connections, group, a)
    {
      assert SameConnection(d.connections, d1.connections, group, a);
      assert SameConnection(d1.connections, d2.connections, group, a);
    }
  }

  lemma UntouchedTrans(s: State, s1: State, s2: State, a: string)
    requires Untouched(s, s1, a) && Untouched(s1, s2, a)
    ensures Untouched(s, s2, a)
  {
    if a in s.node.tenants {
      SameForTrans(s.node, s1.node, s2.node, a);
    }
  }

  /** Seen from graph `a`, nothing has changed since. */
  ghost predicate Bystander(m: Manager, m': Manager, a: string) {
    Steady(m') && Untouched(m.state, m'.state, a) && SameMember(m, m', a)
  }

  lemma BystanderNext(m0: Manager, m: Manager, m': Manager, g: string, a: string)
    requires Bystander(m0, m, a) && Next(m, m', g) && a != g
    ensures Bystander(m0, m', a)
  {
    NextSteady(m, m', g);
    NextOthers(m, m', g, a);
    NextMembers(m, m', g, a);
    UntouchedTrans(m0.state, m.state, m'.state, a);
  }

  lemma RunOthers(ms: seq<Manager>, gs: seq<string>, a: string)
    requires Run(ms, gs) && Steady(ms[0]) && a !in gs
    ensures Untouched(ms[0].state, ms[|gs|].state, a) && SameMember(ms[0], ms[|gs|], a)
  {
    forall m, m', g | Bystander(ms[0], m, a) && Next(m, m', g) && g != a
      ensures Bystander(ms[0], m', a)
    {
      BystanderNext(ms[0], m, m', g, a);
    }
    Traces.KeepsOn(ms, gs, Next, g => g != a, m => Bystander(ms[0], m, a), |gs|);
  }

  /** The rules LSI-0 has for what graph `a` sends are those it had, and no other graph can name them. */
  ghost predicate Undisturbed(d: Node, d': Node, a: string) {
    SameFor(d, d', a) && SameLinkRules(d, d', a) && Unclaimed(d', a)
  }

  lemma CreationLinkRules(c: GoodCreation, a: string)
    requires a in c.m.state.node.tenants
    ensures SameLinkRules(c.m.state.node, c.After().state.node, a)
  {
    NewGraphStep(c);
    CreatedLinkRules(c.m.state, c.After().state, c.r.g, a);
  }

  lemma RenewalLinkRules(u: GoodRenewal, a: string)
    requires a != u.p.g && a in u.m.state.node.tenants && Unclaimed(u.m.state.node, a)
    ensures SameLinkRules(u.m.state.node, u.After().state.node, a)
  {
    UpdateStep(u);
    UpdatedLinkRules(u.m.state, u.After().state, u.p.g, u.p.target, a);
  }

  lemma DeletionLinkRules(m: SteadyManager, g: string, a: string)
    requires g in m.members && DeletedManager(m, g).Some? && a != g && a in m.state.node.tenants
    ensures SameLinkRules(m.state.node, DeletedManager(m, g).value.state.node, a)
  {
    DeleteStep(m, g);
    DeletedLinkRules(m.state, DeletedManager(m, g).value.state, g, a);
  }

  lemma NextLinkRules(m: SteadyManager, m': Manager, g: string, a: string)
    requires Next(m, m', g) && a != g && a in m.state.node.tenants && Unclaimed(m.state.node, a)
    ensures SameLinkRules(m.state.node, m'.state.node, a)
  {
    if c: GoodCreation :| c.m == m && c.r.g == g && m' == c.After() {
      CreationLinkRules(c, a);
    } else if u: GoodRenewal :| u.m == m && u.p.g == g && m' == u.After() {
      RenewalLinkRules(u, a);
    } else {
      DeletionLinkRules(m, g, a);
    }
  }

  lemma UndisturbedTrans(d: Node, d1: Node, d2: Node, a: string)
    requires Undisturbed(d, d1, a) && SameFor(d1, d2, a) && SameLinkRules(d1, d2, a)
    ensures Undisturbed(d, d2, a)
  {
    SameForTrans(d, d1, d2, a);
    UnclaimedStays(d1, d2, a);
    forall l | AtLinkOf(d, a, l)
      ensures l in d.lsi0 <==> l in d2.lsi0
    {
      SameAtLink(d, d1, a, l);
    }
  }

  ghost predicate Calm(m: Manager, m': Manager, a: string) {
    Steady(m') && Undisturbed(m.state.node, m'.state.node, a)
  }

  lemma CalmNext(m0: Manager, m: Manager, m': Manager, g: string, a: string)
    requires Calm(m0, m, a) && Next(m, m', g) && a != g
    ensures Calm(m0, m', a)
  {
    NextSteady(m, m', g);
    NextOthers(m, m', g, a);
    NextLinkRules(m, m', g, a);
    UndisturbedTrans(m0.state.node, m.state.node, m'.state.node, a);
  }

  lemma RunUndisturbed(ms: seq<Manager>, gs: seq<string>, a: string)
    requires Run(ms, gs) && Steady(ms[0]) && a !in gs
    requires a in ms[0].state.node.tenants && Unclaimed(ms[0].state.node, a)
    ensures Undisturbed(ms[0].state.node, ms[|gs|].state.node, a)
  {
    forall m, m', g | Calm(ms[0], m, a) && Next(m, m', g) && g != a
      ensures Calm(ms[0], m', a)
    {
      CalmNext(ms[0], m, m', g, a);
    }
    Traces.KeepsOn(ms, gs, Next, g => g != a, m => Calm(ms[0], m, a), |gs|);
  }

  /** Isolation: from any state in which the links of graph `a` are its own, no run on other graphs changes
      the fate of a packet sent by a function or a tunnel of `a`, whatever it deletes. */
  lemma RunIsolated(ms: seq<Manager>, gs: seq<string>, a: string, sem: Semantics, hops: nat, port: nat, packet: Packet,
      v: Verdict)
    requires Run(ms, gs) && Steady(ms[0]) && a !in gs && a in ms[0].state.node.tenants && LinksOwn(ms[0].state.node, a)
    ensures Walk(ms[0].state.node, sem, hops, OnTenant(a, port), packet, v)
            <==> Walk(ms[|gs|].state.node, sem, hops, OnTenant(a, port), packet, v)
  {
    OwnUnclaimed(ms[0].state.node, a);
    RunUndisturbed(ms, gs, a);
    RunSteady(ms, gs, |gs|);
    StandingSheltered(ms[0].state, a);
    Isolated(ms[0].state.node, ms[|gs|].state.node, sem, hops, a, port, packet, v);
  }

  // ----- delete undoes create -----

  /** The node holds the same: tenants, members, and all there is to the groups. */
  ghost predicate Restored(m: Manager, m': Manager) {
    && m'.state.node.tenants == m.state.node.tenants && m'.members == m.members
    && m'.groups.connections == m.groups.connections && m'.groups.lsis == m.groups.lsis
    && (forall group :: m'.groups.Created(group) == m.groups.Created(group))
    && (forall group :: m'.groups.Times(group) == m.groups.Times(group))
  }

  ghost predicate SameViews(gs: Groups, gs': Groups) {
    forall group :: ViewOf(gs, group) == ViewOf(gs', group)
  }

  /** While `g` comes and goes alone, the groups are as they were, or as they were and joined by `g`. */
  ghost predicate Alone(gs: Groups, m: Manager, g: string) {
    if g in m.state.node.tenants then exists c: GoodCreation :: Joined(gs, m, g, c) else SameViews(gs, m.groups)
  }

  ghost predicate Joined(gs: Groups, m: Manager, g: string, c: Creation)
    requires |c.r.groupPorts| == |c.r.internals|
  {
    && c.r.g == g && SameViews(gs, c.m.groups) && m.groups == c.After().groups && g in m.members
    && m.members[g] == c.r.internals
  }

  lemma CreationAlone(gs: Groups, c: GoodCreation)
    requires Alone(gs, c.m, c.r.g)
    ensures Alone(gs, c.After(), c.r.g)
  {
    assert Joined(gs, c.After(), c.r.g, c);
  }

  lemma UpdateAlone(gs: Groups, u: GoodRenewal)
    requires Alone(gs, u.m, u.p.g)
    ensures Alone(gs, u.After(), u.p.g)
  {
    var c: GoodCreation :| Joined(gs, u.m, u.p.g, c);
    assert Joined(gs, u.After(), u.p.g, c);
  }

  lemma DeleteAlone(gs: Groups, m: SteadyManager, g: string)
    requires Alone(gs, m, g) && g in m.members && DeletedManager(m, g).Some?
    ensures Alone(gs, DeletedManager(m, g).value, g)
  {
    var c: GoodCreation :| Joined(gs, m, g, c);
    var links := c.r.GroupLinks(c.m.state.nextId);
    NewGraphFresh(c.m, c.r);
    forall group
      ensures ViewOf(gs, group) == ViewOf(DeletedManager(m, g).value.groups, group)
    {
      LeaveAllUndoesJoinAll(c.m.groups, c.m.members, g, c.r.internals, links, group);
    }
  }

  lemma NextAlone(gs: Groups, m: SteadyManager, m': Manager, g: string)
    requires Next(m, m', g) && Alone(gs, m, g)
    ensures Alone(gs, m', g)
  {
    if c: GoodCreation :| c.m == m && c.r.g == g && m' == c.After() {
      CreationAlone(gs, c);
    } else if u: GoodRenewal :| u.m == m && u.p.g == g && m' == u.After() {
      UpdateAlone(gs, u);
    } else {
      DeleteAlone(gs, m, g);
    }
  }

  /** A run of operations on `g` alone, which is not there at first. */
  ghost predicate RunOf(ms: seq<Manager>, gs: seq<string>, g: string) {
    && Run(ms, gs) && Steady(ms[0]) && g !in ms[0].state.node.tenants
    && forall g' :: g' in gs ==> g' == g
  }

  lemma SteadyAlone(gs: Groups, m: Manager, m': Manager, g: string)
    requires Steady(m) && Alone(gs, m, g) && Next(m, m', g)
    ensures Steady(m') && Alone(gs, m', g)
  {
    NextSteady(m, m', g);
    NextAlone(gs, m, m', g);
  }

  lemma RunAlone(ms: seq<Manager>, gs: seq<string>, g: string)
    requires RunOf(ms, gs, g)
    ensures Alone(ms[0].groups, ms[|gs|], g)
  {
    var start := ms[0].groups;
    forall m, m', g' | Steady(m) && Alone(start, m, g) && Next(m, m', g') && g' == g
      ensures Steady(m') && Alone(start, m', g)
    {
      SteadyAlone(start, m, m', g);
    }
    Traces.KeepsOn(ms, gs, Next, g' => g' == g, m => Steady(m) && Alone(start, m, g), |gs|);
  }

  lemma SameGroups(gs: Groups, gs': Groups)
    requires SameViews(gs, gs')
    ensures gs'.connections == gs.connections && gs'.lsis == gs.lsis
    ensures forall group :: gs'.Created(group) == gs.Created(group) && gs'.Times(group) == gs.Times(group)
  {
    forall group
      ensures gs'.Created(group) == gs.Created(group) && gs'.Times(group) == gs.Times(group)
      ensures group in gs.connections <==> group in gs'.connections
      ensures group in gs.lsis <==> group in gs'.lsis
      ensures group in gs.connections ==> gs'.connections[group] == gs.connections[group]
      ensures group in gs.lsis ==> gs'.lsis[group] == gs.lsis[group]
    {
      assert ViewOf(gs, group) == ViewOf(gs', group);
    }
  }

  lemma SameTenants(m: Manager, m': Manager)
    requires forall a :: Untouched(m.state, m'.state, a) && SameMember(m, m', a)
    ensures m'.state.node.tenants == m.state.node.tenants && m'.members == m.members
  {
    forall a
      ensures a in m.state.node.tenants <==> a in m'.state.node.tenants
      ensures a in m.members <==> a in m'.members
    {
      assert Untouched(m.state, m'.state, a) && SameMember(m, m', a);
    }
    forall a | a in m.state.node.tenants
      ensures m'.state.node.tenants[a] == m.state.node.tenants[a]
    {
      assert Untouched(m.state, m'.state, a);
    }
    forall a | a in m.members
      ensures m'.members[a] == m.members[a]
    {
      assert SameMember(m, m', a);
    }
  }

  lemma SameRules(s: SaneState, s': SaneState)
    requires s'.node.tenants.Keys == s.node.tenants.Keys
    requires forall a :: a in s.node.tenants ==> SameFor(s.node, s'.node, a)
    ensures forall l :: l in s.node.lsi0 ==> l in s'.node.lsi0
  {
    forall l | l in s.node.lsi0
      ensures l in s'.node.lsi0
    {
      var g, h :| FromRule(s.node, g, h, l);
      SameFromRule(s.node, s'.node, g, h, l);
    }
  }

  lemma SameLsi0(s: SaneState, s': SaneState)
    requires s'.node.tenants == s.node.tenants && forall a :: Untouched(s, s', a)
    ensures forall l :: l in s'.node.lsi0 <==> l in s.node.lsi0
  {
    forall a | a in s.node.tenants
      ensures SameFor(s.node, s'.node, a) && SameFor(s'.node, s.node, a)
    {
      assert Untouched(s, s', a);
      Symmetric(s.node, s'.node, a);
    }
    SameRules(s, s');
    SameRules(s', s);
  }

  lemma RunTenants(ms: seq<Manager>, gs: seq<string>, g: string)
    requires RunOf(ms, gs, g) && g !in ms[|gs|].state.node.tenants
    ensures forall a :: Untouched(ms[0].state, ms[|gs|].state, a) && SameMember(ms[0], ms[|gs|], a)
  {
    RunSteady(ms, gs, |gs|);
    forall a
      ensures Untouched(ms[0].state, ms[|gs|].state, a) && SameMember(ms[0], ms[|gs|], a)
    {
      if a != g {
        RunOthers(ms, gs, a);
      }
    }
  }

  /** A graph that is created, updated any number of times and deleted leaves the node as it was. */
  lemma DeleteUndoesCreate(ms: seq<Manager>, gs: seq<string>, g: string)
    requires RunOf(ms, gs, g) && g !in ms[|gs|].state.node.tenants
    ensures Restored(ms[0], ms[|gs|])
  {
    RunTenants(ms, gs, g);
    SameTenants(ms[0], ms[|gs|]);
    RunAlone(ms, gs, g);
    SameGroups(ms[0].groups, ms[|gs|].groups);
  }

  /** LSI-0 holds the same rules. */
  ghost predicate SameList(d: Node, d': Node) {
    forall l :: l in d'.lsi0 <==> l in d.lsi0
  }

  /** A list that is as it was is right, if it was. */
  lemma SameListInstalled(s: SaneState, s': State)
    requires SameList(s.node, s'.node) && LowGraph.UniqueIds(s'.node.lsi0)
    requires s'.node.tenants == s.node.tenants && forall a :: Untouched(s, s', a)
    ensures Installed(s'.node)
  {
    forall l
      ensures l in s'.node.lsi0 <==> exists g, h :: FromRule(s'.node, g, h, l)
    {
      if l in s.node.lsi0 {
        var g, h :| FromRule(s.node, g, h, l);
        assert Untouched(s, s', g);
        SameFromRule(s.node, s'.node, g, h, l);
      }
      if g, h :| FromRule(s'.node, g, h, l) {
        assert Untouched(s, s', g);
        SameFromRule(s.node, s'.node, g, h, l);
      }
    }
  }

  /** A run on `g` alone from an orderly state that ends with the first deletion that could go wrong. */
  ghost predicate LastDeletes(ms: seq<Manager>, gs: seq<string>, g: string) {
    && RunOf(ms, gs, g) && gs != [] && Orderly(ms[0]) && CarefulUntil(ms, gs, |gs| - 1)
    && g !in ms[|gs|].state.node.tenants
  }

  /** Only a deletion takes a graph away. */
  lemma NextDeletes(m: Manager, m': Manager, g: string)
    requires Next(m, m', g)
    ensures || g in m'.state.node.tenants
            || (g in m.state.node.tenants && g in m.members && DeletedManager(m, g) == Some(m'))
  {
    if c: GoodCreation :| c.m == m && c.r.g == g && m' == c.After() {
      CreationCareful(c);
    } else if u: GoodRenewal :| u.m == m && u.p.g == g && m' == u.After() {
      UpdateCareful(u);
    }
  }

  lemma LastIsDeletion(ms: seq<Manager>, gs: seq<string>, g: string)
    requires LastDeletes(ms, gs, g)
    ensures var m := ms[|gs| - 1];
      g in m.state.node.tenants && g in m.members && Orderly(m) && DeletedManager(m, g) == Some(ms[|gs|])
  {
    var n := |gs| - 1;
    RunOrderly(ms, gs, n);
    assert gs[n] in gs;
    Traces.StepOf(ms, gs, Next, n);
    NextDeletes(ms[n], ms[n + 1], gs[n]);
  }

  /** LSI-0 is then as it was before the graph came if and only if, when the graph was deleted, no equal
      rule of another graph came before one of its own. */
  lemma DeleteUndoesListExactly(ms: seq<Manager>, gs: seq<string>, g: string)
    requires LastDeletes(ms, gs, g)
    ensures g in ms[|gs| - 1].state.node.tenants
    ensures SameList(ms[0].state.node, ms[|gs|].state.node) <==> OwnFirst(ms[|gs| - 1].state.node, g)
  {
    var m, m' := ms[|gs| - 1], ms[|gs|];
    LastIsDeletion(ms, gs, g);
    DeleteOrderlyExactly(m, g);
    RunTenants(ms, gs, g);
    SameTenants(ms[0], m');
    if SameList(ms[0].state.node, m'.state.node) {
      LowGraph.MinusUnique(m.state.node.lsi0, Own(m.state.node, g));
      SameListInstalled(ms[0].state, m'.state);
      RunSteady(ms, gs, |gs|);
    }
    if OwnFirst(m.state.node, g) {
      SameLsi0(ms[0].state, m'.state);
    }
  }
}

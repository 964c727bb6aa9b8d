/** The pieces of an update, put together: from what the switch answers to a step of the life cycle. */
module UpdatePlan {
  import opened HighLevel
  import opened FlowTable
  import opened Lsis
  import opened Names
  import opened Translator
  import opened Forwarding
  import opened Vlinks
  import LowGraph
  import opened RuleDiff
  import opened Lifecycle
  import opened Updates
  import opened UpdateLinks

  /** Ports attached for new or grown functions and for new tunnels, and what is removed. */
  datatype Change = Change(nfs: map<string, map<string, nat>>, gres: map<string, nat>, goneNfs: set<string>,
                           goneGres: set<string>) {

    /** What the request adds was not there before. */
    ghost predicate OnlyNew(lsi: LsiState) {
      && (forall nf, name :: nf in lsi.nfPorts && nf in nfs && name in lsi.nfPorts[nf] ==> name !in nfs[nf])
      && (forall id :: id in gres ==> id !in lsi.greEndpoints)
    }

    /** The switch when everything new is attached and nothing is detached yet. */
    function Attached(lsi: LsiState, grown: Links): LsiState {
      Plugged(lsi, nfs, gres).(virtualLinks := grown.links, vlinks := grown.vlinks)
    }

    function Done(lsi: LsiState, now: Links): LsiState {
      Unplugged(Plugged(lsi, nfs, gres), goneNfs, goneGres).(virtualLinks := now.links, vlinks := now.vlinks)
    }
  }

  predicate HasPort(ports: map<string, map<string, nat>>, nf: string, name: string) {
    nf in ports && name in ports[nf]
  }

  /** What a change makes of the ports: a function is there unless it is removed, with the ports it had, under
      the numbers they had, and those added, under the numbers the switch answered; so are tunnels. */
  ghost predicate Replugged(lsi: LsiState, lsi': LsiState, change: Change) {
    && (forall nf :: nf in lsi'.nfPorts <==> nf !in change.goneNfs && (nf in lsi.nfPorts || nf in change.nfs))
    && (forall nf, name :: nf in lsi'.nfPorts ==>
         (name in lsi'.nfPorts[nf] <==> HasPort(lsi.nfPorts, nf, name) || HasPort(change.nfs, nf, name)))
    && (forall nf, name :: nf in lsi'.nfPorts && HasPort(lsi.nfPorts, nf, name) ==>
         lsi'.nfPorts[nf][name] == lsi.nfPorts[nf][name])
    && (forall nf, name :: nf in lsi'.nfPorts && HasPort(change.nfs, nf, name) ==>
         lsi'.nfPorts[nf][name] == change.nfs[nf][name])
    && (forall id :: id in lsi'.greEndpoints <==>
         id !in change.goneGres && (id in lsi.greEndpoints || id in change.gres))
    && (forall id :: id in lsi'.greEndpoints && id in lsi.greEndpoints && id in lsi.grePorts ==>
         id in lsi'.grePorts && lsi'.grePorts[id] == lsi.grePorts[id])
    && (forall id :: id in lsi'.greEndpoints && id in change.gres ==>
         id in lsi'.grePorts && lsi'.grePorts[id] == change.gres[id])
  }

  lemma DoneReplugs(lsi: LsiState, change: Change, now: Links)
    requires change.OnlyNew(lsi)
    ensures Replugged(lsi, change.Done(lsi, now), change)
  {
  }

  /** The links are old ones, or made for this and numbered on, with the ends the switch answered. */
  ghost predicate LinksAsAnswered(before: seq<VLink>, links: seq<VLink>, nextId: nat, answers: seq<(nat, nat)>) {
    forall v :: v in links ==>
      || v in before
      || (nextId <= v.id < nextId + |answers| && v.localId == answers[v.id - nextId].0
          && v.remoteId == answers[v.id - nextId].1)
  }

  /** The switch after an update, field by field: what was asked for and what the switch answered. */
  ghost predicate AsAnswered(lsi: LsiState, lsi': LsiState, change: Change, nextId: nat, answers: seq<(nat, nat)>) {
    && (change.OnlyNew(lsi) ==> Replugged(lsi, lsi', change))
    && LinksAsAnswered(lsi.virtualLinks, lsi'.virtualLinks, nextId, answers)
  }

  /** One graph alone, to talk about its endpoints. */
  function Alone(d: Node, g: string, t: Tenant): Node {
    Node(d.physical, d.connections, d.tenants[g := t], [])
  }

  /** An endpoint there before and after keeps its port. */
  lemma EndpointKeepsPort(d: Node, d': Node, g: string, change: Change, now: Links, e: Endpoint)
    requires g in d.tenants && g in d'.tenants && change.OnlyNew(d.tenants[g].lsi)
    requires d'.tenants[g].lsi == change.Done(d.tenants[g].lsi, now)
    requires Attached(d, g, e) && Attached(d', g, e)
    ensures SamePort(d.tenants[g].lsi, d'.tenants[g].lsi, e)
  {
  }

  /** Detaching things takes ports away and moves none. */
  lemma TenantPortWasThere(lsi: LsiState, change: Change, grown: Links, now: Links, x: TenantPort, number: nat)
    requires HasTenantPort(change.Done(lsi, now), x, number) && forall v :: v in now.links ==> v in grown.links
    ensures HasTenantPort(change.Attached(lsi, grown), x, number)
  {
    if x.OfLink? {
      var v :| v in now.links && v.id == x.link && v.localId == number;
      assert v in grown.links;
    }
  }

  lemma TenantPortsStayDistinct(lsi: LsiState, change: Change, grown: Links, now: Links)
    requires TenantPortsDistinct(change.Attached(lsi, grown)) && forall v :: v in now.links ==> v in grown.links
    ensures TenantPortsDistinct(change.Done(lsi, now))
  {
    forall x, number | HasTenantPort(change.Done(lsi, now), x, number) {
      TenantPortWasThere(lsi, change, grown, now, x, number);
    }
  }

  lemma Lsi0PortsStayDistinct(d: Node, d': Node, g: string, t: Tenant)
    requires Lsi0PortsDistinct(Alone(d, g, t)) && d'.physical == d.physical && d'.connections == d.connections
    requires d'.tenants.Keys == (d.tenants[g := t]).Keys
    requires forall g' :: g' in d'.tenants && g' != g ==> d'.tenants[g'] == d.tenants[g']
    requires forall v :: v in d'.tenants[g].lsi.virtualLinks ==> v in t.lsi.virtualLinks
    ensures Lsi0PortsDistinct(d')
  {
    forall x, number | HasLsi0Port(d', x, number)
      ensures HasLsi0Port(Alone(d, g, t), x, number)
    {
      if x.LinkEnd? && x.graph == g {
        var v :| v in d'.tenants[g].lsi.virtualLinks && v.id == x.link && v.remoteId == number;
        assert v in t.lsi.virtualLinks;
      }
    }
  }

  // ----- the step -----

  /** Everything an update did, piece by piece. */
  datatype Plan = Plan(g: string, target: seq<Rule>, change: Change, grown: Links, now: Links, nextId': nat) {

    ghost function Tenant'(t: Tenant): Tenant {
      var lsi' := change.Done(t.lsi, now);
      Tenant(Merged(t.rules, target), lsi',
             LowGraph.WithoutIds(t.table, Ids(Removed(t.rules, target)))
             + Lowered(Added(t.rules, target), LowerT(lsi')))
    }

    ghost function Node'(d: Node): Node
      requires g in d.tenants
    {
      var t := d.tenants[g];
      Node(d.physical, d.connections, d.tenants[g := Tenant'(t)],
           LowGraph.WithoutIds(d.lsi0, Lsi0Ids(g, Removed(t.rules, target)))
           + Lowered(Added(t.rules, target), Lower0(g, change.Done(t.lsi, now), d.physical, d.connections)))
    }

    /** What the request and the switch owe: rules with distinct ids and names between endpoints that
        exist, new things that are new, and ports not in use. */
    ghost predicate Fair(d: Node)
      requires g in d.tenants
    {
      var t := d.tenants[g];
      && DistinctRules(target) && change.OnlyNew(t.lsi)
      && Supported(Node'(d), g) && NamesDistinct(Node'(d))
      && TenantPortsDistinct(change.Attached(t.lsi, grown))
      && Lsi0PortsDistinct(Alone(d, g, Tenant([], change.Attached(t.lsi, grown), [])))
    }

    ghost predicate Carried(s: State)
      requires g in s.node.tenants
    {
      var t := s.node.tenants[g];
      && LinksAdded(Links(t.lsi.virtualLinks, t.lsi.vlinks), grown, t.rules, target, s.nextId, nextId')
      && LinksDropped(grown, now, t.rules, target, nextId')
    }
  }

  lemma PlanKeepsPorts(s: StandingState, p: Plan, h: Rule)
    requires p.g in s.node.tenants && p.Fair(s.node) && h in s.node.tenants[p.g].rules && HasId(p.target, h.id)
    ensures SamePort(s.node.tenants[p.g].lsi, p.Tenant'(s.node.tenants[p.g]).lsi, h.On())
    ensures SamePort(s.node.tenants[p.g].lsi, p.Tenant'(s.node.tenants[p.g]).lsi, h.To())
  {
    var d, d' := s.node, p.Node'(s.node);
    assert Settled(d, p.g, s.nextId);
    KeptOrAdded(d.tenants[p.g].rules, p.target, h);
    assert h in d'.tenants[p.g].rules;
    EndpointKeepsPort(d, d', p.g, p.change, p.now, h.On());
    EndpointKeepsPort(d, d', p.g, p.change, p.now, h.To());
  }

  lemma LinksLeftAreOld(grown: Links, now: Links, mine: seq<Rule>, target: seq<Rule>, nextId: nat)
    requires LinksDropped(grown, now, mine, target, nextId)
    ensures forall v :: v in now.links ==> v in grown.links
  {
    forall v | v in now.links {
      KeptLinkWasThere(grown, now, nextId, v);
    }
  }

  lemma PlanUpdatesTenant(s: StandingState, p: Plan)
    requires p.g in s.node.tenants && p.Fair(s.node) && p.Carried(s) && s.nextId <= p.nextId'
    ensures TenantUpdated(s.node.tenants[p.g], p.Tenant'(s.node.tenants[p.g]), p.target, p.nextId')
  {
    var t := s.node.tenants[p.g];
    var t', was := p.Tenant'(t), Links(t.lsi.virtualLinks, t.lsi.vlinks);
    assert Settled(s.node, p.g, s.nextId);
    UpdatedLinked(was, p.grown, p.now, t.rules, p.target, s.nextId, p.nextId', t'.lsi);
    LinksLeftAreOld(p.grown, p.now, t.rules, p.target, p.nextId');
    TenantPortsStayDistinct(t.lsi, p.change, p.grown, p.now);
    forall a | a in t.lsi.vlinks && a in t'.lsi.vlinks {
      UpdatedSameLinks(was, p.grown, p.now, t.rules, p.target, s.nextId, p.nextId', a);
    }
    forall h | h in t.rules && HasId(p.target, h.id) {
      PlanKeepsPorts(s, p, h);
    }
  }

  lemma FewerLinksPorts(d: Node, p: Plan)
    requires p.g in d.tenants && forall v :: v in p.now.links ==> v in p.grown.links
    requires Lsi0PortsDistinct(Alone(d, p.g, Tenant([], p.change.Attached(d.tenants[p.g].lsi, p.grown), [])))
    ensures Lsi0PortsDistinct(p.Node'(d))
  {
    Lsi0PortsStayDistinct(d, p.Node'(d), p.g, Tenant([], p.change.Attached(d.tenants[p.g].lsi, p.grown), []));
  }

  lemma PlanPorts(s: State, p: Plan)
    requires p.g in s.node.tenants && p.Fair(s.node) && p.Carried(s)
    ensures Lsi0PortsDistinct(p.Node'(s.node))
  {
    LinksLeftAreOld(p.grown, p.now, s.node.tenants[p.g].rules, p.target, p.nextId');
    FewerLinksPorts(s.node, p);
  }

  lemma PlanUpdates(s: StandingState, p: Plan)
    requires p.g in s.node.tenants && p.Fair(s.node) && p.Carried(s) && s.nextId <= p.nextId'
    ensures Updated(s, State(p.Node'(s.node), p.nextId'), p.g, p.target)
  {
    PlanUpdatesTenant(s, p);
    PlanPorts(s, p);
  }
}

/** Tenants share LSI-0, yet no graph can influence what another graph's functions and tunnels send. */
module Isolation {
  import opened HighLevel
  import opened FlowTable
  import opened Lsis
  import opened Translator
  import opened Forwarding
  import opened Names
  import opened RuleDiff
  import opened Lifecycle
  import opened Updates
  import LowGraph

  /** The rule looks at what comes up a link of graph `a`. */
  ghost predicate AtLinkOf(d: Node, a: string, l: LowRule) {
    && a in d.tenants
    && (|| l.pattern.inPort.None?
        || exists v :: v in d.tenants[a].lsi.virtualLinks && v.remoteId == l.pattern.inPort.value)
  }

  /** What LSI-0 applies to what comes up the links of `a` are rules of `a`, not leftovers of others. */
  ghost predicate LinksOwn(d: Node, a: string) {
    forall l :: l in d.lsi0 && AtLinkOf(d, a, l) ==> exists h :: FromRule(d, a, h, l)
  }

  ghost predicate Sheltered(d: Node, a: string) {
    a in d.tenants && Ready(d, a) && Lsi0PortsDistinct(d) && LinksOwn(d, a)
  }

  /** What hits at a link of graph `a` then comes from a rule of `a` that leaves its LSI. */
  lemma LinkHitIsOwn(d: Node, sem: Semantics, a: string, link: VLink, packet: Packet, l: LowRule) returns (h: Rule)
    requires Sheltered(d, a) && link in d.tenants[a].lsi.virtualLinks && Hit(sem, d.lsi0, link.remoteId, packet, l)
    ensures FromRule(d, a, h, l) && h.On().Inner() && !h.To().Inner()
  {
    assert AtLinkOf(d, a, l);
    h :| FromRule(d, a, h, l);
    assert HasLsi0Port(d, LinkEnd(a, link.id), link.remoteId);
    Lsi0Origin(d, sem, LinkEnd(a, link.id), link.remoteId, packet, a, h, l);
    Half0Shape(d, a, h);
  }

  /** LSI-0 treats what comes up the links of `a` by the same rules. */
  ghost predicate SameLinkRules(d: Node, d': Node, a: string) {
    forall l :: AtLinkOf(d, a, l) ==> (l in d.lsi0 <==> l in d'.lsi0)
  }

  lemma Symmetric(d: Node, d': Node, a: string)
    requires SameFor(d, d', a)
    ensures SameFor(d', d, a)
  {
    forall group
      ensures SameConnection(d'.connections, d.connections, group, a)
    {
      assert SameConnection(d.connections, d'.connections, group, a);
    }
  }

  lemma LinkHitSame(d: Node, d': Node, sem: Semantics, a: string, link: VLink, packet: Packet, l: LowRule)
    requires SameLinkRules(d, d', a) && a in d.tenants && link in d.tenants[a].lsi.virtualLinks
    ensures Hit(sem, d.lsi0, link.remoteId, packet, l) <==> Hit(sem, d'.lsi0, link.remoteId, packet, l)
  {
    if Accepts(sem, l.pattern, link.remoteId, packet) {
      assert AtLinkOf(d, a, l);
    }
  }

  /** Such a rule sends a packet out of the node, and to the same place. */
  lemma LinkLandsSame(d: Node, d': Node, sem: Semantics, a: string, link: VLink, packet: Packet, l: LowRule,
      sent: Packet, s: Stage)
    requires Sheltered(d, a) && SameFor(d, d', a) && Lsi0PortsDistinct(d')
    requires link in d.tenants[a].lsi.virtualLinks && Hit(sem, d.lsi0, link.remoteId, packet, l)
    ensures l.action.Output?
    ensures Lands(d, OnLsi0(link.remoteId), l.action.port, sent, s)
            <==> Lands(d', OnLsi0(link.remoteId), l.action.port, sent, s)
    ensures Lands(d, OnLsi0(link.remoteId), l.action.port, sent, s) ==> s.Done?
  {
    var h := LinkHitIsOwn(d, sem, a, link, packet, l);
    Half0Shape(d, a, h);
    if h.To().Internal? {
      assert SameConnection(d.connections, d'.connections, h.To().group, a);
    }
    LandsOutside(d, OnLsi0(link.remoteId), a, h.To(), l.action.port, sent, s);
    LandsOutside(d', OnLsi0(link.remoteId), a, h.To(), l.action.port, sent, s);
  }

  lemma LinkExecutesSame(d: Node, d': Node, sem: Semantics, a: string, link: VLink, packet: Packet, l: LowRule,
      s: Stage)
    requires Sheltered(d, a) && SameFor(d, d', a) && Lsi0PortsDistinct(d') && link in d.tenants[a].lsi.virtualLinks
    requires forall k :: Hit(sem, d.lsi0, link.remoteId, packet, k) <==> Hit(sem, d'.lsi0, link.remoteId, packet, k)
    ensures Executes(d, sem, OnLsi0(link.remoteId), packet, l, s)
            <==> Executes(d', sem, OnLsi0(link.remoteId), packet, l, s)
    ensures Executes(d, sem, OnLsi0(link.remoteId), packet, l, s) ==> s.Done?
  {
    if Hit(sem, d.lsi0, link.remoteId, packet, l) && l.action.Output? {
      LinkLandsSame(d, d', sem, a, link, packet, l, Apply(sem, l.action.generic, packet), s);
    }
  }

  lemma StepSame(d: Node, d': Node, sem: Semantics, pos: Position, packet: Packet, s: Stage)
    requires forall l :: Hit(sem, TableAt(d, pos), pos.port, packet, l) <==>
      Hit(sem, TableAt(d', pos), pos.port, packet, l)
    requires forall l :: Executes(d, sem, pos, packet, l, s) <==> Executes(d', sem, pos, packet, l, s)
    ensures Step(d, sem, pos, packet, s) <==> Step(d', sem, pos, packet, s)
  {
    assert (exists l :: Hit(sem, TableAt(d, pos), pos.port, packet, l))
           <==> (exists l :: Hit(sem, TableAt(d', pos), pos.port, packet, l));
    assert (exists l :: Executes(d, sem, pos, packet, l, s)) <==> (exists l :: Executes(d', sem, pos, packet, l, s));
  }

  lemma LinkStepSame(d: Node, d': Node, sem: Semantics, a: string, link: VLink, packet: Packet, s: Stage)
    requires Sheltered(d, a) && SameFor(d, d', a) && SameLinkRules(d, d', a) && Lsi0PortsDistinct(d')
    requires link in d.tenants[a].lsi.virtualLinks
    ensures Step(d, sem, OnLsi0(link.remoteId), packet, s) <==> Step(d', sem, OnLsi0(link.remoteId), packet, s)
    ensures Step(d, sem, OnLsi0(link.remoteId), packet, s) ==> s.Done?
  {
    forall k {
      LinkHitSame(d, d', sem, a, link, packet, k);
    }
    forall l {
      LinkExecutesSame(d, d', sem, a, link, packet, l, s);
    }
    StepSame(d, d', sem, OnLsi0(link.remoteId), packet, s);
  }

  lemma LinkWalkSame(d: Node, d': Node, sem: Semantics, hops: nat, a: string, link: VLink, packet: Packet,
      v: Verdict)
    requires Sheltered(d, a) && SameFor(d, d', a) && SameLinkRules(d, d', a) && Lsi0PortsDistinct(d')
    requires link in d.tenants[a].lsi.virtualLinks
    ensures Walk(d, sem, hops, OnLsi0(link.remoteId), packet, v)
            <==> Walk(d', sem, hops, OnLsi0(link.remoteId), packet, v)
  {
    forall s {
      LinkStepSame(d, d', sem, a, link, packet, s);
    }
  }

  lemma TenantStepSame(d: Node, d': Node, sem: Semantics, a: string, port: nat, packet: Packet, s: Stage)
    requires SameFor(d, d', a)
    ensures Step(d, sem, OnTenant(a, port), packet, s) <==> Step(d', sem, OnTenant(a, port), packet, s)
  {
    var pos := OnTenant(a, port);
    assert forall out, x :: Wired(d, pos, out, x) <==> Wired(d', pos, out, x);
    assert forall out, sent :: Lands(d, pos, out, sent, s) <==> Lands(d', pos, out, sent, s);
    assert forall l :: Executes(d, sem, pos, packet, l, s) <==> Executes(d', sem, pos, packet, l, s);
    StepSame(d, d', sem, pos, packet, s);
  }

  lemma TenantMoves(d: Node, sem: Semantics, a: string, port: nat, packet: Packet, s: Stage) returns (link: VLink)
    requires Step(d, sem, OnTenant(a, port), packet, s) && s.Moved?
    ensures a in d.tenants && link in d.tenants[a].lsi.virtualLinks && s.pos == OnLsi0(link.remoteId)
  {
    var pos := OnTenant(a, port);
    var l :| Executes(d, sem, pos, packet, l, s);
    var sent := Apply(sem, l.action.generic, packet);
    var x :| Wired(d, pos, l.action.port, x) &&
      s == if x.Leaves? then Done(Deliver(x.at, sent)) else Moved(x.pos, sent);
    link :| link in d.tenants[a].lsi.virtualLinks && link.localId == l.action.port && link.remoteId == x.pos.port;
  }

  /** Two states of the node that agree on graph `a` and on what comes up its links treat every packet
      sent by its functions and tunnels alike, whatever the other graphs and whatever the rules of `a`. */
  lemma Isolated(d: Node, d': Node, sem: Semantics, hops: nat, a: string, port: nat, packet: Packet, v: Verdict)
    requires Sheltered(d, a) && SameFor(d, d', a) && SameLinkRules(d, d', a) && Lsi0PortsDistinct(d')
    ensures Walk(d, sem, hops, OnTenant(a, port), packet, v) <==> Walk(d', sem, hops, OnTenant(a, port), packet, v)
  {
    if hops > 0 {
      forall s
        ensures Step(d, sem, OnTenant(a, port), packet, s) <==> Step(d', sem, OnTenant(a, port), packet, s)
        ensures Step(d, sem, OnTenant(a, port), packet, s) && s.Moved? ==>
          (Walk(d, sem, hops - 1, s.pos, s.packet, v) <==> Walk(d', sem, hops - 1, s.pos, s.packet, v))
      {
        TenantStepSame(d, d', sem, a, port, packet, s);
        if Step(d, sem, OnTenant(a, port), packet, s) && s.Moved? {
          var link := TenantMoves(d, sem, a, port, packet, s);
          LinkWalkSame(d, d', sem, hops - 1, a, link, s.packet, v);
        }
      }
    }
  }

  // ----- what operations on other graphs do to these rules -----

  lemma OwnElsewhere(d: Node, g: string, h: Rule, l: LowRule, a: string)
    requires Lsi0PortsDistinct(d) && FromRule(d, g, h, l) && Ready(d, g) && a != g
    ensures !AtLinkOf(d, a, l)
  {
    Half0Shape(d, g, h);
    forall v | a in d.tenants && v in d.tenants[a].lsi.virtualLinks
      ensures v.remoteId != l.pattern.inPort.value
    {
      assert HasLsi0Port(d, LinkEnd(a, v.id), v.remoteId);
    }
  }

  lemma OwnListElsewhere(s: StandingState, g: string, l: LowRule, a: string)
    requires g in s.node.tenants && a != g && l in Own(s.node, g)
    ensures !AtLinkOf(s.node, a, l)
  {
    assert Settled(s.node, g, s.nextId);
    SettledReady(s.node, g, s.nextId);
    OwnMembers(s.node, g, l);
    var h :| FromRule(s.node, g, h, l);
    OwnElsewhere(s.node, g, h, l, a);
  }

  lemma SameAtLink(d: Node, d': Node, a: string, l: LowRule)
    requires SameFor(d, d', a)
    ensures AtLinkOf(d, a, l) <==> AtLinkOf(d', a, l)
  {
  }

  lemma CreatedLinkRules(s: StandingState, s': State, g: string, a: string)
    requires Created(s, s', g) && a in s.node.tenants
    ensures SameLinkRules(s.node, s'.node, a)
  {
    CreatedStanding(s, s', g);
    assert SameFor(s.node, s'.node, a);
    forall l | AtLinkOf(s.node, a, l)
      ensures l !in Own(s'.node, g)
    {
      SameAtLink(s.node, s'.node, a, l);
      if l in Own(s'.node, g) {
        OwnListElsewhere(s', g, l, a);
      }
    }
  }

  lemma DeletedLinkRules(s: StandingState, s': State, g: string, a: string)
    requires Deleted(s, s', g) && a in s'.node.tenants
    ensures SameLinkRules(s.node, s'.node, a)
  {
    forall l | AtLinkOf(s.node, a, l)
      ensures l in s.node.lsi0 <==> l in s'.node.lsi0
    {
      LowGraph.MinusMembers(s.node.lsi0, Own(s.node, g), l);
      forall x | x in Own(s.node, g)
        ensures !LowGraph.SameFlow(l, x)
      {
        OwnListElsewhere(s, g, x, a);
      }
    }
  }

  /** The name of a rule of `a`. */
  ghost predicate NamedBy(d: Node, a: string, id: string) {
    exists h :: Holds(d, a, h) && id == RuleName(a, h.id)
  }

  /** A name a rule of another graph could have. */
  ghost predicate Foreign(a: string, id: string) {
    exists g, x :: g != a && id == RuleName(g, x)
  }

  /** No other graph can name a rule LSI-0 has at the links of `a`. */
  ghost predicate Unclaimed(d: Node, a: string) {
    forall l :: l in d.lsi0 && AtLinkOf(d, a, l) ==> NamedBy(d, a, l.id) || !Foreign(a, l.id)
  }

  lemma OwnUnclaimed(d: Node, a: string)
    requires LinksOwn(d, a)
    ensures Unclaimed(d, a)
  {
    forall l | l in d.lsi0 && AtLinkOf(d, a, l)
      ensures NamedBy(d, a, l.id)
    {
      var h :| FromRule(d, a, h, l);
      FromRuleName(d, a, h, l);
    }
  }

  lemma UnclaimedStays(d: Node, d': Node, a: string)
    requires Unclaimed(d, a) && SameFor(d, d', a) && SameLinkRules(d, d', a)
    ensures Unclaimed(d', a)
  {
    forall l | l in d'.lsi0 && AtLinkOf(d', a, l)
      ensures NamedBy(d', a, l.id) || !Foreign(a, l.id)
    {
      SameAtLink(d, d', a, l);
      if h :| Holds(d, a, h) && l.id == RuleName(a, h.id) {
        assert Holds(d', a, h);
      }
    }
  }

  /** In a sane state all links are a graph's own. */
  lemma SaneLinksOwn(s: SaneState, a: string)
    ensures LinksOwn(s.node, a)
  {
    forall l | l in s.node.lsi0 && AtLinkOf(s.node, a, l)
      ensures exists h :: FromRule(s.node, a, h, l)
    {
      var g, h :| FromRule(s.node, g, h, l);
      OwnMembers(s.node, g, l);
      if g != a {
        OwnListElsewhere(s, g, l, a);
      }
    }
  }

  /** A new graph has its links to itself if and only if each rule that was in LSI-0 for one of their ports
      is also one the new graph asks for. */
  lemma NewLinksOwnExactly(s: StandingState, s': State, g: string)
    requires Created(s, s', g)
    ensures LinksOwn(s'.node, g) <==> forall l :: l in s.node.lsi0 && AtLinkOf(s'.node, g, l) ==> l in Own(s'.node, g)
  {
    forall l {
      OwnMembers(s'.node, g, l);
    }
  }

  lemma UpdatedLinkRules(s: StandingState, s': State, g: string, target: seq<Rule>, a: string)
    requires Updated(s, s', g, target) && a in s.node.tenants && a != g && Unclaimed(s.node, a)
    ensures SameLinkRules(s.node, s'.node, a)
  {
    var d, d', rules := s.node, s'.node, s.node.tenants[g].rules;
    var ids, added := Lsi0Ids(g, Removed(rules, target)), Lowered(Added(rules, target),
        Lower0(g, d'.tenants[g].lsi, d'.physical, d'.connections));
    UpdatedStanding(s, s', g, target);
    forall l | AtLinkOf(d, a, l)
      ensures l in d.lsi0 <==> l in d'.lsi0
    {
      LowGraph.WithoutIdsOthers(d.lsi0, ids, l);
      SameAtLink(d, d', a, l);
      if l in added {
        AddedIsOwn(s, s', g, target, l);
        OwnListElsewhere(s', g, l, a);
      }
      if l in d.lsi0 {
        NotRemoved(s, g, target, a, l);
      }
    }
  }

  lemma AddedIsOwn(s: StandingState, s': State, g: string, target: seq<Rule>, l: LowRule)
    requires Updated(s, s', g, target)
    requires l in Lowered(Added(s.node.tenants[g].rules, target),
                          Lower0(g, s'.node.tenants[g].lsi, s'.node.physical, s'.node.connections))
    ensures l in Own(s'.node, g)
  {
    var rules, d' := s.node.tenants[g].rules, s'.node;
    assert Settled(s.node, g, s.nextId);
    LoweredMembers(Added(rules, target), Lower0(g, d'.tenants[g].lsi, d'.physical, d'.connections), l);
    var h :| h in Added(rules, target) && Lower0(g, d'.tenants[g].lsi, d'.physical, d'.connections)(h) == Emit(l);
    KeptOrAdded(rules, target, h);
    assert FromRule(d', g, h, l);
    OwnMembers(d', g, l);
  }

  lemma NotRemoved(s: StandingState, g: string, target: seq<Rule>, a: string, l: LowRule)
    requires g in s.node.tenants && a != g && l in s.node.lsi0 && AtLinkOf(s.node, a, l) && Unclaimed(s.node, a)
    ensures l.id !in Lsi0Ids(g, Removed(s.node.tenants[g].rules, target))
  {
    var removed := Removed(s.node.tenants[g].rules, target);
    Lsi0IdsMembers(g, removed, l.id);
    RemovedMembers(s.node.tenants[g].rules, target);
    forall x | x in removed
      ensures RuleName(g, x.id) != l.id
    {
      assert Holds(s.node, g, x);
      if RuleName(g, x.id) == l.id {
        assert Foreign(a, l.id);
      }
    }
  }

  lemma StandingSheltered(s: StandingState, a: string)
    requires a in s.node.tenants && LinksOwn(s.node, a)
    ensures Sheltered(s.node, a)
  {
    assert Settled(s.node, a, s.nextId);
    SettledReady(s.node, a, s.nextId);
  }

  /** Deleting another graph, even one that shares a rule, changes no fate of what `a` sends. */
  lemma DeleteIsolates(s: StandingState, s': State, g: string, sem: Semantics, hops: nat, a: string, port: nat,
      packet: Packet, v: Verdict)
    requires Deleted(s, s', g) && a in s'.node.tenants && LinksOwn(s.node, a)
    ensures Walk(s.node, sem, hops, OnTenant(a, port), packet, v)
            <==> Walk(s'.node, sem, hops, OnTenant(a, port), packet, v)
  {
    StandingSheltered(s, a);
    DeletedStanding(s, s', g);
    DeletedLinkRules(s, s', g, a);
    assert SameFor(s.node, s'.node, a);
    Isolated(s.node, s'.node, sem, hops, a, port, packet, v);
  }
}

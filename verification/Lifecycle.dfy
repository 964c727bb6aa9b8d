/** Graphs come, change and go: what every step keeps, and so what holds in every run. */
module Lifecycle {
  import opened HighLevel
  import opened FlowTable
  import opened Lsis
  import opened Names
  import opened Options
  import opened Translator
  import opened Forwarding
  import opened Vlinks
  import LowGraph
  import opened RuleDiff

  datatype State = State(node: Node, nextId: nat)

  // ----- the invariant -----

  predicate Holds(d: Node, g: string, h: Rule) {
    g in d.tenants && h in d.tenants[g].rules
  }

  /** Rule names of LSI-0 tell the rules of all graphs apart. */
  ghost predicate NamesDistinct(d: Node) {
    forall g, h, g', h' :: Holds(d, g, h) && Holds(d, g', h') && RuleName(g, h.id) == RuleName(g', h'.id) ==>
      g == g' && h.id == h'.id
  }

  ghost predicate Supported(d: Node, g: string)
    requires g in d.tenants
  {
    forall h :: h in d.tenants[g].rules ==> Translatable(h) && Attached(d, g, h.On()) && Attached(d, g, h.To())
  }

  /** Virtual links are conserved, and the named ones are those the rules require. */
  ghost predicate Linked(rules: seq<Rule>, lsi: LsiState, nextId: nat) {
    && Tidy(lsi.virtualLinks, lsi.vlinks, nextId)
    && forall a :: a in lsi.vlinks <==> a in Required(rules)
  }

  /** The table is exactly the lowering of the rules. */
  ghost predicate TableExact(t: Tenant) {
    && LowGraph.UniqueIds(t.table)
    && forall l :: l in t.table <==> exists h :: h in t.rules && LowerToTenant(h, t.lsi) == Emit(l)
  }

  ghost predicate Settled(d: Node, g: string, nextId: nat) {
    && g in d.tenants && DistinctRules(d.tenants[g].rules) && Supported(d, g)
    && Linked(d.tenants[g].rules, d.tenants[g].lsi, nextId) && TenantPortsDistinct(d.tenants[g].lsi)
    && TableExact(d.tenants[g])
  }

  /** LSI-0 holds exactly the lowering of every graph, each rule once. */
  ghost predicate Installed(d: Node) {
    && LowGraph.UniqueIds(d.lsi0)
    && forall l :: l in d.lsi0 <==> exists g, h :: FromRule(d, g, h, l)
  }

  /** Everything but the list of LSI-0. */
  ghost predicate Standing(s: State) {
    && Lsi0PortsDistinct(s.node) && NamesDistinct(s.node)
    && forall g {:trigger Settled(s.node, g, s.nextId)} :: g in s.node.tenants ==> Settled(s.node, g, s.nextId)
  }

  ghost predicate Sane(s: State) {
    Standing(s) && Installed(s.node)
  }

  type StandingState = s: State | Standing(s) ghost witness State(EMPTY_NODE, 0)
  type SaneState = s: State | Sane(s) ghost witness State(EMPTY_NODE, 0)

  // ----- the invariant suffices to forward -----

  /** Link analysis and compiler agree: every link a translation looks up is there. */
  lemma LinkedFinds(rules: seq<Rule>, lsi: LsiState, nextId: nat, h: Rule)
    requires Linked(rules, lsi, nextId) && h in rules && h.Crosses()
    ensures Link(lsi, h.To()).Some?
  {
    assert h.To().Key() in Required(rules);
  }

  lemma SettledReady(d: Node, g: string, nextId: nat)
    requires Settled(d, g, nextId)
    ensures Ready(d, g) && CompiledTenant(d.tenants[g])
  {
    forall h | h in d.tenants[g].rules && h.Crosses()
      ensures Link(d.tenants[g].lsi, h.To()).Some?
    {
      LinkedFinds(d.tenants[g].rules, d.tenants[g].lsi, nextId, h);
    }
  }

  /** After any create or update, neither translation meets a missing link, port or function. */
  lemma NothingMissing(d: Node, g: string, nextId: nat, h: Rule)
    requires Settled(d, g, nextId) && h in d.tenants[g].rules
    ensures !Half0(d, g, h).Fail? && !LowerToTenant(h, d.tenants[g].lsi).Fail?
  {
    SettledReady(d, g, nextId);
    FoundInLsi0(d, g, h);
    FoundInTenant(d, g, h);
  }

  ghost predicate Placed(d: Node, g: string, h: Rule) {
    && g in d.tenants && Translatable(h) && Attached(d, g, h.On()) && Attached(d, g, h.To())
    && (h.Crosses() ==> Link(d.tenants[g].lsi, h.To()).Some?)
  }

  lemma FoundInLsi0(d: Node, g: string, h: Rule)
    requires Placed(d, g, h)
    ensures !Half0(d, g, h).Fail?
  {
  }

  lemma FoundInTenant(d: Node, g: string, h: Rule)
    requires Placed(d, g, h)
    ensures !LowerToTenant(h, d.tenants[g].lsi).Fail?
  {
  }

  lemma SaneDeployed(s: SaneState)
    ensures Deployed(s.node)
  {
    var d := s.node;
    forall g | g in d.tenants
      ensures Ready(d, g) && CompiledTenant(d.tenants[g])
    {
      SettledReady(d, g, s.nextId);
    }
    forall g, h | g in d.tenants && h in d.tenants[g].rules && Half0(d, g, h).Emit?
      ensures Half0(d, g, h).rule in d.lsi0
    {
      assert FromRule(d, g, h, Half0(d, g, h).rule);
    }
  }

  // ----- graphs a step does not concern -----

  /** Nothing that the graph's rules depend on differs. */
  ghost predicate SameFor(d: Node, d': Node, g: string) {
    && g in d.tenants && g in d'.tenants && d.tenants[g] == d'.tenants[g] && d.physical == d'.physical
    && forall group :: SameConnection(d.connections, d'.connections, group, g)
  }

  lemma SameHalf0(d: Node, d': Node, g: string, h: Rule)
    requires SameFor(d, d', g)
    ensures Half0(d, g, h) == Half0(d', g, h)
  {
    if h.On().Internal? {
      assert SameConnection(d.connections, d'.connections, h.On().group, g);
    }
    if h.To().Internal? {
      assert SameConnection(d.connections, d'.connections, h.To().group, g);
    }
  }

  lemma SameFromRule(d: Node, d': Node, g: string, h: Rule, l: LowRule)
    requires SameFor(d, d', g)
    ensures FromRule(d, g, h, l) <==> FromRule(d', g, h, l)
  {
    SameHalf0(d, d', g, h);
  }

  lemma SameAttached(d: Node, d': Node, g: string, e: Endpoint)
    requires SameFor(d, d', g)
    ensures Attached(d, g, e) <==> Attached(d', g, e)
  {
    if e.Internal? {
      assert SameConnection(d.connections, d'.connections, e.group, g);
    }
  }

  lemma LinkedLater(rules: seq<Rule>, lsi: LsiState, nextId: nat, nextId': nat)
    requires Linked(rules, lsi, nextId) && nextId <= nextId'
    ensures Linked(rules, lsi, nextId')
  {
  }

  lemma StaysSettled(d: Node, d': Node, g: string, nextId: nat, nextId': nat)
    requires Settled(d, g, nextId) && SameFor(d, d', g) && nextId <= nextId'
    ensures Settled(d', g, nextId')
  {
    LinkedLater(d.tenants[g].rules, d.tenants[g].lsi, nextId, nextId');
    forall h | h in d.tenants[g].rules
      ensures Attached(d', g, h.On()) && Attached(d', g, h.To())
    {
      SameAttached(d, d', g, h.On());
      SameAttached(d, d', g, h.To());
    }
  }

  // ----- the rules one graph has in LSI-0 -----

  ghost function Own(d: Node, g: string): seq<LowRule>
    requires g in d.tenants
  {
    Lowered(d.tenants[g].rules, Lower0(g, d.tenants[g].lsi, d.physical, d.connections))
  }

  lemma Lower0Name(h: Rule, g: string, lsi: LsiState, physical: map<string, nat>, connections: Connections)
    ensures LowerToLsi0(h, g, lsi, physical, connections).Emit? ==>
      LowerToLsi0(h, g, lsi, physical, connections).rule.id == RuleName(g, h.id)
  {
  }

  lemma Lowered0Unique(rules: seq<Rule>, g: string, lsi: LsiState, physical: map<string, nat>, connections: Connections)
    requires DistinctRules(rules)
    ensures LowGraph.UniqueIds(Lowered(rules, Lower0(g, lsi, physical, connections)))
    ensures forall l :: l in Lowered(rules, Lower0(g, lsi, physical, connections)) ==>
      exists h :: h in rules && l.id == RuleName(g, h.id)
  {
    var lower := Lower0(g, lsi, physical, connections);
    forall h | h in rules && lower(h).Emit?
      ensures lower(h).rule.id == (g + "_") + h.id
    {
      Lower0Name(h, g, lsi, physical, connections);
    }
    LoweredUnique(rules, lower, g + "_");
  }

  lemma OwnMembers(d: Node, g: string, l: LowRule)
    requires g in d.tenants
    ensures l in Own(d, g) <==> exists h :: FromRule(d, g, h, l)
  {
    LoweredMembers(d.tenants[g].rules, Lower0(g, d.tenants[g].lsi, d.physical, d.connections), l);
    if h :| h in d.tenants[g].rules && Lower0(g, d.tenants[g].lsi, d.physical, d.connections)(h) == Emit(l) {
      assert FromRule(d, g, h, l);
    }
  }

  /** A rule of LSI-0 is named after the rule it comes from. */
  lemma FromRuleName(d: Node, g: string, h: Rule, l: LowRule)
    requires FromRule(d, g, h, l)
    ensures l.id == RuleName(g, h.id) && Holds(d, g, h)
  {
    Lower0Name(h, g, d.tenants[g].lsi, d.physical, d.connections);
  }

  // ----- creating a graph -----

  /** A settled new graph, its rules appended to LSI-0, nothing else touched. */
  ghost predicate Created(s: State, s': State, g: string) {
    var d, d' := s.node, s'.node;
    && g !in d.tenants && d'.tenants.Keys == d.tenants.Keys + {g} && s.nextId <= s'.nextId
    && (forall g' {:trigger SameFor(d, d', g')} :: g' in d.tenants ==> SameFor(d, d', g'))
    && Settled(d', g, s'.nextId) && NamesDistinct(d') && Lsi0PortsDistinct(d')
    && d'.lsi0 == d.lsi0 + Own(d', g)
  }

  lemma CreatedMembers(s: SaneState, s': State, g: string, l: LowRule)
    requires Created(s, s', g)
    ensures l in s'.node.lsi0 <==> exists g', h :: FromRule(s'.node, g', h, l)
  {
    var d, d' := s.node, s'.node;
    OwnMembers(d', g, l);
    if l in d.lsi0 {
      var g', h :| FromRule(d, g', h, l);
      SameFromRule(d, d', g', h, l);
    }
    if g', h :| FromRule(d', g', h, l) {
      if g' != g {
        SameFromRule(d, d', g', h, l);
        assert l in d.lsi0;
      }
    }
  }

  lemma CreatedUnique(s: SaneState, s': State, g: string)
    requires Created(s, s', g)
    ensures LowGraph.UniqueIds(s'.node.lsi0)
  {
    var d, d' := s.node, s'.node;
    Lowered0Unique(d'.tenants[g].rules, g, d'.tenants[g].lsi, d'.physical, d'.connections);
    forall x, y | x in d.lsi0 && y in Own(d', g)
      ensures x.id != y.id
    {
      var g', h' :| FromRule(d, g', h', x);
      FromRuleName(d, g', h', x);
      var h :| h in d'.tenants[g].rules && y.id == RuleName(g, h.id);
      assert SameFor(d, d', g');
      assert Holds(d', g', h') && Holds(d', g, h);
    }
    LowGraph.AppendUnique(d.lsi0, Own(d', g));
  }

  lemma CreatedSane(s: SaneState, s': State, g: string)
    requires Created(s, s', g)
    ensures Sane(s')
  {
    CreatedStanding(s, s', g);
    CreatedUnique(s, s', g);
    forall l
      ensures l in s'.node.lsi0 <==> exists g', h :: FromRule(s'.node, g', h, l)
    {
      CreatedMembers(s, s', g, l);
    }
  }

  lemma CreatedStanding(s: StandingState, s': State, g: string)
    requires Created(s, s', g)
    ensures Standing(s')
  {
    forall g' | g' in s'.node.tenants
      ensures Settled(s'.node, g', s'.nextId)
    {
      if g' != g {
        StaysSettled(s.node, s'.node, g', s.nextId, s'.nextId);
      }
    }
  }

  // ----- deleting a graph -----

  /** No other graph asks LSI-0 for a flow this graph asks for. */
  ghost predicate NoTwins(d: Node, g: string)
    requires g in d.tenants
  {
    forall k, l :: k in d.lsi0 && l in Own(d, g) && LowGraph.SameFlow(k, l) ==> k in Own(d, g)
  }

  /** The graph's rules, recomputed, are taken out of LSI-0; nothing else is touched. */
  ghost predicate Deleted(s: State, s': State, g: string) {
    var d, d' := s.node, s'.node;
    && g in d.tenants && d'.tenants == d.tenants - {g} && s.nextId <= s'.nextId && d'.physical == d.physical
    && (forall g' {:trigger SameFor(d, d', g')} :: g' in d'.tenants ==> SameFor(d, d', g'))
    && (forall group, g' :: group in d'.connections && g' in d'.connections[group] ==>
         SameConnection(d.connections, d'.connections, group, g'))
    && LowGraph.Minus(d.lsi0, Own(d, g)) == Some(d'.lsi0)
  }

  /** The recomputed rules are all found, so the removal never fails its assertion, even if another
      graph asks for the same flow. */
  lemma OwnFound(s: SaneState, g: string)
    requires g in s.node.tenants
    ensures LowGraph.Minus(s.node.lsi0, Own(s.node, g)).Some?
  {
    var d := s.node;
    OwnInstalled(s, g);
    forall l | l in Own(d, g)
      ensures |LowGraph.Class(d.lsi0, l)| >= |LowGraph.Class(Own(d, g), l)|
    {
      LowGraph.ClassGrows(Own(d, g), d.lsi0, l);
    }
    LowGraph.MinusCounts(d.lsi0, Own(d, g));
  }

  lemma OwnInstalled(s: SaneState, g: string)
    requires g in s.node.tenants
    ensures LowGraph.UniqueIds(Own(s.node, g)) && forall l :: l in Own(s.node, g) ==> l in s.node.lsi0
  {
    var d := s.node;
    OwnUnique(s, g);
    forall l | l in Own(d, g)
      ensures l in d.lsi0
    {
      OwnMembers(d, g, l);
    }
  }

  lemma OwnUnique(s: StandingState, g: string)
    requires g in s.node.tenants
    ensures LowGraph.UniqueIds(Own(s.node, g))
  {
    var d := s.node;
    assert Settled(d, g, s.nextId);
    Lowered0Unique(d.tenants[g].rules, g, d.tenants[g].lsi, d.physical, d.connections);
  }

  /** Rules of different graphs come from different rules. */
  lemma OwnersDiffer(s: SaneState, g: string, g': string, h: Rule, l: LowRule)
    requires g in s.node.tenants && FromRule(s.node, g', h, l)
    ensures l in Own(s.node, g) <==> g == g'
  {
    OwnMembers(s.node, g, l);
    if h' :| FromRule(s.node, g, h', l) {
      FromRuleName(s.node, g, h', l);
      FromRuleName(s.node, g', h, l);
    }
  }

  lemma DeletedMembers(s: SaneState, s': State, g: string, l: LowRule)
    requires Deleted(s, s', g)
    requires l in s'.node.lsi0 <==> l in s.node.lsi0 && l !in Own(s.node, g)
    ensures l in s'.node.lsi0 <==> exists g', h :: FromRule(s'.node, g', h, l)
  {
    var d, d' := s.node, s'.node;
    if l in d'.lsi0 {
      var g', h :| FromRule(d, g', h, l);
      OwnersDiffer(s, g, g', h, l);
      SameFromRule(d, d', g', h, l);
    }
    if g', h :| FromRule(d', g', h, l) {
      SameFromRule(d, d', g', h, l);
      OwnersDiffer(s, g, g', h, l);
      assert l in d.lsi0;
    }
  }

  lemma DeletedPorts(s: StandingState, s': State, g: string)
    requires Deleted(s, s', g)
    ensures Lsi0PortsDistinct(s'.node)
  {
    var d, d' := s.node, s'.node;
    forall x, number | HasLsi0Port(d', x, number)
      ensures HasLsi0Port(d, x, number)
    {
      match x
      case Phys(_) =>
      case Conn(group, g') => assert SameConnection(d.connections, d'.connections, group, g');
      case LinkEnd(g', _) => assert d.tenants[g'] == d'.tenants[g'];
    }
  }

  /** In the list of LSI-0, no equal rule of another graph comes before one of this graph. */
  ghost predicate OwnFirst(d: Node, g: string)
    requires g in d.tenants
  {
    LowGraph.First(d.lsi0, LowGraph.Members(Own(d, g)))
  }

  lemma NoTwinsFirst(d: Node, g: string)
    requires g in d.tenants && NoTwins(d, g)
    ensures OwnFirst(d, g)
  {
  }

  ghost predicate TakesOwn(d: Node, d': Node, g: string)
    requires g in d.tenants
  {
    forall l :: l in d'.lsi0 <==> l in d.lsi0 && l !in Own(d, g)
  }

  lemma TakesOwnInstalled(s: SaneState, s': State, g: string)
    requires Deleted(s, s', g) && TakesOwn(s.node, s'.node, g)
    ensures Installed(s'.node)
  {
    OwnUnique(s, g);
    OwnInstalled(s, g);
    LowGraph.MinusUnique(s.node.lsi0, Own(s.node, g));
    forall l
      ensures l in s'.node.lsi0 <==> exists g', h :: FromRule(s'.node, g', h, l)
    {
      DeletedMembers(s, s', g, l);
    }
  }

  lemma InstalledTakesOwn(s: SaneState, s': State, g: string)
    requires Deleted(s, s', g) && Installed(s'.node)
    ensures TakesOwn(s.node, s'.node, g)
  {
    var d, d' := s.node, s'.node;
    forall l
      ensures l in d'.lsi0 <==> l in d.lsi0 && l !in Own(d, g)
    {
      if l in d'.lsi0 {
        var g', h :| FromRule(d', g', h, l);
        SameFromRule(d, d', g', h, l);
        OwnersDiffer(s, g, g', h, l);
      }
      if l in d.lsi0 && l !in Own(d, g) {
        var g', h :| FromRule(d, g', h, l);
        OwnersDiffer(s, g, g', h, l);
        SameFromRule(d, d', g', h, l);
      }
    }
  }

  /** Deleting a graph leaves LSI-0 with exactly the lowering of the other graphs if and only if no
      equal rule of another graph was in the list before one of its own. */
  lemma DeletedSaneExactly(s: SaneState, s': State, g: string)
    requires Deleted(s, s', g)
    ensures Standing(s') && (Sane(s') <==> OwnFirst(s.node, g))
  {
    DeletedStanding(s, s', g);
    OwnInstalled(s, g);
    LowGraph.MinusExactly(s.node.lsi0, Own(s.node, g));
    if Sane(s') {
      InstalledTakesOwn(s, s', g);
    }
    if OwnFirst(s.node, g) {
      TakesOwnInstalled(s, s', g);
    }
  }

  lemma DeletedStanding(s: StandingState, s': State, g: string)
    requires Deleted(s, s', g)
    ensures Standing(s')
  {
    var d, d' := s.node, s'.node;
    DeletedPorts(s, s', g);
    forall g' | g' in d'.tenants
      ensures Settled(d', g', s'.nextId)
    {
      StaysSettled(d, d', g', s.nextId, s'.nextId);
    }
  }

  // ----- when another graph asks for the same flow -----

  predicate Wire(h: Rule) {
    h.On().Port? && h.To().Port?
  }

  predicate SameWire(h: Rule, k: Rule) {
    && Wire(h) && Wire(k) && h.On() == k.On() && h.To() == k.To() && h.pattern.fields == k.pattern.fields
    && h.priority == k.priority
  }

  lemma TwinsAreWires(d: DeployedNode, g: string, h: Rule, l: LowRule, g': string, h': Rule, l': LowRule)
    requires FromRule(d, g, h, l) && FromRule(d, g', h', l') && g != g' && LowGraph.SameFlow(l, l')
    ensures SameWire(h, h')
  {
    assert Ready(d, g) && Ready(d, g');
    Half0Shape(d, g, h);
    Half0Shape(d, g', h');
    assert InPort0(d, g, h) == InPort0(d, g', h');
    assert OutPort0(d, g, h) == OutPort0(d, g', h');
  }

  lemma WiresAreTwins(d: DeployedNode, g: string, h: Rule, g': string, h': Rule)
    requires Holds(d, g, h) && Holds(d, g', h') && SameWire(h, h')
    ensures Half0(d, g, h).Emit? && Half0(d, g', h').Emit?
    ensures LowGraph.SameFlow(Half0(d, g', h').rule, Half0(d, g, h).rule)
  {
    assert Ready(d, g) && Ready(d, g');
  }

  lemma TwinFound(s: SaneState, d: DeployedNode, g: string, h: Rule, g': string, h': Rule)
    requires d == s.node && Holds(d, g, h) && Holds(d, g', h') && g' != g && SameWire(h, h')
    ensures !NoTwins(d, g)
  {
    WiresAreTwins(d, g, h, g', h');
    var l, k := Half0(d, g, h).rule, Half0(d, g', h').rule;
    assert FromRule(d, g, h, l) && FromRule(d, g', h', k);
    OwnersDiffer(s, g, g, h, l);
    OwnersDiffer(s, g, g', h', k);
    assert k in d.lsi0;
  }

  lemma TwinOwner(d: DeployedNode, g: string, h: Rule, l: LowRule, g': string, h': Rule, k: LowRule)
    requires FromRule(d, g, h, l) && FromRule(d, g', h', k) && LowGraph.SameFlow(l, k) && (g' != g ==> !SameWire(h, h'))
    ensures g == g'
  {
    if g' != g {
      TwinsAreWires(d, g, h, l, g', h', k);
    }
  }

  lemma TwinIsOwn(s: SaneState, g: string, k: LowRule, l: LowRule)
    requires g in s.node.tenants && k in s.node.lsi0 && l in Own(s.node, g) && LowGraph.SameFlow(k, l)
    requires forall h, g', h' :: Holds(s.node, g, h) && Holds(s.node, g', h') && g' != g ==> !SameWire(h, h')
    ensures k in Own(s.node, g)
  {
    OwnMembers(s.node, g, l);
    var h :| FromRule(s.node, g, h, l);
    var g', h' :| FromRule(s.node, g', h', k);
    assert Holds(s.node, g, h) && Holds(s.node, g', h');
    SaneDeployed(s);
    TwinOwner(s.node, g, h, l, g', h', k);
    OwnMembers(s.node, g, k);
  }

  /** What a caller can check: another graph asks for the same flow exactly when it repeats a rule
      between two physical ports, with the same fields and priority. */
  lemma TwinsExactly(s: SaneState, g: string)
    requires g in s.node.tenants
    ensures NoTwins(s.node, g) <==>
      forall h, g', h' :: Holds(s.node, g, h) && Holds(s.node, g', h') && g' != g ==> !SameWire(h, h')
  {
    SaneDeployed(s);
    if h, g', h' :| Holds(s.node, g, h) && Holds(s.node, g', h') && g' != g && SameWire(h, h') {
      TwinFound(s, s.node, g, h, g', h');
    } else {
      forall k, l | k in s.node.lsi0 && l in Own(s.node, g) && LowGraph.SameFlow(k, l)
        ensures k in Own(s.node, g)
      {
        TwinIsOwn(s, g, k, l);
      }
    }
  }
}

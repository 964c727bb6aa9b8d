/** Updating a graph in place comes to the same as compiling the new version from scratch. */
module Updates {
  import opened HighLevel
  import opened FlowTable
  import opened Lsis
  import opened Names
  import opened Options
  import opened Translator
  import opened Forwarding
  import opened Vlinks
  import LowGraph
  import opened RuleDiff
  import opened Lifecycle

  // ----- what an update adds and removes -----

  ghost function Added(mine: seq<Rule>, target: seq<Rule>): seq<Rule> {
    Missing(mine, target)
  }

  ghost function Removed(mine: seq<Rule>, target: seq<Rule>): seq<Rule> {
    Missing(target, mine + Missing(mine, target))
  }

  function Ids(rules: seq<Rule>): seq<string> {
    seq(|rules|, i requires 0 <= i < |rules| => rules[i].id)
  }

  function Lsi0Ids(g: string, rules: seq<Rule>): seq<string> {
    seq(|rules|, i requires 0 <= i < |rules| => RuleName(g, rules[i].id))
  }

  lemma IdsMembers(rules: seq<Rule>, id: string)
    ensures id in Ids(rules) <==> HasId(rules, id)
  {
    if id in Ids(rules) {
      var i :| 0 <= i < |rules| && Ids(rules)[i] == id;
      assert rules[i] in rules;
    }
    if h :| h in rules && h.id == id {
      var i :| 0 <= i < |rules| && rules[i] == h;
      assert Ids(rules)[i] == id;
    }
  }

  lemma Lsi0IdsMembers(g: string, rules: seq<Rule>, id: string)
    ensures id in Lsi0Ids(g, rules) <==> exists h :: h in rules && RuleName(g, h.id) == id
  {
    if id in Lsi0Ids(g, rules) {
      var i :| 0 <= i < |rules| && Lsi0Ids(g, rules)[i] == id;
      assert rules[i] in rules && RuleName(g, rules[i].id) == id;
    }
    if h :| h in rules && RuleName(g, h.id) == id {
      var i :| 0 <= i < |rules| && rules[i] == h;
      assert Lsi0Ids(g, rules)[i] == id;
    }
  }

  // ----- kept rules keep their lowering -----

  ghost predicate SamePort(lsi: LsiState, lsi': LsiState, e: Endpoint) {
    match e
    case NfPort(nf, port) => NfSwitchPort(lsi, nf, port) == NfSwitchPort(lsi', nf, port)
    case Gre(id) => GrePort(lsi, id) == GrePort(lsi', id)
    case _ => true
  }

  ghost predicate SameLinks(lsi: LsiState, lsi': LsiState) {
    forall a :: a in lsi.vlinks && a in lsi'.vlinks ==>
      && lsi.vlinks[a] == lsi'.vlinks[a]
      && Find(lsi.virtualLinks, lsi.vlinks[a]) == Find(lsi'.virtualLinks, lsi'.vlinks[a])
  }

  lemma SameLink(rules: seq<Rule>, lsi: LsiState, rules': seq<Rule>, lsi': LsiState, h: Rule, n: nat, n': nat)
    requires Linked(rules, lsi, n) && Linked(rules', lsi', n') && SameLinks(lsi, lsi') && h in rules && h in rules'
    requires h.Crosses()
    ensures Link(lsi, h.To()) == Link(lsi', h.To())
  {
    assert h.To().Key() in Required(rules) && h.To().Key() in Required(rules');
  }

  lemma KeptInLsi0(h: Rule, g: string, lsi: LsiState, lsi': LsiState, physical: map<string, nat>,
      connections: Connections)
    requires h.Crosses() ==> Link(lsi, h.To()).Some? && Link(lsi, h.To()) == Link(lsi', h.To())
    ensures LowerToLsi0(h, g, lsi, physical, connections) == LowerToLsi0(h, g, lsi', physical, connections)
  {
  }

  lemma KeptInTenant(h: Rule, lsi: LsiState, lsi': LsiState)
    requires h.Crosses() ==> Link(lsi, h.To()) == Link(lsi', h.To())
    requires SamePort(lsi, lsi', h.On()) && SamePort(lsi, lsi', h.To())
    ensures LowerToTenant(h, lsi) == LowerToTenant(h, lsi')
  {
  }

  // ----- the step -----

  /** The part of an update that concerns the tenant: links and ports of kept rules stay. */
  ghost predicate TenantUpdated(t: Tenant, t': Tenant, target: seq<Rule>, nextId': nat) {
    && DistinctRules(target) && t'.rules == Merged(t.rules, target)
    && Linked(t'.rules, t'.lsi, nextId') && TenantPortsDistinct(t'.lsi) && SameLinks(t.lsi, t'.lsi)
    && (forall h :: h in t.rules && HasId(target, h.id) ==>
         SamePort(t.lsi, t'.lsi, h.On()) && SamePort(t.lsi, t'.lsi, h.To()))
    && t'.table == LowGraph.WithoutIds(t.table, Ids(Removed(t.rules, target)))
                   + Lowered(Added(t.rules, target), LowerT(t'.lsi))
  }

  ghost predicate Updated(s: State, s': State, g: string, target: seq<Rule>) {
    var d, d' := s.node, s'.node;
    && g in d.tenants && d'.tenants.Keys == d.tenants.Keys && s.nextId <= s'.nextId
    && d'.physical == d.physical && d'.connections == d.connections
    && (forall g' :: g' in d.tenants && g' != g ==> d'.tenants[g'] == d.tenants[g'])
    && TenantUpdated(d.tenants[g], d'.tenants[g], target, s'.nextId)
    && Supported(d', g) && NamesDistinct(d') && Lsi0PortsDistinct(d')
    && d'.lsi0 == LowGraph.WithoutIds(d.lsi0, Lsi0Ids(g, Removed(d.tenants[g].rules, target)))
                  + Lowered(Added(d.tenants[g].rules, target),
                            Lower0(g, d'.tenants[g].lsi, d'.physical, d'.connections))
  }

  /** Every rule of the new version is a kept one or an added one. */
  lemma KeptOrAdded(mine: seq<Rule>, target: seq<Rule>, h: Rule)
    requires DistinctRules(mine) && DistinctRules(target)
    ensures h in Merged(mine, target) <==> (h in mine && HasId(target, h.id)) || h in Added(mine, target)
    ensures h in mine && HasId(target, h.id) <==> h in mine && !HasId(Removed(mine, target), h.id)
    ensures h in Added(mine, target) ==> !HasId(mine, h.id)
  {
    MergedMembers(mine, target);
    MissingMembers(mine, target);
    RemovedMembers(mine, target);
  }

  // ----- the tenant table -----

  lemma KeptTenantRule(t: Tenant, t': Tenant, target: seq<Rule>, n: nat, n': nat, h: Rule)
    requires TenantUpdated(t, t', target, n') && Linked(t.rules, t.lsi, n) && DistinctRules(t.rules)
    requires h in t.rules && HasId(target, h.id)
    ensures h in t'.rules && LowerToTenant(h, t.lsi) == LowerToTenant(h, t'.lsi)
  {
    KeptOrAdded(t.rules, target, h);
    if h.Crosses() {
      SameLink(t.rules, t.lsi, t'.rules, t'.lsi, h, n, n');
    }
    KeptInTenant(h, t.lsi, t'.lsi);
  }

  lemma TenantName(h: Rule, lsi: LsiState)
    ensures LowerToTenant(h, lsi).Emit? ==> LowerToTenant(h, lsi).rule.id == h.id
  {
  }

  /** The kept part of the table: the lowering of the kept rules. */
  lemma KeptTable(t: Tenant, t': Tenant, target: seq<Rule>, n: nat, n': nat, l: LowRule)
    requires TenantUpdated(t, t', target, n') && Linked(t.rules, t.lsi, n) && DistinctRules(t.rules) && TableExact(t)
    ensures l in t.table && l.id !in Ids(Removed(t.rules, target))
            <==> exists h :: h in t.rules && HasId(target, h.id) && LowerToTenant(h, t'.lsi) == Emit(l)
  {
    IdsMembers(Removed(t.rules, target), l.id);
    if l in t.table && l.id !in Ids(Removed(t.rules, target)) {
      var h :| h in t.rules && LowerToTenant(h, t.lsi) == Emit(l);
      TenantName(h, t.lsi);
      KeptOrAdded(t.rules, target, h);
      KeptTenantRule(t, t', target, n, n', h);
    }
    if h :| h in t.rules && HasId(target, h.id) && LowerToTenant(h, t'.lsi) == Emit(l) {
      KeptTenantRule(t, t', target, n, n', h);
      TenantName(h, t.lsi);
      KeptOrAdded(t.rules, target, h);
    }
  }

  lemma UpdatedTableMembers(t: Tenant, t': Tenant, target: seq<Rule>, n: nat, n': nat, l: LowRule)
    requires TenantUpdated(t, t', target, n') && Linked(t.rules, t.lsi, n) && DistinctRules(t.rules) && TableExact(t)
    ensures l in t'.table <==> exists h :: h in t'.rules && LowerToTenant(h, t'.lsi) == Emit(l)
  {
    LowGraph.WithoutIdsMembers(t.table, Ids(Removed(t.rules, target)));
    LoweredMembers(Added(t.rules, target), LowerT(t'.lsi), l);
    KeptTable(t, t', target, n, n', l);
    if l in t'.table {
      var h :| ((h in t.rules && HasId(target, h.id)) || h in Added(t.rules, target)) &&
        LowerToTenant(h, t'.lsi) == Emit(l);
      KeptOrAdded(t.rules, target, h);
    }
    if h :| h in t'.rules && LowerToTenant(h, t'.lsi) == Emit(l) {
      KeptOrAdded(t.rules, target, h);
    }
  }

  lemma UpdatedTableUnique(t: Tenant, t': Tenant, target: seq<Rule>, n: nat, n': nat)
    requires TenantUpdated(t, t', target, n') && Linked(t.rules, t.lsi, n) && DistinctRules(t.rules) && TableExact(t)
    ensures LowGraph.UniqueIds(t'.table)
  {
    var kept, added := LowGraph.WithoutIds(t.table, Ids(Removed(t.rules, target))), Added(t.rules, target);
    LowGraph.WithoutIdsMembers(t.table, Ids(Removed(t.rules, target)));
    MissingMembers(t.rules, target);
    forall h | h in added && LowerT(t'.lsi)(h).Emit?
      ensures LowerT(t'.lsi)(h).rule.id == "" + h.id
    {
      TenantName(h, t'.lsi);
    }
    LoweredUnique(added, LowerT(t'.lsi), "");
    forall x, y | x in kept && y in Lowered(added, LowerT(t'.lsi))
      ensures x.id != y.id
    {
      var h :| h in t.rules && LowerToTenant(h, t.lsi) == Emit(x);
      TenantName(h, t.lsi);
      var h' :| h' in added && y.id == "" + h'.id;
    }
    LowGraph.AppendUnique(kept, Lowered(added, LowerT(t'.lsi)));
  }

  /** The tenant LSI ends up with the lowering of the new version, as if compiled from scratch. */
  lemma UpdatedTable(t: Tenant, t': Tenant, target: seq<Rule>, n: nat, n': nat)
    requires TenantUpdated(t, t', target, n') && Linked(t.rules, t.lsi, n) && DistinctRules(t.rules) && TableExact(t)
    ensures TableExact(t')
  {
    UpdatedTableUnique(t, t', target, n, n');
    forall l
      ensures l in t'.table <==> exists h :: h in t'.rules && LowerToTenant(h, t'.lsi) == Emit(l)
    {
      UpdatedTableMembers(t, t', target, n, n', l);
    }
  }

  // ----- LSI-0 -----

  lemma OtherGraphsSame(s: StandingState, s': State, g: string, target: seq<Rule>, g': string)
    requires Updated(s, s', g, target) && g' in s.node.tenants && g' != g
    ensures SameFor(s.node, s'.node, g')
  {
  }

  lemma KeptLsi0Rule(s: StandingState, s': State, g: string, target: seq<Rule>, h: Rule)
    requires Updated(s, s', g, target) && h in s.node.tenants[g].rules && HasId(target, h.id)
    ensures h in s'.node.tenants[g].rules && Half0(s.node, g, h) == Half0(s'.node, g, h)
  {
    var t, t' := s.node.tenants[g], s'.node.tenants[g];
    assert Settled(s.node, g, s.nextId);
    KeptOrAdded(t.rules, target, h);
    if h.Crosses() {
      LinkedFinds(t.rules, t.lsi, s.nextId, h);
      SameLink(t.rules, t.lsi, t'.rules, t'.lsi, h, s.nextId, s'.nextId);
    }
    KeptInLsi0(h, g, t.lsi, t'.lsi, s.node.physical, s.node.connections);
  }

  /** The rules of LSI-0 an update does not remove: those of other graphs and of kept rules. */
  ghost predicate Stays(d: Node, d': Node, g: string, target: seq<Rule>, g': string, h: Rule, l: LowRule) {
    && FromRule(d', g', h, l) && g in d.tenants
    && (g' == g ==> h in d.tenants[g].rules && HasId(target, h.id))
  }

  lemma KeptStays(s: SaneState, s': State, g: string, target: seq<Rule>, l: LowRule) returns (g': string, h: Rule)
    requires Updated(s, s', g, target)
    requires l in s.node.lsi0 && l.id !in Lsi0Ids(g, Removed(s.node.tenants[g].rules, target))
    ensures Stays(s.node, s'.node, g, target, g', h, l)
  {
    g', h :| FromRule(s.node, g', h, l);
    FromRuleName(s.node, g', h, l);
    if g' == g {
      var removed := Removed(s.node.tenants[g].rules, target);
      Lsi0IdsMembers(g, removed, l.id);
      assert Settled(s.node, g, s.nextId);
      KeptOrAdded(s.node.tenants[g].rules, target, h);
      KeptLsi0Rule(s, s', g, target, h);
    } else {
      OtherGraphsSame(s, s', g, target, g');
      SameFromRule(s.node, s'.node, g', h, l);
    }
  }

  lemma StaysFrom(s: SaneState, s': State, g: string, target: seq<Rule>, g': string, h: Rule, l: LowRule)
    requires Updated(s, s', g, target) && Stays(s.node, s'.node, g, target, g', h, l)
    ensures FromRule(s.node, g', h, l)
  {
    if g' == g {
      KeptLsi0Rule(s, s', g, target, h);
    } else {
      OtherGraphsSame(s, s', g, target, g');
      SameFromRule(s.node, s'.node, g', h, l);
    }
  }

  lemma StaysKept(s: SaneState, s': State, g: string, target: seq<Rule>, g': string, h: Rule, l: LowRule)
    requires Updated(s, s', g, target) && Stays(s.node, s'.node, g, target, g', h, l)
    ensures l in s.node.lsi0 && l.id !in Lsi0Ids(g, Removed(s.node.tenants[g].rules, target))
  {
    var rules := s.node.tenants[g].rules;
    StaysFrom(s, s', g, target, g', h, l);
    FromRuleName(s.node, g', h, l);
    Lsi0IdsMembers(g, Removed(rules, target), l.id);
    assert Settled(s.node, g, s.nextId);
    KeptOrAdded(rules, target, h);
    RemovedMembers(rules, target);
    forall h' | h' in Removed(rules, target)
      ensures RuleName(g, h'.id) != l.id
    {
      assert Holds(s.node, g, h') && Holds(s.node, g', h);
    }
  }

  lemma UpdatedMembers(s: SaneState, s': State, g: string, target: seq<Rule>, l: LowRule)
    requires Updated(s, s', g, target)
    ensures l in s'.node.lsi0 <==> exists g', h :: FromRule(s'.node, g', h, l)
  {
    var d, d' := s.node, s'.node;
    var t, t' := d.tenants[g], d'.tenants[g];
    assert Settled(d, g, s.nextId);
    LowGraph.WithoutIdsMembers(d.lsi0, Lsi0Ids(g, Removed(t.rules, target)));
    LoweredMembers(Added(t.rules, target), Lower0(g, t'.lsi, d'.physical, d'.connections), l);
    if l in Lowered(Added(t.rules, target), Lower0(g, t'.lsi, d'.physical, d'.connections)) {
      var h :| h in Added(t.rules, target) && Half0(d', g, h) == Emit(l);
      KeptOrAdded(t.rules, target, h);
      assert FromRule(d', g, h, l);
    } else if l in d'.lsi0 {
      var g', h := KeptStays(s, s', g, target, l);
    }
    if g', h :| FromRule(d', g', h, l) {
      if g' == g {
        KeptOrAdded(t.rules, target, h);
      }
      if g' != g || h !in Added(t.rules, target) {
        StaysKept(s, s', g, target, g', h, l);
      }
    }
  }

  lemma UpdatedUnique(s: SaneState, s': State, g: string, target: seq<Rule>)
    requires Updated(s, s', g, target)
    ensures LowGraph.UniqueIds(s'.node.lsi0)
  {
    var d, d' := s.node, s'.node;
    var t, t' := d.tenants[g], d'.tenants[g];
    var kept, added := LowGraph.WithoutIds(d.lsi0, Lsi0Ids(g, Removed(t.rules, target))), Added(t.rules, target);
    LowGraph.WithoutIdsMembers(d.lsi0, Lsi0Ids(g, Removed(t.rules, target)));
    MissingMembers(t.rules, target);
    Lowered0Unique(added, g, t'.lsi, d'.physical, d'.connections);
    forall x, y | x in kept && y in Lowered(added, Lower0(g, t'.lsi, d'.physical, d'.connections))
      ensures x.id != y.id
    {
      var h :| h in added && y.id == RuleName(g, h.id);
      NewNameFresh(s, s', g, target, x, h);
    }
    LowGraph.AppendUnique(kept, Lowered(added, Lower0(g, t'.lsi, d'.physical, d'.connections)));
  }

  lemma NewNameFresh(s: SaneState, s': State, g: string, target: seq<Rule>, x: LowRule, h: Rule)
    requires Updated(s, s', g, target) && h in Added(s.node.tenants[g].rules, target)
    requires x in s.node.lsi0 && x.id !in Lsi0Ids(g, Removed(s.node.tenants[g].rules, target))
    ensures x.id != RuleName(g, h.id)
  {
    var g', h' := KeptStays(s, s', g, target, x);
    FromRuleName(s'.node, g', h', x);
    assert Settled(s.node, g, s.nextId);
    KeptOrAdded(s.node.tenants[g].rules, target, h);
    assert Holds(s'.node, g, h) && Holds(s'.node, g', h');
  }

  /** An update refines recompilation: LSI-0 and the tenant LSI hold exactly the lowering of the new
      rules under the current links, and no other graph notices. */
  lemma UpdatedSane(s: SaneState, s': State, g: string, target: seq<Rule>)
    requires Updated(s, s', g, target)
    ensures Sane(s')
  {
    var d, d' := s.node, s'.node;
    UpdatedUnique(s, s', g, target);
    forall l
      ensures l in d'.lsi0 <==> exists g', h :: FromRule(d', g', h, l)
    {
      UpdatedMembers(s, s', g, target, l);
    }
    UpdatedStanding(s, s', g, target);
  }

  lemma UpdatedStanding(s: StandingState, s': State, g: string, target: seq<Rule>)
    requires Updated(s, s', g, target)
    ensures Standing(s')
  {
    var d, d' := s.node, s'.node;
    forall g' | g' in d'.tenants
      ensures Settled(d', g', s'.nextId)
    {
      if g' == g {
        UpdatedSettled(s, s', g, target);
      } else {
        OtherGraphsSame(s, s', g, target, g');
        StaysSettled(d, d', g', s.nextId, s'.nextId);
      }
    }
  }

  lemma UpdatedSettled(s: StandingState, s': State, g: string, target: seq<Rule>)
    requires Updated(s, s', g, target)
    ensures Settled(s'.node, g, s'.nextId)
  {
    assert Settled(s.node, g, s.nextId);
    UpdatedTable(s.node.tenants[g], s'.node.tenants[g], target, s.nextId, s'.nextId);
    MergedMembers(s.node.tenants[g].rules, target);
  }
}

/** Rules that outlive their graph in LSI-0, and what they mean for the graphs that come after. */
module Leftovers {
  import Traces
  import opened HighLevel
  import opened FlowTable
  import opened Lsis
  import opened Names
  import opened Options
  import opened Seqs
  import opened Translator
  import opened Forwarding
  import opened Vlinks
  import opened VlinkUpdate
  import LowGraph
  import opened RuleDiff
  import opened Lifecycle
  import opened Updates
  import opened UpdateLinks
  import opened UpdatePlan
  import opened InternalGroups
  import opened Manager
  import opened Isolation
  import opened Runs

  // ----- how often a name occurs -----

  function Named(rules: seq<LowRule>, id: string): nat {
    if rules == [] then 0 else (if rules[0].id == id then 1 else 0) + Named(rules[1..], id)
  }

  lemma {:induction false} NamedMembers(rules: seq<LowRule>, id: string)
    ensures Named(rules, id) == 0 <==> forall l :: l in rules ==> l.id != id
  {
    if rules != [] {
      NamedMembers(rules[1..], id);
      assert forall l :: l in rules <==> l == rules[0] || l in rules[1..];
    }
  }

  lemma {:induction false} NamedAppend(a: seq<LowRule>, b: seq<LowRule>, id: string)
    ensures Named(a + b, id) == Named(a, id) + Named(b, id)
  {
    if a == [] {
      assert a + b == b;
    } else {
      NamedAppend(a[1..], b, id);
      assert (a + b)[1..] == a[1..] + b;
    }
  }

  lemma WithoutFirst(rules: seq<LowRule>, id: string)
    requires rules != [] && rules[0].id != id
    ensures LowGraph.WithoutId(rules, id) == [rules[0]] + LowGraph.WithoutId(rules[1..], id)
  {
  }

  /** Removing by id takes one rule of the id, whichever it is. */
  lemma {:induction false} NamedWithout(rules: seq<LowRule>, id: string)
    requires Named(rules, id) > 0
    ensures Named(LowGraph.WithoutId(rules, id), id) == Named(rules, id) - 1
  {
    if rules[0].id == id {
      assert LowGraph.WithoutId(rules, id) == rules[1..];
    } else {
      NamedWithout(rules[1..], id);
      WithoutFirst(rules, id);
      NamedAppend([rules[0]], LowGraph.WithoutId(rules[1..], id), id);
    }
  }

  // ----- names, functions and ports not in use -----

  lemma {:induction false} NewString(used: set<string>) returns (s: string)
    ensures s !in used && forall x :: x in used ==> |x| < |s|
    decreases |used|
  {
    if used == {} {
      s := "x";
    } else {
      var x :| x in used;
      var s' := NewString(used - {x});
      s := if |x| < |s'| then s' else x + "x";
      assert forall y :: y in used ==> y == x || y in used - {x};
    }
  }

  lemma {:induction false} NewNumber(used: set<nat>) returns (n: nat)
    ensures n !in used && forall x :: x in used ==> x < n
    decreases |used|
  {
    if used == {} {
      n := 0;
    } else {
      var x :| x in used;
      var n' := NewNumber(used - {x});
      n := if x < n' then n' else x + 1;
      assert forall y :: y in used ==> y == x || y in used - {x};
    }
  }

  ghost predicate Unused(d: Node, name: string) {
    forall g, h :: Holds(d, g, h) ==> RuleName(g, h.id) != name
  }

  /** The names all rules have in LSI-0. */
  function NamesIn(d: Node): set<string> {
    set g, h | g in d.tenants && h in d.tenants[g].rules :: RuleName(g, h.id)
  }

  lemma NewId(d: Node, g: string, name: string) returns (id: string)
    ensures Unused(d, RuleName(g, id)) && RuleName(g, id) != name
  {
    var used := NamesIn(d) + {name};
    id := NewString(used);
    forall g', h | Holds(d, g', h)
      ensures RuleName(g', h.id) != RuleName(g, id)
    {
      assert RuleName(g', h.id) in used;
    }
    assert name in used;
  }

  function PortsUsed(lsi: LsiState): set<nat> {
    (set nf, name | nf in lsi.nfPorts && name in lsi.nfPorts[nf] :: lsi.nfPorts[nf][name])
    + lsi.grePorts.Values + (set v | v in lsi.virtualLinks :: v.localId)
  }

  lemma PortIsUsed(lsi: LsiState, x: TenantPort, number: nat)
    requires HasTenantPort(lsi, x, number)
    ensures number in PortsUsed(lsi)
  {
  }

  // ----- an update that leaves the links alone -----

  /** Added rules use links that are there, and every link is still used. */
  ghost predicate Neutral(rules: seq<Rule>, target: seq<Rule>) {
    && (forall a :: a in Required(Added(rules, target)) ==> a in Required(rules))
    && (forall a :: a in Required(rules) ==> a in Required(Merged(rules, target)))
  }

  function NeutralPlan(m: Manager, g: string, target: seq<Rule>, nfs: map<string, map<string, nat>>): Plan
    requires g in m.state.node.tenants
  {
    var lsi := m.state.node.tenants[g].lsi;
    var links := Links(lsi.virtualLinks, lsi.vlinks);
    Plan(g, target, Change(nfs, map[], {}, {}), links, links, m.state.nextId)
  }

  lemma NeutralAdded(links: Links, rules: seq<Rule>, target: seq<Rule>, nextId: nat)
    requires Tidy(links.links, links.vlinks, nextId) && (forall a :: a in links.vlinks <==> a in Required(rules))
    requires Neutral(rules, target)
    ensures LinksAdded(links, links, rules, target, nextId, nextId)
  {
  }

  lemma NeutralDropped(links: Links, rules: seq<Rule>, target: seq<Rule>, nextId: nat)
    requires Tidy(links.links, links.vlinks, nextId) && (forall a :: a in links.vlinks <==> a in Required(rules))
    requires Neutral(rules, target)
    ensures LinksDropped(links, links, rules, target, nextId)
  {
  }

  lemma NeutralCarried(m: SteadyManager, g: string, target: seq<Rule>, nfs: map<string, map<string, nat>>)
    requires g in m.state.node.tenants && Neutral(m.state.node.tenants[g].rules, target)
    ensures NeutralPlan(m, g, target, nfs).Carried(m.state)
  {
    var t, nextId := m.state.node.tenants[g], m.state.nextId;
    assert Settled(m.state.node, g, nextId);
    NeutralAdded(Links(t.lsi.virtualLinks, t.lsi.vlinks), t.rules, target, nextId);
    NeutralDropped(Links(t.lsi.virtualLinks, t.lsi.vlinks), t.rules, target, nextId);
  }

  function WithNfs(lsi: LsiState, nfs: map<string, map<string, nat>>): LsiState {
    lsi.(nfPorts := WithPorts(lsi.nfPorts, nfs))
  }

  lemma NeutralLsi(m: Manager, g: string, target: seq<Rule>, nfs: map<string, map<string, nat>>)
    requires g in m.state.node.tenants
    ensures var p, lsi := NeutralPlan(m, g, target, nfs), m.state.node.tenants[g].lsi;
      p.change.Done(lsi, p.now) == WithNfs(lsi, nfs) && p.change.Attached(lsi, p.grown) == WithNfs(lsi, nfs)
  {
    var p, lsi := NeutralPlan(m, g, target, nfs), m.state.node.tenants[g].lsi;
    assert lsi.greEndpoints + {} == lsi.greEndpoints && lsi.greEndpoints - {} == lsi.greEndpoints;
    assert lsi.grePorts + map[] == lsi.grePorts;
    assert WithPorts(lsi.nfPorts, nfs) - {} == WithPorts(lsi.nfPorts, nfs);
  }

  lemma OneNewName(d: Node, d': Node, g: string, k: Rule)
    requires NamesDistinct(d) && Unused(d, RuleName(g, k.id))
    requires forall g', h :: Holds(d', g', h) ==> Holds(d, g', h) || (g' == g && h == k)
    ensures NamesDistinct(d')
  {
  }

  lemma SameLsi0Ports(d: Node, g: string, lsi: LsiState)
    requires Lsi0PortsDistinct(d) && g in d.tenants && lsi.virtualLinks == d.tenants[g].lsi.virtualLinks
    ensures Lsi0PortsDistinct(UpdatePlan.Alone(d, g, Tenant([], lsi, [])))
  {
    var d' := UpdatePlan.Alone(d, g, Tenant([], lsi, []));
    forall x, number | HasLsi0Port(d', x, number)
      ensures HasLsi0Port(d, x, number)
    {
    }
  }

  /** The new version is the old one but for one more rule, and perhaps without some. */
  ghost predicate OneMore(rules: seq<Rule>, target: seq<Rule>, k: Rule) {
    && DistinctRules(target) && Neutral(rules, target)
    && forall h :: h in Merged(rules, target) ==> h in rules || h == k
  }

  lemma StillAttached(d: Node, d': Node, g: string, nfs: map<string, map<string, nat>>, e: Endpoint)
    requires g in d.tenants && g in d'.tenants && d'.physical == d.physical && d'.connections == d.connections
    requires d'.tenants[g].lsi == WithNfs(d.tenants[g].lsi, nfs) && Attached(d, g, e)
    requires forall nf :: nf in nfs ==> nf !in d.tenants[g].lsi.nfPorts
    ensures Attached(d', g, e)
  {
  }

  lemma NeutralSupported(m: SteadyManager, g: string, target: seq<Rule>, nfs: map<string, map<string, nat>>, k: Rule)
    requires g in m.state.node.tenants && OneMore(m.state.node.tenants[g].rules, target, k)
    requires var p := NeutralPlan(m, g, target, nfs);
      Translatable(k) && Attached(p.Node'(m.state.node), g, k.On()) && Attached(p.Node'(m.state.node), g, k.To())
    requires forall nf :: nf in nfs ==> nf !in m.state.node.tenants[g].lsi.nfPorts
    ensures Supported(NeutralPlan(m, g, target, nfs).Node'(m.state.node), g)
  {
    var d, d' := m.state.node, NeutralPlan(m, g, target, nfs).Node'(m.state.node);
    assert Settled(d, g, m.state.nextId);
    NeutralLsi(m, g, target, nfs);
    forall h | h in d.tenants[g].rules
      ensures Attached(d', g, h.On()) && Attached(d', g, h.To())
    {
      StillAttached(d, d', g, nfs, h.On());
      StillAttached(d, d', g, nfs, h.To());
    }
  }

  lemma NeutralNames(m: SteadyManager, g: string, target: seq<Rule>, nfs: map<string, map<string, nat>>, k: Rule)
    requires g in m.state.node.tenants && OneMore(m.state.node.tenants[g].rules, target, k)
    requires Unused(m.state.node, RuleName(g, k.id))
    ensures NamesDistinct(NeutralPlan(m, g, target, nfs).Node'(m.state.node))
  {
    OneNewName(m.state.node, NeutralPlan(m, g, target, nfs).Node'(m.state.node), g, k);
  }

  /** Such an update can be made. */
  lemma NeutralGood(m: SteadyManager, g: string, target: seq<Rule>, nfs: map<string, map<string, nat>>, k: Rule)
      returns (u: GoodRenewal)
    requires g in m.state.node.tenants && OneMore(m.state.node.tenants[g].rules, target, k)
    requires Unused(m.state.node, RuleName(g, k.id))
    requires var p := NeutralPlan(m, g, target, nfs);
      Translatable(k) && Attached(p.Node'(m.state.node), g, k.On()) && Attached(p.Node'(m.state.node), g, k.To())
    requires forall nf :: nf in nfs ==> nf !in m.state.node.tenants[g].lsi.nfPorts
    requires TenantPortsDistinct(WithNfs(m.state.node.tenants[g].lsi, nfs))
    ensures u == Renewal(m, NeutralPlan(m, g, target, nfs))
  {
    NeutralCarried(m, g, target, nfs);
    NeutralLsi(m, g, target, nfs);
    NeutralSupported(m, g, target, nfs, k);
    NeutralNames(m, g, target, nfs, k);
    SameLsi0Ports(m.state.node, g, WithNfs(m.state.node.tenants[g].lsi, nfs));
    u := Renewal(m, NeutralPlan(m, g, target, nfs));
  }

  lemma SingleRule(rules: seq<Rule>, h: Rule)
    requires DistinctRules(rules) && forall k :: k in rules <==> k == h
    ensures rules == [h]
  {
    assert h in rules;
    assert |rules| >= 2 ==> rules[0].id != rules[1].id;
    forall i | 0 <= i < |rules|
      ensures rules[i] == h
    {
      assert rules[i] in rules;
    }
  }

  // ----- a rule under another name -----

  /** The same rule under a new id, at the end. */
  function Retitled(rules: seq<Rule>, i: nat, id: string): seq<Rule>
    requires i < |rules|
  {
    Erase(rules, i) + [rules[i].(id := id)]
  }

  lemma RetitledMembers(rules: seq<Rule>, i: nat, id: string)
    requires DistinctRules(rules) && i < |rules| && !HasId(rules, id)
    ensures DistinctRules(Retitled(rules, i, id))
    ensures forall h :: h in Retitled(rules, i, id) <==> (h in rules && h != rules[i]) || h == rules[i].(id := id)
  {
    EraseMembers(rules, i);
    forall h | h in Erase(rules, i)
      ensures h.id != id
    {
      assert h in rules;
    }
    forall h | h in rules
      ensures h != rules[i] <==> h.id != rules[i].id
    {
    }
  }

  lemma RetitledIds(rules: seq<Rule>, i: nat, id: string, h: Rule)
    requires DistinctRules(rules) && i < |rules| && !HasId(rules, id) && h in rules
    ensures HasId(Retitled(rules, i, id), h.id) <==> h != rules[i]
  {
    RetitledMembers(rules, i, id);
    assert rules[i] in rules;
    if h != rules[i] {
      assert h in Retitled(rules, i, id);
    }
  }

  /** It comes in as one new rule and takes one old rule out. */
  lemma RetitledDiff(rules: seq<Rule>, i: nat, id: string)
    requires DistinctRules(rules) && i < |rules| && !HasId(rules, id)
    ensures Added(rules, Retitled(rules, i, id)) == [rules[i].(id := id)]
    ensures Removed(rules, Retitled(rules, i, id)) == [rules[i]]
    ensures forall h :: h in Merged(rules, Retitled(rules, i, id)) <==> h in Retitled(rules, i, id)
  {
    var target, k := Retitled(rules, i, id), rules[i].(id := id);
    RetitledMembers(rules, i, id);
    forall h | h in rules {
      RetitledIds(rules, i, id, h);
    }
    MissingMembers(rules, target);
    SingleRule(Added(rules, target), k);
    RemovedMembers(rules, target);
    GrownDistinct(rules, target);
    MissingMembers(target, rules + Missing(rules, target));
    SingleRule(Removed(rules, target), rules[i]);
    MergedMembers(rules, target);
  }

  lemma RetitledRequired(rules: seq<Rule>, i: nat, id: string, merged: seq<Rule>, a: LinkName)
    requires i < |rules| && a in Required(rules)
    requires forall h :: (h in rules && h != rules[i]) || h == rules[i].(id := id) ==> h in merged
    ensures a in Required(merged)
  {
    RequiredBy(rules, a);
    RequiredBy(merged, a);
    var h :| h in rules && h.Crosses() && h.To().Key() == a;
    var h' := if h == rules[i] then h.(id := id) else h;
    assert h' in merged && h'.Crosses() && h'.To().Key() == a;
  }

  lemma RetitledLink(rules: seq<Rule>, i: nat, id: string, a: LinkName)
    requires i < |rules| && a in Required([rules[i].(id := id)])
    ensures a in Required(rules)
  {
    RequiredBy(rules, a);
    assert rules[i] in rules;
  }

  lemma RetitledNeutral(rules: seq<Rule>, i: nat, id: string)
    requires DistinctRules(rules) && i < |rules| && !HasId(rules, id)
    ensures OneMore(rules, Retitled(rules, i, id), rules[i].(id := id))
  {
    var target, k := Retitled(rules, i, id), rules[i].(id := id);
    RetitledDiff(rules, i, id);
    RetitledMembers(rules, i, id);
    forall a | a in Required(rules) {
      RetitledRequired(rules, i, id, Merged(rules, target), a);
    }
    forall a | a in Required([k]) {
      RetitledLink(rules, i, id, a);
    }
  }

  /** One rule of the name goes, and none comes. */
  lemma TakesOne(rules: seq<LowRule>, news: seq<LowRule>, name: string)
    requires Named(news, name) == 0
    ensures Named(LowGraph.WithoutId(rules, name) + news, name) ==
      if Named(rules, name) > 0 then Named(rules, name) - 1 else 0
  {
    NamedAppend(LowGraph.WithoutId(rules, name), news, name);
    if Named(rules, name) > 0 {
      NamedWithout(rules, name);
    } else {
      NamedMembers(rules, name);
      assert LowGraph.WithoutId(rules, name) == rules;
    }
  }

  lemma WithoutOne(rules: seq<LowRule>, id: string)
    ensures LowGraph.WithoutIds(rules, [id]) == LowGraph.WithoutId(rules, id)
  {
    assert [id][1..] == [];
  }

  lemma LoweredOther(k: Rule, g: string, lsi: LsiState, physical: map<string, nat>, connections: Connections,
      name: string)
    requires RuleName(g, k.id) != name
    ensures Named(Lowered([k], Lower0(g, lsi, physical, connections)), name) == 0
  {
    Lower0Name(k, g, lsi, physical, connections);
    NamedMembers(Lowered([k], Lower0(g, lsi, physical, connections)), name);
    forall l {
      LoweredMembers([k], Lower0(g, lsi, physical, connections), l);
    }
  }

  lemma LoopSilent(k: Rule, g: string, lsi: LsiState, physical: map<string, nat>, connections: Connections)
    requires k.On().NfPort? && k.To().NfPort?
    ensures Lowered([k], Lower0(g, lsi, physical, connections)) == []
  {
    assert [k][..0] == [];
  }

  lemma ListAfter(m: Manager, u: Renewal, h: Rule, k: Rule) returns (news: seq<LowRule>)
    requires u.m == m && u.p.g in m.state.node.tenants
    requires Removed(m.state.node.tenants[u.p.g].rules, u.p.target) == [h]
    requires Added(m.state.node.tenants[u.p.g].rules, u.p.target) == [k]
    ensures u.After().state.node.lsi0 == LowGraph.WithoutId(m.state.node.lsi0, RuleName(u.p.g, h.id)) + news
    ensures forall name :: name != RuleName(u.p.g, k.id) ==> Named(news, name) == 0
    ensures k.On().NfPort? && k.To().NfPort? ==> news == []
  {
    var d, lsi := m.state.node, u.p.change.Done(m.state.node.tenants[u.p.g].lsi, u.p.now);
    news := Lowered([k], Lower0(u.p.g, lsi, d.physical, d.connections));
    assert Lsi0Ids(u.p.g, [h]) == [RuleName(u.p.g, h.id)];
    WithoutOne(d.lsi0, RuleName(u.p.g, h.id));
    if k.On().NfPort? && k.To().NfPort? {
      LoopSilent(k, u.p.g, lsi, d.physical, d.connections);
    }
    forall name | name != RuleName(u.p.g, k.id)
      ensures Named(news, name) == 0
    {
      LoweredOther(k, u.p.g, lsi, d.physical, d.connections, name);
    }
  }

  lemma NoNfs(lsi: LsiState)
    ensures WithNfs(lsi, map[]) == lsi
  {
    assert WithPorts(lsi.nfPorts, map[]) == lsi.nfPorts;
  }

  lemma SameEnds(m: SteadyManager, g: string, target: seq<Rule>, h: Rule, k: Rule)
    requires Holds(m.state.node, g, h) && k == h.(id := k.id)
    ensures var d' := NeutralPlan(m, g, target, map[]).Node'(m.state.node);
      Translatable(k) && Attached(d', g, k.On()) && Attached(d', g, k.To())
    ensures TenantPortsDistinct(WithNfs(m.state.node.tenants[g].lsi, map[]))
  {
    assert Settled(m.state.node, g, m.state.nextId);
    NeutralLsi(m, g, target, map[]);
    NoNfs(m.state.node.tenants[g].lsi);
  }

  /** A graph can put a rule under another name. */
  lemma Retitle(m: SteadyManager, g: string, h: Rule) returns (u: GoodRenewal, k: Rule)
    requires Holds(m.state.node, g, h)
    ensures u.m == m && u.p.g == g && k == h.(id := k.id) && RuleName(g, k.id) != RuleName(g, h.id)
    ensures Removed(m.state.node.tenants[g].rules, u.p.target) == [h]
    ensures Added(m.state.node.tenants[g].rules, u.p.target) == [k]
  {
    var d, rules := m.state.node, m.state.node.tenants[g].rules;
    assert Settled(d, g, m.state.nextId);
    var i :| 0 <= i < |rules| && rules[i] == h;
    var id := NewId(d, g, RuleName(g, h.id));
    assert forall x :: x in rules ==> Holds(d, g, x);
    k := h.(id := id);
    RetitledNeutral(rules, i, id);
    RetitledDiff(rules, i, id);
    SameEnds(m, g, Retitled(rules, i, id), h, k);
    u := NeutralGood(m, g, Retitled(rules, i, id), map[], k);
  }

  lemma UpdateIsNext(u: GoodRenewal)
    ensures Runs.Next(u.m, u.After(), u.p.g)
  {
  }

  /** And so give the old name up: the first rule of that name leaves the list. */
  lemma GiveUpName(m: SteadyManager, g: string, h: Rule) returns (m': Manager)
    requires Holds(m.state.node, g, h)
    ensures Runs.Next(m, m', g)
    ensures var name := RuleName(g, h.id);
      Named(m'.state.node.lsi0, name) ==
      if Named(m.state.node.lsi0, name) > 0 then Named(m.state.node.lsi0, name) - 1 else 0
    ensures h.On().NfPort? && h.To().NfPort? ==>
      m'.state.node.lsi0 == LowGraph.WithoutId(m.state.node.lsi0, RuleName(g, h.id))
  {
    var u, k := Retitle(m, g, h);
    var news := ListAfter(m, u, h, k);
    TakesOne(m.state.node.lsi0, news, RuleName(g, h.id));
    UpdateIsNext(u);
    m' := u.After();
  }

  // ----- a graph that takes a name -----

  /** A rule from a function to itself: nothing of it is in LSI-0. */
  function Loop(id: string, nf: string): Rule {
    Rule(id, Match(NfPort(nf, 1), ""), Action(NfPort(nf, 1), []), 0)
  }

  lemma LoopDiff(rules: seq<Rule>, k: Rule)
    requires DistinctRules(rules) && !HasId(rules, k.id)
    ensures Added(rules, rules + [k]) == [k] && Removed(rules, rules + [k]) == [] && DistinctRules(rules + [k])
    ensures forall h :: h in Merged(rules, rules + [k]) <==> h in rules || h == k
  {
    var target := rules + [k];
    assert forall h :: h in target <==> h in rules || h == k;
    MissingMembers(rules, target);
    SingleRule(Added(rules, target), k);
    RemovedMembers(rules, target);
    MergedMembers(rules, target);
    assert forall h :: h !in Removed(rules, target);
  }

  lemma LoopNeutral(rules: seq<Rule>, k: Rule)
    requires DistinctRules(rules) && !HasId(rules, k.id) && !k.Crosses()
    ensures OneMore(rules, rules + [k], k)
  {
    LoopDiff(rules, k);
  }

  /** The new function has a port of its own. */
  lemma NewFunctionPorts(lsi: LsiState, nf: string, number: nat)
    requires TenantPortsDistinct(lsi) && nf !in lsi.nfPorts && number !in PortsUsed(lsi)
    ensures TenantPortsDistinct(WithNfs(lsi, map[nf := map[NfPortName(nf, 1) := number]]))
    ensures NfSwitchPort(WithNfs(lsi, map[nf := map[NfPortName(nf, 1) := number]]), nf, 1).Some?
  {
    var lsi' := WithNfs(lsi, map[nf := map[NfPortName(nf, 1) := number]]);
    forall x, n | HasTenantPort(lsi', x, n)
      ensures HasTenantPort(lsi, x, n) || (x == OfNf(nf, 1) && n == number)
    {
      if x.OfNf? && x.nf == nf {
        NfPortNameInjective(nf, 1, nf, x.port);
      }
    }
    forall x, n | HasTenantPort(lsi, x, n) {
      PortIsUsed(lsi, x, n);
    }
  }

  /** What such an update leaves. */
  lemma LoopAfter(m: Manager, u: Renewal, k: Rule)
    requires u.m == m && u.p.g in m.state.node.tenants && k.On().NfPort? && k.To().NfPort?
    requires u.p.target == m.state.node.tenants[u.p.g].rules + [k]
    requires DistinctRules(m.state.node.tenants[u.p.g].rules) && !HasId(m.state.node.tenants[u.p.g].rules, k.id)
    ensures u.After().state.node.lsi0 == m.state.node.lsi0 && Holds(u.After().state.node, u.p.g, k)
  {
    var d := m.state.node;
    LoopDiff(d.tenants[u.p.g].rules, k);
    LoopSilent(k, u.p.g, u.p.change.Done(d.tenants[u.p.g].lsi, u.p.now), d.physical, d.connections);
  }

  lemma LoopEnds(m: SteadyManager, g: string, id: string) returns (h: Rule, nfs: map<string, map<string, nat>>)
    requires g in m.state.node.tenants
    ensures h.id == id && h.On().NfPort? && h.To().NfPort?
    ensures var d' := NeutralPlan(m, g, m.state.node.tenants[g].rules + [h], nfs).Node'(m.state.node);
      Translatable(h) && Attached(d', g, h.On()) && Attached(d', g, h.To())
    ensures forall nf :: nf in nfs ==> nf !in m.state.node.tenants[g].lsi.nfPorts
    ensures TenantPortsDistinct(WithNfs(m.state.node.tenants[g].lsi, nfs))
  {
    var lsi, rules := m.state.node.tenants[g].lsi, m.state.node.tenants[g].rules;
    assert Settled(m.state.node, g, m.state.nextId);
    var nf := NewString(lsi.nfPorts.Keys);
    var number := NewNumber(PortsUsed(lsi));
    nfs, h := map[nf := map[NfPortName(nf, 1) := number]], Loop(id, nf);
    NewFunctionPorts(lsi, nf, number);
    NeutralLsi(m, g, rules + [h], nfs);
  }

  /** A graph that has no rule of the name can get one. */
  lemma AddLoop(m: SteadyManager, g: string, id: string) returns (m': Manager, h: Rule)
    requires g in m.state.node.tenants && Unused(m.state.node, RuleName(g, id))
    ensures Runs.Next(m, m', g) && h.id == id && h.On().NfPort? && h.To().NfPort? && Holds(m'.state.node, g, h)
    ensures m'.state.node.lsi0 == m.state.node.lsi0
  {
    var rules := m.state.node.tenants[g].rules;
    var nfs;
    h, nfs := LoopEnds(m, g, id);
    assert Settled(m.state.node, g, m.state.nextId);
    assert forall x :: x in rules ==> Holds(m.state.node, g, x);
    LoopNeutral(rules, h);
    var u := NeutralGood(m, g, rules + [h], nfs, h);
    LoopAfter(m, u, h);
    UpdateIsNext(u);
    m' := u.After();
  }

  function EmptyRequest(g: string): Request {
    Request(g, [], [], map[], map[], [], [])
  }

  lemma EmptyFair(m: SteadyManager, g: string)
    requires g !in m.state.node.tenants
    ensures EmptyRequest(g).Fair(m)
  {
    assert Required([]) == {} && LinksFor({}) == 0;
    var d' := EmptyRequest(g).Node'(m, map[]);
    forall g', h | Holds(d', g', h)
      ensures Holds(m.state.node, g', h)
    {
    }
    forall x, number | HasLsi0Port(d', x, number)
      ensures HasLsi0Port(m.state.node, x, number)
    {
    }
  }

  lemma EmptyAfter(m: Manager, g: string)
    requires g !in m.state.node.tenants
    ensures var d' := EmptyRequest(g).Node'(m, map[]);
      && g in d'.tenants && d'.lsi0 == m.state.node.lsi0
      && forall g', h :: Holds(d', g', h) <==> Holds(m.state.node, g', h)
  {
  }

  lemma EmptyAllocated(m: Manager, g: string)
    ensures Allocated(m, EmptyRequest(g), map[])
  {
    assert Required([]) == {};
  }

  lemma MakeCreation(m: SteadyManager, r: Request, vlinks: map<LinkName, nat>) returns (c: GoodCreation)
    requires r.Fair(m) && Allocated(m, r, vlinks)
    ensures c == Creation(m, r, vlinks)
  {
    c := Creation(m, r, vlinks);
  }

  lemma CreationIsNext(c: GoodCreation)
    ensures Runs.Next(c.m, c.After(), c.r.g)
  {
  }

  lemma CreateEmpty(m: SteadyManager, g: string) returns (m': Manager)
    requires g !in m.state.node.tenants
    ensures Runs.Next(m, m', g) && g in m'.state.node.tenants
    ensures forall g', h :: Holds(m'.state.node, g', h) <==> Holds(m.state.node, g', h)
    ensures m'.state.node.lsi0 == m.state.node.lsi0
  {
    EmptyFair(m, g);
    EmptyAllocated(m, g);
    var c := MakeCreation(m, EmptyRequest(g), map[]);
    CreationIsNext(c);
    EmptyAfter(m, g);
    m' := c.After();
  }

  // ----- runs that take a leftover away -----

  /** A run from `m` on graphs other than `a`. */
  ghost predicate RunPast(ms: seq<Manager>, gs: seq<string>, m: Manager, a: string) {
    Run(ms, gs) && ms[0] == m && a !in gs
  }

  lemma Stay(m: Manager, a: string)
    ensures RunPast([m], [], m, a)
  {
  }

  lemma OneMoreStep(ms: seq<Manager>, gs: seq<string>, m: Manager, a: string, m': Manager, g: string)
    requires RunPast(ms, gs, m, a) && Runs.Next(ms[|gs|], m', g) && g != a
    ensures RunPast(ms + [m'], gs + [g], m, a) && (ms + [m'])[|gs + [g]|] == m'
  {
    Traces.Extended(ms, gs, m', g, Runs.Next);
  }

  lemma Onwards(ms: seq<Manager>, gs: seq<string>, m: Manager, a: string, ms': seq<Manager>, gs': seq<string>)
    requires RunPast(ms, gs, m, a) && RunPast(ms', gs', ms[|gs|], a)
    ensures RunPast(ms + ms'[1..], gs + gs', m, a) && (ms + ms'[1..])[|gs + gs'|] == ms'[|gs'|]
  {
    Traces.Continued(ms, gs, ms', gs', Runs.Next);
  }

  /** Another graph gets a rule of the name, which is in no use, and LSI-0 stays as it is. */
  lemma Take(m: SteadyManager, a: string, g: string, id: string)
      returns (ms: seq<Manager>, gs: seq<string>, h: Rule)
    requires g != a && Unused(m.state.node, RuleName(g, id))
    ensures RunPast(ms, gs, m, a) && h.id == id && h.On().NfPort? && h.To().NfPort? && Holds(ms[|gs|].state.node, g, h)
    ensures ms[|gs|].state.node.lsi0 == m.state.node.lsi0
  {
    Stay(m, a);
    ms, gs := [m], [];
    if g !in m.state.node.tenants {
      var m1 := CreateEmpty(m, g);
      NextSteady(m, m1, g);
      OneMoreStep(ms, gs, m, a, m1, g);
      ms, gs := ms + [m1], gs + [g];
    }
    var m';
    m', h := AddLoop(ms[|gs|], g, id);
    OneMoreStep(ms, gs, m, a, m', g);
    ms, gs := ms + [m'], gs + [g];
  }

  lemma Claim(m: SteadyManager, a: string, name: string)
      returns (ms: seq<Manager>, gs: seq<string>, g: string, h: Rule)
    requires Foreign(a, name) && !NamedBy(m.state.node, a, name)
    ensures RunPast(ms, gs, m, a) && g != a && RuleName(g, h.id) == name && Holds(ms[|gs|].state.node, g, h)
    ensures ms[|gs|].state.node.lsi0 == m.state.node.lsi0
  {
    if g', h' :| Holds(m.state.node, g', h') && RuleName(g', h'.id) == name {
      Stay(m, a);
      ms, gs, g, h := [m], [], g', h';
    } else {
      var g', id :| g' != a && name == RuleName(g', id);
      g := g';
      ms, gs, h := Take(m, a, g, id);
    }
  }

  /** Other graphs can take the first rule of a name away that `a` does not use. */
  lemma TakeAway(m: SteadyManager, a: string, name: string) returns (ms: seq<Manager>, gs: seq<string>)
    requires Foreign(a, name) && !NamedBy(m.state.node, a, name) && Named(m.state.node.lsi0, name) > 0
    ensures RunPast(ms, gs, m, a)
    ensures Named(ms[|gs|].state.node.lsi0, name) == Named(m.state.node.lsi0, name) - 1
  {
    var g, h;
    ms, gs, g, h := Claim(m, a, name);
    RunSteady(ms, gs, |gs|);
    var m' := GiveUpName(ms[|gs|], g, h);
    OneMoreStep(ms, gs, m, a, m', g);
    ms, gs := ms + [m'], gs + [g];
  }

  lemma NotNamedStill(ms: seq<Manager>, gs: seq<string>, m: SteadyManager, a: string, name: string)
    requires RunPast(ms, gs, m, a) && !NamedBy(m.state.node, a, name)
    ensures !NamedBy(ms[|gs|].state.node, a, name) && Steady(ms[|gs|])
  {
    RunSteady(ms, gs, |gs|);
    RunOthers(ms, gs, a);
    forall h | Holds(ms[|gs|].state.node, a, h)
      ensures RuleName(a, h.id) != name
    {
      assert Holds(m.state.node, a, h);
    }
  }

  /** And all the rules of that name, one after the other. */
  lemma {:induction false} Drain(m: SteadyManager, a: string, name: string)
      returns (ms: seq<Manager>, gs: seq<string>)
    requires Foreign(a, name) && !NamedBy(m.state.node, a, name)
    ensures RunPast(ms, gs, m, a) && Named(ms[|gs|].state.node.lsi0, name) == 0
    decreases Named(m.state.node.lsi0, name)
  {
    if Named(m.state.node.lsi0, name) == 0 {
      Stay(m, a);
      ms, gs := [m], [];
    } else {
      ms, gs := TakeAway(m, a, name);
      NotNamedStill(ms, gs, m, a, name);
      var ms', gs' := Drain(ms[|gs|], a, name);
      Onwards(ms, gs, m, a, ms', gs');
      ms, gs := ms + ms'[1..], gs + gs';
    }
  }

  /** Whatever is done with other graphs, LSI-0 keeps the rules it has for what graph `a` sends. */
  ghost predicate LinkRulesStay(m: Manager, a: string) {
    forall ms: seq<Manager>, gs: seq<string> ::
      RunPast(ms, gs, m, a) ==> SameLinkRules(m.state.node, ms[|gs|].state.node, a)
  }

  lemma ClaimedGoes(m: SteadyManager, a: string, l: LowRule)
    requires l in m.state.node.lsi0 && AtLinkOf(m.state.node, a, l)
    requires Foreign(a, l.id) && !NamedBy(m.state.node, a, l.id)
    ensures !LinkRulesStay(m, a)
  {
    var ms, gs := Drain(m, a, l.id);
    NamedMembers(ms[|gs|].state.node.lsi0, l.id);
    assert RunPast(ms, gs, m, a) && !SameLinkRules(m.state.node, ms[|gs|].state.node, a);
  }

  /** The rules for what graph `a` sends survive everything other graphs do if and only if each of them has
      the name of a rule of `a`, or a name no other graph could use. */
  lemma LinkRulesExactly(m: SteadyManager, a: string)
    requires a in m.state.node.tenants
    ensures LinkRulesStay(m, a) <==> Unclaimed(m.state.node, a)
  {
    if Unclaimed(m.state.node, a) {
      forall ms: seq<Manager>, gs: seq<string> | RunPast(ms, gs, m, a)
        ensures SameLinkRules(m.state.node, ms[|gs|].state.node, a)
      {
        RunUndisturbed(ms, gs, a);
      }
    } else {
      var l :| l in m.state.node.lsi0 && AtLinkOf(m.state.node, a, l) && !NamedBy(m.state.node, a, l.id)
        && Foreign(a, l.id);
      ClaimedGoes(m, a, l);
    }
  }
}

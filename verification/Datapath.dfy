/** The manager with its controllers and switches: what the flow tables hold over every run. */
module Datapath {
  import Traces
  import opened HighLevel
  import opened FlowTable
  import opened Lsis
  import opened Names
  import opened Options
  import opened Translator
  import opened Forwarding
  import opened Lifecycle
  import opened Updates
  import opened UpdatePlan
  import opened InternalGroups
  import opened Manager
  import LowGraph
  import Runs
  import C = Controller

  /** One controller, with its switch, for LSI-0 and one for each graph. */
  datatype System = System(m: Manager, lsi0: C.State, tenants: map<string, C.State>)

  /** Operations of the manager, and the events of the switches in between; a new graph's switch may
      connect before or after the rules are there. */
  datatype Move =
    | NewGraph(c: Creation, early: bool)
    | UpdateGraph(u: Renewal)
    | DeleteGraph(g: string)
    | Lsi0Event(e: C.Event)
    | GraphEvent(g: string, e: C.Event)

  predicate FromSwitch(e: C.Event) {
    e.Open? || e.Close? || e.Stray?
  }

  /** Operations and events that fail no assertion. */
  ghost predicate Legal(x: System, move: Move) {
    match move
    case NewGraph(c, _) => c.Good() && c.m == x.m
    case UpdateGraph(u) => u.Good() && u.m == x.m && u.p.g in x.tenants
    case DeleteGraph(g) =>
      && g in x.m.state.node.tenants && g in x.m.members && DeletedManager(x.m, g).Some?
      && C.Possible(x.lsi0, C.Remove(Own(x.m.state.node, g)))
    case Lsi0Event(e) => FromSwitch(e) && C.Possible(x.lsi0, e)
    case GraphEvent(g, e) => FromSwitch(e) && g in x.tenants && C.Possible(x.tenants[g], e)
  }

  const FRESH := C.State(false, [], map[])

  ghost function Start(early: bool): C.State {
    if early then C.After(FRESH, C.Open) else FRESH
  }

  /** The calls an update makes to a controller: removals one by one, then the new rules. */
  ghost function Renewed(c: C.State, ids: seq<string>, rules: seq<LowRule>): C.State {
    C.After(RemoveIds(c, ids), C.Install(rules))
  }

  ghost function RemoveIds(c: C.State, ids: seq<string>): C.State
    decreases ids
  {
    if ids == [] then c else RemoveIds(C.After(c, C.RemoveId(ids[0])), ids[1..])
  }

  ghost function After(x: System, move: Move): System
    requires Legal(x, move)
  {
    match move
    case NewGraph(c, early) =>
      var d' := c.After().state.node;
      System(c.After(), C.After(x.lsi0, C.Install(Own(d', c.r.g))),
             x.tenants[c.r.g := C.After(Start(early), C.Install(d'.tenants[c.r.g].table))])
    case UpdateGraph(u) =>
      var d, d', g := u.m.state.node, u.After().state.node, u.p.g;
      var gone, news := Removed(d.tenants[g].rules, u.p.target), Added(d.tenants[g].rules, u.p.target);
      System(u.After(), Renewed(x.lsi0, Lsi0Ids(g, gone),
                                Lowered(news, Lower0(g, d'.tenants[g].lsi, d'.physical, d'.connections))),
             x.tenants[g := Renewed(x.tenants[g], Ids(gone), Lowered(news, LowerT(d'.tenants[g].lsi)))])
    case DeleteGraph(g) =>
      System(DeletedManager(x.m, g).value, C.After(x.lsi0, C.Remove(Own(x.m.state.node, g))), x.tenants - {g})
    case Lsi0Event(e) => x.(lsi0 := C.After(x.lsi0, e))
    case GraphEvent(g, e) => x.(tenants := x.tenants[g := C.After(x.tenants[g], e)])
  }

  // ----- controllers want what the manager wants -----

  ghost predicate WantsTable(x: System, g: string) {
    g in x.tenants && g in x.m.state.node.tenants && x.tenants[g].graph == x.m.state.node.tenants[g].table
  }

  ghost predicate Matched(x: System) {
    && Steady(x.m) && x.lsi0.graph == x.m.state.node.lsi0
    && (forall g :: g in x.tenants <==> g in x.m.state.node.tenants)
    && forall g :: g in x.tenants ==> WantsTable(x, g)
  }

  lemma {:induction false} RemoveIdsGraph(c: C.State, ids: seq<string>)
    ensures RemoveIds(c, ids).graph == LowGraph.WithoutIds(c.graph, ids) && RemoveIds(c, ids).isOpen == c.isOpen
    decreases ids
  {
    if ids != [] {
      RemoveIdsGraph(C.After(c, C.RemoveId(ids[0])), ids[1..]);
    }
  }

  lemma NewGraphMatched(x: System, c: GoodCreation, early: bool)
    requires Matched(x) && c.m == x.m
    ensures Matched(After(x, NewGraph(c, early)))
  {
    var x' := After(x, NewGraph(c, early));
    NewGraphSteady(c);
    NewGraphShape(c.m, c.r, c.vlinks);
    forall g | g in x'.tenants
      ensures WantsTable(x', g)
    {
      if g != c.r.g {
        assert WantsTable(x, g);
      }
    }
  }

  lemma UpdateMatched(x: System, u: GoodRenewal)
    requires Matched(x) && u.m == x.m && u.p.g in x.tenants
    ensures Matched(After(x, UpdateGraph(u)))
  {
    var x', g := After(x, UpdateGraph(u)), u.p.g;
    var gone := Removed(x.m.state.node.tenants[g].rules, u.p.target);
    UpdateSteady(u);
    RemoveIdsGraph(x.lsi0, Lsi0Ids(g, gone));
    RemoveIdsGraph(x.tenants[g], Ids(gone));
    assert WantsTable(x, g);
    forall g' | g' in x'.tenants
      ensures WantsTable(x', g')
    {
      assert WantsTable(x, g');
    }
  }

  /** While LSI-0 holds exactly the lowering of every graph, a deletion fails no assertion on the way. */
  lemma DeleteNeverFails(x: System, g: string)
    requires Matched(x) && Orderly(x.m) && g in x.m.members
    ensures Legal(x, DeleteGraph(g))
  {
    DeleteOrderlyExactly(x.m, g);
  }

  lemma DeleteMatched(x: System, g: string)
    requires Matched(x) && Legal(x, DeleteGraph(g))
    ensures Matched(After(x, DeleteGraph(g)))
  {
    var x' := After(x, DeleteGraph(g));
    DeleteSteady(x.m, g);
    forall g' | g' in x'.tenants
      ensures WantsTable(x', g')
    {
      assert WantsTable(x, g');
    }
  }

  lemma EventMatched(x: System, move: Move)
    requires Matched(x) && Legal(x, move) && (move.Lsi0Event? || move.GraphEvent?)
    ensures Matched(After(x, move))
  {
    var x' := After(x, move);
    forall g | g in x'.tenants
      ensures WantsTable(x', g)
    {
      assert WantsTable(x, g);
    }
  }

  /** Whatever happens, each controller wants exactly the rules the manager holds for its switch. */
  lemma MoveMatched(x: System, move: Move)
    requires Matched(x) && Legal(x, move)
    ensures Matched(After(x, move))
  {
    match move
    case NewGraph(c, early) => NewGraphMatched(x, c, early);
    case UpdateGraph(u) => UpdateMatched(x, u);
    case DeleteGraph(g) => DeleteMatched(x, g);
    case _ => EventMatched(x, move);
  }

  /** The graph a move is an operation on. */
  function GraphOf(move: Move): Option<string> {
    match move
    case NewGraph(c, _) => Some(c.r.g)
    case UpdateGraph(u) => Some(u.p.g)
    case DeleteGraph(g) => Some(g)
    case _ => None
  }

  /** An operation takes the manager where it says; an event leaves it alone. */
  lemma MoveManages(x: System, move: Move)
    requires Legal(x, move)
    ensures GraphOf(move).None? ==> After(x, move).m == x.m
    ensures GraphOf(move).Some? ==> Runs.Next(x.m, After(x, move).m, GraphOf(move).value)
    ensures move.NewGraph? ==> After(x, move).m == move.c.After()
    ensures move.UpdateGraph? ==> After(x, move).m == move.u.After()
  {
  }

  predicate Follows(isOpen': bool, isOpen: bool, came: bool, went: bool) {
    isOpen' == (came || (isOpen && !went))
  }

  /** A new graph's switch may connect first thing. */
  predicate WasOpen(x: System, move: Move, g: string) {
    if move.NewGraph? && move.c.r.g == g then move.early else g in x.tenants && x.tenants[g].isOpen
  }

  /** A switch counts as connected after its `Open` and not after its `Close`; nothing else changes that. */
  ghost predicate Reconnected(x: System, x': System, move: Move) {
    && Follows(x'.lsi0.isOpen, x.lsi0.isOpen, move == Lsi0Event(C.Open), move == Lsi0Event(C.Close))
    && forall g :: g in x'.tenants ==>
         Follows(x'.tenants[g].isOpen, WasOpen(x, move, g), move == GraphEvent(g, C.Open),
                 move == GraphEvent(g, C.Close))
  }

  lemma RenewedFlag(c: C.State, ids: seq<string>, rules: seq<LowRule>)
    ensures Renewed(c, ids, rules).isOpen == c.isOpen
  {
    RemoveIdsGraph(c, ids);
  }

  lemma UpdateConnects(x: System, x': System, u: Renewal, c: C.State)
    requires u.p.g in x.tenants && x'.tenants == x.tenants[u.p.g := c] && c.isOpen == x.tenants[u.p.g].isOpen
    requires x'.lsi0.isOpen == x.lsi0.isOpen
    ensures Reconnected(x, x', UpdateGraph(u))
  {
  }

  lemma NewGraphConnects(x: System, x': System, c: Creation, early: bool, s: C.State)
    requires x'.tenants == x.tenants[c.r.g := s] && s.isOpen == early && x'.lsi0.isOpen == x.lsi0.isOpen
    ensures Reconnected(x, x', NewGraph(c, early))
  {
  }

  lemma OperationConnects(x: System, move: Move)
    requires Legal(x, move) && (move.NewGraph? || move.UpdateGraph?)
    ensures Reconnected(x, After(x, move), move)
  {
    var x' := After(x, move);
    match move
    case NewGraph(c, early) => NewGraphConnects(x, x', c, early, x'.tenants[c.r.g]);
    case UpdateGraph(u) =>
      var d, d', g := u.m.state.node, u.After().state.node, u.p.g;
      var gone, news := Removed(d.tenants[g].rules, u.p.target), Added(d.tenants[g].rules, u.p.target);
      RenewedFlag(x.lsi0, Lsi0Ids(g, gone),
                  Lowered(news, Lower0(g, d'.tenants[g].lsi, d'.physical, d'.connections)));
      RenewedFlag(x.tenants[g], Ids(gone), Lowered(news, LowerT(d'.tenants[g].lsi)));
      UpdateConnects(x, x', u, x'.tenants[g]);
  }

  lemma EventConnects(x: System, move: Move)
    requires Legal(x, move) && (move.Lsi0Event? || move.GraphEvent?)
    ensures Reconnected(x, After(x, move), move)
  {
    if move.Lsi0Event? {
      C.EventFlag(x.lsi0, move.e);
    } else {
      C.EventFlag(x.tenants[move.g], move.e);
    }
  }

  lemma MoveConnects(x: System, move: Move)
    requires Legal(x, move)
    ensures Reconnected(x, After(x, move), move)
  {
    match move
    case NewGraph(_, _) => OperationConnects(x, move);
    case UpdateGraph(_) => OperationConnects(x, move);
    case DeleteGraph(_) =>
    case _ => EventConnects(x, move);
  }

  // ----- switches hold what the controllers want -----

  /** On no switch do two rules ask for different actions on one match and priority. */
  ghost predicate Unambiguous(d: Node) {
    C.ConflictFree(d.lsi0) && forall g :: g in d.tenants ==> TableUnambiguous(d, g)
  }

  ghost predicate TableUnambiguous(d: Node, g: string) {
    g in d.tenants && C.ConflictFree(d.tenants[g].table)
  }

  ghost predicate GraphValid(x: System, g: string) {
    g in x.tenants && C.Valid(x.tenants[g])
  }

  ghost predicate Synced(x: System) {
    Matched(x) && Orderly(x.m) && C.Valid(x.lsi0) && forall g :: g in x.tenants ==> GraphValid(x, g)
  }

  lemma InstallValid(c: C.State, rules: seq<LowRule>)
    requires C.Valid(c) && LowGraph.UniqueIds(c.graph + rules)
    ensures C.Valid(C.After(c, C.Install(rules))) <==> C.ConflictFree(c.graph + rules)
  {
    if c.isOpen {
      C.InstallExactly(c.graph, rules, c.flows);
    }
  }

  lemma {:induction false} RemoveIdsValid(c: C.State, ids: seq<string>)
    requires C.Valid(c)
    ensures C.Valid(RemoveIds(c, ids))
    decreases ids
  {
    if ids != [] {
      C.EventKeepsValid(c, C.RemoveId(ids[0]));
      RemoveIdsValid(C.After(c, C.RemoveId(ids[0])), ids[1..]);
    }
  }

  lemma RenewedValid(c: C.State, ids: seq<string>, rules: seq<LowRule>)
    requires C.Valid(c) && LowGraph.UniqueIds(Renewed(c, ids, rules).graph)
    ensures C.Valid(Renewed(c, ids, rules)) <==> C.ConflictFree(Renewed(c, ids, rules).graph)
  {
    RemoveIdsValid(c, ids);
    InstallValid(RemoveIds(c, ids), rules);
  }

  lemma StartValid(early: bool, rules: seq<LowRule>)
    requires LowGraph.UniqueIds(rules)
    ensures C.Valid(C.After(Start(early), C.Install(rules))) <==> C.ConflictFree(rules)
  {
    assert Start(early).graph + rules == rules;
    C.OpenExactly([]);
    InstallValid(Start(early), rules);
  }

  lemma Lsi0Unique(m: OrderlyManager)
    ensures LowGraph.UniqueIds(m.state.node.lsi0)
  {
  }

  lemma TableUnique(m: SteadyManager, g: string)
    requires g in m.state.node.tenants
    ensures LowGraph.UniqueIds(m.state.node.tenants[g].table)
  {
    assert Settled(m.state.node, g, m.state.nextId);
  }

  ghost predicate OthersStay(x: System, x': System, g: string) {
    forall g' :: g' != g && g' in x'.tenants ==> g' in x.tenants && x'.tenants[g'] == x.tenants[g']
  }

  /** If the two switches an operation concerns are in step exactly when unambiguous, all are. */
  lemma SyncedExactly(x: System, x': System, g: string)
    requires Synced(x) && Matched(x') && Orderly(x'.m) && OthersStay(x, x', g)
    requires C.Valid(x'.lsi0) <==> C.ConflictFree(x'.m.state.node.lsi0)
    requires g in x'.tenants ==> (C.Valid(x'.tenants[g]) <==> C.ConflictFree(x'.m.state.node.tenants[g].table))
    ensures Synced(x') <==> Unambiguous(x'.m.state.node)
  {
    var d' := x'.m.state.node;
    forall g' | g' in x'.tenants
      ensures GraphValid(x', g') <==> TableUnambiguous(d', g')
    {
      assert WantsTable(x', g');
      if g' != g {
        assert GraphValid(x, g');
      }
    }
    if Synced(x') {
      forall g' | g' in d'.tenants
        ensures TableUnambiguous(d', g')
      {
        assert GraphValid(x', g');
      }
    }
    if Unambiguous(d') {
      forall g' | g' in x'.tenants
        ensures GraphValid(x', g')
      {
        assert TableUnambiguous(d', g');
      }
    }
  }

  lemma NewGraphLsi0(x: System, c: GoodCreation, early: bool)
    requires C.Valid(x.lsi0) && x.lsi0.graph == x.m.state.node.lsi0 && c.m == x.m && Orderly(c.After())
    ensures var x' := After(x, NewGraph(c, early)); C.Valid(x'.lsi0) <==> C.ConflictFree(x'.m.state.node.lsi0)
  {
    NewGraphShape(c.m, c.r, c.vlinks);
    Lsi0Unique(c.After());
    InstallValid(x.lsi0, Own(c.After().state.node, c.r.g));
  }

  lemma NewGraphTable(x: System, c: GoodCreation, early: bool)
    requires c.m == x.m && Steady(c.After())
    ensures var x', g := After(x, NewGraph(c, early)), c.r.g;
      C.Valid(x'.tenants[g]) <==> C.ConflictFree(x'.m.state.node.tenants[g].table)
  {
    TableUnique(c.After(), c.r.g);
    StartValid(early, c.After().state.node.tenants[c.r.g].table);
  }

  lemma NewGraphOthersStay(x: System, c: GoodCreation, early: bool)
    requires c.m == x.m
    ensures OthersStay(x, After(x, NewGraph(c, early)), c.r.g)
  {
  }

  lemma NewGraphSynced(x: System, c: GoodCreation, early: bool)
    requires Synced(x) && c.m == x.m
    ensures var x' := After(x, NewGraph(c, early)); Synced(x') <==> Unambiguous(x'.m.state.node)
  {
    NewGraphMatched(x, c, early);
    NewGraphOrderly(c);
    NewGraphLsi0(x, c, early);
    NewGraphTable(x, c, early);
    NewGraphOthersStay(x, c, early);
    SyncedExactly(x, After(x, NewGraph(c, early)), c.r.g);
  }

  lemma UpdateLsi0(x: System, u: GoodRenewal)
    requires C.Valid(x.lsi0) && u.m == x.m && u.p.g in x.tenants && Matched(After(x, UpdateGraph(u)))
    requires Orderly(u.After())
    ensures var x' := After(x, UpdateGraph(u)); C.Valid(x'.lsi0) <==> C.ConflictFree(x'.m.state.node.lsi0)
  {
    var t, g, d' := x.m.state.node.tenants[u.p.g], u.p.g, u.After().state.node;
    Lsi0Unique(u.After());
    RenewedValid(x.lsi0, Lsi0Ids(g, Removed(t.rules, u.p.target)),
                 Lowered(Added(t.rules, u.p.target), Lower0(g, d'.tenants[g].lsi, d'.physical, d'.connections)));
  }

  lemma UpdateTable(x: System, u: GoodRenewal)
    requires u.m == x.m && GraphValid(x, u.p.g) && Matched(After(x, UpdateGraph(u)))
    ensures var x', g := After(x, UpdateGraph(u)), u.p.g;
      C.Valid(x'.tenants[g]) <==> C.ConflictFree(x'.m.state.node.tenants[g].table)
  {
    var t, g, d' := x.m.state.node.tenants[u.p.g], u.p.g, u.After().state.node;
    TableUnique(u.After(), g);
    assert WantsTable(After(x, UpdateGraph(u)), g);
    RenewedValid(x.tenants[g], Ids(Removed(t.rules, u.p.target)),
                 Lowered(Added(t.rules, u.p.target), LowerT(d'.tenants[g].lsi)));
  }

  lemma UpdateOthersStay(x: System, u: GoodRenewal)
    requires u.m == x.m && u.p.g in x.tenants
    ensures OthersStay(x, After(x, UpdateGraph(u)), u.p.g)
  {
  }

  lemma UpdateSynced(x: System, u: GoodRenewal)
    requires Synced(x) && u.m == x.m && u.p.g in x.tenants
    ensures var x' := After(x, UpdateGraph(u)); Synced(x') <==> Unambiguous(x'.m.state.node)
  {
    UpdateMatched(x, u);
    UpdateOrderly(u);
    UpdateLsi0(x, u);
    UpdateTable(x, u);
    UpdateOthersStay(x, u);
    SyncedExactly(x, After(x, UpdateGraph(u)), u.p.g);
  }

  // ----- deleting -----

  /** No rule that remains has the key of a removed one: it would have had its action too. */
  lemma DeleteFair(s: SaneState, g: string)
    requires g in s.node.tenants && NoTwins(s.node, g) && C.ConflictFree(s.node.lsi0)
    ensures LowGraph.Minus(s.node.lsi0, Own(s.node, g)).Some?
    ensures forall l :: l in LowGraph.Minus(s.node.lsi0, Own(s.node, g)).value ==> C.KeyOf(l) !in C.Keys(Own(s.node, g))
  {
    var own := Own(s.node, g);
    OwnInstalled(s, g);
    NoTwinsFirst(s.node, g);
    LowGraph.MinusExactly(s.node.lsi0, own);
    forall l, x | l in s.node.lsi0 && x in own && C.KeyOf(l) == C.KeyOf(x)
      ensures l in own
    {
      assert LowGraph.SameFlow(l, x);
    }
  }

  /** An equal rule of another graph: one of the two stays wanted. */
  lemma TwinRemains(s: SaneState, g: string, k: LowRule, l: LowRule)
    requires g in s.node.tenants && k in s.node.lsi0 && k !in Own(s.node, g) && l in Own(s.node, g)
    requires LowGraph.SameFlow(k, l)
    ensures LowGraph.Minus(s.node.lsi0, Own(s.node, g)).Some?
    ensures C.HasKey(LowGraph.Minus(s.node.lsi0, Own(s.node, g)).value, C.KeyOf(l))
  {
    var lsi0, own := s.node.lsi0, Own(s.node, g);
    OwnInstalled(s, g);
    forall x | x in own
      ensures |LowGraph.Class(lsi0, x)| >= |LowGraph.Class(own, x)|
    {
      LowGraph.ClassGrows(own, lsi0, x);
    }
    LowGraph.MinusCounts(lsi0, own);
    ClassGrowsMore(own, lsi0, k, l);
    var rest := LowGraph.Class(LowGraph.Minus(lsi0, own).value, l);
    assert |rest| > 0;
    var x :| x in rest;
    assert C.KeyOf(x) == C.KeyOf(l);
  }

  lemma ClassGrowsMore(few: seq<LowRule>, many: seq<LowRule>, k: LowRule, l: LowRule)
    requires (forall x :: x in few ==> x in many) && k in many && k !in few && LowGraph.SameFlow(k, l)
    ensures |LowGraph.Class(few, l)| < |LowGraph.Class(many, l)|
  {
    LowGraph.ClassGrows(few + [k], many, l);
    assert LowGraph.Class(few + [k], l) == LowGraph.Class(few, l) + {k};
  }

  /** Deleting a graph leaves the flows of LSI-0 those of the rules still wanted if and only if no other
      graph asks for one of its flows; `TwinsExactly` says when that is. */
  lemma DeleteAgreesExactly(s: SaneState, g: string, flows: C.Datapath)
    requires g in s.node.tenants && C.Agrees(s.node.lsi0, flows)
    ensures LowGraph.Minus(s.node.lsi0, Own(s.node, g)).Some?
    ensures C.Agrees(LowGraph.Minus(s.node.lsi0, Own(s.node, g)).value, flows - C.Keys(Own(s.node, g)))
            <==> NoTwins(s.node, g)
  {
    var own := Own(s.node, g);
    OwnFound(s, g);
    var rest := LowGraph.Minus(s.node.lsi0, own).value;
    C.RemoveExactly(s.node.lsi0, own, flows);
    C.AgreesConflictFree(s.node.lsi0, flows);
    if NoTwins(s.node, g) {
      DeleteFair(s, g);
    } else {
      var k, l :| k in s.node.lsi0 && l in own && LowGraph.SameFlow(k, l) && k !in own;
      TwinRemains(s, g, k, l);
      var x :| x in rest && C.KeyOf(x) == C.KeyOf(l);
    }
  }

  /** The failing case: of two graphs with the same port-to-port rule, deleting one takes the flow of the
      other, which still wants it. */
  lemma SharedWireLost(s: SaneState, g: string, h: Rule, g': string, h': Rule, flows: C.Datapath)
    requires Holds(s.node, g, h) && Holds(s.node, g', h') && g' != g && SameWire(h, h')
    ensures Half0(s.node, g', h').Emit?
    ensures var l := Half0(s.node, g', h').rule;
      && C.KeyOf(l) !in flows - C.Keys(Own(s.node, g)) && LowGraph.Minus(s.node.lsi0, Own(s.node, g)).Some?
      && C.HasKey(LowGraph.Minus(s.node.lsi0, Own(s.node, g)).value, C.KeyOf(l))
  {
    var d := s.node;
    SaneDeployed(s);
    WiresAreTwins(d, g, h, g', h');
    var l, k := Half0(d, g, h).rule, Half0(d, g', h').rule;
    assert FromRule(d, g, h, l) && FromRule(d, g', h', k);
    OwnersDiffer(s, g, g, h, l);
    OwnersDiffer(s, g, g', h', k);
    assert k in d.lsi0;
    TwinRemains(s, g, k, l);
  }

  /** Two graphs with the same wire, as it can happen. */
  const WIRE := Rule("1", Match(Port("p"), ""), Action(Port("q"), []), 1)
  const BARE := LsiState(map[], {}, map[], [], map[])
  const SHARED := Node(map["p" := 1, "q" := 2], map[],
                       map["a" := Tenant([WIRE], BARE, []), "b" := Tenant([WIRE], BARE, [])],
                       [LowRule("a_1", LowMatch(Some(1), Some("")), Output(2, []), 1),
                        LowRule("b_1", LowMatch(Some(1), Some("")), Output(2, []), 1)])

  lemma SharedHalves()
    ensures Half0(SHARED, "a", WIRE) == Emit(SHARED.lsi0[0]) && Half0(SHARED, "b", WIRE) == Emit(SHARED.lsi0[1])
    ensures LowerToTenant(WIRE, BARE) == Skip && Required([WIRE]) == {}
  {
    assert RuleName("a", "1") == "a_1" && RuleName("b", "1") == "b_1";
  }

  lemma SharedInstalled()
    ensures Installed(SHARED) && NamesDistinct(SHARED)
  {
    SharedHalves();
    assert SHARED.lsi0[0].id[0] != SHARED.lsi0[1].id[0];
    assert RuleName("a", "1")[0] != RuleName("b", "1")[0];
    forall l
      ensures l in SHARED.lsi0 <==> exists g, h :: FromRule(SHARED, g, h, l)
    {
      assert FromRule(SHARED, "a", WIRE, SHARED.lsi0[0]) && FromRule(SHARED, "b", WIRE, SHARED.lsi0[1]);
    }
  }

  lemma SharedSettled(g: string)
    requires g in SHARED.tenants
    ensures Settled(SHARED, g, 0)
  {
    SharedHalves();
  }

  lemma SharedSane()
    ensures Sane(State(SHARED, 0))
  {
    SharedInstalled();
    forall g | g in SHARED.tenants
      ensures Settled(SHARED, g, 0)
    {
      SharedSettled(g);
    }
  }

  lemma SharedOwners()
    ensures SHARED.lsi0[0] in Own(SHARED, "a") && SHARED.lsi0[1] in Own(SHARED, "b")
    ensures SHARED.lsi0[0] !in Own(SHARED, "b") && SHARED.lsi0[1] !in Own(SHARED, "a")
  {
    var s := State(SHARED, 0);
    SharedSane();
    SharedHalves();
    assert FromRule(SHARED, "a", WIRE, SHARED.lsi0[0]) && FromRule(SHARED, "b", WIRE, SHARED.lsi0[1]);
    OwnersDiffer(s, "b", "a", WIRE, SHARED.lsi0[0]);
    OwnersDiffer(s, "b", "b", WIRE, SHARED.lsi0[1]);
    OwnersDiffer(s, "a", "a", WIRE, SHARED.lsi0[0]);
    OwnersDiffer(s, "a", "b", WIRE, SHARED.lsi0[1]);
  }

  /** There both go wrong: deleting the later graph takes the rule of the earlier one out of the list and
      leaves its own, and the flow is gone. */
  lemma SharedWireExample(flows: C.Datapath)
    requires C.Agrees(SHARED.lsi0, flows)
    ensures !OwnFirst(SHARED, "b") && !NoTwins(SHARED, "b") && !NoTwins(SHARED, "a")
    ensures C.KeyOf(SHARED.lsi0[0]) in flows && C.KeyOf(SHARED.lsi0[0]) !in flows - C.Keys(Own(SHARED, "b"))
  {
    SharedOwners();
    var first, second := SHARED.lsi0[0], SHARED.lsi0[1];
    assert LowGraph.SameFlow(first, second) && LowGraph.SameFlow(second, first);
    assert first in SHARED.lsi0 && second in SHARED.lsi0;
    assert C.KeyOf(first) == C.KeyOf(second);
  }

  /** Whatever is taken out, the list stays without repeated ids and without conflicts. */
  lemma RestFine(rules: seq<LowRule>, gone: seq<LowRule>)
    requires LowGraph.UniqueIds(rules) && C.ConflictFree(rules) && LowGraph.Minus(rules, gone).Some?
    ensures LowGraph.UniqueIds(LowGraph.Minus(rules, gone).value) && C.ConflictFree(LowGraph.Minus(rules, gone).value)
  {
    LowGraph.MinusUnique(rules, gone);
    forall l {
      LowGraph.MinusMembers(rules, gone, l);
    }
    C.FewerConflictFree(rules, LowGraph.Minus(rules, gone).value);
  }

  lemma DeleteLsi0(x: System, g: string)
    requires Synced(x) && Legal(x, DeleteGraph(g))
    ensures C.Valid(After(x, DeleteGraph(g)).lsi0) <==> (x.lsi0.isOpen ==> NoTwins(x.m.state.node, g))
  {
    RestFine(x.m.state.node.lsi0, Own(x.m.state.node, g));
    if x.lsi0.isOpen {
      DeleteAgreesExactly(x.m.state, g, x.lsi0.flows);
    }
  }

  lemma DeleteOthersStay(x: System, g: string)
    requires Synced(x) && Legal(x, DeleteGraph(g))
    ensures forall g' :: g' in After(x, DeleteGraph(g)).tenants ==> GraphValid(After(x, DeleteGraph(g)), g')
  {
    var x' := After(x, DeleteGraph(g));
    forall g' | g' in x'.tenants
      ensures GraphValid(x', g')
    {
      assert GraphValid(x, g');
    }
  }

  lemma DeleteSynced(x: System, g: string)
    requires Synced(x) && Legal(x, DeleteGraph(g))
    ensures Synced(After(x, DeleteGraph(g))) <==> Sustains(x, DeleteGraph(g))
  {
    DeleteMatched(x, g);
    DeleteLsi0(x, g);
    DeleteOthersStay(x, g);
    DeleteOrderlyExactly(x.m, g);
    if NoTwins(x.m.state.node, g) {
      NoTwinsFirst(x.m.state.node, g);
    }
  }

  lemma EventSynced(x: System, move: Move)
    requires Synced(x) && Legal(x, move) && (move.Lsi0Event? || move.GraphEvent?)
    ensures Synced(After(x, move)) && Unambiguous(After(x, move).m.state.node)
  {
    var x' := After(x, move);
    EventMatched(x, move);
    if move.Lsi0Event? {
      C.EventKeepsValid(x.lsi0, move.e);
    } else {
      assert GraphValid(x, move.g);
      C.EventKeepsValid(x.tenants[move.g], move.e);
    }
    forall g | g in x'.tenants
      ensures GraphValid(x', g)
    {
      assert GraphValid(x, g);
    }
    SyncedExactly(x, x', if move.GraphEvent? then move.g else "");
  }

  /** A switch that reconnects is given the list, whatever became of its flows. */
  lemma ReconnectHeals(x: System)
    requires Matched(x) && Orderly(x.m) && C.ConflictFree(x.m.state.node.lsi0)
    ensures Legal(x, Lsi0Event(C.Open)) && C.Valid(After(x, Lsi0Event(C.Open)).lsi0)
  {
    Lsi0Unique(x.m);
    C.OpenExactly(x.lsi0.graph);
  }

  /** What a move has to meet: the rules then held are unambiguous; a deletion takes no flow of another
      graph while the switch is connected, and no rule of another graph while it is not. */
  ghost predicate Sustains(x: System, move: Move)
    requires Legal(x, move)
  {
    match move
    case DeleteGraph(g) => if x.lsi0.isOpen then NoTwins(x.m.state.node, g) else OwnFirst(x.m.state.node, g)
    case _ => Unambiguous(After(x, move).m.state.node)
  }

  /** From a state in step, a move leads to a state in step if and only if it meets that. */
  lemma MoveSyncedExactly(x: System, move: Move)
    requires Synced(x) && Legal(x, move)
    ensures Synced(After(x, move)) <==> Sustains(x, move)
  {
    match move
    case NewGraph(c, early) => NewGraphSynced(x, c, early);
    case UpdateGraph(u) => UpdateSynced(x, u);
    case DeleteGraph(g) => DeleteSynced(x, g);
    case _ => EventSynced(x, move);
  }

  // ----- every run -----

  ghost predicate Moves(x: System, x': System, move: Move) {
    Legal(x, move) && x' == After(x, move)
  }

  ghost predicate Run(xs: seq<System>, moves: seq<Move>) {
    Traces.Run(xs, moves, Moves)
  }

  ghost predicate Sustained(x: System, x': System, move: Move) {
    Legal(x, move) && Sustains(x, move)
  }

  /** The first `i` moves meet what they have to. */
  ghost predicate SustainedUntil(xs: seq<System>, moves: seq<Move>, i: nat) {
    Traces.Until(xs, moves, Sustained, i)
  }

  /** The node as it starts, with its physical ports and nothing deployed. */
  lemma StartSynced(physical: map<string, nat>)
    requires forall p, q :: p in physical && q in physical && physical[p] == physical[q] ==> p == q
    ensures Synced(System(Manager(State(Node(physical, map[], map[], []), 0), NO_GROUPS, map[]), FRESH, map[]))
  {
    NoneCounted();
  }

  lemma RunMatched(xs: seq<System>, moves: seq<Move>, i: nat)
    requires Run(xs, moves) && Matched(xs[0]) && i <= |moves|
    ensures Matched(xs[i])
  {
    forall x, x', move | Matched(x) && Moves(x, x', move)
      ensures Matched(x')
    {
      MoveMatched(x, move);
    }
    Traces.Always(xs, moves, Moves, Matched, i);
  }

  lemma RunSynced(xs: seq<System>, moves: seq<Move>, i: nat)
    requires Run(xs, moves) && Synced(xs[0]) && i <= |moves| && SustainedUntil(xs, moves, i)
    ensures Synced(xs[i])
  {
    forall x, x', move | Synced(x) && Moves(x, x', move) && Sustained(x, x', move)
      ensures Synced(x')
    {
      MoveSyncedExactly(x, move);
    }
    Traces.Keeps(xs, moves, Moves, Sustained, Synced, i);
  }

  // ----- packets through the flow tables -----

  ghost function FlowsAt(x: System, pos: Position): C.Datapath {
    match pos
    case OnLsi0(_) => x.lsi0.flows
    case OnTenant(g, _) => if g in x.tenants then x.tenants[g].flows else map[]
  }

  ghost predicate Fires(x: System, sem: Semantics, pos: Position, packet: Packet, k: C.Key, s: Stage) {
    var flows := FlowsAt(x, pos);
    && C.FlowSelected(sem, flows, pos.port, packet, k) && flows[k].Output?
    && Lands(x.m.state.node, pos, flows[k].port, Apply(sem, flows[k].generic, packet), s)
  }

  ghost predicate FlowHit(x: System, sem: Semantics, pos: Position, packet: Packet, k: C.Key) {
    k in FlowsAt(x, pos) && Accepts(sem, k.pattern, pos.port, packet)
  }

  ghost predicate FlowStep(x: System, sem: Semantics, pos: Position, packet: Packet, s: Stage) {
    if !exists k :: FlowHit(x, sem, pos, packet, k) then s == Done(Drop)
    else exists k :: Fires(x, sem, pos, packet, k, s)
  }

  /** The fate of a packet as the flow tables of the switches have it. */
  ghost predicate FlowWalk(x: System, sem: Semantics, hops: nat, pos: Position, packet: Packet, v: Verdict) {
    && hops > 0
    && exists s :: FlowStep(x, sem, pos, packet, s) &&
         if s.Done? then v == s.verdict else FlowWalk(x, sem, hops - 1, s.pos, s.packet, v)
  }

  ghost predicate Connected(x: System) {
    x.lsi0.isOpen && forall g :: g in x.tenants ==> x.tenants[g].isOpen
  }

  lemma TableAgrees(x: System, pos: Position)
    requires Synced(x) && Connected(x)
    ensures C.Agrees(TableAt(x.m.state.node, pos), FlowsAt(x, pos))
  {
    if pos.OnTenant? && pos.graph in x.tenants {
      assert GraphValid(x, pos.graph) && WantsTable(x, pos.graph);
    }
  }

  lemma SameHits(x: System, sem: Semantics, pos: Position, packet: Packet)
    requires C.Agrees(TableAt(x.m.state.node, pos), FlowsAt(x, pos))
    ensures (exists k :: FlowHit(x, sem, pos, packet, k))
            <==> exists l :: Hit(sem, TableAt(x.m.state.node, pos), pos.port, packet, l)
  {
    var table := TableAt(x.m.state.node, pos);
    if k :| FlowHit(x, sem, pos, packet, k) {
      var l :| l in table && C.KeyOf(l) == k;
      assert Hit(sem, table, pos.port, packet, l);
    }
    if l :| Hit(sem, table, pos.port, packet, l) {
      assert FlowHit(x, sem, pos, packet, C.KeyOf(l));
    }
  }

  lemma FiredExecutes(x: System, sem: Semantics, pos: Position, packet: Packet, k: C.Key, s: Stage)
    requires C.Agrees(TableAt(x.m.state.node, pos), FlowsAt(x, pos)) && Fires(x, sem, pos, packet, k, s)
    ensures exists l :: Executes(x.m.state.node, sem, pos, packet, l, s)
  {
    var table, flows := TableAt(x.m.state.node, pos), FlowsAt(x, pos);
    C.AgreeingSwitchForwards(sem, table, flows, pos.port, packet, flows[k]);
    var l :| Selected(sem, table, pos.port, packet, l) && l.action == flows[k];
    assert Executes(x.m.state.node, sem, pos, packet, l, s);
  }

  lemma ExecutedFires(x: System, sem: Semantics, pos: Position, packet: Packet, l: LowRule, s: Stage)
    requires C.Agrees(TableAt(x.m.state.node, pos), FlowsAt(x, pos)) && Executes(x.m.state.node, sem, pos, packet, l, s)
    ensures exists k :: Fires(x, sem, pos, packet, k, s)
  {
    var table, flows := TableAt(x.m.state.node, pos), FlowsAt(x, pos);
    C.AgreeingSwitchForwards(sem, table, flows, pos.port, packet, l.action);
    var k :| C.FlowSelected(sem, flows, pos.port, packet, k) && flows[k] == l.action;
    assert Fires(x, sem, pos, packet, k, s);
  }

  lemma SameStep(x: System, sem: Semantics, pos: Position, packet: Packet, s: Stage)
    requires C.Agrees(TableAt(x.m.state.node, pos), FlowsAt(x, pos))
    ensures FlowStep(x, sem, pos, packet, s) <==> Forwarding.Step(x.m.state.node, sem, pos, packet, s)
  {
    SameHits(x, sem, pos, packet);
    if k :| Fires(x, sem, pos, packet, k, s) {
      FiredExecutes(x, sem, pos, packet, k, s);
    }
    if l :| Executes(x.m.state.node, sem, pos, packet, l, s) {
      ExecutedFires(x, sem, pos, packet, l, s);
    }
  }

  /** Connected switches in step take every packet where the rules the manager holds would. */
  lemma {:induction false} SameWalk(x: System, sem: Semantics, hops: nat, pos: Position, packet: Packet, v: Verdict)
    requires Synced(x) && Connected(x)
    ensures FlowWalk(x, sem, hops, pos, packet, v) <==> Walk(x.m.state.node, sem, hops, pos, packet, v)
  {
    if hops > 0 {
      TableAgrees(x, pos);
      forall s
        ensures FlowStep(x, sem, pos, packet, s) <==> Forwarding.Step(x.m.state.node, sem, pos, packet, s)
        ensures s.Moved? ==>
          (FlowWalk(x, sem, hops - 1, s.pos, s.packet, v) <==> Walk(x.m.state.node, sem, hops - 1, s.pos, s.packet, v))
      {
        SameStep(x, sem, pos, packet, s);
        if s.Moved? {
          SameWalk(x, sem, hops - 1, s.pos, s.packet, v);
        }
      }
    }
  }

  /** End to end: in every state of every run of requests and switch events in which the switches are
      connected, the flow tables take every packet where the big switches of the graphs would. */
  lemma RunDelivers(xs: seq<System>, moves: seq<Move>, i: nat, sem: Semantics, hops: nat, at: Location, pos: Position,
      packet: Packet, v: Verdict)
    requires Run(xs, moves) && Synced(xs[0]) && i <= |moves| && SustainedUntil(xs, moves, i)
    requires Connected(xs[i]) && Faithful(xs[i].m.state.node) && Ingress(xs[i].m.state.node, at, pos) && hops >= 2
    ensures FlowWalk(xs[i], sem, hops, pos, packet, v) <==> BigSwitch(xs[i].m.state.node, sem, at, packet, v)
  {
    RunSynced(xs, moves, i);
    SameWalk(xs[i], sem, hops, pos, packet, v);
    SaneDeployed(xs[i].m.state);
    NodeIsBigSwitch(xs[i].m.state.node, sem, hops, at, pos, packet, v);
  }
}

/** The OpenFlow controller of one switch: the rules wanted, against a datapath that comes and goes. */
module Controller {
  import Traces
  import opened HighLevel
  import opened FlowTable
  import opened Options
  import opened Seqs
  import LowGraph

  /** A switch tells flows apart by match and priority: adding a flow overwrites the one with the same
      key, a strict deletion removes it. */
  datatype Key = Key(pattern: LowMatch, priority: nat)
  type Datapath = map<Key, LowAction>

  function KeyOf(l: LowRule): Key {
    Key(l.pattern, l.priority)
  }

  function AddAll(flows: Datapath, rules: seq<LowRule>): Datapath {
    if rules == [] then flows
    else
      var l := rules[|rules| - 1];
      AddAll(flows, rules[..|rules| - 1])[KeyOf(l) := l.action]
  }

  function Keys(rules: seq<LowRule>): set<Key> {
    set l | l in rules :: KeyOf(l)
  }

  // ----- agreement -----

  /** The flows on the switch are those of the rules, no more and no less. */
  ghost predicate Agrees(rules: seq<LowRule>, flows: Datapath) {
    && (forall l :: l in rules ==> KeyOf(l) in flows && flows[KeyOf(l)] == l.action)
    && (forall k :: k in flows ==> HasKey(rules, k))
  }

  ghost predicate HasKey(rules: seq<LowRule>, k: Key) {
    exists l :: l in rules && KeyOf(l) == k
  }

  /** No two rules ask for different actions on the same key. */
  ghost predicate ConflictFree(rules: seq<LowRule>) {
    forall l, l' :: l in rules && l' in rules && KeyOf(l) == KeyOf(l') ==> l.action == l'.action
  }

  lemma AgreesConflictFree(rules: seq<LowRule>, flows: Datapath)
    requires Agrees(rules, flows)
    ensures ConflictFree(rules)
  {
  }

  lemma {:induction false} AddAllKeys(flows: Datapath, rules: seq<LowRule>, k: Key)
    ensures k in AddAll(flows, rules) <==> k in flows || HasKey(rules, k)
    ensures k in AddAll(flows, rules) && !HasKey(rules, k) ==> AddAll(flows, rules)[k] == flows[k]
    ensures HasKey(rules, k) ==> exists l :: l in rules && KeyOf(l) == k && AddAll(flows, rules)[k] == l.action
  {
    if rules != [] {
      var most, last := rules[..|rules| - 1], rules[|rules| - 1];
      AddAllKeys(flows, most, k);
      assert forall l :: l in rules <==> l in most || l == last;
    }
  }

  /** The rules are installed in order: a later one overwrites an earlier one of the same key. */
  lemma {:induction false} AddAllInOrder(flows: Datapath, first: seq<LowRule>, rest: seq<LowRule>)
    ensures AddAll(flows, first + rest) == AddAll(AddAll(flows, first), rest)
  {
    if rest == [] {
      assert first + rest == first;
    } else {
      var n := |rest| - 1;
      AddAllInOrder(flows, first, rest[..n]);
      assert (first + rest)[..|first + rest| - 1] == first + rest[..n];
    }
  }

  lemma AddOne(flows: Datapath, l: LowRule)
    ensures AddAll(flows, [l]) == flows[KeyOf(l) := l.action]
  {
    assert [l][..0] == [];
  }

  /** Installing rules on a switch that agrees leaves it agreeing exactly when nothing conflicts. */
  lemma InstallExactly(rules: seq<LowRule>, news: seq<LowRule>, flows: Datapath)
    requires Agrees(rules, flows)
    ensures Agrees(rules + news, AddAll(flows, news)) <==> ConflictFree(rules + news)
  {
    var all, flows' := rules + news, AddAll(flows, news);
    if Agrees(all, flows') {
      AgreesConflictFree(all, flows');
    }
    if ConflictFree(all) {
      forall l | l in all
        ensures KeyOf(l) in flows' && flows'[KeyOf(l)] == l.action
      {
        AddAllKeys(flows, news, KeyOf(l));
      }
      forall k | k in flows'
        ensures HasKey(all, k)
      {
        AddAllKeys(flows, news, k);
        if HasKey(news, k) {
          var l :| l in news && KeyOf(l) == k;
          assert l in all;
        } else {
          var l :| l in rules && KeyOf(l) == k;
          assert l in all;
        }
      }
    }
  }

  /** So does a switch that connects: it is reset, then given every rule. */
  lemma OpenExactly(rules: seq<LowRule>)
    ensures Agrees(rules, AddAll(map[], rules)) <==> ConflictFree(rules)
  {
    InstallExactly([], rules, map[]);
    assert [] + rules == rules;
  }

  // ----- removal of a list of rules -----

  /** The flows of the removed rules are deleted whatever else is wanted: the switch still agrees exactly
      when no rule that remains has the key of a removed one. */
  lemma RemoveExactly(rules: seq<LowRule>, gone: seq<LowRule>, flows: Datapath)
    requires Agrees(rules, flows) && LowGraph.Minus(rules, gone).Some?
    ensures var rest := LowGraph.Minus(rules, gone).value;
      Agrees(rest, flows - Keys(gone)) <==> forall l :: l in rest ==> KeyOf(l) !in Keys(gone)
  {
    var rest, flows' := LowGraph.Minus(rules, gone).value, flows - Keys(gone);
    forall l {
      LowGraph.MinusMembers(rules, gone, l);
    }
    if forall l :: l in rest ==> KeyOf(l) !in Keys(gone) {
      forall k | k in flows'
        ensures HasKey(rest, k)
      {
        var l :| l in rules && KeyOf(l) == k;
        assert forall x :: x in gone && LowGraph.SameFlow(l, x) ==> KeyOf(x) == k;
      }
    }
  }

  // ----- removal by id -----

  /** What removing a rule by id leaves on the switch: the flow stays while an equal rule survives. */
  ghost function AfterRemoval(rules: seq<LowRule>, id: string, flows: Datapath): Datapath {
    var i := LowGraph.Index(rules, id);
    if i == |rules| || LowGraph.HasTwin(rules, rules[i]) then flows else flows - {KeyOf(rules[i])}
  }

  /** A second rule of the same id, unseen by the search for an equal one, asks for the same flow. */
  ghost predicate Repeated(rules: seq<LowRule>, id: string) {
    var i := LowGraph.Index(rules, id);
    i < |rules| && exists j :: 0 <= j < |rules| && j != i && rules[j].id == id && KeyOf(rules[j]) == KeyOf(rules[i])
  }

  lemma SameKeySameFlow(rules: seq<LowRule>, flows: Datapath, a: LowRule, b: LowRule)
    requires Agrees(rules, flows) && a in rules && b in rules && KeyOf(a) == KeyOf(b)
    ensures LowGraph.SameFlow(a, b)
  {
  }

  /** With a surviving equal rule the flow is kept, and rightly so. */
  lemma RemoveTwin(rules: seq<LowRule>, i: nat, flows: Datapath)
    requires Agrees(rules, flows) && i < |rules| && LowGraph.HasTwin(rules, rules[i])
    ensures Agrees(Erase(rules, i), flows)
  {
    var rest := Erase(rules, i);
    var twin :| twin in rules && twin.id != rules[i].id && LowGraph.SameFlow(rules[i], twin);
    forall l
      ensures l in rest ==> l in rules
    {
      EraseMember(rules, i, l);
    }
    EraseMember(rules, i, twin);
    forall k | k in flows
      ensures HasKey(rest, k)
    {
      var l :| l in rules && KeyOf(l) == k;
      EraseMember(rules, i, l);
      if l !in rest {
        assert KeyOf(twin) == k;
      }
    }
  }

  lemma EraseOthers(rules: seq<LowRule>, i: nat)
    requires i < |rules|
    ensures forall l :: l in Erase(rules, i) ==> l in rules
    ensures forall l :: l in rules && l != rules[i] ==> l in Erase(rules, i)
  {
    forall l {
      EraseMember(rules, i, l);
    }
  }

  lemma RemoveSingle(rules: seq<LowRule>, i: nat, flows: Datapath)
    requires Agrees(rules, flows) && i < |rules|
    ensures Agrees(Erase(rules, i), flows - {KeyOf(rules[i])}) <==> !HasKey(Erase(rules, i), KeyOf(rules[i]))
  {
    var rest, k := Erase(rules, i), KeyOf(rules[i]);
    EraseOthers(rules, i);
    if !HasKey(rest, k) {
      forall k' | k' in flows - {k}
        ensures HasKey(rest, k')
      {
        var l :| l in rules && KeyOf(l) == k';
        assert l in rest;
      }
    }
  }

  /** Removing by id leaves a switch that agrees agreeing exactly when an equal rule survives or the id
      is not repeated on the same flow. */
  lemma RemoveIdExactly(rules: seq<LowRule>, id: string, flows: Datapath)
    requires Agrees(rules, flows)
    ensures Agrees(LowGraph.WithoutId(rules, id), AfterRemoval(rules, id, flows)) <==>
      (var i := LowGraph.Index(rules, id); i == |rules| || LowGraph.HasTwin(rules, rules[i]) || !Repeated(rules, id))
  {
    var i := LowGraph.Index(rules, id);
    if i < |rules| {
      if LowGraph.HasTwin(rules, rules[i]) {
        RemoveTwin(rules, i, flows);
      } else {
        RemoveSingle(rules, i, flows);
        RestHasKey(rules, id, flows);
      }
    }
  }

  lemma RestHasKey(rules: seq<LowRule>, id: string, flows: Datapath)
    requires var i := LowGraph.Index(rules, id);
      Agrees(rules, flows) && i < |rules| && !LowGraph.HasTwin(rules, rules[i])
    ensures var i := LowGraph.Index(rules, id);
      HasKey(Erase(rules, i), KeyOf(rules[i])) <==> Repeated(rules, id)
  {
    var i := LowGraph.Index(rules, id);
    var rest, k := Erase(rules, i), KeyOf(rules[i]);
    if l :| l in rest && KeyOf(l) == k {
      EraseMember(rules, i, l);
      SameKeySameFlow(rules, flows, rules[i], l);
    }
    if j :| 0 <= j < |rules| && j != i && rules[j].id == id && KeyOf(rules[j]) == k {
      EraseMember(rules, i, rules[j]);
    }
  }

  // ----- the controller -----

  datatype State = State(isOpen: bool, graph: seq<LowRule>, flows: Datapath)

  /** Everything that can happen: the switch connects or goes away, changes behind the controller's back
      while it is away, and the four calls. */
  datatype Event =
    | Open
    | Close
    | Stray(flows: Datapath)
    | Install(rules: seq<LowRule>)
    | Remove(rules: seq<LowRule>)
    | RemoveId(id: string)

  /** Removing a rule that is not there fails an assertion; the switch changes by itself only while away. */
  predicate Possible(s: State, e: Event) {
    match e
    case Remove(rules) => LowGraph.Minus(s.graph, rules).Some?
    case Stray(_) => !s.isOpen
    case _ => true
  }

  /** What agreement needs: rules of new ids that conflict with none, and removal only of flows that no
      remaining rule wants. */
  ghost predicate Fair(s: State, e: Event) {
    && Possible(s, e)
    && match e
       case Install(rules) => LowGraph.UniqueIds(s.graph + rules) && ConflictFree(s.graph + rules)
       case Remove(rules) => forall l :: l in LowGraph.Minus(s.graph, rules).value ==> KeyOf(l) !in Keys(rules)
       case _ => true
  }

  ghost function After(s: State, e: Event): State
    requires Possible(s, e)
  {
    match e
    case Open => State(true, s.graph, AddAll(map[], s.graph))
    case Close => s.(isOpen := false)
    case Stray(flows) => s.(flows := flows)
    case Install(rules) => State(s.isOpen, s.graph + rules, if s.isOpen then AddAll(s.flows, rules) else s.flows)
    case Remove(rules) =>
      State(s.isOpen, LowGraph.Minus(s.graph, rules).value, if s.isOpen then s.flows - Keys(rules) else s.flows)
    case RemoveId(id) =>
      State(s.isOpen, LowGraph.WithoutId(s.graph, id), if s.isOpen then AfterRemoval(s.graph, id, s.flows) else s.flows)
  }

  ghost predicate Valid(s: State) {
    && LowGraph.UniqueIds(s.graph) && ConflictFree(s.graph)
    && (s.isOpen ==> Agrees(s.graph, s.flows))
  }

  lemma FewerConflictFree(rules: seq<LowRule>, fewer: seq<LowRule>)
    requires ConflictFree(rules) && forall l :: l in fewer ==> l in rules
    ensures ConflictFree(fewer)
  {
  }

  lemma EventKeepsValid(s: State, e: Event)
    requires Valid(s) && Fair(s, e)
    ensures Valid(After(s, e))
  {
    match e
    case Open => OpenExactly(s.graph);
    case Close =>
    case Stray(_) =>
    case Install(rules) =>
      if s.isOpen {
        InstallExactly(s.graph, rules, s.flows);
      }
    case Remove(rules) =>
      LowGraph.MinusUnique(s.graph, rules);
      forall l {
        LowGraph.MinusMembers(s.graph, rules, l);
      }
      FewerConflictFree(s.graph, LowGraph.Minus(s.graph, rules).value);
      if s.isOpen {
        RemoveExactly(s.graph, rules, s.flows);
      }
    case RemoveId(id) =>
      LowGraph.WithoutIdMembers(s.graph, id);
      FewerConflictFree(s.graph, LowGraph.WithoutId(s.graph, id));
      if s.isOpen {
        RemoveIdExactly(s.graph, id, s.flows);
      }
  }

  ghost predicate Happens(s: State, s': State, e: Event) {
    Fair(s, e) && s' == After(s, e)
  }

  ghost predicate Run(ss: seq<State>, es: seq<Event>) {
    Traces.Run(ss, es, Happens)
  }

  /** In every state of every run in which the switch is connected, its flows are those of the rules wanted. */
  lemma RunAgrees(ss: seq<State>, es: seq<Event>, i: nat)
    requires Run(ss, es) && Valid(ss[0]) && i <= |es|
    ensures Valid(ss[i]) && (ss[i].isOpen ==> Agrees(ss[i].graph, ss[i].flows))
  {
    forall s, s', e | Valid(s) && Happens(s, s', e)
      ensures Valid(s')
    {
      EventKeepsValid(s, e);
    }
    Traces.Always(ss, es, Happens, Valid, i);
  }

  /** The last time the switch came or went among the first `i` events, it came. */
  ghost predicate CameLast(es: seq<Event>, i: nat)
    requires i <= |es|
  {
    exists j :: 0 <= j < i && es[j].Open? && forall k :: j < k < i ==> !es[k].Close?
  }

  ghost predicate NeitherCameNorWent(es: seq<Event>, i: nat)
    requires i <= |es|
  {
    forall k :: 0 <= k < i ==> !es[k].Open? && !es[k].Close?
  }

  lemma EventFlag(s: State, e: Event)
    requires Possible(s, e)
    ensures After(s, e).isOpen == if e.Open? then true else if e.Close? then false else s.isOpen
  {
  }

  lemma CameNext(es: seq<Event>, i: nat)
    requires i < |es|
    ensures CameLast(es, i + 1) <==> es[i].Open? || (!es[i].Close? && CameLast(es, i))
  {
    if es[i].Open? {
      assert CameLast(es, i + 1);
    } else if j :| 0 <= j < i && es[j].Open? && forall k :: j < k < i ==> !es[k].Close? {
      assert !es[i].Close? ==> forall k :: j < k < i + 1 ==> !es[k].Close?;
    }
  }

  /** In every state of every run, the switch counts as connected if and only if it came last, or neither came
      nor went and was connected at first. */
  lemma {:induction false} RunConnected(ss: seq<State>, es: seq<Event>, i: nat)
    requires Run(ss, es) && i <= |es|
    ensures ss[i].isOpen <==> CameLast(es, i) || (NeitherCameNorWent(es, i) && ss[0].isOpen)
  {
    if i > 0 {
      RunConnected(ss, es, i - 1);
      Traces.StepOf(ss, es, Happens, i - 1);
      EventFlag(ss[i - 1], es[i - 1]);
      CameNext(es, i - 1);
    }
  }

  /** While the switch is away nothing is sent to it. */
  lemma RunAway(ss: seq<State>, es: seq<Event>, i: nat)
    requires Run(ss, es) && i < |es| && !ss[i].isOpen && !es[i].Open? && !es[i].Stray?
    ensures ss[i + 1].flows == ss[i].flows
  {
    Traces.StepOf(ss, es, Happens, i);
  }

  /** A switch that changes by itself has the flows it changed to. */
  lemma RunStrays(ss: seq<State>, es: seq<Event>, i: nat)
    requires Run(ss, es) && i < |es| && es[i].Stray?
    ensures ss[i + 1] == State(false, ss[i].graph, es[i].flows)
  {
    Traces.StepOf(ss, es, Happens, i);
  }

  // ----- what the switch then does -----

  ghost predicate FlowSelected(sem: Semantics, flows: Datapath, port: nat, packet: Packet, k: Key) {
    && k in flows && Accepts(sem, k.pattern, port, packet)
    && forall k' :: k' in flows && Accepts(sem, k'.pattern, port, packet) ==> k'.priority <= k.priority
  }

  /** A switch that agrees takes, on every packet, exactly the actions the list of rules allows. */
  lemma AgreeingSwitchForwards(sem: Semantics, rules: seq<LowRule>, flows: Datapath, port: nat, packet: Packet,
      action: LowAction)
    requires Agrees(rules, flows)
    ensures (exists k :: FlowSelected(sem, flows, port, packet, k) && flows[k] == action)
            <==> (exists l :: Selected(sem, rules, port, packet, l) && l.action == action)
  {
    if k :| FlowSelected(sem, flows, port, packet, k) && flows[k] == action {
      var l :| l in rules && KeyOf(l) == k;
      forall x | Hit(sem, rules, port, packet, x)
        ensures x.priority <= l.priority
      {
        assert KeyOf(x) in flows;
      }
      assert Selected(sem, rules, port, packet, l);
    }
    if l :| Selected(sem, rules, port, packet, l) && l.action == action {
      forall k | k in flows && Accepts(sem, k.pattern, port, packet)
        ensures k.priority <= l.priority
      {
        var x :| x in rules && KeyOf(x) == k;
        assert Hit(sem, rules, port, packet, x);
      }
      assert FlowSelected(sem, flows, port, packet, KeyOf(l));
    }
  }

  /** The object: the connection flag, the rules wanted, and the table of the switch it talks to. */
  class OpenflowController {
    var isOpen: bool
    var graph: seq<LowRule>
    var flows: Datapath

    ghost function Value(): State
      reads this
    {
      State(isOpen, graph, flows)
    }

    constructor (graph: seq<LowRule>)
      ensures Value() == State(false, graph, map[])
    {
      isOpen, this.graph, flows := false, graph, map[];
    }

    method InstallNewRulesIntoLsi(rules: seq<LowRule>) returns (sent: bool)
      modifies this`flows
      ensures sent == (rules == [] || isOpen)
      ensures flows == if isOpen then AddAll(old(flows), rules) else old(flows)
    {
      if rules == [] {
        return true;
      }
      if isOpen {
        for i := 0 to |rules|
          invariant flows == AddAll(old(flows), rules[..i])
        {
          assert rules[..i + 1][..i] == rules[..i];
          flows := flows[KeyOf(rules[i]) := rules[i].action];
        }
        assert rules[..|rules|] == rules;
      }
      return isOpen;
    }

    method RemoveRulesFromLsi(rules: seq<LowRule>) returns (sent: bool)
      modifies this`flows
      ensures sent == isOpen
      ensures flows == if isOpen then old(flows) - Keys(rules) else old(flows)
    {
      if isOpen {
        for i := 0 to |rules|
          invariant flows == old(flows) - Keys(rules[..i])
        {
          assert Keys(rules[..i + 1]) == Keys(rules[..i]) + {KeyOf(rules[i])};
          flows := flows - {KeyOf(rules[i])};
        }
        assert rules[..|rules|] == rules;
      }
      return isOpen;
    }

    method HandleDptOpen()
      modifies this
      ensures Value() == After(old(Value()), Open)
      ensures isOpen && graph == old(graph) && (ConflictFree(graph) ==> Agrees(graph, flows))
    {
      flows, isOpen := map[], true;
      var _ := InstallNewRulesIntoLsi(graph);
      OpenExactly(graph);
    }

    method HandleDptClose()
      modifies this
      ensures Value() == After(old(Value()), Close)
      ensures !isOpen && graph == old(graph) && flows == old(flows)
    {
      isOpen := false;
    }

    method InstallNewRules(rules: seq<LowRule>) returns (sent: bool)
      modifies this
      ensures Value() == After(old(Value()), Install(rules)) && sent == (rules == [] || isOpen)
      ensures isOpen == old(isOpen) && graph == old(graph) + rules && (!isOpen ==> flows == old(flows))
    {
      graph := graph + rules;
      sent := InstallNewRulesIntoLsi(rules);
    }

    method RemoveRules(rules: seq<LowRule>) returns (sent: bool)
      requires Possible(Value(), Remove(rules))
      modifies this
      ensures Value() == After(old(Value()), Remove(rules)) && sent == isOpen
      ensures isOpen == old(isOpen) && Some(graph) == LowGraph.Minus(old(graph), rules)
      ensures flows == if isOpen then old(flows) - Keys(rules) else old(flows)
    {
      var rest := LowGraph.RemoveRules(graph, rules);
      graph := rest.value;
      sent := RemoveRulesFromLsi(rules);
    }

    method RemoveRuleFromId(id: string) returns (sent: bool)
      modifies this
      ensures Value() == After(old(Value()), RemoveId(id))
      ensures isOpen == old(isOpen) && graph == LowGraph.WithoutId(old(graph), id) && (!sent ==> flows == old(flows))
      ensures sent
              <==> isOpen && LowGraph.Index(old(graph), id) < |old(graph)|
                   && !LowGraph.HasTwin(old(graph), old(graph)[LowGraph.Index(old(graph), id)])
    {
      sent := false;
      var i := LowGraph.FindRule(graph, id);
      if i == |graph| {
        return;
      }
      var rule := graph[i];
      var rest, twin := LowGraph.RemoveRuleFromId(graph, id);
      graph := rest;
      if !twin {
        assert Keys([rule]) == {KeyOf(rule)};
        sent := RemoveRulesFromLsi([rule]);
      }
    }
  }
}

/** The rule compiler: what one high-level rule becomes in LSI-0 and in the tenant LSI. */
module Translator {
  import opened HighLevel
  import opened FlowTable
  import opened Lsis
  import LowGraph
  import opened Names
  import opened Options

  /** Why a translation stops: an exception, a failed assertion or a lookup past the end. */
  datatype Failure = PortNotAttached | NfNotAttached | LinkMissing | PairRejected

  datatype Lowering = Skip | Emit(rule: LowRule) | Fail(why: Failure)

  type Connections = map<string, map<string, nat>>  // internal group -> graph -> port on LSI-0

  /** A missing entry of the nested maps reads as the default port. */
  function ConnectionPort(connections: Connections, group: string, graph: string): nat {
    if group in connections && graph in connections[group] then connections[group][graph] else 0
  }

  ghost predicate SameConnection(c: Connections, c': Connections, group: string, g: string) {
    && ((group in c && g in c[group]) <==> (group in c' && g in c'[group]))
    && ConnectionPort(c, group, g) == ConnectionPort(c', group, g)
  }

  function GrePort(lsi: LsiState, id: string): nat {
    if id in lsi.grePorts then lsi.grePorts[id] else 0
  }

  function LowerToLsi0(h: Rule, graph: string, lsi: LsiState, physical: map<string, nat>,
      connections: Connections): Lowering {
    var id := RuleName(graph, h.id);
    var fields := Some(h.pattern.fields);
    var link := Link(lsi, h.To());
    match (h.On(), h.To())
    case (NfPort(_, _), NfPort(_, _)) => Skip
    case (NfPort(_, _), Gre(_)) => Skip
    case (Gre(_), Gre(_)) => Skip
    case (Gre(_), NfPort(_, _)) => Skip
    case (NfPort(_, _), Internal(group)) =>
      Relay(id, link, ConnectionPort(connections, group, graph), h.priority)
    case (Gre(_), Internal(group)) =>
      Relay(id, link, ConnectionPort(connections, group, graph), h.priority)
    case (NfPort(_, _), Port(name)) =>
      if name !in physical then Fail(PortNotAttached)
      else Relay(id, link, physical[name], h.priority)
    case (Gre(_), Port(name)) =>
      // the only half that keeps the fields and the generic actions behind a link
      if h.To().Key() in lsi.vlinks && link.None? then Fail(LinkMissing)
      else if name !in physical then Fail(PortNotAttached)
      else
        var pattern := if link.Some? then LowMatch(Some(link.value.remoteId), fields) else LowMatch(None, None);
        Emit(LowRule(id, pattern, Output(physical[name], h.action.generic), h.priority))
    case (Port(name), to) =>
      if name !in physical then Fail(PortNotAttached)
      else (
        var pattern := LowMatch(Some(physical[name]), fields);
        match to
        case Port(out) =>
          if out !in physical then Fail(PortNotAttached)
          else Emit(LowRule(id, pattern, Output(physical[out], h.action.generic), h.priority))
        case Internal(_) => Skip
        case _ => Climb(id, pattern, link, h)
      )
    case (Internal(group), NfPort(_, _)) =>
      Climb(id, LowMatch(Some(ConnectionPort(connections, group, graph)), fields), link, h)
    case (Internal(group), Gre(_)) =>
      Climb(id, LowMatch(Some(ConnectionPort(connections, group, graph)), fields), link, h)
    case (Internal(_), Port(_)) => Fail(PairRejected)
    case (Internal(_), Internal(_)) => Fail(PairRejected)
  }

  /** LSI-0 half of traffic coming down: everything on the link goes out of one port. */
  function Relay(id: string, link: Option<VLink>, port: nat, priority: nat): Lowering {
    if link.None? then Fail(LinkMissing)
    else Emit(LowRule(id, LowMatch(Some(link.value.remoteId), None), Output(port, []), priority))
  }

  /** LSI-0 half of traffic going up: matched in full and rewritten before the link. */
  function Climb(id: string, pattern: LowMatch, link: Option<VLink>, h: Rule): Lowering {
    if link.None? then Fail(LinkMissing)
    else Emit(LowRule(id, pattern, Output(link.value.remoteId, h.action.generic), h.priority))
  }

  function NfSwitchPort(lsi: LsiState, nf: string, port: nat): Option<nat> {
    if nf in lsi.nfPorts && NfPortName(nf, port) in lsi.nfPorts[nf] then Some(lsi.nfPorts[nf][NfPortName(nf, port)])
    else None
  }

  function LowerToTenant(h: Rule, lsi: LsiState): Lowering {
    var link := Link(lsi, h.To());
    match h.On()
    case Port(_) => LowerArrival(h, lsi, link)
    case Internal(_) => LowerArrival(h, lsi, link)
    case Gre(id) =>
      if h.To().Gre? then Fail(PairRejected)
      else LowerDeparture(h, lsi, GrePort(lsi, id), link)
    case NfPort(nf, port) =>
      var number := NfSwitchPort(lsi, nf, port);
      if number.None? then Fail(NfNotAttached)
      else LowerDeparture(h, lsi, number.value, link)
  }

  /** Traffic that reaches the tenant through a link: the whole match becomes the link. */
  function LowerArrival(h: Rule, lsi: LsiState, link: Option<VLink>): Lowering {
    match h.To()
    case Port(_) => Skip
    case Internal(_) => Skip
    case Gre(id) =>
      if link.None? then Fail(LinkMissing)
      else Emit(LowRule(h.id, LowMatch(Some(link.value.localId), None), Output(GrePort(lsi, id), []), h.priority))
    case NfPort(nf, port) =>
      var number := NfSwitchPort(lsi, nf, port);
      if number.None? then Fail(NfNotAttached)
      else if link.None? then Fail(LinkMissing)
      else Emit(LowRule(h.id, LowMatch(Some(link.value.localId), None), Output(number.value, []), h.priority))
  }

  /** Traffic that starts at a port of the tenant LSI: matched and rewritten here. */
  function LowerDeparture(h: Rule, lsi: LsiState, from: nat, link: Option<VLink>): Lowering {
    var pattern := LowMatch(Some(from), Some(h.pattern.fields));
    match h.To()
    case Gre(id) => Emit(LowRule(h.id, pattern, Output(GrePort(lsi, id), h.action.generic), h.priority))
    case NfPort(nf, port) =>
      var number := NfSwitchPort(lsi, nf, port);
      if number.None? then Fail(NfNotAttached)
      else Emit(LowRule(h.id, pattern, Output(number.value, h.action.generic), h.priority))
    case _ =>
      if link.None? then Fail(LinkMissing)
      else Emit(LowRule(h.id, pattern, Output(link.value.localId, h.action.generic), h.priority))
  }

  /** LSI-0 rejects what leads from an internal group back to LSI-0, a physical port that is not there, and a
      crossing rule whose link is missing; but a tunnel-to-port rule that was never given a link passes. */
  lemma LowerToLsi0FailsExactly(h: Rule, graph: string, lsi: LsiState, physical: map<string, nat>,
      connections: Connections)
    ensures LowerToLsi0(h, graph, lsi, physical, connections).Fail? <==>
      || (h.On().Internal? && !h.To().Inner())
      || (h.On().Port? && h.On().name !in physical)
      || (h.To().Port? && !h.On().Internal? && h.To().name !in physical)
      || (h.Crosses() && Link(lsi, h.To()).None? && (h.On().Gre? && h.To().Port? ==> h.To().Key() in lsi.vlinks))
  {
  }

  /** The tenant LSI rejects what leads from tunnel to tunnel, a function port that is not there, and a crossing
      rule whose link is missing. */
  lemma LowerToTenantFailsExactly(h: Rule, lsi: LsiState)
    ensures LowerToTenant(h, lsi).Fail? <==>
      || (h.On().Gre? && h.To().Gre?)
      || (h.On().NfPort? && NfSwitchPort(lsi, h.On().nf, h.On().port).None?)
      || (h.To().NfPort? && NfSwitchPort(lsi, h.To().nf, h.To().port).None?)
      || (h.Crosses() && Link(lsi, h.To()).None?)
  {
  }

  /** A group the graph has not joined is not noticed: it reads as port 0. */
  lemma UnknownGroup(h: Rule, graph: string, lsi: LsiState, physical: map<string, nat>, connections: Connections)
    requires h.On().Internal? && !(h.On().group in connections && graph in connections[h.On().group])
    requires LowerToLsi0(h, graph, lsi, physical, connections).Emit?
    ensures LowerToLsi0(h, graph, lsi, physical, connections).rule.pattern.inPort == Some(0)
  {
  }

  /** Nor is a tunnel that is not there. */
  lemma UnknownTunnel(h: Rule, lsi: LsiState)
    requires h.On().Gre? && h.On().id !in lsi.grePorts && LowerToTenant(h, lsi).Emit?
    ensures LowerToTenant(h, lsi).rule.pattern.inPort == Some(0)
  {
  }

  // ----- whole graphs -----

  function Lower0(graph: string, lsi: LsiState, physical: map<string, nat>,
      connections: Connections): Rule -> Lowering {
    h => LowerToLsi0(h, graph, lsi, physical, connections)
  }

  function LowerT(lsi: LsiState): Rule -> Lowering {
    h => LowerToTenant(h, lsi)
  }

  /** What a loop over the rules emits. */
  function Lowered(rules: seq<Rule>, lower: Rule -> Lowering): seq<LowRule> {
    if rules == [] then []
    else
      var most, last := Lowered(rules[..|rules| - 1], lower), lower(rules[|rules| - 1]);
      if last.Emit? then most + [last.rule] else most
  }

  lemma {:induction false} LoweredMembers(rules: seq<Rule>, lower: Rule -> Lowering, l: LowRule)
    ensures l in Lowered(rules, lower) <==> exists h :: h in rules && lower(h) == Emit(l)
  {
    if rules != [] {
      var most, last := rules[..|rules| - 1], rules[|rules| - 1];
      LoweredMembers(most, lower, l);
      assert forall h :: h in rules <==> h in most || h == last;
    }
  }

  /** The order of the rules is kept. */
  lemma {:induction false} LoweredInOrder(first: seq<Rule>, rest: seq<Rule>, lower: Rule -> Lowering)
    ensures Lowered(first + rest, lower) == Lowered(first, lower) + Lowered(rest, lower)
  {
    if rest == [] {
      assert first + rest == first;
    } else {
      var n := |rest| - 1;
      LoweredInOrder(first, rest[..n], lower);
      assert (first + rest)[..|first + rest| - 1] == first + rest[..n];
    }
  }

  predicate DistinctRules(rules: seq<Rule>) {
    forall i, j :: 0 <= i < j < |rules| ==> rules[i].id != rules[j].id
  }

  lemma SameRule(rules: seq<Rule>, h: Rule, k: Rule)
    requires DistinctRules(rules) && h in rules && k in rules && h.id == k.id
    ensures h == k
  {
    var i :| 0 <= i < |rules| && rules[i] == h;
    var j :| 0 <= j < |rules| && rules[j] == k;
  }

  /** Rules of distinct ids are lowered to rules of distinct ids. */
  lemma {:induction false} LoweredUnique(rules: seq<Rule>, lower: Rule -> Lowering, prefix: string)
    requires DistinctRules(rules) && forall h :: h in rules && lower(h).Emit? ==> lower(h).rule.id == prefix + h.id
    ensures LowGraph.UniqueIds(Lowered(rules, lower))
    ensures forall l :: l in Lowered(rules, lower) ==> exists h :: h in rules && l.id == prefix + h.id
  {
    if rules != [] {
      var most, last := rules[..|rules| - 1], rules[|rules| - 1];
      LoweredUnique(most, lower, prefix);
      if lower(last).Emit? {
        forall l | l in Lowered(most, lower)
          ensures l.id != lower(last).rule.id
        {
          var h :| h in most && l.id == prefix + h.id;
          PrefixCancels(prefix, h.id, last.id);
        }
        LowGraph.AppendUnique(Lowered(most, lower), [lower(last).rule]);
      }
    }
  }

  lemma PrefixCancels(prefix: string, a: string, b: string)
    ensures prefix + a == prefix + b ==> a == b
  {
    assert (prefix + a)[|prefix|..] == a && (prefix + b)[|prefix|..] == b;
  }

  datatype Result = Ok(rules: seq<LowRule>) | Err(why: Failure)

  /** The first rule that is rejected. */
  predicate StopsAt(rules: seq<Rule>, lower: Rule -> Lowering, i: nat)
    requires i < |rules|
  {
    lower(rules[i]).Fail? && forall j :: 0 <= j < i ==> !lower(rules[j]).Fail?
  }

  method LowerGraph(rules: seq<Rule>, lower: Rule -> Lowering) returns (r: Result)
    ensures r.Ok? <==> forall h :: h in rules ==> !lower(h).Fail?
    ensures r.Ok? ==> r.rules == Lowered(rules, lower)
    ensures r.Err? ==> exists i :: 0 <= i < |rules| && StopsAt(rules, lower, i) && lower(rules[i]).why == r.why
  {
    var low := [];
    for i := 0 to |rules|
      invariant forall j :: 0 <= j < i ==> !lower(rules[j]).Fail?
      invariant low == Lowered(rules[..i], lower)
    {
      assert rules[..i + 1][..i] == rules[..i];
      match lower(rules[i]) {
        case Skip =>
        case Emit(rule) => low := low + [rule];
        case Fail(why) =>
          assert StopsAt(rules, lower, i);
          return Err(why);
      }
    }
    assert rules[..|rules|] == rules;
    return Ok(low);
  }

  method LowerGraphToLsi0(rules: seq<Rule>, graph: string, lsi: Lsi, physical: map<string, nat>,
      connections: Connections) returns (r: Result)
    ensures r.Ok? <==> forall h :: h in rules ==> !LowerToLsi0(h, graph, lsi.State(), physical, connections).Fail?
    ensures r.Ok? ==> r.rules == Lowered(rules, Lower0(graph, lsi.State(), physical, connections))
  {
    r := LowerGraph(rules, Lower0(graph, lsi.State(), physical, connections));
  }

  method LowerGraphToTenant(rules: seq<Rule>, lsi: Lsi) returns (r: Result)
    ensures r.Ok? <==> forall h :: h in rules ==> !LowerToTenant(h, lsi.State()).Fail?
    ensures r.Ok? ==> r.rules == Lowered(rules, LowerT(lsi.State()))
  {
    r := LowerGraph(rules, LowerT(lsi.State()));
  }
}

/** How far the agreement of `Forwarding` reaches: its condition is also necessary. */
module Exactness {
  import opened HighLevel
  import opened FlowTable
  import opened Lsis
  import opened Names
  import opened Options
  import opened Translator
  import opened Forwarding

  /** Whatever fields and generic actions mean, the node treats every packet as the big switches do. */
  ghost predicate Agrees(d: Node) {
    forall sem, at, pos, packet, v ::
      Ingress(d, at, pos) ==> (Walk(d, sem, 2, pos, packet, v) <==> BigSwitch(d, sem, at, packet, v))
  }

  lemma Disagree(d: Node, sem: Semantics, at: Location, pos: Position, packet: Packet, v: Verdict)
    requires Ingress(d, at, pos) && (Walk(d, sem, 2, pos, packet, v) != BigSwitch(d, sem, at, packet, v))
    ensures !Agrees(d)
  {
  }

  function Grow(a: GenericAction, packet: Packet): Packet {
    packet + [0]
  }

  /** An empty packet has the fields `before`, any other `behind`, and every generic action leaves a mark. */
  function Marking(before: set<Fields>, behind: set<Fields>): Semantics {
    Semantics((f: Fields, p: Packet) => if p == [] then f in before else f in behind, Grow)
  }

  lemma {:induction false} ApplyGrows(sem: Semantics, actions: seq<GenericAction>, packet: Packet)
    requires sem.rewrite == Grow
    ensures |Apply(sem, actions, packet)| == |packet| + |actions|
  {
    if actions != [] {
      ApplyGrows(sem, actions[1..], sem.rewrite(actions[0], packet));
    }
  }

  /** At its ingress, a rule that nothing beats on these fields wins. */
  lemma UnbeatenWins(d: Node, g: string, h: Rule, before: set<Fields>, behind: set<Fields>)
    requires g in d.tenants && h in d.tenants[g].rules && h.pattern.fields in before
    requires !Beaten(d, Where(g, h.On()), before, h.priority)
    ensures Wins(d, Marking(before, behind), Where(g, h.On()), [], g, h)
  {
    var sem, at := Marking(before, behind), Where(g, h.On());
    forall g', h' | Listens(d, sem, at, [], g', h')
      ensures h'.priority <= h.priority
    {
      assert ComesIn(d, at, before, g', h');
    }
  }

  lemma TwoSteps(d: Node, sem: Semantics, pos: Position, packet: Packet, pos': Position, packet': Packet, v: Verdict)
    requires Step(d, sem, pos, packet, Moved(pos', packet')) && Step(d, sem, pos', packet', Done(v))
    ensures Walk(d, sem, 2, pos, packet, v)
  {
    assert Walk(d, sem, 1, pos', packet', v);
  }

  // ----- a physical port to internal group rule that can win is lost -----

  /** What happens first to a packet from a physical port. */
  lemma PortSends(d: DeployedNode, sem: Semantics, name: string, pos: Position, packet: Packet, l: LowRule, s: Stage)
    returns (g: string, h: Rule)
    requires Ingress(d, AtPort(name), pos) && Executes(d, sem, pos, packet, l, s)
    ensures g in d.tenants && h in d.tenants[g].rules && h.On().Port? && !LostByBoth(h)
    ensures (h.Crosses() ==> Link(d.tenants[g].lsi, h.To()).Some?) && s == Next(d, sem, packet, g, h)
  {
    g, h := HitListens(d, sem, AtPort(name), pos, packet, l);
    ImplementsLands(d, sem, AtPort(name), pos, packet, g, h, l, s);
    Half0Shape(d, g, h);
  }

  /** What enters at a physical port never leaves at an internal group. */
  lemma PortNeverInternal(d: DeployedNode, sem: Semantics, name: string, pos: Position, packet: Packet, v: Verdict)
    requires Ingress(d, AtPort(name), pos) && Walk(d, sem, 2, pos, packet, v)
    ensures !(v.Deliver? && v.at.AtInternal?)
  {
    var s :| Step(d, sem, pos, packet, s) && if s.Done? then v == s.verdict else Walk(d, sem, 1, s.pos, s.packet, v);
    PortStepInternal(d, sem, name, pos, packet, s, v);
  }

  lemma PortStepInternal(d: DeployedNode, sem: Semantics, name: string, pos: Position, packet: Packet, s: Stage,
      v: Verdict)
    requires Ingress(d, AtPort(name), pos) && Step(d, sem, pos, packet, s)
    requires if s.Done? then v == s.verdict else Walk(d, sem, 1, s.pos, s.packet, v)
    ensures !(v.Deliver? && v.at.AtInternal?)
  {
    if l :| Executes(d, sem, pos, packet, l, s) {
      var g, h := PortSends(d, sem, name, pos, packet, l, s);
      SentNeverInternal(d, sem, g, h, packet, s, v);
    }
  }

  lemma SentNeverInternal(d: DeployedNode, sem: Semantics, g: string, h: Rule, packet: Packet, s: Stage, v: Verdict)
    requires g in d.tenants && h in d.tenants[g].rules && h.On().Port? && !LostByBoth(h)
    requires (h.Crosses() ==> Link(d.tenants[g].lsi, h.To()).Some?) && s == Next(d, sem, packet, g, h)
    requires if s.Done? then v == s.verdict else Walk(d, sem, 1, s.pos, s.packet, v)
    ensures !(v.Deliver? && v.at.AtInternal?)
  {
    if s.Moved? {
      ArrivesInside(d, sem, g, h, packet, s, v);
    }
  }

  lemma ArrivesInside(d: DeployedNode, sem: Semantics, g: string, h: Rule, packet: Packet, s: Stage, v: Verdict)
    requires g in d.tenants && h in d.tenants[g].rules && !h.On().Inner() && Link(d.tenants[g].lsi, h.To()).Some?
    requires s == Next(d, sem, packet, g, h) && s.Moved? && Walk(d, sem, 1, s.pos, s.packet, v)
    ensures !(v.Deliver? && v.at.AtInternal?)
  {
    var s' :| Step(d, sem, s.pos, s.packet, s') &&
      if s'.Done? then v == s'.verdict else Walk(d, sem, 0, s'.pos, s'.packet, v);
    ArrivalStep(d, sem, g, h, Link(d.tenants[g].lsi, h.To()).value, s.packet, s');
  }

  lemma LostDisagrees(d: DeployedNode, g: string, h: Rule)
    requires g in d.tenants && h in d.tenants[g].rules && Lost(d, g, h)
    ensures !Agrees(d)
  {
    var sem, at := Marking({h.pattern.fields}, {}), AtPort(h.On().name);
    assert Ready(d, g);
    var pos := OnLsi0(d.physical[h.On().name]);
    UnbeatenWins(d, g, h, {h.pattern.fields}, {});
    var v := Deliver(Where(g, h.To()), Apply(sem, h.action.generic, []));
    assert BigSwitch(d, sem, at, [], v);
    if Walk(d, sem, 2, pos, [], v) {
      PortNeverInternal(d, sem, h.On().name, pos, [], v);
    }
    Disagree(d, sem, at, pos, [], v);
  }

  // ----- rewriting tunnel to port rules -----

  /** Where packets of a function or a tunnel show up. */
  lemma InnerIngress(d: DeployedNode, g: string, h: Rule) returns (pos: Position)
    requires g in d.tenants && h in d.tenants[g].rules && h.On().Inner()
    ensures pos.OnTenant? && Ingress(d, Where(g, h.On()), pos)
  {
    assert Ready(d, g);
    pos := IngressOf(d, g, h.On());
  }

  /** A winner's packet leaves the tenant LSI on the link of its port. */
  lemma WinnerLeaves(d: DeployedNode, sem: Semantics, g: string, h: Rule, pos: Position, link: VLink, packet: Packet)
    requires Wins(d, sem, Where(g, h.On()), packet, g, h) && h.On().Inner() && !h.To().Inner()
    requires Link(d.tenants[g].lsi, h.To()) == Some(link)
    requires Ingress(d, Where(g, h.On()), pos)
    ensures Step(d, sem, pos, packet, Moved(OnLsi0(link.remoteId), Apply(sem, h.action.generic, packet)))
  {
    var s := Moved(OnLsi0(link.remoteId), Apply(sem, h.action.generic, packet));
    var l := WinsSelected(d, sem, Where(g, h.On()), pos, packet, g, h);
    ImplementsLands(d, sem, Where(g, h.On()), pos, packet, g, h, l, s);
    assert Executes(d, sem, pos, packet, l, s);
  }

  /** Without a network function sending to the port, a marked packet finds no relay. */
  lemma MarkedMisses(d: DeployedNode, g: string, h: Rule, link: VLink, packet: Packet)
    requires g in d.tenants && !h.To().Inner() && Link(d.tenants[g].lsi, h.To()) == Some(link) && h.To().Port?
    requires !Relayed(d.tenants[g].rules, h.To(), {}) && packet != []
    ensures Step(d, Marking({h.pattern.fields}, {}), OnLsi0(link.remoteId), packet, Done(Drop))
  {
    var sem := Marking({h.pattern.fields}, {});
    forall l
      ensures !Hit(sem, d.lsi0, link.remoteId, packet, l)
    {
      if Hit(sem, d.lsi0, link.remoteId, packet, l) {
        var k := RelayOrigin(d, sem, g, h.To(), link, packet, l);
        assert Ready(d, g);
        Half0Shape(d, g, k);
        assert Relays(d.tenants[g].rules, h.To(), {}, k);
      }
    }
  }

  lemma UnrelayedDrops(d: DeployedNode, g: string, h: Rule) returns (pos: Position)
    requires g in d.tenants && h in d.tenants[g].rules && Unrelayed(d, g, h)
    ensures Ingress(d, Where(g, h.On()), pos)
    ensures Walk(d, Marking({h.pattern.fields}, {}), 2, pos, [], Drop)
  {
    var sem := Marking({h.pattern.fields}, {});
    assert Ready(d, g);
    var link := Link(d.tenants[g].lsi, h.To()).value;
    pos := InnerIngress(d, g, h);
    var packet := Apply(sem, h.action.generic, []);
    UnbeatenWins(d, g, h, {h.pattern.fields}, {});
    WinnerLeaves(d, sem, g, h, pos, link, []);
    ApplyGrows(sem, h.action.generic, []);
    MarkedMisses(d, g, h, link, packet);
    TwoSteps(d, sem, pos, [], OnLsi0(link.remoteId), packet, Drop);
  }

  lemma UnrelayedDisagrees(d: DeployedNode, g: string, h: Rule)
    requires g in d.tenants && h in d.tenants[g].rules && Unrelayed(d, g, h)
    ensures !Agrees(d)
  {
    var sem, at := Marking({h.pattern.fields}, {}), Where(g, h.On());
    var pos := UnrelayedDrops(d, g, h);
    assert Listens(d, sem, at, [], g, h);
    Disagree(d, sem, at, pos, [], Drop);
  }

  /** Not outranked, the half of `r` is selected for whatever has its fields. */
  lemma UnrankedSelected(d: DeployedNode, sem: Semantics, g: string, r: Rule, link: VLink, packet: Packet,
      behind: set<Fields>)
    requires g in d.tenants && r in d.tenants[g].rules && Rewriting(r) && Link(d.tenants[g].lsi, r.To()) == Some(link)
    requires !Outranked(d.tenants[g].rules, r, behind) && r.pattern.fields in behind
    requires forall f :: sem.accepts(f, packet) <==> f in behind
    ensures Half0(d, g, r).Emit? && Selected(sem, d.lsi0, link.remoteId, packet, Half0(d, g, r).rule)
  {
    RelayHit(d, sem, g, r, link, packet);
    assert Ready(d, g);
    Half0Shape(d, g, r);
    forall l | Hit(sem, d.lsi0, link.remoteId, packet, l)
      ensures l.priority <= r.priority
    {
      var k := RelayOrigin(d, sem, g, r.To(), link, packet, l);
      Half0Shape(d, g, k);
      assert Relays(d.tenants[g].rules, r.To(), behind, k);
    }
  }

  /** It takes the packet out, marked once more. */
  lemma MarksAgain(d: DeployedNode, sem: Semantics, g: string, r: Rule, link: VLink, packet: Packet,
      behind: set<Fields>) returns (v: Verdict)
    requires g in d.tenants && r in d.tenants[g].rules && Rewriting(r) && Link(d.tenants[g].lsi, r.To()) == Some(link)
    requires !Outranked(d.tenants[g].rules, r, behind) && r.pattern.fields in behind && sem.rewrite == Grow
    requires forall f :: sem.accepts(f, packet) <==> f in behind
    ensures Step(d, sem, OnLsi0(link.remoteId), packet, Done(v)) && v.Deliver? && v.at == Where(g, r.To())
    ensures |v.packet| > |packet|
  {
    var pos := OnLsi0(link.remoteId);
    UnrankedSelected(d, sem, g, r, link, packet, behind);
    assert Ready(d, g);
    Half0Shape(d, g, r);
    ApplyGrows(sem, r.action.generic, packet);
    v := Deliver(Where(g, r.To()), Apply(sem, r.action.generic, packet));
    var l := Half0(d, g, r).rule;
    LandsOutside(d, pos, g, r.To(), l.action.port, v.packet, Done(v));
    assert Executes(d, sem, pos, packet, l, Done(v));
  }

  /** The winners at a place that send to `e`. */
  ghost function Winners(d: Node, sem: Semantics, at: Location, e: Endpoint): set<(string, Rule)> {
    set x | x in AllRules(d) && Wins(d, sem, at, [], x.0, x.1) && x.1.To() == e
  }

  /** Of the winners that send to the same port, the one that marks most. */
  lemma MostMarking(d: Node, sem: Semantics, at: Location, g: string, h: Rule) returns (g': string, w: Rule)
    requires Wins(d, sem, at, [], g, h)
    ensures Wins(d, sem, at, [], g', w) && w.To() == h.To() && |h.action.generic| <= |w.action.generic|
    ensures forall g'', k :: Wins(d, sem, at, [], g'', k) && k.To() == h.To() ==>
      |k.action.generic| <= |w.action.generic|
  {
    var all := Winners(d, sem, at, h.To());
    assert (g, h) in AllRules(d);
    var top := Greatest(all, (r: Rule) => |r.action.generic|, (g, h));
    g', w := top.0, top.1;
    forall g'', k | Wins(d, sem, at, [], g'', k) && k.To() == h.To()
      ensures |k.action.generic| <= |w.action.generic|
    {
      assert (g'', k) in AllRules(d);
      assert (g'', k) in all;
    }
  }

  /** No winner sends so many marks to the port. */
  lemma TooManyMarks(d: Node, sem: Semantics, at: Location, g: string, w: Rule, v: Verdict)
    requires sem.rewrite == Grow && w.To().Port? && v.Deliver? && v.at == Where(g, w.To())
    requires |v.packet| > |w.action.generic|
    requires forall g'', k :: Wins(d, sem, at, [], g'', k) && k.To() == w.To() ==>
      |k.action.generic| <= |w.action.generic|
    ensures !BigSwitch(d, sem, at, [], v)
  {
    forall g'', k | Wins(d, sem, at, [], g'', k)
      ensures v != Deliver(Where(g'', k.To()), Apply(sem, k.action.generic, []))
    {
      ApplyGrows(sem, k.action.generic, []);
    }
  }

  lemma RewrittenDisagrees(d: DeployedNode, g: string, h: Rule, r: Rule)
    requires g in d.tenants && h in d.tenants[g].rules && Rewritten(d, g, h, r)
    ensures !Agrees(d)
  {
    var sem, at := Marking(Before(h, r), Behind(h, r)), Where(g, h.On());
    assert Ready(d, g);
    var link := Link(d.tenants[g].lsi, h.To()).value;
    var pos := InnerIngress(d, g, h);
    UnbeatenWins(d, g, h, Before(h, r), Behind(h, r));
    var g', w := MostMarking(d, sem, at, g, h);
    var packet := Apply(sem, w.action.generic, []);
    ApplyGrows(sem, w.action.generic, []);
    WinnerLeaves(d, sem, g, w, pos, link, []);
    var v := MarksAgain(d, sem, g, r, link, packet, Behind(h, r));
    TwoSteps(d, sem, pos, [], OnLsi0(link.remoteId), packet, v);
    TooManyMarks(d, sem, at, g, w, v);
    Disagree(d, sem, at, pos, [], v);
  }

  // ----- the condition is exact -----

  lemma UnservedDisagrees(d: DeployedNode, g: string, h: Rule)
    requires g in d.tenants && h in d.tenants[g].rules && !Served(d, g, h)
    ensures !Agrees(d)
  {
    if Lost(d, g, h) {
      LostDisagrees(d, g, h);
    } else if Unrelayed(d, g, h) {
      UnrelayedDisagrees(d, g, h);
    } else {
      var r :| r in d.tenants[g].rules && Rewritten(d, g, h, r);
      RewrittenDisagrees(d, g, h, r);
    }
  }

  lemma FaithfulAgrees(d: SoundNode)
    ensures Agrees(d)
  {
    forall sem, at, pos, packet, v | Ingress(d, at, pos)
      ensures Walk(d, sem, 2, pos, packet, v) <==> BigSwitch(d, sem, at, packet, v)
    {
      NodeIsBigSwitch(d, sem, 2, at, pos, packet, v);
    }
  }

  /** The tables of a deployed node implement the big switches if and only if no rule that can win is a
      physical port to internal group rule, drops its packet behind a link, or has it rewritten again
      there by a tunnel rule. */
  lemma FaithfulExactly(d: DeployedNode)
    ensures Agrees(d) <==> Faithful(d)
  {
    if Faithful(d) {
      FaithfulAgrees(d);
    } else {
      var g, h :| g in d.tenants && h in d.tenants[g].rules && !Served(d, g, h);
      UnservedDisagrees(d, g, h);
    }
  }

  // ----- all three happen -----

  const LOST_RULE := Rule("1", Match(Port("p"), ""), Action(Internal("i"), []), 1)
  const LOST_NODE := Node(map["p" := 1], map["i" := map["g" := 2]],
                          map["g" := Tenant([LOST_RULE], LsiState(map[], {}, map[], [], map[]), [])], [])

  lemma LostDeployed()
    ensures Deployed(LOST_NODE)
  {
    assert LowerToTenant(LOST_RULE, LOST_NODE.tenants["g"].lsi) == Skip;
    assert Half0(LOST_NODE, "g", LOST_RULE) == Skip;
  }

  /** A graph with one rule from a physical port to an internal group. */
  lemma LostExample()
    ensures Deployed(LOST_NODE) && Lost(LOST_NODE, "g", LOST_RULE) && !Agrees(LOST_NODE)
  {
    LostDeployed();
    LostDisagrees(LOST_NODE, "g", LOST_RULE);
  }

  const TUNNEL_RULE := Rule("1", Match(Gre("t"), ""), Action(Port("p"), [PopVlan]), 1)
  const TUNNEL_LSI := LsiState(map[], {"t"}, map["t" := 7], [VLink(0, 8, 9)], map[LinkName(Ports, "p") := 0])
  const TUNNEL_HALF := LowRule("1", LowMatch(Some(7), Some("")), Output(8, [PopVlan]), 1)
  const TUNNEL_HALF0 := LowRule("g_1", LowMatch(Some(9), Some("")), Output(1, [PopVlan]), 1)
  const TUNNEL_NODE := Node(map["p" := 1], map[], map["g" := Tenant([TUNNEL_RULE], TUNNEL_LSI, [TUNNEL_HALF])],
                            [TUNNEL_HALF0])

  lemma TunnelHalves()
    ensures LowerToTenant(TUNNEL_RULE, TUNNEL_LSI) == Emit(TUNNEL_HALF)
    ensures Half0(TUNNEL_NODE, "g", TUNNEL_RULE) == Emit(TUNNEL_HALF0)
  {
    assert RuleName("g", "1") == "g_1";
    assert Link(TUNNEL_LSI, Port("p")) == Some(VLink(0, 8, 9));
  }

  lemma TunnelDeployed()
    ensures Deployed(TUNNEL_NODE)
  {
    TunnelHalves();
    assert FromRule(TUNNEL_NODE, "g", TUNNEL_RULE, TUNNEL_HALF0);
    assert Link(TUNNEL_LSI, Port("p")) == Some(VLink(0, 8, 9));
  }

  /** A graph with one rule that takes a tag off what comes out of a tunnel: it drops what it rewrote, or
      rewrites it again. */
  lemma TunnelExample()
    ensures Deployed(TUNNEL_NODE) && !Agrees(TUNNEL_NODE)
    ensures Unrelayed(TUNNEL_NODE, "g", TUNNEL_RULE) && Rewritten(TUNNEL_NODE, "g", TUNNEL_RULE, TUNNEL_RULE)
  {
    TunnelDeployed();
    UnrelayedDisagrees(TUNNEL_NODE, "g", TUNNEL_RULE);
  }
}

/** Virtual links under update: adding the missing ones and removing the useless ones. */
module VlinkUpdate {
  import opened HighLevel
  import opened Lsis
  import opened Options
  import opened Vlinks

  // ----- a fresh link with its names -----

  function NameAll(vlinks: map<LinkName, nat>, uses: set<LinkName>, id: nat): (r: map<LinkName, nat>)
    ensures forall a :: a in r <==> a in vlinks || a in uses
    ensures forall a :: a in r ==> r[a] == if a in uses then id else vlinks[a]
  {
    map a | a in vlinks.Keys + uses :: if a in uses then id else vlinks[a]
  }

  /** At most one of the names goes up and at most one down. */
  predicate OnePerDirection(uses: set<LinkName>) {
    forall a, b :: a in uses && b in uses && a.Up() == b.Up() ==> a == b
  }

  lemma AddLinkOneName(vlinks: map<LinkName, nat>, id: nat, uses: set<LinkName>)
    requires OneNamePerDirection(vlinks) && OnePerDirection(uses) && forall a :: a in vlinks ==> vlinks[a] != id
    ensures OneNamePerDirection(NameAll(vlinks, uses, id))
  {
  }

  lemma AddLinkConserved(links: seq<VLink>, vlinks: map<LinkName, nat>, v: VLink, use: LinkName, uses: set<LinkName>)
    requires Conserved(links, vlinks) && use in uses && forall a :: a in uses ==> a !in vlinks
    ensures Conserved(links + [v], NameAll(vlinks, uses, v.id))
  {
    var vlinks' := NameAll(vlinks, uses, v.id);
    assert forall u :: u in links + [v] <==> u in links || u == v;
    assert vlinks'[use] == v.id;
    forall u | u in links
      ensures exists a :: a in vlinks' && vlinks'[a] == u.id
    {
      var a :| a in vlinks && vlinks[a] == u.id;
      assert vlinks'[a] == u.id;
    }
    forall a | a in vlinks'
      ensures Find(links + [v], vlinks'[a]).Some?
    {
      if a !in uses {
        assert Find(links, vlinks[a]).value in links + [v];
      }
    }
  }

  /** A fresh link, named in at most one way per direction, keeps the links tidy. */
  lemma AddLinkTidy(links: seq<VLink>, vlinks: map<LinkName, nat>, v: VLink, uses: set<LinkName>)
    requires Tidy(links, vlinks, v.id) && uses != {} && OnePerDirection(uses) && forall a :: a in uses ==> a !in vlinks
    ensures Tidy(links + [v], NameAll(vlinks, uses, v.id), v.id + 1)
  {
    var use :| use in uses;
    assert Find(links, v.id).None?;
    AppendUnique(links, v);
    AddLinkOneName(vlinks, v.id, uses);
    AddLinkConserved(links, vlinks, v, use, uses);
  }

  /** One round of the update's loops: create the link, learn its ports, name it. */
  method AddNamedLink(lsi: Lsi, id: nat, ports: (nat, nat), uses: set<LinkName>)
    modifies lsi`virtualLinks, lsi`vlinks
    ensures lsi.virtualLinks == old(lsi.virtualLinks) + [VLink(id, ports.0, ports.1)]
    ensures lsi.vlinks == NameAll(old(lsi.vlinks), uses, id)
  {
    var position := lsi.AddVlink(id);
    lsi.SetVlinkPorts(position, ports.0, ports.1);
    var rest := uses;
    while rest != {}
      invariant lsi.virtualLinks == old(lsi.virtualLinks) + [VLink(id, ports.0, ports.1)]
      invariant NameAll(lsi.vlinks, rest, id) == NameAll(old(lsi.vlinks), uses, id)
    {
      var use :| use in rest;
      lsi.NameVlink(use, id);
      rest := rest - {use};
    }
  }

  // ----- adding what an update needs -----

  /** The links created, numbered from `nextId`, with the ports the switch answered. */
  function Fresh(nextId: nat, answers: seq<(nat, nat)>): seq<VLink> {
    seq(|answers|, i requires 0 <= i < |answers| => VLink(nextId + i, answers[i].0, answers[i].1))
  }

  /** Names keep their link, and exactly the names of `needs` outside `rest` are new. */
  ghost predicate Grown(before: map<LinkName, nat>, now: map<LinkName, nat>, needs: set<LinkName>,
      rest: set<LinkName>) {
    && (forall a :: a in before ==> a in now && now[a] == before[a])
    && (forall a :: a in now <==> a in before || (a in needs && a !in rest))
    && (forall a :: a in needs ==> a !in before) && (forall a :: a in rest ==> a in needs)
  }

  lemma GrownStep(before: map<LinkName, nat>, now: map<LinkName, nat>, needs: set<LinkName>, rest: set<LinkName>,
      uses: set<LinkName>, rest': set<LinkName>, id: nat)
    requires Grown(before, now, needs, rest) && (forall a :: a in uses ==> a in rest)
    requires forall a :: a in rest' <==> a in rest && a !in uses
    ensures Grown(before, NameAll(now, uses, id), needs, rest')
  {
  }

  /** `now` is `links` followed by the first `made` fresh links. */
  ghost predicate Appended(links: seq<VLink>, now: seq<VLink>, nextId: nat, answers: seq<(nat, nat)>, made: nat) {
    made <= |answers| && now == links + Fresh(nextId, answers[..made])
  }

  lemma AppendedStep(links: seq<VLink>, now: seq<VLink>, nextId: nat, answers: seq<(nat, nat)>, made: nat)
    requires Appended(links, now, nextId, answers, made) && made < |answers|
    ensures Appended(links, now + [VLink(nextId + made, answers[made].0, answers[made].1)], nextId, answers, made + 1)
  {
    var v := VLink(nextId + made, answers[made].0, answers[made].1);
    assert Fresh(nextId, answers[..made + 1]) == Fresh(nextId, answers[..made]) + [v];
  }

  /** The links and names an update started from, and what it was asked for. */
  datatype Job = Job(links: seq<VLink>, vlinks: map<LinkName, nat>, needs: set<LinkName>, nextId: nat,
                     answers: seq<(nat, nat)>) {

    /** The loops after creating the first `made` links, with the names of `rest` still to serve. */
    ghost predicate Reached(now: seq<VLink>, vlinksNow: map<LinkName, nat>, rest: set<LinkName>, made: nat) {
      && Appended(links, now, nextId, answers, made)
      && Grown(vlinks, vlinksNow, needs, rest)
      && Tidy(now, vlinksNow, nextId + made)
    }
  }

  ghost predicate Serves(uses: set<LinkName>, rest: set<LinkName>, rest': set<LinkName>) {
    && uses != {} && OnePerDirection(uses) && (forall a :: a in uses ==> a in rest)
    && forall a :: a in rest' <==> a in rest && a !in uses
  }

  lemma ReachedStep(job: Job, now: seq<VLink>, vlinksNow: map<LinkName, nat>, rest: set<LinkName>, made: nat,
      uses: set<LinkName>, rest': set<LinkName>, v: VLink)
    requires job.Reached(now, vlinksNow, rest, made) && made < |job.answers| && Serves(uses, rest, rest')
    requires v == VLink(job.nextId + made, job.answers[made].0, job.answers[made].1)
    ensures job.Reached(now + [v], NameAll(vlinksNow, uses, v.id), rest', made + 1)
  {
    AppendedStep(job.links, now, job.nextId, job.answers, made);
    GrownStep(job.vlinks, vlinksNow, job.needs, rest, uses, rest', v.id);
    AddLinkTidy(now, vlinksNow, v, uses);
  }

  method Serve(lsi: Lsi, ghost job: Job, ghost rest: set<LinkName>, made: nat, id: nat, answer: (nat, nat),
      uses: set<LinkName>, ghost rest': set<LinkName>)
    requires job.Reached(lsi.virtualLinks, lsi.vlinks, rest, made) && made < |job.answers| && id == job.nextId + made
    requires answer == job.answers[made]
    requires Serves(uses, rest, rest')
    modifies lsi`virtualLinks, lsi`vlinks
    ensures job.Reached(lsi.virtualLinks, lsi.vlinks, rest', made + 1)
  {
    ReachedStep(job, lsi.virtualLinks, lsi.vlinks, rest, made, uses, rest', VLink(id, answer.0, answer.1));
    AddNamedLink(lsi, id, answer, uses);
  }

  function Larger(a: nat, b: nat): nat {
    if a > b then a else b
  }

  /** How many links an update creates: functions and physical ports share, tunnels and groups do not. */
  function LinksToAdd(needs: set<LinkName>): nat {
    Larger(|OfKind(needs, Nfs)|, |OfKind(needs, Ports)|) + |OfKind(needs, Gres)| + |OfKind(needs, Internals)|
  }

  /** An update never makes fewer links for these names than a new graph would, and exactly as many if and only
      if no tunnel and no group could have shared one: no groups and no more ports than functions, or no tunnels
      and no more functions than ports. */
  lemma UpdateLinksExactly(needs: set<LinkName>)
    ensures LinksFor(needs) <= LinksToAdd(needs) <= |OfKind(needs, Nfs)| + |OfKind(needs, Ports)|
                                                   + |OfKind(needs, Gres)| + |OfKind(needs, Internals)|
    ensures LinksToAdd(needs) == LinksFor(needs) <==>
      || (OfKind(needs, Internals) == {} && |OfKind(needs, Ports)| <= |OfKind(needs, Nfs)|)
      || (OfKind(needs, Gres) == {} && |OfKind(needs, Nfs)| <= |OfKind(needs, Ports)|)
  {
    assert |OfKind(needs, Internals)| == 0 <==> OfKind(needs, Internals) == {};
    assert |OfKind(needs, Gres)| == 0 <==> OfKind(needs, Gres) == {};
  }

  /** The names still to serve: two sets that share links and one that does not. */
  ghost predicate Left(rest: set<LinkName>, nfs: set<LinkName>, ports: set<LinkName>, others: set<LinkName>) {
    && (forall a :: a in rest <==> a in nfs || a in ports || a in others)
    && (forall a :: a in nfs ==> a.kind == Nfs) && (forall a :: a in ports ==> a.kind == Ports)
    && (forall a :: a in others ==> a.kind != Nfs && a.kind != Ports)
  }

  function Minus(rest: set<LinkName>, uses: set<LinkName>): (r: set<LinkName>)
    ensures forall a :: a in r <==> a in rest && a !in uses
  {
    rest - uses
  }

  lemma LeftStep(rest: set<LinkName>, nfs: set<LinkName>, ports: set<LinkName>, others: set<LinkName>,
      uses: set<LinkName>, nfs': set<LinkName>, ports': set<LinkName>)
    requires Left(rest, nfs, ports, others) && uses != {} && OnePerDirection(uses)
    requires (forall a :: a in uses ==> a in nfs || a in ports)
    requires (forall a :: a in nfs' <==> a in nfs && a !in uses)
    requires (forall a :: a in ports' <==> a in ports && a !in uses)
    ensures Left(Minus(rest, uses), nfs', ports', others) && Serves(uses, rest, Minus(rest, uses))
  {
  }

  lemma LeftOver(rest: set<LinkName>, others: set<LinkName>)
    requires Left(rest, {}, {}, others)
    ensures rest == others
  {
  }

  method TakeOne(rest: set<LinkName>) returns (name: LinkName, rest': set<LinkName>)
    requires rest != {}
    ensures Serves({name}, rest, rest') && |rest'| + 1 == |rest|
  {
    name :| name in rest;
    rest' := rest - {name};
  }

  /** One link for one name. */
  method ServeOne(lsi: Lsi, ghost job: Job, rest: set<LinkName>, made: nat, id: nat, answer: (nat, nat))
      returns (rest': set<LinkName>)
    requires rest != {} && job.Reached(lsi.virtualLinks, lsi.vlinks, rest, made) && made < |job.answers|
    requires id == job.nextId + made && answer == job.answers[made]
    modifies lsi`virtualLinks, lsi`vlinks
    ensures job.Reached(lsi.virtualLinks, lsi.vlinks, rest', made + 1) && |rest'| + 1 == |rest|
  {
    var name;
    name, rest' := TakeOne(rest);
    Serve(lsi, job, rest, made, id, answer, {name}, rest');
  }

  /** One link for the next function port and the next physical port. */
  method ServePair(lsi: Lsi, ghost job: Job, ghost rest: set<LinkName>, nfs: set<LinkName>, ports: set<LinkName>,
      ghost others: set<LinkName>, made: nat, id: nat, answer: (nat, nat))
      returns (ghost rest': set<LinkName>, nfs': set<LinkName>, ports': set<LinkName>)
    requires (nfs != {} || ports != {}) && Left(rest, nfs, ports, others)
    requires job.Reached(lsi.virtualLinks, lsi.vlinks, rest, made) && made < |job.answers|
    requires id == job.nextId + made && answer == job.answers[made]
    modifies lsi`virtualLinks, lsi`vlinks
    ensures job.Reached(lsi.virtualLinks, lsi.vlinks, rest', made + 1) && Left(rest', nfs', ports', others)
    ensures Larger(|nfs'|, |ports'|) + 1 == Larger(|nfs|, |ports|)
  {
    var uses;
    uses, nfs', ports' := NextPair(nfs, ports);
    rest' := Minus(rest, uses);
    LeftStep(rest, nfs, ports, others, uses, nfs', ports');
    Serve(lsi, job, rest, made, id, answer, uses, rest');
  }

  /** Takes the next function port and the next physical port, if there are any. */
  method NextPair(nfs: set<LinkName>, ports: set<LinkName>)
      returns (uses: set<LinkName>, nfs': set<LinkName>, ports': set<LinkName>)
    requires nfs != {} || ports != {}
    requires (forall a :: a in nfs ==> a.kind == Nfs) && (forall a :: a in ports ==> a.kind == Ports)
    ensures uses != {} && OnePerDirection(uses) && (forall a :: a in uses ==> a in nfs || a in ports)
    ensures (forall a :: a in nfs' <==> a in nfs && a !in uses)
    ensures (forall a :: a in ports' <==> a in ports && a !in uses)
    ensures Larger(|nfs'|, |ports'|) + 1 == Larger(|nfs|, |ports|)
  {
    uses, nfs', ports' := {}, nfs, ports;
    if nfs != {} {
      var nf :| nf in nfs;
      uses, nfs' := {nf}, nfs - {nf};
    }
    if ports != {} {
      var port :| port in ports;
      uses, ports' := uses + {port}, ports - {port};
    }
  }

  /** Links shared between function ports and physical ports, going through both sets at once. */
  method AddShared(lsi: Lsi, ghost job: Job, needs: set<LinkName>, others: set<LinkName>, nextId: nat,
      answers: seq<(nat, nat)>)
      returns (made: nat)
    requires job.nextId == nextId && job.answers == answers && job.Reached(lsi.virtualLinks, lsi.vlinks, needs, 0)
    requires Left(needs, OfKind(needs, Nfs), OfKind(needs, Ports), others)
    requires Larger(|OfKind(needs, Nfs)|, |OfKind(needs, Ports)|) <= |answers|
    modifies lsi`virtualLinks, lsi`vlinks
    ensures made == Larger(|OfKind(needs, Nfs)|, |OfKind(needs, Ports)|)
    ensures job.Reached(lsi.virtualLinks, lsi.vlinks, others, made)
  {
    var nfs, ports := OfKind(needs, Nfs), OfKind(needs, Ports);
    ghost var rest := needs;
    made := 0;
    while nfs != {} || ports != {}
      invariant made + Larger(|nfs|, |ports|) == Larger(|OfKind(needs, Nfs)|, |OfKind(needs, Ports)|)
      invariant Left(rest, nfs, ports, others) && job.Reached(lsi.virtualLinks, lsi.vlinks, rest, made)
      decreases Larger(|nfs|, |ports|)
    {
      rest, nfs, ports := ServePair(lsi, job, rest, nfs, ports, others, made, nextId + made, answers[made]);
      made := made + 1;
    }
    LeftOver(rest, others);
  }

  /** Tunnels and internal groups get a link each. */
  method AddSingle(lsi: Lsi, ghost job: Job, names: set<LinkName>, start: nat, nextId: nat, answers: seq<(nat, nat)>)
      returns (made: nat)
    requires job.nextId == nextId && job.answers == answers && job.Reached(lsi.virtualLinks, lsi.vlinks, names, start)
    requires start + |names| <= |answers|
    modifies lsi`virtualLinks, lsi`vlinks
    ensures made == start + |names| && job.Reached(lsi.virtualLinks, lsi.vlinks, {}, made)
  {
    made := start;
    var rest := names;
    while rest != {}
      invariant made + |rest| == start + |names| && job.Reached(lsi.virtualLinks, lsi.vlinks, rest, made)
      decreases |rest|
    {
      rest := ServeOne(lsi, job, rest, made, nextId + made, answers[made]);
      made := made + 1;
    }
  }

  function Others(needs: set<LinkName>): (r: set<LinkName>)
    ensures Left(needs, OfKind(needs, Nfs), OfKind(needs, Ports), r)
  {
    set a | a in needs && a.kind != Nfs && a.kind != Ports
  }

  lemma OthersCount(needs: set<LinkName>)
    ensures |Others(needs)| == |OfKind(needs, Gres)| + |OfKind(needs, Internals)|
  {
    var gres, groups := OfKind(needs, Gres), OfKind(needs, Internals);
    assert Others(needs) == gres + groups;
    assert |gres + groups| == |gres| + |groups|;
  }

  /** Never more links than names. */
  lemma AtMostOneEach(needs: set<LinkName>)
    ensures LinksToAdd(needs) <= |needs|
  {
    var pairs := OfKind(needs, Nfs) + OfKind(needs, Ports);
    var others := Others(needs);
    OthersCount(needs);
    assert |pairs| == |OfKind(needs, Nfs)| + |OfKind(needs, Ports)|;
    assert needs == pairs + others && |pairs + others| == |pairs| + |others|;
  }

  /** New links for the missing names: a function port and a physical port share one, a tunnel or an
      internal group gets its own. */
  method AddMissing(lsi: Lsi, needs: set<LinkName>, nextId: nat, answers: seq<(nat, nat)>) returns (made: nat)
    requires Tidy(lsi.virtualLinks, lsi.vlinks, nextId) && (forall a :: a in needs ==> a !in lsi.vlinks)
    requires |answers| >= LinksToAdd(needs)
    modifies lsi`virtualLinks, lsi`vlinks
    ensures made == LinksToAdd(needs) && Tidy(lsi.virtualLinks, lsi.vlinks, nextId + made)
    ensures lsi.virtualLinks == old(lsi.virtualLinks) + Fresh(nextId, answers[..made])
    ensures Grown(old(lsi.vlinks), lsi.vlinks, needs, {})
  {
    ghost var job := Job(lsi.virtualLinks, lsi.vlinks, needs, nextId, answers);
    assert job.links + Fresh(nextId, answers[..0]) == job.links;
    var others := Others(needs);
    OthersCount(needs);
    made := AddShared(lsi, job, needs, others, nextId, answers);
    made := AddSingle(lsi, job, others, made, nextId, answers);
  }
}

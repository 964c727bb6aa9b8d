/** Which virtual links a graph needs, and keeping exactly those while the graph changes. */
module Vlinks {
  import opened HighLevel
  import opened Lsis
  import opened Names
  import opened Options

  // ----- link analysis -----

  lemma RequiredExtend(rules: seq<Rule>, h: Rule)
    ensures Required(rules + [h]) == Required(rules) + if h.Crosses() then {h.To().Key()} else {}
  {
  }

  /** Each rule needs at most one link. */
  lemma {:induction false} RequiredFew(rules: seq<Rule>)
    ensures |Required(rules)| <= |rules|
  {
    if rules != [] {
      var most, last := rules[..|rules| - 1], rules[|rules| - 1];
      RequiredFew(most);
      assert rules == most + [last];
      RequiredExtend(most, last);
    }
  }

  lemma MissingFew(rules: seq<Rule>, names: set<LinkName>)
    ensures |Required(rules) - names| <= |rules|
  {
    RequiredFew(rules);
    assert Required(rules) == (Required(rules) - names) + (Required(rules) * names);
  }

  method IdentifyRequired(rules: seq<Rule>) returns (names: set<LinkName>)
    ensures names == Required(rules)
  {
    names := {};
    for i := 0 to |rules|
      invariant names == Required(rules[..i])
    {
      var on := rules[i].On();
      assert rules[..i + 1] == rules[..i] + [rules[i]];
      RequiredExtend(rules[..i], rules[i]);
      match rules[i].To() {
        case NfPort(nf, port) =>
          if on.Port? || on.Internal? {
            names := names + {LinkName(Nfs, NfPortName(nf, port))};
          }
        case Gre(id) =>
          if on.Port? || on.Internal? {
            names := names + {LinkName(Gres, id)};
          }
        case Port(name) =>
          if on.NfPort? || on.Gre? {
            names := names + {LinkName(Ports, name)};
          }
        case Internal(group) =>
          if !on.Port? && !on.Internal? {
            names := names + {LinkName(Internals, group)};
          }
      }
    }
    assert rules[..|rules|] == rules;
  }

  /** The variant for an update: only names without a link yet. */
  method IdentifyMissing(rules: seq<Rule>, lsi: Lsi) returns (names: set<LinkName>)
    ensures names == Required(rules) - lsi.vlinks.Keys
  {
    names := {};
    for i := 0 to |rules|
      invariant names == Required(rules[..i]) - lsi.vlinks.Keys
    {
      var on, to := rules[i].On(), rules[i].To();
      assert rules[..i + 1] == rules[..i] + [rules[i]];
      RequiredExtend(rules[..i], rules[i]);
      var crosses :=
        if to.Inner() then on.Port? || on.Internal?
        else if to.Port? then on.NfPort? || on.Gre?
        else !on.Port? && !on.Internal?;
      if crosses && to.Key() !in lsi.vlinks {
        names := names + {to.Key()};
      }
    }
    assert rules[..|rules|] == rules;
  }

  // ----- the invariant -----

  /** Ids unique and below the counter, at most one name per direction, no leak, no dangling link. */
  ghost predicate Tidy(links: seq<VLink>, vlinks: map<LinkName, nat>, nextId: nat) {
    && UniqueIds(links) && (forall v :: v in links ==> v.id < nextId)
    && OneNamePerDirection(vlinks) && Conserved(links, vlinks)
  }

  // ----- allocation for a new graph -----

  function OfKind(names: set<LinkName>, kind: Kind): set<LinkName> {
    set a | a in names && a.kind == kind
  }

  function LinksFor(names: set<LinkName>): nat {
    var up := |OfKind(names, Nfs)| + |OfKind(names, Gres)|;
    var down := |OfKind(names, Ports)| + |OfKind(names, Internals)|;
    if up > down then up else down
  }

  /** The order in which an iterator over the links met the names, and the place of each. */
  datatype Visit = Visit(order: seq<LinkName>, place: map<LinkName, nat>) {
    ghost predicate Valid() {
      && (forall a :: a in place ==> place[a] < |order| && order[place[a]] == a)
      && (forall j :: 0 <= j < |order| ==> order[j] in place && place[order[j]] == j)
    }
  }

  /** `m` gives the names met so far the first links of the vector. */
  ghost predicate InOrder(m: map<LinkName, nat>, visit: Visit, links: seq<VLink>) {
    && visit.Valid() && |visit.order| <= |links| && m.Keys == visit.place.Keys
    && forall a :: a in m ==> m[a] == links[visit.place[a]].id
  }

  lemma InOrderStep(m: map<LinkName, nat>, visit: Visit, links: seq<VLink>, x: LinkName)
    requires InOrder(m, visit, links) && x !in m && |visit.order| < |links|
    ensures InOrder(m[x := links[|visit.order|].id], Visit(visit.order + [x], visit.place[x := |visit.order|]), links)
  {
  }

  /** Moves the iterator on, one link per name. */
  method Associate(names: set<LinkName>, links: seq<VLink>, m: map<LinkName, nat>, next: nat, ghost visit: Visit)
      returns (m': map<LinkName, nat>, next': nat, ghost visit': Visit)
    requires (forall a :: a in names ==> a !in m) && next == |visit.order| && next + |names| <= |links|
    requires InOrder(m, visit, links)
    ensures forall a :: a in m' <==> a in m || a in names
    ensures next' == |visit'.order| == next + |names| && InOrder(m', visit', links)
  {
    m', next', visit' := m, next, visit;
    var rest := names;
    while rest != {}
      invariant forall a :: a in rest ==> a in names
      invariant forall a :: a in m' <==> a in m || (a in names && a !in rest)
      invariant next' == |visit'.order| && next' + |rest| == next + |names|
      invariant InOrder(m', visit', links)
    {
      var x :| x in rest;
      assert |rest| == |rest - {x}| + 1;
      InOrderStep(m', visit', links, x);
      m' := m'[x := links[next'].id];
      visit' := Visit(visit'.order + [x], visit'.place[x := |visit'.order|]);
      rest, next' := rest - {x}, next' + 1;
    }
  }

  /** A name going up and one going down may share a link, two of the same direction may not. */
  lemma PairedOneName(up: map<LinkName, nat>, upVisit: Visit, down: map<LinkName, nat>, downVisit: Visit,
      links: seq<VLink>)
    requires InOrder(up, upVisit, links) && InOrder(down, downVisit, links) && UniqueIds(links)
    requires (forall a :: a in up ==> a.Up()) && (forall a :: a in down ==> !a.Up())
    ensures OneNamePerDirection(up + down)
  {
    forall a, b | a in up + down && b in up + down && (up + down)[a] == (up + down)[b] && a.Up() == b.Up()
      ensures a == b
    {
      var m, visit := if a.Up() then up else down, if a.Up() then upVisit else downVisit;
      SamePlace(m, visit, links, a, b);
    }
  }

  lemma SamePlace(m: map<LinkName, nat>, visit: Visit, links: seq<VLink>, a: LinkName, b: LinkName)
    requires InOrder(m, visit, links) && UniqueIds(links) && a in m && b in m && m[a] == m[b]
    ensures a == b
  {
    var i, j := visit.place[a], visit.place[b];
    assert Position(links, links[i].id) == i && Position(links, links[j].id) == j;
    assert visit.order[i] == a && visit.order[j] == b;
  }

  /** As many links as the larger direction has names: each is used. */
  lemma PairedConserved(up: map<LinkName, nat>, upVisit: Visit, down: map<LinkName, nat>, downVisit: Visit,
      links: seq<VLink>)
    requires InOrder(up, upVisit, links) && InOrder(down, downVisit, links)
    requires (forall a :: a in up ==> a.Up()) && (forall a :: a in down ==> !a.Up())
    requires |links| == |upVisit.order| || |links| == |downVisit.order|
    ensures Conserved(links, up + down)
  {
    forall v | v in links
      ensures exists a :: a in up + down && (up + down)[a] == v.id
    {
      var i :| 0 <= i < |links| && links[i] == v;
      var a := if |links| == |upVisit.order| then upVisit.order[i] else downVisit.order[i];
      assert (up + down)[a] == v.id;
    }
    forall a | a in up + down
      ensures Find(links, (up + down)[a]).Some?
    {
      var i := if a in down then downVisit.place[a] else upVisit.place[a];
      assert links[i] in links;
    }
  }

  /** One iterator over the links serves both kinds of a direction. */
  method PairDirection(first: set<LinkName>, second: set<LinkName>, links: seq<VLink>)
      returns (m: map<LinkName, nat>, ghost visit: Visit)
    requires (forall a :: a in first ==> a !in second) && |first| + |second| <= |links|
    ensures forall a :: a in m <==> a in first || a in second
    ensures |visit.order| == |first| + |second| && InOrder(m, visit, links)
  {
    var next;
    m, next, visit := Associate(first, links, map[], 0, Visit([], map[]));
    m, next, visit := Associate(second, links, m, next, visit);
  }

  /** The two iterators of a new graph: up over functions then tunnels, down over ports then groups. */
  method PairUp(names: set<LinkName>, links: seq<VLink>) returns (vlinks: map<LinkName, nat>)
    requires |links| == LinksFor(names) && UniqueIds(links)
    ensures vlinks.Keys == names && OneNamePerDirection(vlinks) && Conserved(links, vlinks)
  {
    var up, upVisit := PairDirection(OfKind(names, Nfs), OfKind(names, Gres), links);
    var down, downVisit := PairDirection(OfKind(names, Ports), OfKind(names, Internals), links);
    PairedOneName(up, upVisit, down, downVisit, links);
    PairedConserved(up, upVisit, down, downVisit, links);
    vlinks := up + down;
    KindsCover(names, up, down);
  }

  lemma KindsCover(names: set<LinkName>, up: map<LinkName, nat>, down: map<LinkName, nat>)
    requires forall a :: a in up <==> a in OfKind(names, Nfs) || a in OfKind(names, Gres)
    requires forall a :: a in down <==> a in OfKind(names, Ports) || a in OfKind(names, Internals)
    ensures (up + down).Keys == names
  {
  }

  method Allocate(lsi: Lsi, names: set<LinkName>)
    requires |lsi.virtualLinks| == LinksFor(names) && UniqueIds(lsi.virtualLinks) && lsi.vlinks == map[]
    modifies lsi`vlinks
    ensures lsi.vlinks.Keys == names && OneNamePerDirection(lsi.vlinks) && Conserved(lsi.virtualLinks, lsi.vlinks)
  {
    var vlinks := PairUp(names, lsi.virtualLinks);
    lsi.NameVlinks(vlinks);
    assert lsi.vlinks == vlinks;
  }

  /** Whatever the strategy, links with at most one name per direction are at least as many as the
      names of either direction: the allocation above is the smallest possible. */
  lemma AllocationOptimal(vlinks: map<LinkName, nat>, ids: set<nat>)
    requires OneNamePerDirection(vlinks) && forall a :: a in vlinks ==> vlinks[a] in ids
    ensures |ids| >= LinksFor(vlinks.Keys)
  {
    var names := vlinks.Keys;
    DirectionFits(vlinks, OfKind(names, Nfs), OfKind(names, Gres), ids);
    DirectionFits(vlinks, OfKind(names, Ports), OfKind(names, Internals), ids);
  }

  lemma DirectionFits(vlinks: map<LinkName, nat>, first: set<LinkName>, second: set<LinkName>, ids: set<nat>)
    requires OneNamePerDirection(vlinks) && first <= vlinks.Keys && second <= vlinks.Keys && first !! second
    requires forall a, b :: a in first + second && b in first + second ==> a.Up() == b.Up()
    requires forall a :: a in vlinks ==> vlinks[a] in ids
    ensures |ids| >= |first| + |second|
  {
    assert |first + second| == |first| + |second|;
    ImageSize(vlinks, first + second);
    var image := set a | a in first + second :: vlinks[a];
    assert image <= ids && ids == image + (ids - image);
    assert |ids| == |image| + |ids - image|;
  }

  lemma {:induction false} ImageSize(vlinks: map<LinkName, nat>, names: set<LinkName>)
    requires OneNamePerDirection(vlinks) && names <= vlinks.Keys
    requires forall a, b :: a in names && b in names ==> a.Up() == b.Up()
    ensures |set a | a in names :: vlinks[a]| == |names|
  {
    var image := set a | a in names :: vlinks[a];
    if names != {} {
      var n :| n in names;
      var rest := names - {n};
      var image' := set a | a in rest :: vlinks[a];
      ImageSize(vlinks, rest);
      assert vlinks[n] !in image';
      assert image == image' + {vlinks[n]};
    }
  }
}

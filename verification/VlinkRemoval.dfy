/** Virtual links under update: dropping those whose last rule has gone. */
module VlinkRemoval {
  import opened HighLevel
  import opened Lsis
  import opened Options
  import opened Vlinks

  /** Some name of the opposite direction still uses the link. */
  ghost predicate Shared(vlinks: map<LinkName, nat>, name: LinkName)
    requires name in vlinks
  {
    exists a :: a in vlinks && a.Up() != name.Up() && vlinks[a] == vlinks[name]
  }

  /** Every remaining name finds the link it found before. */
  ghost predicate KeepsLinks(links: seq<VLink>, vlinks: map<LinkName, nat>, links': seq<VLink>, vlinks': map<LinkName,
      nat>) {
    forall a :: a in vlinks' ==>
      a in vlinks && vlinks'[a] == vlinks[a] && Find(links', vlinks'[a]) == Find(links, vlinks[a])
  }

  lemma DropNameOnly(links: seq<VLink>, vlinks: map<LinkName, nat>, nextId: nat, name: LinkName)
    requires Tidy(links, vlinks, nextId) && name in vlinks && Shared(vlinks, name)
    ensures Tidy(links, vlinks - {name}, nextId) && KeepsLinks(links, vlinks, links, vlinks - {name})
  {
    var other :| other in vlinks && other.Up() != name.Up() && vlinks[other] == vlinks[name];
    forall v | v in links
      ensures exists a :: a in vlinks - {name} && (vlinks - {name})[a] == v.id
    {
      var a :| a in vlinks && vlinks[a] == v.id;
      var b := if a == name then other else a;
      assert b in vlinks - {name} && (vlinks - {name})[b] == v.id;
    }
  }

  lemma FindKept(links: seq<VLink>, gone: nat, id: nat)
    requires UniqueIds(links) && id != gone
    ensures Find(Without(links, gone), id) == Find(links, id)
  {
    WithoutKeepsRest(links, gone);
    if Find(links, id).Some? {
      FindUnique(Without(links, gone), Find(links, id).value);
    }
  }

  lemma DropNameAndLink(links: seq<VLink>, vlinks: map<LinkName, nat>, nextId: nat, name: LinkName)
    requires Tidy(links, vlinks, nextId) && name in vlinks && !Shared(vlinks, name)
    ensures var links' := Without(links, vlinks[name]);
      Tidy(links', vlinks - {name}, nextId) && KeepsLinks(links, vlinks, links', vlinks - {name})
  {
    var gone, rest := vlinks[name], vlinks - {name};
    var links' := Without(links, gone);
    WithoutKeepsRest(links, gone);
    forall a | a in rest
      ensures rest[a] != gone && Find(links', rest[a]) == Find(links, vlinks[a])
    {
      FindKept(links, gone, rest[a]);
    }
    forall v | v in links'
      ensures exists a :: a in rest && rest[a] == v.id
    {
      var a :| a in vlinks && vlinks[a] == v.id;
      assert a in rest && rest[a] == v.id;
    }
  }

  lemma KeepsLinksTrans(links: seq<VLink>, vlinks: map<LinkName, nat>, links1: seq<VLink>, vlinks1: map<LinkName, nat>,
      links2: seq<VLink>, vlinks2: map<LinkName, nat>)
    requires KeepsLinks(links, vlinks, links1, vlinks1) && KeepsLinks(links1, vlinks1, links2, vlinks2)
    ensures KeepsLinks(links, vlinks, links2, vlinks2)
  {
  }

  /** A remaining rule still needs the name. */
  method StillNeeded(rules: seq<Rule>, name: LinkName) returns (needed: bool)
    ensures needed <==> name in Required(rules)
  {
    for i := 0 to |rules|
      invariant name !in Required(rules[..i])
    {
      assert rules[..i + 1] == rules[..i] + [rules[i]];
      RequiredExtend(rules[..i], rules[i]);
      var on, to := rules[i].On(), rules[i].To();
      var needsLink := if to.Inner() then on.Internal? || on.Port? else on.Gre? || on.NfPort?;
      if needsLink && to.Key() == name {
        return true;
      }
    }
    assert rules[..|rules|] == rules;
    return false;
  }

  method UsedInOppositeDirection(vlinks: map<LinkName, nat>, name: LinkName) returns (used: bool)
    requires name in vlinks
    ensures used <==> Shared(vlinks, name)
  {
    var rest := vlinks.Keys;
    while rest != {}
      invariant forall a :: a in vlinks && a !in rest && a.Up() != name.Up() ==> vlinks[a] != vlinks[name]
      invariant rest <= vlinks.Keys
    {
      var a :| a in rest;
      if a.Up() != name.Up() && vlinks[a] == vlinks[name] {
        return true;
      }
      rest := rest - {a};
    }
    return false;
  }

  /** After the removal of a rule acting on `name`: `rules` are those that remain. */
  method RemoveUselessVlink(lsi: Lsi, name: LinkName, rules: seq<Rule>, ghost nextId: nat)
    requires Tidy(lsi.virtualLinks, lsi.vlinks, nextId)
    modifies lsi`virtualLinks, lsi`vlinks
    ensures Tidy(lsi.virtualLinks, lsi.vlinks, nextId)
    ensures KeepsLinks(old(lsi.virtualLinks), old(lsi.vlinks), lsi.virtualLinks, lsi.vlinks)
    ensures forall a :: a in lsi.vlinks <==> a in old(lsi.vlinks) && (a != name || name in Required(rules))
  {
    if name !in lsi.vlinks {
      return;
    }
    var needed := StillNeeded(rules, name);
    if needed {
      return;
    }
    var id := lsi.vlinks[name];
    var used := UsedInOppositeDirection(lsi.vlinks, name);
    if used {
      DropNameOnly(lsi.virtualLinks, lsi.vlinks, nextId, name);
      lsi.UnnameVlink(name);
    } else {
      DropNameAndLink(lsi.virtualLinks, lsi.vlinks, nextId, name);
      lsi.UnnameVlink(name);
      lsi.RemoveVlink(id);
    }
  }

  /** One call per removed rule; afterwards only names with a remaining rule have a link. */
  method RemoveUselessVlinks(lsi: Lsi, names: seq<LinkName>, rules: seq<Rule>, ghost nextId: nat)
    requires Tidy(lsi.virtualLinks, lsi.vlinks, nextId)
    modifies lsi`virtualLinks, lsi`vlinks
    ensures Tidy(lsi.virtualLinks, lsi.vlinks, nextId)
    ensures KeepsLinks(old(lsi.virtualLinks), old(lsi.vlinks), lsi.virtualLinks, lsi.vlinks)
    ensures forall a :: a in lsi.vlinks <==> a in old(lsi.vlinks) && (a !in names || a in Required(rules))
  {
    for i := 0 to |names|
      invariant Tidy(lsi.virtualLinks, lsi.vlinks, nextId)
      invariant KeepsLinks(old(lsi.virtualLinks), old(lsi.vlinks), lsi.virtualLinks, lsi.vlinks)
      invariant forall a :: a in lsi.vlinks <==> a in old(lsi.vlinks) && (a !in names[..i] || a in Required(rules))
    {
      ghost var links, vlinks := lsi.virtualLinks, lsi.vlinks;
      RemoveUselessVlink(lsi, names[i], rules, nextId);
      KeepsLinksTrans(old(lsi.virtualLinks), old(lsi.vlinks), links, vlinks, lsi.virtualLinks, lsi.vlinks);
      assert names[..i + 1] == names[..i] + [names[i]];
    }
    assert names[..|names|] == names;
  }
}

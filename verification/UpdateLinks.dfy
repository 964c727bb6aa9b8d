/** The links of an updated graph: needed ones are there, kept ones stay, unneeded ones are gone. */
module UpdateLinks {
  import opened HighLevel
  import opened Lsis
  import opened Options
  import opened Translator
  import opened Forwarding
  import opened Vlinks
  import opened VlinkUpdate
  import opened VlinkRemoval
  import opened RuleDiff
  import opened Lifecycle
  import opened Updates

  /** The vlinks through an update: before, after adding what the new rules miss, after dropping what
      the removed rules leave behind. */
  datatype Links = Links(links: seq<VLink>, vlinks: map<LinkName, nat>)

  ghost predicate LinksAdded(was: Links, grown: Links, mine: seq<Rule>, target: seq<Rule>, nextId: nat, nextId': nat) {
    && Tidy(was.links, was.vlinks, nextId) && (forall a :: a in was.vlinks <==> a in Required(mine))
    && Tidy(grown.links, grown.vlinks, nextId') && was.links <= grown.links
    && Grown(was.vlinks, grown.vlinks, Required(Added(mine, target)) - was.vlinks.Keys, {})
  }

  ghost predicate LinksDropped(grown: Links, now: Links, mine: seq<Rule>, target: seq<Rule>, nextId': nat) {
    && Tidy(now.links, now.vlinks, nextId') && KeepsLinks(grown.links, grown.vlinks, now.links, now.vlinks)
    && forall a :: a in now.vlinks <==>
         a in grown.vlinks && (a !in NamesOf(Removed(mine, target)) || a in Required(Merged(mine, target)))
  }

  /** The names the removed rules acted on. */
  function NamesOf(rules: seq<Rule>): seq<LinkName> {
    seq(|rules|, i requires 0 <= i < |rules| => rules[i].To().Key())
  }

  lemma RequiredBy(rules: seq<Rule>, a: LinkName)
    ensures a in Required(rules) <==> exists h :: h in rules && h.Crosses() && h.To().Key() == a
  {
  }

  lemma NameOf(rules: seq<Rule>, h: Rule)
    requires h in rules
    ensures h.To().Key() in NamesOf(rules)
  {
    var i :| 0 <= i < |rules| && rules[i] == h;
    assert NamesOf(rules)[i] == h.To().Key();
  }

  lemma GrownNames(was: Links, grown: Links, mine: seq<Rule>, target: seq<Rule>, nextId: nat, nextId': nat, a: LinkName)
    requires LinksAdded(was, grown, mine, target, nextId, nextId')
    ensures a in grown.vlinks <==> a in Required(mine) || a in Required(Added(mine, target))
  {
  }

  /** A name no rule of the new version needs was needed only by removed rules. */
  lemma DroppedName(mine: seq<Rule>, target: seq<Rule>, a: LinkName)
    requires DistinctRules(mine) && DistinctRules(target) && a in Required(mine) && a !in Required(Merged(mine, target))
    ensures a in NamesOf(Removed(mine, target))
  {
    RequiredBy(mine, a);
    var h :| h in mine && h.Crosses() && h.To().Key() == a;
    KeptOrAdded(mine, target, h);
    RequiredBy(Merged(mine, target), a);
    RemovedMembers(mine, target);
    NameOf(Removed(mine, target), h);
  }

  lemma NeededName(mine: seq<Rule>, target: seq<Rule>, a: LinkName)
    requires DistinctRules(mine) && DistinctRules(target)
    ensures a in Required(Added(mine, target)) ==> a in Required(Merged(mine, target))
    ensures a in Required(Merged(mine, target)) ==> a in Required(mine) || a in Required(Added(mine, target))
  {
    RequiredBy(mine, a);
    RequiredBy(Added(mine, target), a);
    RequiredBy(Merged(mine, target), a);
    forall h {
      KeptOrAdded(mine, target, h);
    }
  }

  /** Exactly the names the new version requires have a link, and the links are conserved. */
  lemma UpdatedLinked(was: Links, grown: Links, now: Links, mine: seq<Rule>, target: seq<Rule>, nextId: nat,
      nextId': nat, lsi: LsiState)
    requires DistinctRules(mine) && DistinctRules(target)
    requires LinksAdded(was, grown, mine, target, nextId, nextId') && LinksDropped(grown, now, mine, target, nextId')
    requires lsi.virtualLinks == now.links && lsi.vlinks == now.vlinks
    ensures Linked(Merged(mine, target), lsi, nextId')
  {
    forall a
      ensures a in now.vlinks <==> a in Required(Merged(mine, target))
    {
      GrownNames(was, grown, mine, target, nextId, nextId', a);
      NeededName(mine, target, a);
      if a in Required(mine) && a !in Required(Merged(mine, target)) {
        DroppedName(mine, target, a);
      }
    }
  }

  lemma {:induction false} FindInPrefix(links: seq<VLink>, more: seq<VLink>, id: nat)
    requires links <= more && Find(links, id).Some?
    ensures Find(more, id) == Find(links, id)
  {
    if links[0].id != id {
      FindInPrefix(links[1..], more[1..], id);
    }
  }

  /** A name that had a link and still has one keeps that very link, with its ports. */
  lemma UpdatedSameLinks(was: Links, grown: Links, now: Links, mine: seq<Rule>, target: seq<Rule>, nextId: nat,
      nextId': nat, a: LinkName)
    requires LinksAdded(was, grown, mine, target, nextId, nextId') && LinksDropped(grown, now, mine, target, nextId')
    requires a in was.vlinks && a in now.vlinks
    ensures was.vlinks[a] == now.vlinks[a] && Find(was.links, was.vlinks[a]) == Find(now.links, now.vlinks[a])
  {
    FindInPrefix(was.links, grown.links, was.vlinks[a]);
  }

  /** No link appears out of nowhere. */
  lemma KeptLinkWasThere(grown: Links, now: Links, nextId': nat, v: VLink)
    requires Tidy(now.links, now.vlinks, nextId') && KeepsLinks(grown.links, grown.vlinks, now.links, now.vlinks)
    requires v in now.links
    ensures v in grown.links
  {
    var a :| a in now.vlinks && now.vlinks[a] == v.id;
    FindUnique(now.links, v);
  }
}

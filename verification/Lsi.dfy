/** A logical switch instance of a tenant: its ports and the virtual links to LSI-0. */
module Lsis {
  import opened HighLevel
  import opened Names
  import opened Options

  /** `localId` is the link's port on the tenant LSI, `remoteId` its port on LSI-0. */
  datatype VLink = VLink(id: nat, localId: nat, remoteId: nat)

  /** The fields of `LSI` that the translation reads. */
  datatype LsiState = LsiState(
    nfPorts: map<string, map<string, nat>>,  // network function -> port name -> port on the switch
    greEndpoints: set<string>,
    grePorts: map<string, nat>,              // never erased: may hold ids of tunnels already removed
    virtualLinks: seq<VLink>,
    vlinks: map<LinkName, nat>)              // the four name-to-link maps, keyed by kind and name

  /** The link a scan of the vector stops at. */
  function Find(links: seq<VLink>, id: nat): (r: Option<VLink>)
    ensures r.Some? ==> r.value in links && r.value.id == id
    ensures r.None? <==> forall v :: v in links ==> v.id != id
  {
    if links == [] then None
    else if links[0].id == id then Some(links[0])
    else Find(links[1..], id)
  }

  /** The link associated with a name, if the name is mapped and the link is in the vector. */
  function Link(lsi: LsiState, e: Endpoint): Option<VLink> {
    if e.Key() in lsi.vlinks then Find(lsi.virtualLinks, lsi.vlinks[e.Key()]) else None
  }

  /** The position of the first link with this id, the length if there is none. */
  function Position(links: seq<VLink>, id: nat): (p: nat)
    ensures p <= |links| && (p < |links| ==> links[p].id == id)
  {
    if links == [] || links[0].id == id then 0 else 1 + Position(links[1..], id)
  }

  predicate UniqueIds(links: seq<VLink>) {
    forall i :: 0 <= i < |links| ==> Position(links, links[i].id) == i
  }

  lemma {:induction false} PositionIsFirst(links: seq<VLink>, id: nat, i: nat)
    requires i < |links| && links[i].id == id
    ensures Position(links, id) <= i
  {
    if links[0].id != id {
      PositionIsFirst(links[1..], id, i - 1);
    }
  }

  lemma UniqueIdsByPairs(links: seq<VLink>)
    ensures UniqueIds(links) <==> forall i, j :: 0 <= i < j < |links| ==> links[i].id != links[j].id
  {
    forall i | 0 <= i < |links|
      ensures Position(links, links[i].id) <= i
    {
      PositionIsFirst(links, links[i].id, i);
    }
    if UniqueIds(links) {
      forall i, j | 0 <= i < j < |links|
        ensures links[i].id != links[j].id
      {
        assert Position(links, links[i].id) == i && Position(links, links[j].id) == j;
      }
    }
  }

  /** A link with a fresh id keeps the ids unique. */
  lemma AppendUnique(links: seq<VLink>, v: VLink)
    requires UniqueIds(links) && Find(links, v.id).None?
    ensures UniqueIds(links + [v])
  {
    UniqueIdsByPairs(links);
    UniqueIdsByPairs(links + [v]);
    assert forall i :: 0 <= i < |links| ==> links[i] in links;
  }

  lemma FindUnique(links: seq<VLink>, v: VLink)
    requires UniqueIds(links) && v in links
    ensures Find(links, v.id) == Some(v)
  {
    var u := Find(links, v.id).value;
    var i, j :| 0 <= i < |links| && 0 <= j < |links| && links[i] == u && links[j] == v;
    assert Position(links, links[i].id) == i && Position(links, links[j].id) == j;
  }

  /** No two names of the same direction share a link; a name going up and one going down may. */
  ghost predicate OneNamePerDirection(vlinks: map<LinkName, nat>) {
    forall a, b :: a in vlinks && b in vlinks && vlinks[a] == vlinks[b] && a.Up() == b.Up() ==> a == b
  }

  /** No leak and no dangling link: the links of the vector are those the maps name. */
  ghost predicate Conserved(links: seq<VLink>, vlinks: map<LinkName, nat>) {
    && (forall v :: v in links ==> exists a :: a in vlinks && vlinks[a] == v.id)
    && (forall a :: a in vlinks ==> Find(links, vlinks[a]).Some?)
  }

  /** What hangs on a port of the tenant LSI. */
  datatype TenantPort = OfNf(nf: string, port: nat) | OfGre(id: string) | OfLink(link: nat)

  ghost predicate HasTenantPort(lsi: LsiState, x: TenantPort, number: nat) {
    match x
    case OfNf(nf, port) => && nf in lsi.nfPorts && NfPortName(nf, port) in lsi.nfPorts[nf]
                           && lsi.nfPorts[nf][NfPortName(nf, port)] == number
    case OfGre(id) => id in lsi.greEndpoints && id in lsi.grePorts && lsi.grePorts[id] == number
    case OfLink(id) => exists v :: v in lsi.virtualLinks && v.id == id && v.localId == number
  }

  ghost predicate TenantPortsDistinct(lsi: LsiState) {
    forall x, y, number :: HasTenantPort(lsi, x, number) && HasTenantPort(lsi, y, number) ==> x == y
  }

  /** The mutable object. */
  class Lsi {
    var nfPorts: map<string, map<string, nat>>
    var greEndpoints: set<string>
    var grePorts: map<string, nat>
    var virtualLinks: seq<VLink>
    var vlinks: map<LinkName, nat>

    function State(): LsiState
      reads this
    {
      LsiState(nfPorts, greEndpoints, grePorts, virtualLinks, vlinks)
    }

    constructor (s: LsiState)
      ensures State() == s
    {
      nfPorts, greEndpoints, grePorts := s.nfPorts, s.greEndpoints, s.grePorts;
      virtualLinks, vlinks := s.virtualLinks, s.vlinks;
    }

    /** The link is appended with its ports still unknown; the position is where to set them. */
    method AddVlink(id: nat) returns (position: nat)
      modifies this`virtualLinks
      ensures position == old(|virtualLinks|) && virtualLinks == old(virtualLinks) + [VLink(id, 0, 0)]
    {
      position := |virtualLinks|;
      virtualLinks := virtualLinks + [VLink(id, 0, 0)];
    }

    method SetVlinkPorts(position: nat, localId: nat, remoteId: nat)
      requires position < |virtualLinks|
      modifies this`virtualLinks
      ensures virtualLinks == old(virtualLinks)[position := VLink(old(virtualLinks)[position].id, localId, remoteId)]
    {
      virtualLinks := virtualLinks[position := VLink(virtualLinks[position].id, localId, remoteId)];
    }

    /** The first link with this id; a miss fails the source's assertion. */
    method GetVirtualLink(id: nat) returns (link: Option<VLink>)
      ensures link == Find(virtualLinks, id)
    {
      var i := 0;
      while i < |virtualLinks|
        invariant i <= |virtualLinks|
        invariant Find(virtualLinks, id) == Find(virtualLinks[i..], id)
      {
        if virtualLinks[i].id == id {
          return Some(virtualLinks[i]);
        }
        i := i + 1;
      }
      return None;
    }

    /** Erases the first link with this id. */
    method RemoveVlink(id: nat)
      requires Find(virtualLinks, id).Some?
      modifies this`virtualLinks
      ensures virtualLinks == Without(old(virtualLinks), id)
    {
      var i := 0;
      while i < |virtualLinks| && virtualLinks[i].id != id
        invariant i <= |virtualLinks| && virtualLinks == old(virtualLinks)
        invariant forall j :: 0 <= j < i ==> virtualLinks[j].id != id
      {
        i := i + 1;
      }
      WithoutAt(virtualLinks, id, i);
      virtualLinks := virtualLinks[..i] + virtualLinks[i + 1..];
    }

    method NameVlink(name: LinkName, id: nat)
      modifies this`vlinks
      ensures vlinks == old(vlinks)[name := id]
    {
      vlinks := vlinks[name := id];
    }

    /** Inserts the entries whose name is new; names already there keep their link. */
    method NameVlinks(links: map<LinkName, nat>)
      modifies this`vlinks
      ensures vlinks == links + old(vlinks)
    {
      vlinks := links + vlinks;
    }

    /** New functions or new ports of functions already there, and new tunnels. */
    method Plug(nfs: map<string, map<string, nat>>, gres: map<string, nat>)
      modifies this`nfPorts, this`greEndpoints, this`grePorts
      ensures State() == Plugged(old(State()), nfs, gres)
    {
      nfPorts, greEndpoints, grePorts := WithPorts(nfPorts, nfs), greEndpoints + gres.Keys, grePorts + gres;
    }

    /** A removed tunnel leaves its port in the table. */
    method Unplug(nfs: set<string>, gres: set<string>)
      modifies this`nfPorts, this`greEndpoints
      ensures State() == Unplugged(old(State()), nfs, gres)
    {
      nfPorts, greEndpoints := nfPorts - nfs, greEndpoints - gres;
    }

    method UnnameVlink(name: LinkName)
      requires name in vlinks
      modifies this`vlinks
      ensures vlinks == old(vlinks) - {name}
    {
      vlinks := vlinks - {name};
    }
  }

  function WithPorts(old': map<string, map<string, nat>>, new': map<string, map<string,
      nat>>): map<string, map<string, nat>> {
    map nf | nf in old'.Keys + new'.Keys ::
      if nf !in new' then old'[nf] else if nf !in old' then new'[nf] else old'[nf] + new'[nf]
  }

  function Plugged(lsi: LsiState, nfs: map<string, map<string, nat>>, gres: map<string, nat>): LsiState {
    lsi.(nfPorts := WithPorts(lsi.nfPorts, nfs), greEndpoints := lsi.greEndpoints + gres.Keys,
         grePorts := lsi.grePorts + gres)
  }

  function Unplugged(lsi: LsiState, nfs: set<string>, gres: set<string>): LsiState {
    lsi.(nfPorts := lsi.nfPorts - nfs, greEndpoints := lsi.greEndpoints - gres)
  }

  function Without(links: seq<VLink>, id: nat): seq<VLink> {
    if links == [] then [] else if links[0].id == id then links[1..] else [links[0]] + Without(links[1..], id)
  }

  lemma {:induction false} WithoutAt(links: seq<VLink>, id: nat, i: nat)
    requires i < |links| && links[i].id == id && forall j :: 0 <= j < i ==> links[j].id != id
    ensures Without(links, id) == links[..i] + links[i + 1..]
  {
    if i > 0 {
      WithoutAt(links[1..], id, i - 1);
      assert links[..i] == [links[0]] + links[1..][..i - 1];
      assert links[1..][i..] == links[i + 1..];
    }
  }

  lemma WithoutKeepsRest(links: seq<VLink>, id: nat)
    requires UniqueIds(links)
    ensures UniqueIds(Without(links, id))
    ensures forall v :: v in Without(links, id) <==> v in links && v.id != id
  {
    UniqueIdsByPairs(links);
    if forall i :: 0 <= i < |links| ==> links[i].id != id {
      WithoutAbsent(links, id);
    } else {
      var k :| 0 <= k < |links| && links[k].id == id;
      assert Position(links, links[k].id) == k;
      WithoutAt(links, id, k);
      ErasedKeepsRest(links, k);
    }
  }

  lemma ErasedKeepsRest(links: seq<VLink>, k: nat)
    requires k < |links| && forall i, j :: 0 <= i < j < |links| ==> links[i].id != links[j].id
    ensures UniqueIds(links[..k] + links[k + 1..])
    ensures forall v :: v in links[..k] + links[k + 1..] <==> v in links && v.id != links[k].id
  {
    var rest := links[..k] + links[k + 1..];
    UniqueIdsByPairs(rest);
    forall v | v in links && v.id != links[k].id
      ensures v in rest
    {
      var i :| 0 <= i < |links| && links[i] == v;
      assert rest[if i < k then i else i - 1] == v;
    }
  }

  lemma {:induction false} WithoutAbsent(links: seq<VLink>, id: nat)
    requires forall i :: 0 <= i < |links| ==> links[i].id != id
    ensures Without(links, id) == links
  {
    if links != [] {
      WithoutAbsent(links[1..], id);
    }
  }
}

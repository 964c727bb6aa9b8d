/** Internal groups: one internal LSI per group, shared by the graphs that use it and counted. */
module InternalGroups {
  import opened FlowTable
  import opened Lsis
  import opened Names
  import opened Options
  import opened Translator
  import opened Seqs
  import LowGraph

  const HIGH_PRIORITY := 65535

  /** The internal LSI of a group: its links to LSI-0 and the rules of its controller. */
  datatype GroupLsi = GroupLsi(links: seq<VLink>, rules: seq<LowRule>)

  datatype Groups = Groups(
    created: map<string, bool>,
    timesUsed: map<string, nat>,
    connections: Connections,
    lsis: map<string, GroupLsi>)
  {
    /** A missing flag reads as false, a missing counter as zero. */
    predicate Created(group: string) {
      group in created && created[group]
    }

    function Times(group: string): nat {
      if group in timesUsed then timesUsed[group] else 0
    }

    function Ports(group: string): map<string, nat> {
      if group in connections then connections[group] else map[]
    }
  }

  const NO_GROUPS := Groups(map[], map[], map[], map[])

  function NormalId(group: string, graph: string): string {
    "INTERNAL-GRAPH-" + group + "_" + graph
  }

  function NormalRule(group: string, graph: string, port: nat): LowRule {
    LowRule(NormalId(group, graph), LowMatch(Some(port), None), Normal, HIGH_PRIORITY)
  }

  /** Whatever comes in at the port is flooded, before any other rule. */
  ghost predicate Floods(l: LowRule, port: nat) {
    && l.pattern.inPort == Some(port) && l.pattern.fields == None
    && l.action == Normal && l.priority == 65535
  }

  // ----- a graph joins and leaves a group -----

  function Join(gs: Groups, graph: string, group: string, link: VLink): Groups {
    var lsi := if gs.Created(group) && group in gs.lsis then gs.lsis[group] else GroupLsi([], []);
    Groups(
      gs.created[group := true],
      gs.timesUsed[group := if gs.Created(group) then gs.Times(group) + 1 else 1],
      gs.connections[group := gs.Ports(group)[graph := link.remoteId]],
      gs.lsis[group := GroupLsi(lsi.links + [link], lsi.rules + [NormalRule(group, graph, link.localId)])])
  }

  /** The position of the first link that ends at this port of LSI-0, the length if there is none. */
  function LinkAt(links: seq<VLink>, port: nat): (p: nat)
    ensures p <= |links| && (p < |links| ==> links[p].remoteId == port)
    ensures forall j :: 0 <= j < p ==> links[j].remoteId != port
  {
    if links == [] || links[0].remoteId == port then 0 else 1 + LinkAt(links[1..], port)
  }

  /** None where the source fails an assertion or reads past the end. */
  function Leave(gs: Groups, graph: string, group: string): Option<Groups> {
    if group !in gs.lsis || |gs.lsis[group].links| != gs.Times(group) || gs.Times(group) == 0 then None
    else if gs.Times(group) == 1 then
      if group !in gs.connections then None
      else Some(Groups(gs.created[group := false], gs.timesUsed[group := 0], gs.connections - {group},
                       gs.lsis - {group}))
    else
      var lsi := gs.lsis[group];
      if graph !in gs.Ports(group) then None
      else
        var i := LinkAt(lsi.links, gs.Ports(group)[graph]);
        if i == |lsi.links| then None
        else
          var lsi' := GroupLsi(Without(lsi.links, lsi.links[i].id),
              LowGraph.WithoutId(lsi.rules, NormalId(group, graph)));
          Some(Groups(gs.created, gs.timesUsed[group := gs.Times(group) - 1],
                      gs.connections[group := gs.Ports(group) - {graph}], gs.lsis[group := lsi']))
  }

  // ----- what the counter, the connections, the links and the rules agree on -----

  predicate Distinct(users: seq<string>) {
    forall i, j :: 0 <= i < j < |users| ==> users[i] != users[j]
  }

  /** `users` are the graphs in the group, in the order they joined. */
  ghost predicate Agrees(gs: Groups, group: string, users: seq<string>) {
    && Distinct(users)
    && (gs.Created(group) <==> users != []) && gs.Times(group) == |users|
    && (group in gs.connections <==> users != []) && (group in gs.lsis <==> users != [])
    && (forall g :: g in gs.Ports(group) <==> g in users)
    && (users != [] ==> Wired(gs.lsis[group], group, users, gs.Ports(group)))
  }

  /** One link and one rule per user: the link ends at the user's connection, the rule floods it. */
  ghost predicate Wired(lsi: GroupLsi, group: string, users: seq<string>, ports: map<string, nat>) {
    && |lsi.links| == |users| && |lsi.rules| == |users|
    && (forall i :: 0 <= i < |users| ==> users[i] in ports && lsi.links[i].remoteId == ports[users[i]])
    && (forall i :: 0 <= i < |users| ==> lsi.rules[i] == NormalRule(group, users[i], lsi.links[i].localId))
    && (forall i, j :: 0 <= i < j < |users| ==>
         lsi.links[i].id != lsi.links[j].id && lsi.links[i].remoteId != lsi.links[j].remoteId)
  }

  /** The new link differs from those of the group. */
  ghost predicate FreshLink(gs: Groups, group: string, link: VLink) {
    group in gs.lsis ==> forall i :: 0 <= i < |gs.lsis[group].links| ==>
      gs.lsis[group].links[i].id != link.id && gs.lsis[group].links[i].remoteId != link.remoteId
  }

  lemma JoinAgrees(gs: Groups, graph: string, group: string, link: VLink, users: seq<string>)
    requires Agrees(gs, group, users) && FreshLink(gs, group, link) && graph !in users
    ensures Agrees(Join(gs, graph, group, link), group, users + [graph])
  {
    JoinWired(gs, graph, group, link, users);
  }

  lemma JoinWired(gs: Groups, graph: string, group: string, link: VLink, users: seq<string>)
    requires Agrees(gs, group, users) && FreshLink(gs, group, link) && graph !in users
    ensures Wired(Join(gs, graph, group, link).lsis[group], group, users + [graph],
                  Join(gs, graph, group, link).Ports(group))
  {
  }

  lemma JoinOthers(gs: Groups, graph: string, group: string, link: VLink, other: string, users: seq<string>)
    requires other != group
    ensures Agrees(Join(gs, graph, group, link), other, users) <==> Agrees(gs, other, users)
  {
    var gs' := Join(gs, graph, group, link);
    assert gs'.Ports(other) == gs.Ports(other);
    assert other in gs.lsis <==> other in gs'.lsis;
  }

  /** A graph with two endpoints in one group breaks the agreement: the counter and the links grow,
      the connections do not. */
  lemma JoinTwice(gs: Groups, graph: string, group: string, link: VLink, users: seq<string>, users': seq<string>)
    requires Agrees(gs, group, users) && graph in users
    ensures !Agrees(Join(gs, graph, group, link), group, users')
  {
    var gs' := Join(gs, graph, group, link);
    if Agrees(gs', group, users') {
      forall g ensures g in users <==> g in users' {
        assert g in gs'.Ports(group) <==> g in users';
      }
      SameUsers(users, users');
    }
  }

  lemma SameUsers(a: seq<string>, b: seq<string>)
    requires Distinct(a) && Distinct(b) && forall g :: g in a <==> g in b
    ensures |a| == |b|
  {
    DistinctSize(a);
    DistinctSize(b);
    assert (set g | g in a) == (set g | g in b);
  }

  lemma {:induction false} DistinctSize(a: seq<string>)
    requires Distinct(a)
    ensures |set g | g in a| == |a|
  {
    if a != [] {
      var most, last := a[..|a| - 1], a[|a| - 1];
      DistinctSize(most);
      assert (set g | g in a) == (set g | g in most) + {last};
    }
  }

  // ----- leaving -----

  lemma NormalIdInjective(group: string, a: string, b: string)
    requires NormalId(group, a) == NormalId(group, b)
    ensures a == b
  {
    var prefix := "INTERNAL-GRAPH-" + group + "_";
    assert (prefix + a)[|prefix|..] == a && (prefix + b)[|prefix|..] == b;
  }

  /** The search by port finds the user's link and the search by id finds its rule. */
  lemma LeaveFinds(lsi: GroupLsi, group: string, users: seq<string>, ports: map<string, nat>, i: nat)
    requires Wired(lsi, group, users, ports) && Distinct(users) && i < |users|
    ensures LinkAt(lsi.links, ports[users[i]]) == i
    ensures Without(lsi.links, lsi.links[i].id) == Erase(lsi.links, i)
    ensures LowGraph.WithoutId(lsi.rules, NormalId(group, users[i])) == Erase(lsi.rules, i)
  {
    var p := LinkAt(lsi.links, ports[users[i]]);
    assert p <= i;
    WithoutAt(lsi.links, lsi.links[i].id, i);
    var r := LowGraph.Index(lsi.rules, NormalId(group, users[i]));
    assert lsi.rules[i].id == NormalId(group, users[i]);
    assert r <= i;
    NormalIdInjective(group, users[r], users[i]);
  }

  lemma LeftWired(lsi: GroupLsi, group: string, users: seq<string>, ports: map<string, nat>, i: nat)
    requires Wired(lsi, group, users, ports) && Distinct(users) && i < |users|
    ensures Distinct(Erase(users, i))
    ensures Wired(GroupLsi(Erase(lsi.links, i), Erase(lsi.rules, i)), group, Erase(users, i), ports - {users[i]})
  {
    var users', links', rules' := Erase(users, i), Erase(lsi.links, i), Erase(lsi.rules, i);
    EraseAt(users, i);
    EraseAt(lsi.links, i);
    EraseAt(lsi.rules, i);
    forall j, k | 0 <= j < k < |users'|
      ensures users'[j] != users'[k] && links'[j].id != links'[k].id && links'[j].remoteId != links'[k].remoteId
    {
    }
  }

  lemma LeftMembers(users: seq<string>, i: nat, g: string)
    requires Distinct(users) && i < |users|
    ensures g in Erase(users, i) <==> g in users && g != users[i]
  {
    EraseMember(users, i, g);
  }

  /** The group without one of several users. */
  ghost function Left(gs: Groups, group: string, users: seq<string>, i: nat): Groups
    requires Agrees(gs, group, users) && i < |users|
  {
    var lsi := gs.lsis[group];
    Groups(gs.created, gs.timesUsed[group := |users| - 1], gs.connections[group := gs.Ports(group) - {users[i]}],
           gs.lsis[group := GroupLsi(Erase(lsi.links, i), Erase(lsi.rules, i))])
  }

  lemma LeaveIsLeft(gs: Groups, group: string, users: seq<string>, i: nat)
    requires Agrees(gs, group, users) && i < |users| && |users| > 1
    ensures Leave(gs, users[i], group) == Some(Left(gs, group, users, i))
  {
    LeaveFinds(gs.lsis[group], group, users, gs.Ports(group), i);
  }

  lemma LeftAgrees(gs: Groups, group: string, users: seq<string>, i: nat)
    requires Agrees(gs, group, users) && i < |users| && |users| > 1
    ensures Agrees(Left(gs, group, users, i), group, Erase(users, i))
  {
    LeftWired(gs.lsis[group], group, users, gs.Ports(group), i);
    forall g {
      LeftMembers(users, i, g);
    }
  }

  /** Leaving passes every assertion, frees the group exactly when the last user leaves, and undoes
      the graph's link, connection and rule. */
  lemma LeaveAgrees(gs: Groups, group: string, users: seq<string>, i: nat)
    requires Agrees(gs, group, users) && i < |users|
    ensures Leave(gs, users[i], group).Some? && Agrees(Leave(gs, users[i], group).value, group, Erase(users, i))
  {
    if |users| == 1 {
      assert Erase(users, i) == [];
    } else {
      LeaveIsLeft(gs, group, users, i);
      LeftAgrees(gs, group, users, i);
    }
  }

  lemma LeaveOthers(gs: Groups, graph: string, group: string, other: string, users: seq<string>)
    requires other != group && Leave(gs, graph, group).Some?
    ensures Agrees(Leave(gs, graph, group).value, other, users) <==> Agrees(gs, other, users)
  {
    var gs' := Leave(gs, graph, group).value;
    assert gs'.Ports(other) == gs.Ports(other);
    assert other in gs.lsis <==> other in gs'.lsis;
  }

  /** Leaving right after joining restores the connections, the links, the rules and the count. */
  lemma LeaveUndoesJoin(gs: Groups, graph: string, group: string, link: VLink, users: seq<string>)
    requires Agrees(gs, group, users) && FreshLink(gs, group, link) && graph !in users
    ensures var gs' := Leave(Join(gs, graph, group, link), graph, group);
      && gs'.Some? && gs'.value.connections == gs.connections && gs'.value.lsis == gs.lsis
      && gs'.value.Created(group) == gs.Created(group) && gs'.value.Times(group) == gs.Times(group)
  {
    if users == [] {
      LeaveUndoesFirst(gs, graph, group, link);
    } else {
      JoinAgrees(gs, graph, group, link, users);
      LeaveUndoesLater(gs, graph, group, link, users);
    }
  }

  lemma LeaveUndoesFirst(gs: Groups, graph: string, group: string, link: VLink)
    requires !gs.Created(group) && gs.Times(group) == 0 && group !in gs.connections && group !in gs.lsis
    ensures var gs' := Leave(Join(gs, graph, group, link), graph, group);
      && gs'.Some? && gs'.value.connections == gs.connections && gs'.value.lsis == gs.lsis
      && !gs'.value.Created(group) && gs'.value.Times(group) == 0
  {
  }

  lemma Restored<V>(m: map<string, V>, key: string, v: V, w: V)
    requires key in m && w == m[key]
    ensures m[key := v][key := w] == m
  {
  }

  lemma LeaveUndoesLater(gs: Groups, graph: string, group: string, link: VLink, users: seq<string>)
    requires gs.Created(group) && gs.Times(group) == |users| > 0 && group in gs.connections && group in gs.lsis
    requires graph !in gs.Ports(group)
    requires |gs.lsis[group].links| == |gs.lsis[group].rules| == |users| && Distinct(users + [graph])
    requires Wired(Join(gs, graph, group, link).lsis[group], group, users + [graph],
                   Join(gs, graph, group, link).Ports(group))
    ensures var gs' := Leave(Join(gs, graph, group, link), graph, group);
      && gs'.Some? && gs'.value.connections == gs.connections && gs'.value.lsis == gs.lsis
      && gs'.value.Created(group) && gs'.value.Times(group) == |users|
  {
    var joined := Join(gs, graph, group, link);
    LeaveFinds(joined.lsis[group], group, users + [graph], joined.Ports(group), |users|);
    var gs' := Leave(joined, graph, group);
    EraseLast(gs.lsis[group].links, link);
    EraseLast(gs.lsis[group].rules, NormalRule(group, graph, link.localId));
    var ports := joined.Ports(group) - {graph};
    assert ports == gs.connections[group];
    Restored(gs.connections, group, joined.Ports(group), ports);
    Restored(gs.lsis, group, joined.lsis[group], gs.lsis[group]);
  }

  lemma EraseLast<T>(s: seq<T>, x: T)
    ensures Erase(s + [x], |s|) == s
  {
  }

  // ----- all the groups of a graph, over every run -----

  /** `members` gives each deployed graph the groups of its internal endpoints. */
  ghost predicate UsersAre(users: seq<string>, members: map<string, seq<string>>, group: string) {
    forall g :: g in users <==> g in members && group in members[g]
  }

  /** Counter, connections, links and rules of the group all agree with the graphs using it. */
  ghost predicate Counted(gs: Groups, members: map<string, seq<string>>, group: string) {
    exists users :: Agrees(gs, group, users) && UsersAre(users, members, group)
  }

  ghost predicate AllCounted(gs: Groups, members: map<string, seq<string>>) {
    forall group :: Counted(gs, members, group)
  }

  lemma NoneCounted()
    ensures AllCounted(NO_GROUPS, map[])
  {
    forall group
      ensures Counted(NO_GROUPS, map[], group)
    {
      assert Agrees(NO_GROUPS, group, []) && UsersAre([], map[], group);
    }
  }

  /** What the invariant says in numbers. */
  lemma CountedSays(gs: Groups, members: map<string, seq<string>>, group: string)
    requires Counted(gs, members, group)
    ensures var users := set g | g in members && group in members[g];
      && gs.Times(group) == |users| && gs.Ports(group).Keys == users && (gs.Created(group) <==> users != {})
      && (users != {} ==> group in gs.lsis && |gs.lsis[group].links| == |users| && |gs.lsis[group].rules| == |users|)
  {
    var order :| Agrees(gs, group, order) && UsersAre(order, members, group);
    UserSet(order, members, group);
    AgreesSays(gs, group, order, set g | g in members && group in members[g]);
  }

  /** The graph's link to the internal LSI, and the rule for what comes over it, are number `i` there. */
  ghost predicate FloodedAt(gs: Groups, group: string, g: string, i: nat) {
    && group in gs.lsis && i < |gs.lsis[group].links| && i < |gs.lsis[group].rules|
    && group in gs.connections && g in gs.connections[group]
    && gs.lsis[group].links[i].remoteId == gs.connections[group][g]
    && Floods(gs.lsis[group].rules[i], gs.lsis[group].links[i].localId)
    && gs.lsis[group].rules[i].id == "INTERNAL-GRAPH-" + group + "_" + g
  }

  ghost predicate UserAt(gs: Groups, members: map<string, seq<string>>, group: string, i: nat) {
    exists g :: g in members && group in members[g] && FloodedAt(gs, group, g, i)
  }

  lemma AgreesFloods(gs: Groups, group: string, users: seq<string>, i: nat)
    requires Agrees(gs, group, users) && i < |users|
    ensures FloodedAt(gs, group, users[i], i)
  {
  }

  /** Each user of a group has a link to the internal LSI that ends at its connection, and what comes over it
      is flooded there. */
  lemma UserFloods(gs: Groups, members: map<string, seq<string>>, group: string, g: string)
    requires Counted(gs, members, group) && g in members && group in members[g]
    ensures exists i :: FloodedAt(gs, group, g, i)
  {
    var users :| Agrees(gs, group, users) && UsersAre(users, members, group);
    assert g in users;
    var i :| 0 <= i < |users| && users[i] == g;
    AgreesFloods(gs, group, users, i);
  }

  /** And every rule of the internal LSI is there for some user. */
  lemma RuleOfUser(gs: Groups, members: map<string, seq<string>>, group: string, i: nat)
    requires Counted(gs, members, group) && group in gs.lsis && i < |gs.lsis[group].rules|
    ensures UserAt(gs, members, group, i)
  {
    var users :| Agrees(gs, group, users) && UsersAre(users, members, group);
    AgreesFloods(gs, group, users, i);
    assert users[i] in users;
  }

  lemma UserSet(order: seq<string>, members: map<string, seq<string>>, group: string)
    requires Distinct(order) && UsersAre(order, members, group)
    ensures var users := set g | g in members && group in members[g];
      |users| == |order| && forall g :: g in users <==> g in order
  {
    DistinctSize(order);
    assert (set g | g in order) == (set g | g in members && group in members[g]);
  }

  lemma AgreesSays(gs: Groups, group: string, order: seq<string>, users: set<string>)
    requires Agrees(gs, group, order) && |users| == |order| && forall g :: g in users <==> g in order
    ensures gs.Times(group) == |users| && gs.Ports(group).Keys == users && (gs.Created(group) <==> users != {})
    ensures users != {} ==> group in gs.lsis && |gs.lsis[group].links| == |users| && |gs.lsis[group].rules| == |users|
  {
    assert users == {} <==> order == [];
  }

  lemma UsersJoined(users: seq<string>, members: map<string, seq<string>>, graph: string, groups: seq<string>,
      group: string)
    requires UsersAre(users, members[graph := groups], group) && group !in groups
    ensures graph !in users && UsersAre(users + [graph], members[graph := groups + [group]], group)
  {
  }

  lemma UsersLeft(users: seq<string>, i: nat, members: map<string, seq<string>>, groups: seq<string>)
    requires Distinct(users) && i < |users| && groups != [] && Distinct(groups)
    requires UsersAre(users, members[users[i] := groups], groups[0])
    ensures UsersAre(Erase(users, i), members[users[i] := groups[1..]], groups[0])
  {
    forall g {
      LeftMembers(users, i, g);
    }
  }

  lemma JoinCountsGroup(gs: Groups, members: map<string, seq<string>>, graph: string, groups: seq<string>,
      group: string, link: VLink)
    requires Counted(gs, members[graph := groups], group) && group !in groups && FreshLink(gs, group, link)
    ensures Counted(Join(gs, graph, group, link), members[graph := groups + [group]], group)
  {
    var was := members[graph := groups];
    var users :| Agrees(gs, group, users) && UsersAre(users, was, group);
    UsersJoined(users, members, graph, groups, group);
    JoinAgrees(gs, graph, group, link, users);
  }

  lemma JoinCountsOther(gs: Groups, members: map<string, seq<string>>, graph: string, groups: seq<string>,
      group: string, link: VLink, other: string)
    requires Counted(gs, members[graph := groups], other) && other != group
    ensures Counted(Join(gs, graph, group, link), members[graph := groups + [group]], other)
  {
    var was, now := members[graph := groups], members[graph := groups + [group]];
    var users :| Agrees(gs, other, users) && UsersAre(users, was, other);
    JoinOthers(gs, graph, group, link, other, users);
    assert UsersAre(users, now, other);
  }

  lemma JoinCounts(gs: Groups, members: map<string, seq<string>>, graph: string, groups: seq<string>, group: string,
      link: VLink)
    requires AllCounted(gs, members[graph := groups]) && group !in groups && FreshLink(gs, group, link)
    ensures AllCounted(Join(gs, graph, group, link), members[graph := groups + [group]])
  {
    var was, now := members[graph := groups], members[graph := groups + [group]];
    var gs' := Join(gs, graph, group, link);
    forall other
      ensures Counted(gs', now, other)
    {
      assert Counted(gs, was, other);
      if other == group {
        JoinCountsGroup(gs, members, graph, groups, group, link);
      } else {
        JoinCountsOther(gs, members, graph, groups, group, link, other);
      }
    }
  }

  function JoinAll(gs: Groups, graph: string, groups: seq<string>, links: seq<VLink>): Groups
    requires |links| == |groups|
  {
    if groups == [] then gs
    else
      var n := |groups| - 1;
      Join(JoinAll(gs, graph, groups[..n], links[..n]), graph, groups[n], links[n])
  }

  lemma {:induction false} JoinAllUntouched(gs: Groups, graph: string, groups: seq<string>, links: seq<VLink>,
      group: string)
    requires |links| == |groups| && group !in groups
    ensures var gs' := JoinAll(gs, graph, groups, links);
      (group in gs'.lsis <==> group in gs.lsis) && (group in gs.lsis ==> gs'.lsis[group] == gs.lsis[group])
  {
    if groups != [] {
      var n := |groups| - 1;
      JoinAllUntouched(gs, graph, groups[..n], links[..n], group);
    }
  }

  /** The graph has joined the group over this link: its connection is the link's end at LSI-0, and the link
      and the rule that floods what comes over it are the last of the internal LSI. */
  ghost predicate JoinedOver(gs: Groups, graph: string, group: string, link: VLink) {
    && group in gs.connections && graph in gs.connections[group] && gs.connections[group][graph] == link.remoteId
    && group in gs.lsis && gs.lsis[group].links != [] && gs.lsis[group].rules != []
    && gs.lsis[group].links[|gs.lsis[group].links| - 1] == link
    && Floods(gs.lsis[group].rules[|gs.lsis[group].rules| - 1], link.localId)
  }

  lemma {:induction false} JoinAllJoins(gs: Groups, graph: string, groups: seq<string>, links: seq<VLink>, i: nat)
    requires |links| == |groups| && Distinct(groups) && i < |groups|
    ensures JoinedOver(JoinAll(gs, graph, groups, links), graph, groups[i], links[i])
  {
    var n := |groups| - 1;
    if i < n {
      JoinAllJoins(gs, graph, groups[..n], links[..n], i);
    }
  }

  lemma {:induction false} JoinAllCounts(gs: Groups, members: map<string, seq<string>>, graph: string,
      groups: seq<string>, links: seq<VLink>)
    requires AllCounted(gs, members) && graph !in members && Distinct(groups) && |links| == |groups|
    requires forall i :: 0 <= i < |groups| ==> FreshLink(gs, groups[i], links[i])
    ensures AllCounted(JoinAll(gs, graph, groups, links), members[graph := groups])
  {
    if groups == [] {
      NoGroupsCounts(gs, members, graph);
    } else {
      var n := |groups| - 1;
      JoinAllCounts(gs, members, graph, groups[..n], links[..n]);
      JoinAllUntouched(gs, graph, groups[..n], links[..n], groups[n]);
      JoinCounts(JoinAll(gs, graph, groups[..n], links[..n]), members, graph, groups[..n], groups[n], links[n]);
      assert groups[..n] + [groups[n]] == groups;
    }
  }

  /** A graph without internal endpoints makes no difference. */
  lemma NoGroupsCounts(gs: Groups, members: map<string, seq<string>>, graph: string)
    ensures graph !in members && AllCounted(gs, members) ==> AllCounted(gs, members[graph := []])
    ensures AllCounted(gs, members[graph := []]) ==> AllCounted(gs, members - {graph})
  {
    var none, gone := members[graph := []], members - {graph};
    if graph !in members && AllCounted(gs, members) {
      forall group
        ensures Counted(gs, none, group)
      {
        assert Counted(gs, members, group);
        var users :| Agrees(gs, group, users) && UsersAre(users, members, group);
        assert UsersAre(users, none, group);
      }
    }
    if AllCounted(gs, none) {
      forall group
        ensures Counted(gs, gone, group)
      {
        assert Counted(gs, none, group);
        var users :| Agrees(gs, group, users) && UsersAre(users, none, group);
        assert UsersAre(users, gone, group);
      }
    }
  }

  function LeaveAll(gs: Groups, graph: string, groups: seq<string>): Option<Groups>
    decreases groups
  {
    if groups == [] then Some(gs)
    else
      var left := Leave(gs, graph, groups[0]);
      if left.None? then None else LeaveAll(left.value, graph, groups[1..])
  }

  lemma LeaveCountsGroup(gs: Groups, members: map<string, seq<string>>, graph: string, groups: seq<string>)
    requires groups != [] && Distinct(groups) && Counted(gs, members[graph := groups], groups[0])
    ensures Leave(gs, graph, groups[0]).Some?
    ensures Counted(Leave(gs, graph, groups[0]).value, members[graph := groups[1..]], groups[0])
  {
    var was, group := members[graph := groups], groups[0];
    var users :| Agrees(gs, group, users) && UsersAre(users, was, group);
    assert graph in users;
    var i :| 0 <= i < |users| && users[i] == graph;
    UsersLeft(users, i, members, groups);
    LeaveAgrees(gs, group, users, i);
  }

  lemma LeaveCountsOther(gs: Groups, members: map<string, seq<string>>, graph: string, groups: seq<string>,
      other: string)
    requires groups != [] && other != groups[0] && Counted(gs, members[graph := groups], other)
    requires Leave(gs, graph, groups[0]).Some?
    ensures Counted(Leave(gs, graph, groups[0]).value, members[graph := groups[1..]], other)
  {
    var was, now := members[graph := groups], members[graph := groups[1..]];
    var users :| Agrees(gs, other, users) && UsersAre(users, was, other);
    LeaveOthers(gs, graph, groups[0], other, users);
    assert UsersAre(users, now, other);
  }

  lemma LeaveCounts(gs: Groups, members: map<string, seq<string>>, graph: string, groups: seq<string>)
    requires groups != [] && Distinct(groups) && AllCounted(gs, members[graph := groups])
    ensures Leave(gs, graph, groups[0]).Some?
    ensures AllCounted(Leave(gs, graph, groups[0]).value, members[graph := groups[1..]])
  {
    var was, now := members[graph := groups], members[graph := groups[1..]];
    assert Counted(gs, was, groups[0]);
    LeaveCountsGroup(gs, members, graph, groups);
    var gs' := Leave(gs, graph, groups[0]).value;
    forall other
      ensures Counted(gs', now, other)
    {
      if other != groups[0] {
        assert Counted(gs, was, other);
        LeaveCountsOther(gs, members, graph, groups, other);
      }
    }
  }

  /** Deleting a graph passes every assertion on its groups and keeps the agreement. */
  lemma {:induction false} LeaveAllCounts(gs: Groups, members: map<string, seq<string>>, graph: string,
      groups: seq<string>)
    requires Distinct(groups) && AllCounted(gs, members[graph := groups])
    ensures LeaveAll(gs, graph, groups).Some? && AllCounted(LeaveAll(gs, graph, groups).value, members - {graph})
    decreases groups
  {
    if groups == [] {
      NoGroupsCounts(gs, members, graph);
    } else {
      LeaveCounts(gs, members, graph, groups);
      LeaveAllCounts(Leave(gs, graph, groups[0]).value, members, graph, groups[1..]);
    }
  }

  /** An update leaves the groups alone, whatever internal endpoints the new version has: the counts
      stay right exactly when the new version uses the same groups. */
  lemma UpdateCounts(gs: Groups, members: map<string, seq<string>>, graph: string, groups: seq<string>)
    requires AllCounted(gs, members) && graph in members
    ensures AllCounted(gs, members[graph := groups]) <==> forall group :: group in groups <==> group in members[graph]
  {
    var now := members[graph := groups];
    if AllCounted(gs, now) {
      forall group
        ensures group in groups <==> group in members[graph]
      {
        assert Counted(gs, now, group) && Counted(gs, members, group);
        var users :| Agrees(gs, group, users) && UsersAre(users, members, group);
        var users' :| Agrees(gs, group, users') && UsersAre(users', now, group);
        assert graph in users <==> graph in gs.Ports(group);
      }
    }
    if forall group :: group in groups <==> group in members[graph] {
      forall group
        ensures Counted(gs, now, group)
      {
        assert Counted(gs, members, group);
        var users :| Agrees(gs, group, users) && UsersAre(users, members, group);
        assert UsersAre(users, now, group);
      }
    }
  }

  // ----- the connections of other graphs -----

  lemma {:induction false} JoinAllSame(gs: Groups, graph: string, groups: seq<string>, links: seq<VLink>, group: string,
      other: string)
    requires |links| == |groups| && other != graph
    ensures SameConnection(gs.connections, JoinAll(gs, graph, groups, links).connections, group, other)
  {
    if groups != [] {
      var n := |groups| - 1;
      JoinAllSame(gs, graph, groups[..n], links[..n], group, other);
    }
  }

  /** The graph is connected to each of its groups, at the port of its new link. */
  lemma {:induction false} JoinAllConnects(gs: Groups, graph: string, groups: seq<string>, links: seq<VLink>, i: nat)
    requires |links| == |groups| && i < |groups| && Distinct(groups)
    ensures var connections := JoinAll(gs, graph, groups, links).connections;
      groups[i] in connections && graph in connections[groups[i]] && connections[groups[i]][graph] == links[i].remoteId
  {
    var n := |groups| - 1;
    if i < n {
      JoinAllConnects(gs, graph, groups[..n], links[..n], i);
    }
  }

  lemma LeaveSame(gs: Groups, graph: string, group: string, users: seq<string>, other: string, grp: string)
    requires Agrees(gs, group, users) && graph in users && other != graph && Leave(gs, graph, group).Some?
    ensures SameConnection(gs.connections, Leave(gs, graph, group).value.connections, grp, other)
  {
    if grp == group && |users| == 1 {
      assert users[0] == graph;
      assert other !in users;
    }
  }

  lemma {:induction false} LeaveAllSame(gs: Groups, members: map<string, seq<string>>, graph: string,
      groups: seq<string>, other: string, grp: string)
    requires Distinct(groups) && AllCounted(gs, members[graph := groups]) && other != graph
    ensures LeaveAll(gs, graph, groups).Some?
    ensures SameConnection(gs.connections, LeaveAll(gs, graph, groups).value.connections, grp, other)
    decreases groups
  {
    if groups != [] {
      LeaveCounts(gs, members, graph, groups);
      var was := members[graph := groups];
      assert Counted(gs, was, groups[0]);
      var users :| Agrees(gs, groups[0], users) && UsersAre(users, was, groups[0]);
      LeaveSame(gs, graph, groups[0], users, other, grp);
      LeaveAllSame(Leave(gs, graph, groups[0]).value, members, graph, groups[1..], other, grp);
    }
  }

  // ----- leaving all groups undoes joining them -----

  /** Everything the manager keeps about one group. */
  datatype View = View(created: bool, times: nat, ports: Option<map<string, nat>>, lsi: Option<GroupLsi>)

  function ViewOf(gs: Groups, group: string): View {
    View(gs.Created(group), gs.Times(group),
         if group in gs.connections then Some(gs.connections[group]) else None,
         if group in gs.lsis then Some(gs.lsis[group]) else None)
  }

  lemma JoinElsewhere(gs: Groups, graph: string, group: string, link: VLink, other: string)
    requires other != group
    ensures ViewOf(Join(gs, graph, group, link), other) == ViewOf(gs, other)
  {
  }

  lemma JoinView(gs: Groups, gs': Groups, graph: string, group: string, link: VLink)
    requires ViewOf(gs, group) == ViewOf(gs', group)
    ensures ViewOf(Join(gs, graph, group, link), group) == ViewOf(Join(gs', graph, group, link), group)
  {
  }

  lemma LeaveElsewhere(gs: Groups, graph: string, group: string, other: string)
    requires Leave(gs, graph, group).Some? && other != group
    ensures ViewOf(Leave(gs, graph, group).value, other) == ViewOf(gs, other)
  {
  }

  lemma LeaveView(gs: Groups, gs': Groups, graph: string, group: string)
    requires ViewOf(gs, group) == ViewOf(gs', group) && Leave(gs, graph, group).Some?
    ensures Leave(gs', graph, group).Some?
    ensures ViewOf(Leave(gs, graph, group).value, group) == ViewOf(Leave(gs', graph, group).value, group)
  {
    assert gs.Ports(group) == gs'.Ports(group);
  }

  lemma {:induction false} JoinAllElsewhere(gs: Groups, graph: string, groups: seq<string>, links: seq<VLink>,
      other: string)
    requires |links| == |groups| && other !in groups
    ensures ViewOf(JoinAll(gs, graph, groups, links), other) == ViewOf(gs, other)
  {
    if groups != [] {
      var n := |groups| - 1;
      JoinAllElsewhere(gs, graph, groups[..n], links[..n], other);
      JoinElsewhere(JoinAll(gs, graph, groups[..n], links[..n]), graph, groups[n], links[n], other);
    }
  }

  /** Each group sees the graph join once. */
  lemma {:induction false} JoinAllView(gs: Groups, graph: string, groups: seq<string>, links: seq<VLink>, i: nat)
    requires |links| == |groups| && Distinct(groups) && i < |groups|
    ensures ViewOf(JoinAll(gs, graph, groups, links), groups[i]) ==
      ViewOf(Join(gs, graph, groups[i], links[i]), groups[i])
  {
    var n := |groups| - 1;
    var most := JoinAll(gs, graph, groups[..n], links[..n]);
    if i < n {
      JoinAllView(gs, graph, groups[..n], links[..n], i);
      JoinElsewhere(most, graph, groups[n], links[n], groups[i]);
    } else {
      JoinAllElsewhere(gs, graph, groups[..n], links[..n], groups[n]);
      JoinView(most, gs, graph, groups[n], links[n]);
    }
  }

  lemma {:induction false} LeaveAllElsewhere(gs: Groups, graph: string, groups: seq<string>, other: string)
    requires LeaveAll(gs, graph, groups).Some? && other !in groups
    ensures ViewOf(LeaveAll(gs, graph, groups).value, other) == ViewOf(gs, other)
    decreases groups
  {
    if groups != [] {
      LeaveElsewhere(gs, graph, groups[0], other);
      LeaveAllElsewhere(Leave(gs, graph, groups[0]).value, graph, groups[1..], other);
    }
  }

  /** Each group sees the graph leave once. */
  lemma {:induction false} LeaveAllView(gs: Groups, graph: string, groups: seq<string>, i: nat)
    requires LeaveAll(gs, graph, groups).Some? && Distinct(groups) && i < |groups|
    ensures Leave(gs, graph, groups[i]).Some?
    ensures ViewOf(LeaveAll(gs, graph, groups).value, groups[i]) == ViewOf(Leave(gs, graph, groups[i]).value, groups[i])
    decreases groups
  {
    var left := Leave(gs, graph, groups[0]).value;
    if i == 0 {
      LeaveAllElsewhere(left, graph, groups[1..], groups[0]);
    } else {
      LeaveAllView(left, graph, groups[1..], i - 1);
      LeaveElsewhere(gs, graph, groups[0], groups[i]);
      LeaveView(left, gs, graph, groups[i]);
    }
  }

  lemma UndoneView(gs: Groups, graph: string, group: string, link: VLink, users: seq<string>)
    requires Agrees(gs, group, users) && FreshLink(gs, group, link) && graph !in users
    ensures var gs' := Leave(Join(gs, graph, group, link), graph, group);
      gs'.Some? && ViewOf(gs'.value, group) == ViewOf(gs, group)
  {
    LeaveUndoesJoin(gs, graph, group, link, users);
  }

  lemma GroupUndone(gs: Groups, members: map<string, seq<string>>, graph: string, groups: seq<string>,
      links: seq<VLink>, left: Groups, i: nat)
    requires |links| == |groups| && Distinct(groups) && i < |groups| && Counted(gs, members, groups[i])
    requires graph !in members
    requires FreshLink(gs, groups[i], links[i])
    requires LeaveAll(JoinAll(gs, graph, groups, links), graph, groups) == Some(left)
    ensures ViewOf(left, groups[i]) == ViewOf(gs, groups[i])
  {
    var users :| Agrees(gs, groups[i], users) && UsersAre(users, members, groups[i]);
    var joined := JoinAll(gs, graph, groups, links);
    LeaveAllView(joined, graph, groups, i);
    JoinAllView(gs, graph, groups, links, i);
    LeaveView(joined, Join(gs, graph, groups[i], links[i]), graph, groups[i]);
    UndoneView(gs, graph, groups[i], links[i], users);
  }

  /** A graph that joins its groups and leaves them again leaves no trace in any group. */
  lemma LeaveAllUndoesJoinAll(gs: Groups, members: map<string, seq<string>>, graph: string, groups: seq<string>,
      links: seq<VLink>, group: string)
    requires AllCounted(gs, members) && graph !in members && Distinct(groups) && |links| == |groups|
    requires forall i :: 0 <= i < |groups| ==> FreshLink(gs, groups[i], links[i])
    requires LeaveAll(JoinAll(gs, graph, groups, links), graph, groups).Some?
    ensures ViewOf(LeaveAll(JoinAll(gs, graph, groups, links), graph, groups).value, group) == ViewOf(gs, group)
  {
    if group in groups {
      var i :| 0 <= i < |groups| && groups[i] == group;
      assert Counted(gs, members, group);
      GroupUndone(gs, members, graph, groups, links, LeaveAll(JoinAll(gs, graph, groups, links), graph, groups).value,
                  i);
    } else {
      JoinAllElsewhere(gs, graph, groups, links, group);
      LeaveAllElsewhere(JoinAll(gs, graph, groups, links), graph, groups, group);
    }
  }
}

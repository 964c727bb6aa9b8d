# A verified model of the un-orchestrator

The un-orchestrator deploys network function forwarding graphs on one node. A graph is a "big switch":
rules that match traffic at an endpoint (a physical port, a port of a network function, a GRE tunnel, an
internal group) and send it, possibly rewritten, to another endpoint. The orchestrator compiles each graph
into the flow tables of two chained switches, LSI-0, which all graphs share, and the graph's own tenant LSI,
joined by virtual links, and keeps tables and links right while graphs are created, updated and deleted.

This project models that compiler, the link allocator and the life cycle of graphs, the OpenFlow controller
that installs the rules, the YANG tree library of the virtualizer, and four smaller stateful parts, and
proves what holds of them for every input and every run.

## Main results

* **Meaning is preserved.** For every node that satisfies the structural invariant, every packet and every
  ingress, the fates the chained tables allow are exactly those of the big switches, within two lookups
  (`Forwarding.NodeIsBigSwitch`). The condition on the rules is exact for every such node
  (`Exactness.FaithfulExactly`): it fails where a rule that can win leads from a physical port to an internal
  group and is put in neither table, or where a tunnel-to-port rule, which carries its fields and generic
  actions in both halves, drops what it rewrote or rewrites again what comes down the link.
* **Every run.** Creating, updating and deleting graphs keeps links, tables and groups in order, whatever the
  graphs share (`Runs.RunSteady`). So in every state of every run links are conserved (`Runs.RunConserves`)
  and groups count their users right (`Runs.RunCounts`). The list of LSI-0 is the exception: a deletion takes
  rules out by value, not by name. `Runs.NextOrderlyExactly` says exactly which deletions take the right ones,
  and while they do, all packets are forwarded as asked (`Runs.RunForwards`). A deleted graph leaves nothing
  behind in tenants, members and groups (`Runs.DeleteUndoesCreate`); if LSI-0 was right until then, it is again
  as before the graph came if and only if the deletion was of that kind (`Runs.DeleteUndoesListExactly`).
* **Isolation, and where it ends.** From a state in which all rules LSI-0 has at the links of a graph are
  the graph's own, nothing done with other graphs changes the fate of what its functions and tunnels send
  (`Runs.RunIsolated`). An orderly state is such a state for all its graphs (`Isolation.SaneLinksOwn`), and
  a new graph begins in such a state if and only if no rule left over in LSI-0, unless equal to one of its
  own, matches on a port of its new links (`Isolation.NewLinksOwnExactly`). Otherwise isolation can fail: a
  run from an empty node makes the packets of a graph go elsewhere, and operations on another graph change
  that again (`Diversion.DiversionExample`). Other graphs can change the rules at a graph's links if and
  only if one of these has a name that is not in use by the graph and could be in use by another
  (`Leftovers.LinkRulesExactly`).
* **Incremental update refines recompilation** (`Updates.UpdatedSane`). The update compares rules by id only,
  so a rule that reuses an id with a new body is silently ignored; the exact condition under which the new
  version is reached is `RuleDiff.UpdateReachesTarget`.
* **End to end.** With requests, controllers and switches that connect, disconnect and change while away
  running side by side, the flow tables themselves give every packet the fate the big switches give it, in
  every state of every run (`Datapath.RunDelivers`), as long as each step meets a condition that is exact
  (`Datapath.MoveSyncedExactly`). Deleting a graph while another has the same port-to-port rule does not: it
  takes the other's flow (`Datapath.DeleteAgreesExactly`, `Datapath.SharedWireLost`).
* **Controller, trees, paths.** Exact conditions under which the datapath agrees with the rules wanted
  (`Controller.InstallExactly`, `Controller.RemoveExactly`, `Controller.RemoveIdExactly`), under which
  patching a tree with its diff gives the target (`Yang.PatchRoundTrip`), and under which absolute and
  relative paths lead back to the node they were made for (`YangPath.WalkAbsolute`,
  `YangRelative.WalkRelative`). What a diff marks, and where any path leads, is said without the code
  (`YangMarks.DiffMarksExactly`, `YangPath.WalkExactly`, `YangPath.ParseItemExactly`).

## How to read it

Source files that update state step by step are modelled by classes and loops, each proved against a
function on values; the properties are lemmas about those functions. The call order in the graph manager
follows the source: links and ports first, then old rules out, then new rules in.

| module | models |
|---|---|
| `Names`, `HighLevel`, `FlowTable`, `Options`, `Seqs` | names, graphs, flow tables (section 5.3 of the OpenFlow Switch Specification 1.3; ties at equal priority stay open) |
| `Lsis`, `Translator` | the LSI and the rule compiler |
| `Forwarding`, `Exactness`, `Isolation` | what the chained tables do, against the big switches |
| `Traces` | runs of any system, and what every step keeps |
| `Vlinks`, `VlinkUpdate`, `VlinkRemoval`, `UpdateLinks` | link analysis, allocation, incremental addition and removal |
| `RuleDiff`, `LowGraph` | the two lists of rules and their differences |
| `Lifecycle`, `Updates`, `UpdatePlan`, `InternalGroups`, `Manager`, `GraphManager`, `Runs` | the graph manager and its runs |
| `Leftovers`, `Diversion` | rules that outlive their graph in LSI-0 |
| `Controller`, `Datapath` | the OpenFlow controller, and manager, controllers and switches together |
| `Yang`, `YangMarks`, `Texts`, `YangPath`, `YangRelative` | the tree library |
| `CoreMask`, `NfRound`, `PubSub`, `Hotplug` | core masks, data plane rounds, the publish queue, ports plugged into running functions |

Conventions. The match fields a rule copies to both levels are one token, and packets are byte strings;
what fields accept and what generic actions do is a parameter (`Semantics`) over which every forwarding
result is quantified. The four vlink maps of an LSI are one map keyed by kind and name. The switch manager
is an oracle: its answers are parameters, and what it owes (ports not in use) is stated as distinctness of
the ports of the resulting node. The datapath is a table keyed by match and priority.

What the code relies on without enforcing it is stated as a precondition: `<graph>_<rule>` names of LSI-0
tell rules apart (`Names.RuleNameClash` says when they cannot clash), a graph has one endpoint per internal
group, an update leaves the internal endpoints alone, and no function or tunnel that a rule of the new
version uses is removed.

## Model

| member | source | states |
|---|---|---|
| Names.NfPortNameInjective | orchestrator/node_resource_manager/graph_manager/lsi.cc:7-13 | the name of a function's port determines the function and the port number, for all ids (even ids that contain the separator) |
| Names.RuleNameClash | orchestrator/node_resource_manager/graph_manager/graph_manager.cc:2087-2088 | rules of two graphs share a name in LSI-0 only if one graph id extends the other through the separator |
| Names.RuleNamesOverlap | orchestrator/node_resource_manager/graph_manager/graph_translator.cc:97-98 | and then they can: the failing case for every such pair of ids |
| Names.DecimalIsNumber | orchestrator/node_resource_manager/graph_manager/lsi.cc:7-13 | a port number is written as the decimal digits that stand for it, without leading zeros |
| HighLevel.ApplyInOrder | orchestrator/node_resource_manager/graph/low_level_graph/output_action.cc:37-42 | generic actions are applied in the order of the list: first those of the beginning, then those of the rest |
| HighLevel.ApplyOne | orchestrator/node_resource_manager/graph/low_level_graph/output_action.cc:37-42 | and each as the switch understands it |
| HighLevel.ApplyStages | orchestrator/node_resource_manager/graph/low_level_graph/output_action.cc:37-42 | so the outcome is the last of the stages in which each action sees what the one before it left |
| Lsis.Lsi.GetVirtualLink | orchestrator/node_resource_manager/graph_manager/lsi.cc:267-279 | the scan returns the first link with the id, and misses exactly if there is none |
| Lsis.Lsi.RemoveVlink | orchestrator/node_resource_manager/graph_manager/lsi.cc:443-456 | erases the first link with the id |
| Lsis.WithoutKeepsRest | orchestrator/node_resource_manager/graph_manager/lsi.cc:443-456 | with unique ids, erasing takes exactly that link and ids stay unique |
| Translator.LowerToLsi0FailsExactly | orchestrator/node_resource_manager/graph_manager/graph_translator.cc:5-460 | the LSI-0 translation rejects a rule if and only if it leads from an internal group back to LSI-0, names a physical port that is not there, or crosses without its link; a tunnel-to-port rule never given a link passes |
| Translator.LowerToTenantFailsExactly | orchestrator/node_resource_manager/graph_manager/graph_translator.cc:462-944 | the tenant translation rejects a rule if and only if it leads from tunnel to tunnel, names a function port that is not there, or crosses without its link |
| Translator.UnknownGroup | orchestrator/node_resource_manager/graph_manager/graph_translator.cc:298-405 | a group the graph has not joined is not noticed: the rule matches on port 0 |
| Translator.UnknownTunnel | orchestrator/node_resource_manager/graph_manager/graph_translator.cc:462-944 | nor is a tunnel that is not there |
| Translator.LowerGraph | orchestrator/node_resource_manager/graph_manager/graph_translator.cc:18-46 | a translation emits one rule per rule that has a half there, in order, or stops at the first rule it rejects |
| Translator.LoweredInOrder | orchestrator/node_resource_manager/graph_manager/graph_translator.cc:18-46 | the rules emitted keep the order of the rules |
| Translator.LowerGraphToLsi0 | orchestrator/node_resource_manager/graph_manager/graph_translator.cc:5-460 | the LSI-0 table of a graph, and that it succeeds exactly if no rule is rejected |
| Translator.LowerGraphToTenant | orchestrator/node_resource_manager/graph_manager/graph_translator.cc:462-944 | the tenant table of a graph, and that it succeeds exactly if no rule is rejected |
| Translator.LoweredUnique | orchestrator/node_resource_manager/graph_manager/graph_translator.cc:97-100 | rules of distinct ids become rules of distinct ids |
| Forwarding.Half0Shape | orchestrator/node_resource_manager/graph_manager/graph_translator.cc:5-460 | which rules have an LSI-0 half, and where it matches, sends, keeps fields and applies generic actions |
| Forwarding.HalfTShape | orchestrator/node_resource_manager/graph_manager/graph_translator.cc:462-944 | the same for the tenant half |
| Forwarding.IngressOf | orchestrator/node_resource_manager/graph_manager/graph_translator.cc:5-944 | packets can come in at every endpoint that is there |
| Forwarding.RelayStep | orchestrator/node_resource_manager/graph_manager/graph_translator.cc:71-100 | a winning rule's packet, coming down a link, ends at the one endpoint the link is named after, as the rule sent it |
| Forwarding.ArrivalStep | orchestrator/node_resource_manager/graph_manager/graph_translator.cc:503-631 | everything coming up a link ends at the one endpoint the link is named after, unchanged |
| Forwarding.IngressStep | orchestrator/node_resource_manager/graph_manager/graph_translator.cc:5-944 | at every ingress, one lookup makes exactly the choices the big switches make |
| Forwarding.NodeIsBigSwitch | orchestrator/node_resource_manager/graph_manager/graph_translator.h:35-140 | for every packet, ingress and meaning of fields and actions: the outcomes of the chained tables are exactly those of the big switches, actions applied once, nothing circulates |
| Exactness.LostDisagrees | orchestrator/node_resource_manager/graph_manager/graph_manager.cc:595-599 | a rule from a physical port to an internal group that can win is lost by both translations, whatever the other rules |
| Exactness.UnrelayedDisagrees | orchestrator/node_resource_manager/graph_manager/graph_translator.cc:241-297 | a rewriting tunnel-to-port rule that can win, with no function sending to that port, can lose its own packets |
| Exactness.RewrittenDisagrees | orchestrator/node_resource_manager/graph_manager/graph_translator.cc:286-288 | where a rewriting tunnel-to-port half is not outranked behind the link, it rewrites packets of any rule to that port that can win |
| Exactness.FaithfulExactly | orchestrator/node_resource_manager/graph_manager/graph_translator.cc:241-297 | for every deployed node, tables and big switches agree on everything if and only if no rule that can win is lost, dropped behind its link or rewritten again there |
| Exactness.LostExample | orchestrator/node_resource_manager/graph_manager/graph_manager.cc:595-599 | a deployed node where the first of these happens |
| Exactness.TunnelExample | orchestrator/node_resource_manager/graph_manager/graph_translator.cc:241-297 | a deployed node where the other two happen |
| Vlinks.IdentifyRequired | orchestrator/node_resource_manager/graph_manager/graph_manager.cc:2477-2589 | the names found are exactly the targets of rules that cross between the LSIs |
| Vlinks.IdentifyMissing | orchestrator/node_resource_manager/graph_manager/graph_manager.cc:2591-2678 | for an update, exactly those that have no link yet |
| Vlinks.Associate | orchestrator/node_resource_manager/graph_manager/graph_manager.cc:908-958 | the iterator stays in range and gives each name the next link |
| Vlinks.PairUp | orchestrator/node_resource_manager/graph_manager/graph_manager.cc:908-958 | with max(up, down) links every name gets one, no two names of a direction share one, and no link is unused |
| Vlinks.Allocate | orchestrator/node_resource_manager/graph_manager/graph_manager.cc:908-958 | the same on the LSI object |
| Vlinks.AllocationOptimal | orchestrator/node_resource_manager/graph_manager/graph_manager.cc:684-692 | no assignment injective in each direction can do with fewer links |
| VlinkUpdate.AddLinkTidy | orchestrator/node_resource_manager/graph_manager/graph_manager.cc:1607-1652 | a fresh link named at most once per direction keeps links conserved |
| VlinkUpdate.AddNamedLink | orchestrator/node_resource_manager/graph_manager/graph_manager.cc:1609-1643 | one round of the loop: create, set the ports, name |
| VlinkUpdate.AddMissing | orchestrator/node_resource_manager/graph_manager/graph_manager.cc:1594-1728 | afterwards exactly the missing names have gained links, others kept theirs, links are conserved and numbered on, and the number of links made is the larger of missing functions and missing ports (which share links), plus tunnels, plus groups |
| VlinkUpdate.UpdateLinksExactly | orchestrator/node_resource_manager/graph_manager/graph_manager.cc:1594-1728 | an update never makes fewer links for the names than a new graph would, and exactly as many if and only if there are no groups and no more ports than functions, or no tunnels and no more functions than ports |
| VlinkRemoval.StillNeeded | orchestrator/node_resource_manager/graph_manager/graph_manager.cc:2205-2225 | the scan finds out whether a remaining rule still requires the name |
| VlinkRemoval.UsedInOppositeDirection | orchestrator/node_resource_manager/graph_manager/graph_manager.cc:2236-2252 | the scan finds out whether the link serves the other direction |
| VlinkRemoval.RemoveUselessVlink | orchestrator/node_resource_manager/graph_manager/graph_manager.cc:2180-2475 | the name goes exactly if no rule needs it, the link only if nothing else uses it; all other names keep their links |
| VlinkRemoval.RemoveUselessVlinks | orchestrator/node_resource_manager/graph_manager/graph_manager.cc:2105-2107 | the same for all removed rules of an update |
| LowGraph.RemoveRuleFromId | orchestrator/node_resource_manager/graph/low_level_graph/graph.cc:74-108 | erases the first rule of the id, true exactly if a rule of another id asks for the same flow |
| LowGraph.WithoutIdsMembers | orchestrator/node_resource_manager/graph/low_level_graph/graph.cc:74-108 | with unique ids, removing ids takes exactly the rules of those ids |
| LowGraph.RemoveRules | orchestrator/node_resource_manager/graph/low_level_graph/graph.cc:47-72 | takes the first equal rule for each rule given, and fails exactly where the source's assertion does |
| LowGraph.MinusCounts | orchestrator/node_resource_manager/graph/low_level_graph/graph.cc:47-72 | if each flow is there often enough, the removal succeeds and takes each as often as asked |
| LowGraph.MinusExactly | orchestrator/node_resource_manager/graph/low_level_graph/graph.cc:47-72 | removing a graph's rules by value takes exactly those if and only if nobody else's equal rule comes before one of them in the list |
| RuleDiff.CalculateDiffRules | orchestrator/node_resource_manager/graph/high_level_graph/high_level_graph.cc:504-524 | the rules of the other version whose id is new |
| RuleDiff.MissingInOrder | orchestrator/node_resource_manager/graph/high_level_graph/high_level_graph.cc:504-524 | in the order they have there |
| RuleDiff.RemoveRules | orchestrator/node_resource_manager/graph/high_level_graph/high_level_graph.cc:776-787 | removes the rules by id and reports the name each acted on |
| RuleDiff.MergedMembers | orchestrator/node_resource_manager/graph/high_level_graph/high_level_graph.cc:723-787 | after an update a rule is there exactly if it was and its id is kept, or its id is new |
| RuleDiff.UpdateReachesTarget | orchestrator/node_resource_manager/graph/high_level_graph/high_level_rule.cc:11-18 | the update reaches the new version if and only if no id is shared by different rules |
| RuleDiff.RedirectedRuleIgnored | orchestrator/node_resource_manager/graph/high_level_graph/high_level_rule.cc:11-18 | the failing case: a changed rule under its old id stays as it was |
| Lifecycle.NothingMissing | orchestrator/node_resource_manager/graph_manager/graph_translator.cc:73-87 | in a settled graph neither translation meets a missing link, port or function |
| Lifecycle.SaneDeployed | orchestrator/node_resource_manager/graph_manager/graph_manager.cc:1069-1099 | the life cycle's invariant gives what forwarding needs |
| Lifecycle.CreatedSane | orchestrator/node_resource_manager/graph_manager/graph_manager.cc:1069-1099 | creating a graph keeps the invariant: tables are exactly the lowering of all rules |
| Lifecycle.OwnFound | orchestrator/node_resource_manager/graph_manager/graph_manager.cc:335-336 | the rules recomputed by a deletion are all found, so its assertion never fails |
| Lifecycle.DeletedSaneExactly | orchestrator/node_resource_manager/graph_manager/graph_manager.cc:307-370 | a deletion leaves LSI-0 with exactly the lowering of the other graphs if and only if no equal rule of another graph came first; everything else is kept in any case |
| Lifecycle.TwinsExactly | orchestrator/node_resource_manager/graph/low_level_graph/rule.cc:11-21 | another graph asks for the same flow if and only if it repeats a rule between two physical ports with the same fields and priority |
| Updates.UpdatedTable | orchestrator/node_resource_manager/graph_manager/graph_manager.cc:1452-1497 | the tenant table after an update is exactly the lowering of the new version under the current links |
| Updates.UpdatedMembers | orchestrator/node_resource_manager/graph_manager/graph_manager.cc:2077-2096 | so is LSI-0, for all graphs |
| Updates.UpdatedSane | orchestrator/node_resource_manager/graph_manager/graph_manager.cc:1412-1450 | an update keeps the invariant: incremental update refines recompilation |
| UpdateLinks.UpdatedLinked | orchestrator/node_resource_manager/graph_manager/graph_manager.cc:1594-1728 | after an update exactly the names the new version requires have links, and links are conserved |
| UpdateLinks.UpdatedSameLinks | orchestrator/node_resource_manager/graph_manager/graph_manager.cc:2105-2107 | a name that had a link and still has one keeps that very link |
| UpdatePlan.PlanUpdates | orchestrator/node_resource_manager/graph_manager/graph_manager.cc:1412-1450 | the pieces of an update add up to a step of the life cycle |
| Isolation.LinkHitIsOwn | orchestrator/node_resource_manager/graph_manager/graph_translator.cc:71-100 | if the rules at a graph's links are its own, what matches there comes from that graph |
| Isolation.Isolated | orchestrator/node_resource_manager/graph_manager/graph_manager.cc:1072-1099 | if they are, another state that agrees on the graph and on these rules treats every packet its functions and tunnels send alike, whatever the other graphs |
| Isolation.SaneLinksOwn | orchestrator/node_resource_manager/graph_manager/graph_manager.cc:1072-1099 | if LSI-0's list is right, the rules at the links of every graph are its own |
| Isolation.NewLinksOwnExactly | orchestrator/node_resource_manager/graph_manager/graph_manager.cc:1072-1099 | at the links of a new graph they are if and only if no rule left over in LSI-0, but for one equal to its own, matches on a port of these links |
| Isolation.DeleteIsolates | orchestrator/node_resource_manager/graph/low_level_graph/graph.cc:53-72 | deleting another graph changes no fate of what a graph sends whose links are its own, even if it takes an equal rule of that graph |
| Isolation.UpdatedLinkRules | orchestrator/node_resource_manager/graph_manager/graph_manager.cc:2078-2095 | nor does an update of another graph touch the rules at its links, even where ids in LSI-0 are no longer unique, if they have names of its own rules or names no other graph can use |
| InternalGroups.JoinAgrees | orchestrator/node_resource_manager/graph_manager/graph_manager.cc:1184-1410 | joining a group keeps counter, connections, links and rules in agreement with its users |
| InternalGroups.JoinAllJoins | orchestrator/node_resource_manager/graph_manager/graph_manager.cc:1305-1346 | after joining, the graph's connection is the LSI-0 end of its link, and the last rule of the internal LSI floods what comes in at the other end: no fields, action NORMAL, priority 65535 |
| InternalGroups.JoinTwice | orchestrator/node_resource_manager/graph_manager/graph_manager.cc:1355-1382 | a graph with two endpoints in one group breaks the agreement |
| InternalGroups.LeaveAgrees | orchestrator/node_resource_manager/graph_manager/graph_manager.cc:383-467 | leaving passes every assertion, frees the group exactly with its last user and keeps the agreement |
| InternalGroups.LeaveUndoesJoin | orchestrator/node_resource_manager/graph_manager/graph_manager.cc:383-467 | leaving after joining restores connections, links, rules and count |
| InternalGroups.LeaveAllUndoesJoinAll | orchestrator/node_resource_manager/graph_manager/graph_manager.cc:383-467 | leaving all groups after joining them restores, group by group, all the manager keeps about it |
| InternalGroups.CountedSays | orchestrator/node_resource_manager/graph_manager/graph_manager.cc:389-391 | the agreement in numbers |
| InternalGroups.JoinAllCounts | orchestrator/node_resource_manager/graph_manager/graph_manager.cc:1133-1410 | a graph joins all its groups and every group counts its users right |
| InternalGroups.LeaveAllCounts | orchestrator/node_resource_manager/graph_manager/graph_manager.cc:383-467 | a graph leaves all its groups, passing every assertion, and every group counts its users right |
| InternalGroups.UpdateCounts | orchestrator/node_resource_manager/graph_manager/graph_manager.cc:1876-1886 | an update keeps the counts right if and only if the new version uses the same groups |
| Manager.NewGraphAsRequested | orchestrator/node_resource_manager/graph_manager/graph_manager.cc:569-1131 | a new graph has the rules, functions, tunnels and groups asked for, and links and ports as the switch answered them, in order |
| Manager.NewGraphOrderly | orchestrator/node_resource_manager/graph_manager/graph_manager.cc:569-1131 | a creation keeps the whole state of the manager in order |
| Manager.UpdateOrderly | orchestrator/node_resource_manager/graph_manager/graph_manager.cc:1412-1450 | so does an update |
| Manager.DeleteSteady | orchestrator/node_resource_manager/graph_manager/graph_manager.cc:307-473 | a deletion keeps links, tenant tables, connections and counters in order, whatever the other graphs ask for |
| Manager.DeleteOrderlyExactly | orchestrator/node_resource_manager/graph_manager/graph_manager.cc:307-473 | from an orderly state it fails no assertion, and leads to an orderly state if and only if no equal rule of another graph came first |
| GraphManager.UpdateLsi | orchestrator/node_resource_manager/graph_manager/graph_manager.cc:1499-2003 | the links and ports of an LSI through an update, and the rules added, removed and resulting; field by field, functions and tunnels removed are detached, those kept keep their ports, those added and new links have the ports the switch answered |
| GraphManager.CreateLsi | orchestrator/node_resource_manager/graph_manager/graph_manager.cc:673-958 | a new LSI with as many links as needed, every required name associated, links conserved |
| GraphManager.HandleGraphForInternalEndpoint | orchestrator/node_resource_manager/graph_manager/graph_manager.cc:1184-1410 | the graph joins its groups one after the other, each over a link with the ends the switch answered, whose traffic the internal LSI floods |
| GraphManager.FindLinkAt | orchestrator/node_resource_manager/graph_manager/graph_manager.cc:441-454 | the scan stops at the first link that ends at this port of LSI-0 |
| GraphManager.LeaveGroup | orchestrator/node_resource_manager/graph_manager/graph_manager.cc:383-467 | loops and object updates do to one group what the specification says: the whole group goes with its last user, otherwise the graph's rule, link and connection; a miss is reported where the source's assertions fail |
| GraphManager.LeaveGroups | orchestrator/node_resource_manager/graph_manager/graph_manager.cc:383-467 | the graph leaves its groups one after the other, failing where the source's assertions do |
| GraphManager.BuildGraph | orchestrator/node_resource_manager/graph_manager/graph_manager.cc:569-1131 | everything a new graph needs is built as the step of the life cycle requires; no lowering fails |
| GraphManager.BuildUpdate | orchestrator/node_resource_manager/graph_manager/graph_manager.cc:1412-2178 | the same for an update |
| GraphManager.BuildDelete | orchestrator/node_resource_manager/graph_manager/graph_manager.cc:307-473 | the same for a deletion |
| GraphManager.GraphManager.NewGraph | orchestrator/node_resource_manager/graph_manager/graph_manager.cc:569-1131 | the manager after a creation, still valid, and orderly if it was; the new graph, field by field, is what was asked for and answered |
| GraphManager.GraphManager.UpdateGraph | orchestrator/node_resource_manager/graph_manager/graph_manager.cc:1412-1450 | the manager after an update, still valid, and orderly if it was; a function or tunnel is there if and only if it is not removed and was there or is added, ports kept have their numbers, ports and links added those the switch answered |
| GraphManager.GraphManager.DeleteGraph | orchestrator/node_resource_manager/graph_manager/graph_manager.cc:307-473 | false and nothing changed if there is no such graph; else the graph is gone, the state valid, and orderly exactly if no equal rule of another graph came first |
| Runs.RunSteady | orchestrator/node_resource_manager/graph_manager/graph_manager.cc:307-2178 | links, tenant tables, connections and counters agree in every state of every run |
| Runs.NextOrderlyExactly | orchestrator/node_resource_manager/graph_manager/graph_manager.cc:307-2178 | an operation keeps LSI-0 with exactly the lowering of all graphs if and only if, in deleting a graph, it finds no equal rule of another graph before its own |
| Runs.RunOrderly | orchestrator/node_resource_manager/graph_manager/graph_manager.cc:307-2178 | so LSI-0 too is right in every state of every run whose deletions were of that kind |
| Runs.RunForwards | orchestrator/node_resource_manager/graph_manager/graph_translator.h:35-140 | in every such state all packets are forwarded as the big switches would |
| Runs.RunConserves | orchestrator/node_resource_manager/graph_manager/graph_manager.cc:908-958 | in every state of every run the link ids are the union of the maps' values, each direction is injective, and the keys are those the rules require |
| Runs.RunCounts | orchestrator/node_resource_manager/graph_manager/graph_manager.cc:383-467 | in every state of every run a group's counter, connections, links and rules number its users |
| Runs.RunFloods | orchestrator/node_resource_manager/graph_manager/graph_manager.cc:1339-1394 | in every state of every run, each user of a group has on the internal LSI a rule for the local end of its link with no fields, action NORMAL and priority 65535, named after group and graph, and there are no other rules |
| Runs.RunIsolated | orchestrator/node_resource_manager/graph_manager/graph_manager.cc:335-339 | from any steady state in which the rules at a graph's links are its own, no run on other graphs, with any deletions, changes the fate of a packet sent by a function or tunnel of the graph |
| Runs.DeleteUndoesCreate | orchestrator/node_resource_manager/graph_manager/graph_manager.cc:307-473 | create, any updates, delete: tenants, members, connections, counters, and links and rules of the internal LSIs are as before, from any steady state, whatever was left in LSI-0 |
| Runs.DeleteUndoesListExactly | orchestrator/node_resource_manager/graph/low_level_graph/graph.cc:47-72 | LSI-0's rules are as before, if they and all earlier deletions were right, if and only if, when the graph was last deleted, no equal rule of another graph came before one of its own |
| Leftovers.GiveUpName | orchestrator/node_resource_manager/graph/low_level_graph/graph.cc:74-108 | any graph with a rule of a name can make an update that takes the first rule of that name out of LSI-0, whosever it is |
| Leftovers.LinkRulesExactly | orchestrator/node_resource_manager/graph/low_level_graph/graph.cc:74-108 | whatever is done with other graphs, LSI-0 keeps the rules at a graph's links, if and only if each has the name of a rule of the graph or a name no other graph can use |
| Diversion.DeleteWire | orchestrator/node_resource_manager/graph/low_level_graph/graph.cc:47-72 | deleting a graph takes the first equal wire out of the list and leaves its own behind |
| Diversion.Clear | orchestrator/node_resource_manager/graph_manager/graph_manager.cc:2077-2107 | an update that empties such a graph takes the link and the wire left behind, and leaves the rule for the link |
| Diversion.DiversionExample | orchestrator/node_resource_manager/graph/low_level_graph/graph.cc:74-108 | the failing case: a run from an empty node to a state where a packet of one graph can leave by a port the graph never named, and operations on another graph that change this |
| Controller.InstallExactly | orchestrator/network_controller/openflow_controller/controller.cc:67-96 | installing keeps the datapath in agreement if and only if no rules conflict |
| Controller.AddAllInOrder | orchestrator/network_controller/openflow_controller/controller.cc:140-170 | rules are installed in order, a later one overwriting an earlier one of the same match and priority |
| Controller.AddOne | orchestrator/network_controller/openflow_controller/controller.cc:140-170 | one rule is one flow, with its action |
| Controller.OpenExactly | orchestrator/network_controller/openflow_controller/controller.cc:25-52 | a datapath that connects agrees if and only if no rules conflict |
| Controller.RemoveExactly | orchestrator/network_controller/openflow_controller/controller.cc:98-109 | removing rules keeps agreement if and only if no remaining rule has a removed key |
| Controller.RemoveIdExactly | orchestrator/network_controller/openflow_controller/controller.cc:111-138 | removing by id keeps agreement if and only if an equal rule survives or the id is not repeated on that flow |
| Controller.EventKeepsValid | orchestrator/network_controller/openflow_controller/controller.cc:25-194 | every event keeps agreement under those conditions |
| Controller.RunAgrees | orchestrator/network_controller/openflow_controller/controller.cc:25-194 | in every state of every run with a connected datapath, its flows are those of the rules wanted |
| Controller.RunConnected | orchestrator/network_controller/openflow_controller/controller.cc:25-59 | in every state of every run the switch counts as connected if and only if it came last, or neither came nor went and was connected at first |
| Controller.RunAway | orchestrator/network_controller/openflow_controller/controller.cc:140-194 | while it is away nothing is sent to it |
| Controller.RunStrays | orchestrator/network_controller/openflow_controller/controller.cc:54-59 | while away it may change to any flows, and only then |
| Controller.AgreeingSwitchForwards | orchestrator/node_resource_manager/graph/low_level_graph/rule.cc:23-75 | a datapath that agrees takes on every packet exactly the actions the rules allow |
| Controller.OpenflowController.InstallNewRulesIntoLsi | orchestrator/network_controller/openflow_controller/controller.cc:140-170 | sends every rule if connected, none otherwise |
| Controller.OpenflowController.RemoveRulesFromLsi | orchestrator/network_controller/openflow_controller/controller.cc:172-194 | deletes every rule's flow if connected, none otherwise |
| Controller.OpenflowController.HandleDptOpen | orchestrator/network_controller/openflow_controller/controller.cc:25-52 | resets the datapath and installs every rule wanted |
| Controller.OpenflowController.HandleDptClose | orchestrator/network_controller/openflow_controller/controller.cc:54-59 | the switch no longer counts as connected; rules wanted and flows are as they were |
| Controller.OpenflowController.InstallNewRules | orchestrator/network_controller/openflow_controller/controller.cc:84-96 | the rules are wanted from now on, and installed if connected |
| Controller.OpenflowController.RemoveRules | orchestrator/network_controller/openflow_controller/controller.cc:98-109 | the rules are no longer wanted, and their flows deleted if connected |
| Controller.OpenflowController.RemoveRuleFromId | orchestrator/network_controller/openflow_controller/controller.cc:111-138 | the rule is no longer wanted, its flow deleted unless an equal rule survives |
| Datapath.MoveMatched | orchestrator/node_resource_manager/graph_manager/graph_manager.cc:307-2178 | after every operation and switch event each controller wants exactly the rules the manager holds for its switch |
| Datapath.MoveManages | orchestrator/node_resource_manager/graph_manager/graph_manager.cc:307-2178 | every operation of the whole system is the manager's operation on its graph; switch events leave the manager alone |
| Datapath.MoveConnects | orchestrator/network_controller/openflow_controller/controller.cc:25-59 | in the whole system, too, a switch counts as connected after it came and not after it went, and nothing else changes that |
| Datapath.DeleteNeverFails | orchestrator/node_resource_manager/graph_manager/graph_manager.cc:335-339 | while LSI-0's list is right, neither removal from it nor from its controller's can miss a rule |
| Datapath.DeleteAgreesExactly | orchestrator/network_controller/openflow_controller/controller.cc:98-109 | deleting a graph leaves LSI-0's flows those of the rules still wanted if and only if no other graph asks for one of its flows |
| Datapath.SharedWireLost | orchestrator/network_controller/openflow_controller/controller.cc:98-109 | the failing case: of two graphs with the same port-to-port rule, deleting one takes the flow the other still wants |
| Datapath.SharedWireExample | orchestrator/network_controller/openflow_controller/controller.cc:98-109 | a node where this happens, and where the list loses the rule of the wrong graph too |
| Datapath.ReconnectHeals | orchestrator/network_controller/openflow_controller/controller.cc:25-52 | a switch that reconnects has the right flows again, whatever was lost |
| Datapath.MoveSyncedExactly | orchestrator/node_resource_manager/graph_manager/graph_manager.cc:1412-1450 | from flow tables that hold the rules, an operation or event leads to such tables if and only if no two rules then held ask for different actions on one match and priority, or, for a deletion, no other graph asks for a flow it takes (while connected) or has an equal rule first (while not) |
| Datapath.StartSynced | orchestrator/node_resource_manager/graph_manager/graph_manager.cc:60-156 | the node as it starts is such a state |
| Datapath.RunMatched | orchestrator/node_resource_manager/graph_manager/graph_manager.cc:307-2178 | manager and controllers agree in every state of every run |
| Datapath.RunSynced | orchestrator/node_resource_manager/graph_manager/graph_manager.cc:2078-2095 | flow tables of connected switches hold the rules in every state of every run whose steps met that condition |
| Datapath.SameWalk | orchestrator/network_controller/openflow_controller/controller.cc:140-194 | connected flow tables take every packet, over any number of lookups, where the manager's lists of rules would |
| Datapath.RunDelivers | orchestrator/node_resource_manager/graph_manager/graph_translator.h:35-140 | in every state of every run of requests and switch events with all switches connected, the flow tables give every packet the fate the big switches give it |
| Yang.CoveredExactly | virtualizer/virtualizer_library/baseclasses.py:756-789 | merging an unmarked tree delivers it if and only if it covers the base |
| Yang.MergeUninit | virtualizer/virtualizer_library/baseclasses.py:771-772 | a diff without data changes nothing |
| Yang.RoundTripExactly | virtualizer/virtualizer_library/baseclasses.py:289-321 | merging a diff gives the target if and only if the pair is diffable, for all trees of one schema |
| Yang.PatchRoundTrip | virtualizer/virtualizer_library/baseclasses.py:800-807 | the same for the whole patch, and no operation is left |
| YangMarks.DiffMarksExactly | virtualizer/virtualizer_library/baseclasses.py:1097-1123 | for trees without operations the diff is the one tree marked so: a compared leaf "create" if and only if only the target has data, "delete" if and only if only the base has, "replace" if and only if both have and differ; an entry "create" or "delete" if and only if only the target or only the base has its key; what does not differ is left out |
| YangMarks.MergeNotes | virtualizer/virtualizer_library/baseclasses.py:756-789 | merging a diff into its base leaves what it added marked as created, what it changed as replaced, and nothing else marked |
| YangMarks.MergeTakesOp | virtualizer/virtualizer_library/baseclasses.py:756-789 | whatever is merged, an operation of the diff is taken over, and otherwise the base keeps its own |
| Yang.NoneIsNotDiffed | virtualizer/virtualizer_library/baseclasses.py:307-319 | the failing case: a container that is None in the target survives the patch |
| Yang.EmptyDiffExactly | virtualizer/virtualizer_library/baseclasses.py:289-321 | a diff is empty and the round trip works exactly for trees with the same data, if keys are the only data the diff skips |
| Yang.CommonItem | virtualizer/virtualizer_library/baseclasses.py:1946-1975 | a common list entry ends up as the merge of its own diff |
| Texts.SplitJoin | virtualizer/virtualizer_library/baseclasses.py:426-427 | joining components and splitting again gives them back |
| YangPath.ParseText | virtualizer/virtualizer_library/baseclasses.py:446-462 | a written component is read back as that step if and only if its key holds no '=' and no ',' |
| YangPath.TextParts | virtualizer/virtualizer_library/baseclasses.py:345-354 | an entry is written as its list and, in brackets, the attribute that is its key, '=', and the key |
| YangPath.ParseItemExactly | virtualizer/virtualizer_library/baseclasses.py:446-456 | any component is read as an entry if and only if it has a list's name before the first '[', and in brackets up to the last ']', without ',', a key after the first '=' |
| YangPath.ParseAttributeExactly | virtualizer/virtualizer_library/baseclasses.py:443-447 | and as a step up if and only if it is '..', as an attribute if and only if it is not and lacks a bracket or begins with one |
| YangPath.WalkExactly | virtualizer/virtualizer_library/baseclasses.py:417-469 | a relative path leads from one node to another if and only if it does so component by component, up to parents and down to nodes that are there |
| YangPath.WalkFromRoot | virtualizer/virtualizer_library/baseclasses.py:429-441 | an absolute path is walked from the root, and fails if it begins with another tag |
| YangPath.JoinShorter | virtualizer/virtualizer_library/baseclasses.py:417-469 | the rest of a path is shorter, so every walk ends |
| YangPath.WalkKeys | virtualizer/virtualizer_library/baseclasses.py:417-469 | wherever a walk ends, the keys it read are free of '/', '=' and ',' |
| YangPath.WalkAbsolute | virtualizer/virtualizer_library/baseclasses.py:345-354 | from any node, the absolute path of a node leads to it if and only if every key on the way is free of '/', '=' and ',' |
| YangPath.SeparatorLost | virtualizer/virtualizer_library/baseclasses.py:446-456 | the failing cases: an entry whose key is one of these characters |
| YangRelative.GetRelPath | virtualizer/virtualizer_library/baseclasses.py:471-491 | the loops compute the relative path, and fail exactly when they run past the end of a path |
| YangRelative.RelPathExactly | virtualizer/virtualizer_library/baseclasses.py:483-486 | for all nodes and keys: a relative path exists if and only if the components of neither path begin those of the other |
| YangRelative.WalkRelative | virtualizer/virtualizer_library/baseclasses.py:417-491 | the relative path from one node to another, walked from the first, leads to the second if and only if, below what the two share, no key of the first holds a '/' and every key of the second is free of '/', '=' and ',' |
| YangRelative.BoundLeafrefResolves | virtualizer/virtualizer_library/baseclasses.py:1492-1516 | a leafref bound relatively or absolutely resolves back to its target exactly under these conditions |
| CoreMask.CoreAllocator.SetCoreMask | orchestrator/compute_controller/compute_controller.cc:18-35 | the single bits of the mask, each once, ascending, are entered from the next place on over what the table held; on an empty table they are the stored cores |
| CoreMask.CoreAllocator.CalculateCoreMask | orchestrator/compute_controller/compute_controller.cc:878-898 | a request gets a sub-mask of min(k, number of cores) bits, continuing the round, where k is the number asked for; no request, one for less than one core, or no cores, gets the mask zero |
| CoreMask.GrantedSize | orchestrator/compute_controller/compute_controller.cc:886-893 | k consecutive grants are of min(k, n) different cores |
| CoreMask.Fair | orchestrator/compute_controller/compute_controller.cc:886-893 | after any number of grants, any two cores have been granted equally often or one once more |
| CoreMask.FairRequests | orchestrator/compute_controller/compute_controller.cc:878-898 | the same of what any sequence of requests, of any sizes, gave out |
| CoreMask.GivenIsGranted | orchestrator/compute_controller/compute_controller.cc:886-893 | a request's mask holds exactly the cores it gave out |
| NfRound.KeptOrDropped | NFs/dpdk/dpi/runtime.c:83-113 | every packet of a burst is forwarded or dropped, once |
| NfRound.KeptInOrder | NFs/dpdk/dpi/runtime.c:83-113 | what is forwarded keeps the order of the burst |
| NfRound.DroppedInOrder | NFs/dpdk/dpi/runtime.c:83-113 | so does what is dropped |
| NfRound.KeptOne | NFs/dpdk/dpi/runtime.c:83-113 | of a single packet, what the function makes of it is forwarded, or the packet is dropped |
| NfRound.KeptAreTreated | NFs/dpdk/dpi/runtime.c:83-113 | a packet is dropped exactly if the function drops it, and what is forwarded is what the function makes of one it does not drop |
| NfRound.BurstIsHead | NFs/dpdk/dpi/runtime.c:74 | a burst is the head of the queue: all of it, or 200 packets |
| NfRound.Buffers.Put | NFs/dpdk/example/runtime.c:67-68 | appends to a send buffer that has room, leaving the others alone |
| NfRound.ReceivePort | NFs/dpdk/dpi/runtime.c:70-115 | one port's burst, treated, fills the empty buffer of the next port in order |
| NfRound.Receive | NFs/dpdk/example/runtime.c:36-72 | all ports: each buffer holds what was kept of one burst, so none exceeds its 200 slots |
| NfRound.Send | NFs/dpdk/example/runtime.c:75-94 | each ring takes what it has room for from the front, the rest is freed, the buffers are empty |
| NfRound.DoRound | NFs/dpdk/example/runtime.c:29-96 | a whole round: per port, what is sent and what is freed for lack of room is what was kept of the previous port's burst, in order |
| NfRound.PortConserves | NFs/dpdk/dpi/runtime.c:70-138 | no packet is lost or duplicated |
| NfRound.ExampleForwardsAll | NFs/dpdk/example/runtime.c:48-68 | the example function forwards every packet with its destination address overwritten |
| NfRound.TouchedBytes | NFs/dpdk/example/runtime.c:63 | the first six bytes become 0x0a and no other byte changes |
| NfRound.DpiDropsExactly | NFs/dpdk/dpi/runtime.c:92-109 | of what comes in at its first port, the inspecting function drops exactly what it refuses and forwards the rest unchanged |
| NfRound.DpiForwardsRest | NFs/dpdk/dpi/runtime.c:92-109 | the inspecting function drops only packets of its first port |
| PubSub.StepKeeps | orchestrator/node_resource_manager/pub_sub/pub_sub.cc:138-161 | every step of either thread keeps: published is sent, queued or about to be sent; queued messages go out in order |
| PubSub.QueueFrozen | orchestrator/node_resource_manager/pub_sub/pub_sub.cc:67-79 | once connected, the queue never changes again |
| PubSub.RunRecorded | orchestrator/node_resource_manager/pub_sub/pub_sub.cc:138-161 | in every state of every run, published is what callers handed over so far; until the registration all of it is queued, in order, and nothing is sent; what goes out is what callers and client send, in that order |
| PubSub.NothingLost | orchestrator/node_resource_manager/pub_sub/pub_sub.cc:67-79 | after the flush every message callers handed over has been sent exactly once or is about to be, queued ones in order, whatever the interleaving |
| Hotplug.NewPortList | orchestrator/node_resource_manager/graph_manager/graph_manager.cc:1741-1780 | the list for the switch holds exactly the ports just added that were not there before, and is the list of ports added if and only if none was |

## Left out

- Failure and exception paths of creating and updating graphs: the source's cleanup there is incomplete by its own comments; only successful operations are steps.
- GraphManager.GraphManager.NewGraph: the manager keeps each tenant LSI as a value and loads it into an `Lsi` object for the duration of an operation; sharing of LSI objects between graphs, which the source does not do, is not expressible.
- GraphManager.GraphManager.UpdateGraph: which functions and tunnels are new or gone is part of the request, not recomputed from two versions of the graph; ports removed from a function that is kept are not modelled.
- Datapath.RunDelivers: the controllers of internal groups, whose LSIs are outside the two chained tables, are not part of the system.
- Internal endpoints added by an update: the source stops on an assertion.
- The link counter's 64-bit wrap-around, and the truncation of priorities to the width of a flow message.
- Output to the port a packet came in on, which a switch may refuse, is an ordinary output here.
- Match fields one by one, vlan endpoints as a separate kind (they match on their physical port), and the in-band controller rules of LSI-0.
- Yang.PatchRoundTrip: trees are values; XML elements as leaf data, units and composite list keys are left out, and lists are compared without their order. The attribute that deletes an entry from its holder's list is assumed to be that list's, as in every class of the schema.
- YangRelative.WalkRelative: names and tags of the schema are assumed to be free of the separators, tags are assumed to be the names of the attributes, as the walk itself assumes, and lists have a single key.
- CoreMask.CoreAllocator.CalculateCoreMask: after a second `SetCoreMask`, which the repository never makes, the table can hold a core twice; what requests then get is not stated.
- NfRound.ExampleForwardsAll: packets shorter than an address are left alone, where the source writes past their end.
- PubSub.NothingLost: a second registration, which would send the queue again, is not modelled.
- `reduce`, `get_next`, reference trees and XML rendering of the tree library; REST servers, login, name resolution, compute drivers: plumbing without a property of this kind.

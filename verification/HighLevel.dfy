/** The graph a tenant asks for: one "big switch" whose rules match traffic entering at an
    endpoint and send it, possibly rewritten, to another endpoint. */
module HighLevel {
  import opened Names

  type Fields = string  // the match fields common to both levels, copied as one block
  newtype byte = x: int | 0 <= x < 256
  type Packet = seq<byte>

  datatype GenericAction = PushVlan(vid: nat) | PopVlan

  datatype Endpoint =
    | Port(name: string)             // physical interface, possibly behind a vlan endpoint
    | NfPort(nf: string, port: nat)  // port of a network function
    | Gre(id: string)                // GRE tunnel
    | Internal(group: string)        // internal group, shared with other graphs
  {
    /** Attached to the tenant's own LSI, as opposed to LSI-0. */
    predicate Inner() {
      NfPort? || Gre?
    }

    /** The vlink map this endpoint belongs to, and its key there. */
    function Key(): LinkName {
      match this
      case Port(name) => LinkName(Ports, name)
      case NfPort(nf, port) => LinkName(Nfs, NfPortName(nf, port))
      case Gre(id) => LinkName(Gres, id)
      case Internal(group) => LinkName(Internals, group)
    }
  }

  datatype Kind = Ports | Nfs | Gres | Internals

  /** A key of one of the four vlink maps. */
  datatype LinkName = LinkName(kind: Kind, name: string) {
    /** Links of these kinds carry traffic from LSI-0 up to the tenant LSI. */
    predicate Up() {
      kind == Nfs || kind == Gres
    }
  }

  lemma EndpointByName(a: Endpoint, b: Endpoint)
    requires a.Key() == b.Key()
    ensures a == b
  {
    if a.NfPort? {
      NfPortNameInjective(a.nf, a.port, b.nf, b.port);
    }
  }

  datatype Match = Match(on: Endpoint, fields: Fields)
  datatype Action = Action(to: Endpoint, generic: seq<GenericAction>)
  datatype Rule = Rule(id: string, pattern: Match, action: Action, priority: nat) {

    function On(): Endpoint {
      pattern.on
    }

    function To(): Endpoint {
      action.to
    }

    /** The rule crosses from one LSI to the other. */
    predicate Crosses() {
      On().Inner() != To().Inner()
    }
  }

  /** The names that need a virtual link: the targets of the crossing rules. */
  function Required(rules: seq<Rule>): set<LinkName> {
    set h | h in rules && h.Crosses() :: h.To().Key()
  }

  /** What packets and fields mean: the forwarding results hold for every such meaning. */
  datatype Semantics = Semantics(
    accepts: (Fields, Packet) -> bool,
    rewrite: (GenericAction, Packet) -> Packet)

  function Apply(sem: Semantics, actions: seq<GenericAction>, packet: Packet): Packet {
    if actions == [] then packet else Apply(sem, actions[1..], sem.rewrite(actions[0], packet))
  }

  lemma ApplyOne(sem: Semantics, action: GenericAction, packet: Packet)
    ensures Apply(sem, [action], packet) == sem.rewrite(action, packet)
  {
    assert [action][1..] == [];
  }

  /** The actions are applied in the order of the list. */
  lemma {:induction false} ApplyInOrder(sem: Semantics, first: seq<GenericAction>, then': seq<GenericAction>,
      packet: Packet)
    ensures Apply(sem, first + then', packet) == Apply(sem, then', Apply(sem, first, packet))
  {
    if first == [] {
      assert first + then' == then';
    } else {
      ApplyInOrder(sem, first[1..], then', sem.rewrite(first[0], packet));
      assert (first + then')[1..] == first[1..] + then';
    }
  }

  /** `stages` are the packet as it came and after each action in turn. */
  ghost predicate Stages(sem: Semantics, actions: seq<GenericAction>, packet: Packet, stages: seq<Packet>) {
    && |stages| == |actions| + 1 && stages[0] == packet
    && forall i :: 0 <= i < |actions| ==> stages[i + 1] == sem.rewrite(actions[i], stages[i])
  }

  /** What comes out is the last stage: the action at the head of the list sees the packet as it came. */
  lemma {:induction false} ApplyStages(sem: Semantics, actions: seq<GenericAction>, packet: Packet, stages: seq<Packet>)
    requires Stages(sem, actions, packet, stages)
    ensures Apply(sem, actions, packet) == stages[|actions|]
  {
    if actions != [] {
      ApplyStages(sem, actions[1..], stages[1], stages[1..]);
    }
  }
}

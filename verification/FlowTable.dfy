/** Flow tables as the switches see them: lookup is section 5.3 of the OpenFlow Switch
    Specification 1.3, where the choice between matching rules of equal priority is open. */
module FlowTable {
  import opened HighLevel
  import opened Options

  /** An absent input port or an absent field block matches anything. */
  datatype LowMatch = LowMatch(inPort: Option<nat>, fields: Option<Fields>)
  datatype LowAction = Output(port: nat, generic: seq<GenericAction>) | Normal
  datatype LowRule = LowRule(id: string, pattern: LowMatch, action: LowAction, priority: nat)

  predicate Accepts(sem: Semantics, m: LowMatch, port: nat, packet: Packet) {
    && (m.inPort.Some? ==> m.inPort.value == port)
    && (m.fields.Some? ==> sem.accepts(m.fields.value, packet))
  }

  predicate Hit(sem: Semantics, table: seq<LowRule>, port: nat, packet: Packet, l: LowRule) {
    l in table && Accepts(sem, l.pattern, port, packet)
  }

  /** `l` may be the rule applied. */
  ghost predicate Selected(sem: Semantics, table: seq<LowRule>, port: nat, packet: Packet, l: LowRule) {
    && Hit(sem, table, port, packet, l)
    && forall k :: Hit(sem, table, port, packet, k) ==> k.priority <= l.priority
  }

  /** A table with a hit selects something. */
  lemma {:induction false} SelectedExists(sem: Semantics, table: seq<LowRule>, port: nat, packet: Packet, l: LowRule)
      returns (top: LowRule)
    requires Hit(sem, table, port, packet, l)
    ensures Selected(sem, table, port, packet, top)
    ensures l.priority <= top.priority
  {
    top := l;
    for i := 0 to |table|
      invariant Hit(sem, table, port, packet, top) && l.priority <= top.priority
      invariant forall j :: 0 <= j < i && Accepts(sem, table[j].pattern, port, packet) ==>
        table[j].priority <= top.priority
    {
      if Accepts(sem, table[i].pattern, port, packet) && top.priority < table[i].priority {
        top := table[i];
      }
    }
  }
}

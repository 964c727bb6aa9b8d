/** Plugging ports into a function that may already run: which ports the switch is asked to create. */
module Hotplug {
  import opened Names
  import opened Options

  /** The ports of a function after adding some: appended if the function is known, its first ones otherwise. */
  function AddNf(before: Option<seq<nat>>, ports: seq<nat>): seq<nat> {
    if before.Some? then before.value + ports else ports
  }

  predicate Named(nf: string, ports: seq<nat>, name: string) {
    exists p :: p in ports && NfPortName(nf, p) == name
  }

  /** The ports whose name is not among those of `before`. */
  function Unseen(nf: string, before: seq<nat>, ports: seq<nat>): seq<nat> {
    if ports == [] then []
    else
      var most, last := Unseen(nf, before, ports[..|ports| - 1]), ports[|ports| - 1];
      if Named(nf, before, NfPortName(nf, last)) then most else most + [last]
  }

  lemma NamedIsIn(nf: string, ports: seq<nat>, p: nat)
    ensures Named(nf, ports, NfPortName(nf, p)) <==> p in ports
  {
    if q :| q in ports && NfPortName(nf, q) == NfPortName(nf, p) {
      NfPortNameInjective(nf, q, nf, p);
    }
  }

  lemma {:induction false} UnseenAppend(nf: string, before: seq<nat>, a: seq<nat>, b: seq<nat>)
    ensures Unseen(nf, before, a + b) == Unseen(nf, before, a) + Unseen(nf, before, b)
  {
    if b == [] {
      assert a + b == a;
    } else {
      var n := |b| - 1;
      UnseenAppend(nf, before, a, b[..n]);
      assert (a + b)[..|a + b| - 1] == a + b[..n];
    }
  }

  lemma {:induction false} SeenAreSkipped(nf: string, before: seq<nat>, ports: seq<nat>)
    requires forall p :: p in ports ==> p in before
    ensures Unseen(nf, before, ports) == []
  {
    if ports != [] {
      SeenAreSkipped(nf, before, ports[..|ports| - 1]);
      NamedIsIn(nf, before, ports[|ports| - 1]);
    }
  }

  lemma {:induction false} UnseenSize(nf: string, before: seq<nat>, ports: seq<nat>)
    ensures |Unseen(nf, before, ports)| <= |ports|
    ensures |Unseen(nf, before, ports)| == |ports| <==> forall p :: p in ports ==> p !in before
    ensures (forall p :: p in ports ==> p !in before) ==> Unseen(nf, before, ports) == ports
  {
    if ports != [] {
      var most, last := ports[..|ports| - 1], ports[|ports| - 1];
      UnseenSize(nf, before, most);
      NamedIsIn(nf, before, last);
      assert ports == most + [last];
      assert forall p :: p in ports <==> p in most || p == last;
    }
  }

  lemma {:induction false} UnseenMembers(nf: string, before: seq<nat>, ports: seq<nat>, p: nat)
    ensures p in Unseen(nf, before, ports) <==> p in ports && p !in before
  {
    if ports != [] {
      var most, last := ports[..|ports| - 1], ports[|ports| - 1];
      UnseenMembers(nf, before, most, p);
      NamedIsIn(nf, before, last);
      assert p in ports <==> p in most || p == last;
    }
  }

  /** The list passed to the switch: everything if the function has no other ports, else what was not there
      before. */
  method NewPortList(nf: string, before: Option<seq<nat>>, ports: seq<nat>) returns (news: seq<nat>)
    ensures forall p :: p in news <==> p in ports && (before.Some? ==> p !in before.value)
    ensures before.Some? ==> news == Unseen(nf, before.value, ports)
    ensures news == ports <==> before.None? || forall p :: p in ports ==> p !in before.value
  {
    var after := AddNf(before, ports);
    if |after| == |ports| {
      if before.Some? {
        UnseenSize(nf, before.value, ports);
      }
      return after;
    }
    var list := [];
    for i := 0 to |after|
      invariant list == Unseen(nf, before.value, after[..i])
    {
      assert after[..i + 1][..i] == after[..i];
      var found := false;
      for k := 0 to |before.value|
        invariant found <==> exists j :: 0 <= j < k && NfPortName(nf, before.value[j]) == NfPortName(nf, after[i])
      {
        if NfPortName(nf, before.value[k]) == NfPortName(nf, after[i]) {
          found := true;
        }
      }
      assert found <==> Named(nf, before.value, NfPortName(nf, after[i]));
      if !found {
        list := list + [after[i]];
      }
    }
    assert after[..|after|] == after;
    UnseenAppend(nf, before.value, before.value, ports);
    SeenAreSkipped(nf, before.value, before.value);
    UnseenSize(nf, before.value, ports);
    assert list == Unseen(nf, before.value, ports);
    forall p {
      UnseenMembers(nf, before.value, ports, p);
    }
    return list;
  }
}

/** The low-level graph: the list of rules wanted on one switch. */
module LowGraph {
  import opened FlowTable
  import opened Options
  import opened Seqs

  /** Rule equality as the list sees it: neither the id nor the generic actions count. */
  predicate SameFlow(a: LowRule, b: LowRule) {
    && a.priority == b.priority && a.pattern == b.pattern
    && a.action.Output? == b.action.Output? && (a.action.Output? ==> a.action.port == b.action.port)
  }

  predicate UniqueIds(rules: seq<LowRule>) {
    forall i, j :: 0 <= i < j < |rules| ==> rules[i].id != rules[j].id
  }

  lemma EraseMembers(rules: seq<LowRule>, i: nat)
    requires UniqueIds(rules) && i < |rules|
    ensures UniqueIds(Erase(rules, i))
    ensures forall k :: k in Erase(rules, i) <==> k in rules && k.id != rules[i].id
    ensures forall k :: k in Erase(rules, i) <==> k in rules && k != rules[i]
  {
    EraseAt(rules, i);
    forall k {
      EraseMember(rules, i, k);
    }
  }

  lemma AppendUnique(a: seq<LowRule>, b: seq<LowRule>)
    requires UniqueIds(a) && UniqueIds(b) && forall x, y :: x in a && y in b ==> x.id != y.id
    ensures UniqueIds(a + b)
  {
  }

  // ----- removal by id -----

  /** The position of the first rule of this id, the length if there is none. */
  function Index(rules: seq<LowRule>, id: string): (p: nat)
    ensures p <= |rules| && (p < |rules| ==> rules[p].id == id)
    ensures forall j :: 0 <= j < p ==> rules[j].id != id
  {
    if rules == [] || rules[0].id == id then 0 else 1 + Index(rules[1..], id)
  }

  function WithoutId(rules: seq<LowRule>, id: string): seq<LowRule> {
    Erase(rules, Index(rules, id))
  }

  lemma WithoutIdMembers(rules: seq<LowRule>, id: string)
    requires UniqueIds(rules)
    ensures UniqueIds(WithoutId(rules, id))
    ensures forall k :: k in WithoutId(rules, id) <==> k in rules && k.id != id
  {
    if Index(rules, id) < |rules| {
      EraseMembers(rules, Index(rules, id));
    }
  }

  /** Another rule, of a different id, asks for the same flow. */
  ghost predicate HasTwin(rules: seq<LowRule>, l: LowRule) {
    exists k :: k in rules && k.id != l.id && SameFlow(l, k)
  }

  method FindRule(rules: seq<LowRule>, id: string) returns (i: nat)
    ensures i == Index(rules, id)
  {
    i := 0;
    while i < |rules| && rules[i].id != id
      invariant i <= Index(rules, id)
    {
      i := i + 1;
    }
  }

  /** Erases the first rule of this id and tells whether another rule asks for the same flow. */
  method RemoveRuleFromId(rules: seq<LowRule>, id: string) returns (rest: seq<LowRule>, twin: bool)
    ensures rest == WithoutId(rules, id)
    ensures twin <==> Index(rules, id) < |rules| && HasTwin(rules, rules[Index(rules, id)])
  {
    twin := false;
    var i := FindRule(rules, id);
    if i == |rules| {
      return rules, false;
    }
    for k := 0 to |rules|
      invariant twin <==> exists j :: 0 <= j < k && rules[j].id != rules[i].id && SameFlow(rules[i], rules[j])
    {
      if rules[i].id != rules[k].id && SameFlow(rules[i], rules[k]) {
        twin := true;
      }
    }
    assert twin <==> HasTwin(rules, rules[i]);
    rest := rules[..i] + rules[i + 1..];
  }

  function WithoutIds(rules: seq<LowRule>, ids: seq<string>): seq<LowRule> {
    if ids == [] then rules else WithoutIds(WithoutId(rules, ids[0]), ids[1..])
  }

  lemma {:induction false} WithoutIdsMembers(rules: seq<LowRule>, ids: seq<string>)
    requires UniqueIds(rules)
    ensures UniqueIds(WithoutIds(rules, ids))
    ensures forall k :: k in WithoutIds(rules, ids) <==> k in rules && k.id !in ids
  {
    if ids != [] {
      WithoutIdMembers(rules, ids[0]);
      WithoutIdsMembers(WithoutId(rules, ids[0]), ids[1..]);
    }
  }

  /** Whatever the ids, rules of other ids stay and none comes in. */
  lemma {:induction false} WithoutIdsOthers(rules: seq<LowRule>, ids: seq<string>, l: LowRule)
    ensures l in WithoutIds(rules, ids) ==> l in rules
    ensures l in rules && l.id !in ids ==> l in WithoutIds(rules, ids)
  {
    if ids != [] {
      var i := Index(rules, ids[0]);
      WithoutIdsOthers(WithoutId(rules, ids[0]), ids[1..], l);
      if i < |rules| {
        EraseMember(rules, i, l);
      }
    }
  }

  // ----- removal of equal rules -----

  /** The position of the first equal rule, the length if there is none. */
  function IndexOf(rules: seq<LowRule>, l: LowRule): (p: nat)
    ensures p <= |rules| && (p < |rules| ==> SameFlow(rules[p], l))
    ensures forall j :: 0 <= j < p ==> !SameFlow(rules[j], l)
  {
    if rules == [] || SameFlow(rules[0], l) then 0 else 1 + IndexOf(rules[1..], l)
  }

  /** Erases, for each rule given, the first equal one; none left fails an assertion. */
  function Minus(rules: seq<LowRule>, gone: seq<LowRule>): Option<seq<LowRule>> {
    if gone == [] then Some(rules)
    else if IndexOf(rules, gone[0]) == |rules| then None
    else Minus(Erase(rules, IndexOf(rules, gone[0])), gone[1..])
  }

  method RemoveRules(rules: seq<LowRule>, gone: seq<LowRule>) returns (rest: Option<seq<LowRule>>)
    ensures rest == Minus(rules, gone)
  {
    var left := rules;
    for n := 0 to |gone|
      invariant Minus(rules, gone) == Minus(left, gone[n..])
    {
      var i := 0;
      while i < |left| && !SameFlow(left[i], gone[n])
        invariant i <= IndexOf(left, gone[n])
      {
        i := i + 1;
      }
      if i == |left| {
        return None;
      }
      left := left[..i] + left[i + 1..];
    }
    return Some(left);
  }

  function Class(rules: seq<LowRule>, l: LowRule): set<LowRule> {
    set k | k in rules && SameFlow(k, l)
  }

  lemma ClassErase(rules: seq<LowRule>, i: nat, l: LowRule)
    requires UniqueIds(rules) && i < |rules|
    ensures |Class(Erase(rules, i), l)| == |Class(rules, l)| - if SameFlow(rules[i], l) then 1 else 0
  {
    EraseMembers(rules, i);
    if SameFlow(rules[i], l) {
      assert Class(rules, l) == Class(Erase(rules, i), l) + {rules[i]};
    } else {
      assert Class(rules, l) == Class(Erase(rules, i), l);
    }
  }

  lemma ClassGrows(few: seq<LowRule>, many: seq<LowRule>, l: LowRule)
    requires forall k :: k in few ==> k in many
    ensures |Class(few, l)| <= |Class(many, l)|
  {
    var rest := Class(many, l) - Class(few, l);
    assert Class(many, l) == Class(few, l) + rest;
  }

  /** Every flow to remove is there at least as often as it is asked for. */
  ghost predicate Covers(rules: seq<LowRule>, gone: seq<LowRule>) {
    forall l :: l in gone ==> |Class(rules, l)| >= |Class(gone, l)|
  }

  lemma CoversStep(rules: seq<LowRule>, gone: seq<LowRule>)
    requires UniqueIds(rules) && UniqueIds(gone) && Covers(rules, gone) && gone != []
    ensures IndexOf(rules, gone[0]) < |rules| && Covers(Erase(rules, IndexOf(rules, gone[0])), gone[1..])
  {
    var l := gone[0];
    var i := IndexOf(rules, l);
    assert l in Class(gone, l);
    assert Class(rules, l) != {};
    assert gone[1..] == Erase(gone, 0);
    forall k | k in gone[1..]
      ensures |Class(Erase(rules, i), k)| >= |Class(gone[1..], k)|
    {
      ClassErase(rules, i, k);
      ClassErase(gone, 0, k);
    }
  }

  /** The removal then succeeds, takes only equal rules, and takes as many as it is given. */
  lemma {:induction false} MinusCounts(rules: seq<LowRule>, gone: seq<LowRule>)
    requires UniqueIds(rules) && UniqueIds(gone) && Covers(rules, gone)
    ensures Minus(rules, gone).Some? && UniqueIds(Minus(rules, gone).value)
    ensures forall k :: k in Minus(rules, gone).value ==> k in rules
    ensures forall k :: k in rules && (forall l :: l in gone ==> !SameFlow(k, l)) ==> k in Minus(rules, gone).value
    ensures forall l :: |Class(Minus(rules, gone).value, l)| == |Class(rules, l)| - |Class(gone, l)|
  {
    if gone != [] {
      var i := IndexOf(rules, gone[0]);
      var rest := Erase(rules, i);
      CoversStep(rules, gone);
      EraseMembers(rules, i);
      MinusCounts(rest, gone[1..]);
      assert gone[1..] == Erase(gone, 0);
      forall l
        ensures |Class(Minus(rules, gone).value, l)| == |Class(rules, l)| - |Class(gone, l)|
      {
        ClassErase(rules, i, l);
        ClassErase(gone, 0, l);
      }
    } else {
      forall l ensures Class(gone, l) == {} {
      }
    }
  }

  /** Whatever the ids, only equal rules are taken. */
  lemma {:induction false} MinusMembers(rules: seq<LowRule>, gone: seq<LowRule>, l: LowRule)
    requires Minus(rules, gone).Some?
    ensures l in Minus(rules, gone).value ==> l in rules
    ensures l in rules && l !in Minus(rules, gone).value ==> exists x :: x in gone && SameFlow(l, x)
  {
    if gone != [] {
      var i := IndexOf(rules, gone[0]);
      MinusMembers(Erase(rules, i), gone[1..], l);
      EraseMember(rules, i, l);
    }
  }

  lemma {:induction false} MinusUnique(rules: seq<LowRule>, gone: seq<LowRule>)
    requires UniqueIds(rules) && Minus(rules, gone).Some?
    ensures UniqueIds(Minus(rules, gone).value)
  {
    if gone != [] {
      var i := IndexOf(rules, gone[0]);
      EraseMembers(rules, i);
      MinusUnique(Erase(rules, i), gone[1..]);
    }
  }

  // ----- which of several equal rules goes -----

  function Members(rules: seq<LowRule>): set<LowRule> {
    set l | l in rules
  }

  /** No other rule comes before an equal one of `own`. */
  ghost predicate First(rules: seq<LowRule>, own: set<LowRule>) {
    forall i, j :: 0 <= i < j < |rules| && rules[i] !in own && rules[j] in own ==> !SameFlow(rules[i], rules[j])
  }

  function OwnClass(rules: seq<LowRule>, own: set<LowRule>, l: LowRule): set<LowRule> {
    set k | k in rules && k in own && SameFlow(k, l)
  }

  /** Each flow is asked for as often as `own` has it. */
  ghost predicate Asked(rules: seq<LowRule>, gone: seq<LowRule>, own: set<LowRule>) {
    UniqueIds(rules) && UniqueIds(gone) && forall l :: |Class(gone, l)| == |OwnClass(rules, own, l)|
  }

  lemma OwnClassErase(rules: seq<LowRule>, own: set<LowRule>, i: nat, l: LowRule)
    requires UniqueIds(rules) && i < |rules| && rules[i] in own
    ensures |OwnClass(Erase(rules, i), own, l)| == |OwnClass(rules, own, l)| - if SameFlow(rules[i], l) then 1 else 0
  {
    EraseMembers(rules, i);
    if SameFlow(rules[i], l) {
      assert OwnClass(rules, own, l) == OwnClass(Erase(rules, i), own, l) + {rules[i]};
    } else {
      assert OwnClass(rules, own, l) == OwnClass(Erase(rules, i), own, l);
    }
  }

  lemma AskedFound(rules: seq<LowRule>, gone: seq<LowRule>, own: set<LowRule>)
    requires Asked(rules, gone, own) && gone != []
    ensures IndexOf(rules, gone[0]) < |rules|
    ensures exists j :: IndexOf(rules, gone[0]) <= j < |rules| && rules[j] in own && SameFlow(rules[j], gone[0])
  {
    assert gone[0] in Class(gone, gone[0]);
    assert OwnClass(rules, own, gone[0]) != {};
    var k :| k in OwnClass(rules, own, gone[0]);
    var j :| 0 <= j < |rules| && rules[j] == k;
    assert SameFlow(rules[j], gone[0]);
  }

  lemma AskedNext(rules: seq<LowRule>, gone: seq<LowRule>, own: set<LowRule>, i: nat)
    requires Asked(rules, gone, own) && gone != [] && i < |rules| && rules[i] in own && SameFlow(rules[i], gone[0])
    ensures Asked(Erase(rules, i), gone[1..], own)
  {
    EraseMembers(rules, i);
    assert gone[1..] == Erase(gone, 0);
    EraseMembers(gone, 0);
    forall l
      ensures |Class(gone[1..], l)| == |OwnClass(Erase(rules, i), own, l)|
    {
      ClassErase(gone, 0, l);
      OwnClassErase(rules, own, i, l);
    }
  }

  lemma FirstNext(rules: seq<LowRule>, own: set<LowRule>, i: nat)
    requires First(rules, own) && i < |rules|
    ensures First(Erase(rules, i), own)
  {
    var rest := Erase(rules, i);
    forall a, b | 0 <= a < b < |rest| && rest[a] !in own && rest[b] in own
      ensures !SameFlow(rest[a], rest[b])
    {
      assert rest[a] == rules[if a < i then a else a + 1] && rest[b] == rules[if b < i then b else b + 1];
    }
  }

  lemma {:induction false} MinusFirst(rules: seq<LowRule>, gone: seq<LowRule>, own: set<LowRule>)
    requires Asked(rules, gone, own) && First(rules, own)
    ensures Minus(rules, gone).Some? && forall k :: k in Minus(rules, gone).value <==> k in rules && k !in own
    decreases gone
  {
    if gone == [] {
      forall k | k in rules
        ensures k !in own
      {
        assert Class(gone, k) == {};
        assert k in own ==> k in OwnClass(rules, own, k);
      }
    } else {
      var i := IndexOf(rules, gone[0]);
      AskedFound(rules, gone, own);
      assert rules[i] in own;
      AskedNext(rules, gone, own, i);
      FirstNext(rules, own, i);
      MinusFirst(Erase(rules, i), gone[1..], own);
      EraseMembers(rules, i);
    }
  }

  lemma NotFirstNext(rules: seq<LowRule>, own: set<LowRule>, i: nat, a: nat, b: nat)
    requires i < |rules| && a < b < |rules| && i != a && i != b && rules[a] !in own && rules[b] in own
    requires SameFlow(rules[a], rules[b])
    ensures !First(Erase(rules, i), own)
  {
    var rest := Erase(rules, i);
    var a', b' := if a < i then a else a - 1, if b < i then b else b - 1;
    assert rest[a'] == rules[a] && rest[b'] == rules[b];
  }

  lemma OwnAsked(rules: seq<LowRule>, gone: seq<LowRule>, own: set<LowRule>, b: nat)
    requires Asked(rules, gone, own) && b < |rules| && rules[b] in own
    ensures gone != []
  {
    assert rules[b] in OwnClass(rules, own, rules[b]);
    assert Class(gone, rules[b]) != {};
  }

  /** If an equal rule of somebody else comes first, somebody else loses a rule. */
  lemma {:induction false} MinusNotFirst(rules: seq<LowRule>, gone: seq<LowRule>, own: set<LowRule>)
      returns (lost: LowRule)
    requires Asked(rules, gone, own) && !First(rules, own) && Minus(rules, gone).Some?
    ensures lost in rules && lost !in own && lost !in Minus(rules, gone).value
    decreases gone
  {
    var a, b :| 0 <= a < b < |rules| && rules[a] !in own && rules[b] in own && SameFlow(rules[a], rules[b]);
    OwnAsked(rules, gone, own, b);
    var i := IndexOf(rules, gone[0]);
    EraseMembers(rules, i);
    MinusMembers(Erase(rules, i), gone[1..], rules[i]);
    lost := rules[i];
    if rules[i] in own {
      assert i != b by {
        assert i == b ==> SameFlow(rules[a], gone[0]);
      }
      AskedNext(rules, gone, own, i);
      NotFirstNext(rules, own, i, a, b);
      lost := MinusNotFirst(Erase(rules, i), gone[1..], own);
    }
  }

  lemma MineAsked(rules: seq<LowRule>, mine: seq<LowRule>)
    requires UniqueIds(rules) && UniqueIds(mine) && forall l :: l in mine ==> l in rules
    ensures Asked(rules, mine, Members(mine))
  {
    forall l
      ensures Class(mine, l) == OwnClass(rules, Members(mine), l)
    {
    }
  }

  /** Taking a graph's rules out of the list takes exactly these rules if and only if nobody else's
      equal rule comes before one of them. */
  lemma MinusExactly(rules: seq<LowRule>, mine: seq<LowRule>)
    requires UniqueIds(rules) && UniqueIds(mine) && forall l :: l in mine ==> l in rules
    ensures Minus(rules, mine).Some?
    ensures (forall k :: k in Minus(rules, mine).value <==> k in rules && k !in mine) <==> First(rules, Members(mine))
  {
    var own := Members(mine);
    MineAsked(rules, mine);
    forall l | l in mine
      ensures |Class(rules, l)| >= |Class(mine, l)|
    {
      ClassGrows(mine, rules, l);
    }
    MinusCounts(rules, mine);
    if First(rules, own) {
      MinusFirst(rules, mine, own);
    } else {
      var lost := MinusNotFirst(rules, mine, own);
    }
  }
}

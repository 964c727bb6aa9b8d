/** How an update compares two versions of a graph: by rule id. */
module RuleDiff {
  import opened HighLevel
  import opened Translator
  import opened Seqs

  ghost predicate HasId(rules: seq<Rule>, id: string) {
    exists h :: h in rules && h.id == id
  }

  /** The rules of `other` whose id `mine` does not have, in order. */
  ghost function Missing(mine: seq<Rule>, other: seq<Rule>): seq<Rule> {
    if other == [] then []
    else
      var most, last := Missing(mine, other[..|other| - 1]), other[|other| - 1];
      if HasId(mine, last.id) then most else most + [last]
  }

  lemma {:induction false} MissingMembers(mine: seq<Rule>, other: seq<Rule>)
    ensures forall h :: h in Missing(mine, other) <==> h in other && !HasId(mine, h.id)
    ensures DistinctRules(other) ==> DistinctRules(Missing(mine, other))
  {
    if other != [] {
      var most, last := other[..|other| - 1], other[|other| - 1];
      MissingMembers(mine, most);
      assert forall h :: h in other <==> h in most || h == last;
    }
  }

  /** They keep their order. */
  lemma {:induction false} MissingInOrder(mine: seq<Rule>, first: seq<Rule>, rest: seq<Rule>)
    ensures Missing(mine, first + rest) == Missing(mine, first) + Missing(mine, rest)
  {
    if rest == [] {
      assert first + rest == first;
    } else {
      var n := |rest| - 1;
      MissingInOrder(mine, first, rest[..n]);
      assert (first + rest)[..|first + rest| - 1] == first + rest[..n];
    }
  }

  method CalculateDiffRules(mine: seq<Rule>, other: seq<Rule>) returns (news: seq<Rule>)
    ensures news == Missing(mine, other)
  {
    news := [];
    for i := 0 to |other|
      invariant news == Missing(mine, other[..i])
    {
      assert other[..i + 1][..i] == other[..i];
      var k := 0;
      while k < |mine| && other[i].id != mine[k].id
        invariant k <= |mine| && forall j :: 0 <= j < k ==> mine[j].id != other[i].id
      {
        k := k + 1;
      }
      if k == |mine| {
        news := news + [other[i]];
      } else {
        assert mine[k] in mine;
      }
    }
    assert other[..|other|] == other;
  }

  /** The position of the first rule of this id, the length if there is none. */
  function IndexOf(rules: seq<Rule>, id: string): (p: nat)
    ensures p <= |rules| && (p < |rules| ==> rules[p].id == id)
    ensures forall j :: 0 <= j < p ==> rules[j].id != id
  {
    if rules == [] || rules[0].id == id then 0 else 1 + IndexOf(rules[1..], id)
  }

  function WithoutRules(rules: seq<Rule>, gone: seq<Rule>): seq<Rule> {
    if gone == [] then rules
    else
      var most := WithoutRules(rules, gone[..|gone| - 1]);
      Erase(most, IndexOf(most, gone[|gone| - 1].id))
  }

  lemma EraseMembers(rules: seq<Rule>, i: nat)
    requires DistinctRules(rules) && i < |rules|
    ensures DistinctRules(Erase(rules, i))
    ensures forall h :: h in Erase(rules, i) <==> h in rules && h.id != rules[i].id
  {
    EraseAt(rules, i);
    forall h {
      EraseMember(rules, i, h);
    }
  }

  lemma EraseFirst(rules: seq<Rule>, id: string)
    requires DistinctRules(rules)
    ensures DistinctRules(Erase(rules, IndexOf(rules, id)))
    ensures forall h :: h in Erase(rules, IndexOf(rules, id)) <==> h in rules && h.id != id
  {
    if IndexOf(rules, id) < |rules| {
      EraseMembers(rules, IndexOf(rules, id));
    }
  }

  lemma {:induction false} WithoutRulesMembers(rules: seq<Rule>, gone: seq<Rule>)
    requires DistinctRules(rules)
    ensures DistinctRules(WithoutRules(rules, gone))
    ensures forall h :: h in WithoutRules(rules, gone) <==> h in rules && !HasId(gone, h.id)
  {
    if gone != [] {
      var most, last := gone[..|gone| - 1], gone[|gone| - 1];
      WithoutRulesMembers(rules, most);
      EraseFirst(WithoutRules(rules, most), last.id);
      assert forall h :: h in gone <==> h in most || h == last;
    }
  }

  /** Removes the rule of this id and reports the name its action used. */
  method RemoveRuleFromId(rules: seq<Rule>, id: string) returns (rest: seq<Rule>, name: LinkName)
    requires IndexOf(rules, id) < |rules|
    ensures rest == Erase(rules, IndexOf(rules, id)) && name == rules[IndexOf(rules, id)].To().Key()
  {
    var i := 0;
    while rules[i].id != id
      invariant i <= IndexOf(rules, id)
      decreases |rules| - i
    {
      i := i + 1;
    }
    return rules[..i] + rules[i + 1..], rules[i].To().Key();
  }

  lemma StillThere(rules: seq<Rule>, gone: seq<Rule>, n: nat)
    requires DistinctRules(rules) && DistinctRules(gone) && (forall h :: h in gone ==> h in rules) && n < |gone|
    ensures var rest := WithoutRules(rules, gone[..n]);
      IndexOf(rest, gone[n].id) < |rest| && rest[IndexOf(rest, gone[n].id)] == gone[n]
  {
    var rest := WithoutRules(rules, gone[..n]);
    WithoutRulesMembers(rules, gone[..n]);
    assert gone[n] in gone;
    assert gone[n] in rest;
    var i := IndexOf(rest, gone[n].id);
    SameRule(rest, rest[i], gone[n]);
  }

  lemma WithoutNext(rules: seq<Rule>, gone: seq<Rule>, n: nat)
    requires n < |gone|
    ensures var most := WithoutRules(rules, gone[..n]);
      WithoutRules(rules, gone[..n + 1]) == Erase(most, IndexOf(most, gone[n].id))
  {
    assert gone[..n + 1][..n] == gone[..n];
  }

  method RemoveRules(rules: seq<Rule>, gone: seq<Rule>) returns (rest: seq<Rule>, names: seq<LinkName>)
    requires DistinctRules(rules) && DistinctRules(gone) && forall h :: h in gone ==> h in rules
    ensures rest == WithoutRules(rules, gone)
    ensures |names| == |gone| && forall i :: 0 <= i < |gone| ==> names[i] == gone[i].To().Key()
  {
    rest, names := rules, [];
    for n := 0 to |gone|
      invariant rest == WithoutRules(rules, gone[..n])
      invariant |names| == n && forall i :: 0 <= i < n ==> names[i] == gone[i].To().Key()
    {
      WithoutNext(rules, gone, n);
      StillThere(rules, gone, n);
      var name;
      rest, name := RemoveRuleFromId(rest, gone[n].id);
      names := names + [name];
    }
    assert gone[..|gone|] == gone;
  }

  // ----- what an update makes of a graph -----

  /** The rules after an update from `mine` to `target`: add what is missing, then remove what is not wanted. */
  ghost function Merged(mine: seq<Rule>, target: seq<Rule>): seq<Rule> {
    var grown := mine + Missing(mine, target);
    WithoutRules(grown, Missing(target, grown))
  }

  lemma GrownDistinct(mine: seq<Rule>, target: seq<Rule>)
    requires DistinctRules(mine) && DistinctRules(target)
    ensures DistinctRules(mine + Missing(mine, target))
  {
    MissingMembers(mine, target);
    var news := Missing(mine, target);
    forall i, j | 0 <= i < j < |mine + news|
      ensures (mine + news)[i].id != (mine + news)[j].id
    {
      if i < |mine| <= j {
        assert mine[i] in mine && news[j - |mine|] in news;
      }
    }
  }

  /** A rule stays if the target has its id; a rule of the target comes in only under a new id. */
  lemma MergedMembers(mine: seq<Rule>, target: seq<Rule>)
    requires DistinctRules(mine) && DistinctRules(target)
    ensures DistinctRules(Merged(mine, target))
    ensures forall h :: h in Merged(mine, target) <==>
      (h in mine && HasId(target, h.id)) || (h in target && !HasId(mine, h.id))
  {
    var grown := mine + Missing(mine, target);
    GrownDistinct(mine, target);
    MissingMembers(mine, target);
    MissingMembers(target, grown);
    WithoutRulesMembers(grown, Missing(target, grown));
  }

  /** Removed are the rules of the old version whose id is gone. */
  lemma RemovedMembers(mine: seq<Rule>, target: seq<Rule>)
    ensures forall h :: h in Missing(target, mine + Missing(mine, target)) <==> h in mine && !HasId(target, h.id)
  {
    MissingMembers(mine, target);
    MissingMembers(target, mine + Missing(mine, target));
  }

  /** A rule that reuses an id with a new body is ignored: the update reaches the target exactly
      when no id is shared by different rules. */
  lemma UpdateReachesTarget(mine: seq<Rule>, target: seq<Rule>)
    requires DistinctRules(mine) && DistinctRules(target)
    ensures (forall h :: h in Merged(mine, target) <==> h in target)
            <==> (forall a, b :: a in mine && b in target && a.id == b.id ==> a == b)
  {
    MergedMembers(mine, target);
    if forall a, b :: a in mine && b in target && a.id == b.id ==> a == b {
      forall h
        ensures h in Merged(mine, target) <==> h in target
      {
      }
    }
    if forall h :: h in Merged(mine, target) <==> h in target {
      forall a, b | a in mine && b in target && a.id == b.id
        ensures a == b
      {
        assert a in Merged(mine, target);
        SameRule(target, a, b);
      }
    }
  }

  /** The concrete case: a rule is redirected under its old id, and stays as it was. */
  lemma RedirectedRuleIgnored(old': Rule, new': Rule)
    requires old'.id == new'.id && old' != new'
    ensures old' in Merged([old'], [new']) && new' !in Merged([old'], [new'])
  {
    MergedMembers([old'], [new']);
  }
}

/** Which edit operations a diff carries, and which a merge leaves behind. */
module YangMarks {
  import opened Options
  import opened Yang

  // ----- what a diff shows -----

  /** The diff of the two shows anything. */
  ghost predicate Shown(t: Tree, b: Tree)
    requires Alike(t, b)
    decreases t, 1
  {
    match (t, b)
    case (Leaf(data, _), Leaf(data', _)) => data != data'
    case (Container(kids), Container(_)) => exists k :: k in kids && ShownKid(t, b, k)
    case (Entry(tag, kids, _), Entry(_, _, _)) => exists k :: k in kids && k != tag && ShownKid(t, b, k)
    case (List(items), List(items')) =>
      exists key :: ShownItem(t, b, key)
    case _ => false
  }

  /** An entry only one of the two has, or one that differs. */
  ghost predicate ShownItem(t: Tree, b: Tree, key: string)
    requires Alike(t, b) && t.List? && b.List?
    decreases t, 0
  {
    if key in t.items && key in b.items then Shown(t.items[key], b.items[key]) else key in t.items || key in b.items
  }

  /** An attribute the diff does not compare is shown as it is. */
  ghost predicate ShownKid(t: Tree, b: Tree, k: string)
    requires Alike(t, b) && ((t.Container? && b.Container?) || (t.Entry? && b.Entry?)) && k in t.kids
    decreases t, 0
  {
    if Whole(t, b, k) then Init(t.kids[k]) else Shown(t.kids[k], b.kids[k])
  }

  /** The attribute is not compared: it is one the diff skips, or it has no counterpart. */
  ghost predicate Whole(t: Tree, b: Tree, k: string)
    requires Alike(t, b) && ((t.Container? && b.Container?) || (t.Entry? && b.Entry?)) && k in t.kids
  {
    Skipped(t, k) || t.kids[k].Nothing? || b.kids[k].Nothing?
  }

  // ----- the operations of a diff -----

  /** A compared leaf is marked for what becomes of its data; only a deleted one shows the data of the base. */
  ghost predicate MarksLeaf(d: Tree, data: Option<string>, data': Option<string>) {
    && d.Leaf?
    && (d.op == Create <==> data.Some? && data'.None?)
    && (d.op == Delete <==> data.None? && data'.Some?)
    && (d.op == Replace <==> data.Some? && data'.Some? && data != data')
    && d.data == if d.op == NoOp then None else if d.op == Delete then data' else data
  }

  ghost predicate MarksNew(d: Tree, e: Tree) {
    e.Entry? && d == Entry(e.tag, e.kids, Create)
  }

  /** The key of an entry that is to go, and nothing else of it. */
  ghost predicate MarksGone(d: Tree, e: Tree) {
    && d.Entry? && e.Entry? && d.op == Delete && d.tag == e.tag && d.kids.Keys == e.kids.Keys
    && forall k :: k in e.kids ==> d.kids[k] == if k == e.tag then e.kids[k] else Nothing
  }

  /** `d` is the difference of the two, marked: leaf by leaf, and entry by entry. */
  ghost predicate Marks(d: Tree, t: Tree, b: Tree)
    requires Alike(t, b)
    decreases t, 1
  {
    match (t, b)
    case (Leaf(data, _), Leaf(data', _)) => MarksLeaf(d, data, data')
    case (Container(kids), Container(_)) =>
      d.Container? && d.kids.Keys == kids.Keys && forall k :: k in kids ==> MarksKid(d.kids[k], t, b, k)
    case (Entry(tag, kids, _), Entry(_, _, _)) =>
      && d.Entry? && d.tag == tag && d.op == NoOp && d.kids.Keys == kids.Keys
      && forall k :: k in kids ==> MarksKid(d.kids[k], t, b, k)
    case (List(items), List(items')) =>
      && d.List?
      && (forall key :: key in d.items <==> ShownItem(t, b, key))
      && (forall key :: key in d.items && key in items && key !in items' ==> MarksNew(d.items[key], items[key]))
      && (forall key :: key in d.items && key !in items ==> MarksGone(d.items[key], items'[key]))
      && (forall key :: key in d.items && key in items && key in items' ==>
           Marks(d.items[key], items[key], items'[key]))
    case _ => false
  }

  ghost predicate MarksKid(d: Tree, t: Tree, b: Tree, k: string)
    requires Alike(t, b) && ((t.Container? && b.Container?) || (t.Entry? && b.Entry?)) && k in t.kids
    decreases t, 0
  {
    if Whole(t, b, k) then d == t.kids[k]
    else if t.kids[k].Leaf? || Shown(t.kids[k], b.kids[k]) then Marks(d, t.kids[k], b.kids[k])
    else d.Nothing?
  }

  // ----- a diff is marked like that -----

  lemma DiffKidShown(t: Tree, b: Tree, k: string)
    requires Alike(t, b) && ((t.Container? && b.Container?) || (t.Entry? && b.Entry?)) && k in t.kids && OpFree(t)
    requires !Whole(t, b, k) ==> (Init(Diff(t.kids[k], b.kids[k])) <==> Shown(t.kids[k], b.kids[k]))
    ensures Init(Diff(t, b).kids[k]) <==> ShownKid(t, b, k)
  {
  }

  lemma DiffItemsShown(t: Tree, b: Tree)
    requires t.List? && b.List? && Alike(t, b)
    requires forall key :: key in t.items && key in b.items ==>
      (Init(Diff(t.items[key], b.items[key])) <==> Shown(t.items[key], b.items[key]))
    ensures forall key :: key in Diff(t, b).items <==> ShownItem(t, b, key)
    ensures Init(Diff(t, b)) <==> Shown(t, b)
  {
    var d := Diff(t, b);
    forall key
      ensures key in d.items <==> ShownItem(t, b, key)
    {
    }
    assert Init(d) <==> d.items != map[];
    assert d.items != map[] <==> exists key :: key in d.items;
  }

  lemma {:induction false} DiffShown(t: Tree, b: Tree)
    requires !t.Nothing? && !b.Nothing? && Alike(t, b) && OpFree(t) && OpFree(b)
    ensures Init(Diff(t, b)) <==> Shown(t, b)
  {
    match t
    case Leaf(_, _) =>
    case Container(kids) =>
      forall k | k in kids && !Whole(t, b, k) {
        DiffShown(kids[k], b.kids[k]);
      }
      forall k | k in kids {
        DiffKidShown(t, b, k);
      }
    case Entry(_, kids, _) =>
      forall k | k in kids && !Whole(t, b, k) {
        DiffShown(kids[k], b.kids[k]);
      }
      forall k | k in kids {
        DiffKidShown(t, b, k);
      }
    case List(items) =>
      forall key | key in items && key in b.items {
        DiffShown(items[key], b.items[key]);
      }
      DiffItemsShown(t, b);
  }

  lemma DiffKidMarks(t: Tree, b: Tree, k: string)
    requires Alike(t, b) && ((t.Container? && b.Container?) || (t.Entry? && b.Entry?)) && k in t.kids
    requires !Whole(t, b, k) ==>
      && (Init(Diff(t.kids[k], b.kids[k])) <==> Shown(t.kids[k], b.kids[k]))
      && Marks(Diff(t.kids[k], b.kids[k]), t.kids[k], b.kids[k])
    ensures MarksKid(Diff(t, b).kids[k], t, b, k)
  {
  }

  lemma DiffItemMarks(t: Tree, b: Tree, key: string)
    requires t.List? && b.List? && Alike(t, b) && OpFree(t) && OpFree(b) && Proper(t) && Proper(b)
    requires key in Diff(t, b).items
    ensures key in t.items && key !in b.items ==> MarksNew(Diff(t, b).items[key], t.items[key])
    ensures key !in t.items ==> MarksGone(Diff(t, b).items[key], b.items[key])
  {
  }

  /** The diff of trees without operations is marked so: a compared leaf `Create` if only the target has data,
      `Delete` if only the base has, `Replace` if both have and differ; an entry `Create` if only the target has
      its key, `Delete` if only the base has. */
  lemma {:induction false} DiffMarks(t: Tree, b: Tree)
    requires !t.Nothing? && !b.Nothing? && Alike(t, b) && OpFree(t) && OpFree(b) && Proper(t) && Proper(b)
    ensures Marks(Diff(t, b), t, b)
  {
    match t
    case Leaf(_, _) =>
    case Container(kids) =>
      forall k | k in kids
        ensures MarksKid(Diff(t, b).kids[k], t, b, k)
      {
        if !Whole(t, b, k) {
          DiffMarks(kids[k], b.kids[k]);
          DiffShown(kids[k], b.kids[k]);
        }
        DiffKidMarks(t, b, k);
      }
    case Entry(_, kids, _) =>
      forall k | k in kids
        ensures MarksKid(Diff(t, b).kids[k], t, b, k)
      {
        if !Whole(t, b, k) {
          DiffMarks(kids[k], b.kids[k]);
          DiffShown(kids[k], b.kids[k]);
        }
        DiffKidMarks(t, b, k);
      }
    case List(items) =>
      forall key | key in items && key in b.items
        ensures Init(Diff(items[key], b.items[key])) <==> Shown(items[key], b.items[key])
        ensures Marks(Diff(items[key], b.items[key]), items[key], b.items[key])
      {
        DiffShown(items[key], b.items[key]);
        DiffMarks(items[key], b.items[key]);
      }
      DiffItemsShown(t, b);
      forall key | key in Diff(t, b).items {
        DiffItemMarks(t, b, key);
      }
  }

  lemma MarksGoneOnce(d: Tree, d': Tree, e: Tree)
    requires MarksGone(d, e) && MarksGone(d', e)
    ensures d == d'
  {
    assert d.kids == d'.kids;
  }

  lemma AttributesOnce(d: Tree, d': Tree)
    requires (d.Container? && d'.Container?) || (d.Entry? && d'.Entry? && d.tag == d'.tag && d.op == d'.op)
    requires d.kids.Keys == d'.kids.Keys && forall k :: k in d.kids ==> d.kids[k] == d'.kids[k]
    ensures d == d'
  {
    assert d.kids == d'.kids;
  }

  lemma ItemsOnce(d: Tree, d': Tree, t: Tree, b: Tree)
    requires Alike(t, b) && Marks(d, t, b) && Marks(d', t, b) && t.List?
    requires forall key :: key in d.items && key in d'.items ==> d.items[key] == d'.items[key]
    ensures d == d'
  {
    forall key
      ensures key in d.items <==> key in d'.items
    {
      assert key in d.items <==> ShownItem(t, b, key);
    }
    assert d.items == d'.items;
  }

  /** Nothing else is marked so. */
  lemma {:induction false} MarksOnce(d: Tree, d': Tree, t: Tree, b: Tree)
    requires Alike(t, b) && Marks(d, t, b) && Marks(d', t, b)
    ensures d == d'
    decreases t
  {
    if t.Container? || t.Entry? {
      forall k | k in t.kids
        ensures d.kids[k] == d'.kids[k]
      {
        assert MarksKid(d.kids[k], t, b, k) && MarksKid(d'.kids[k], t, b, k);
        if Marks(d.kids[k], t.kids[k], b.kids[k]) && Marks(d'.kids[k], t.kids[k], b.kids[k]) {
          MarksOnce(d.kids[k], d'.kids[k], t.kids[k], b.kids[k]);
        }
      }
      AttributesOnce(d, d');
    } else if t.List? {
      forall key | key in d.items && key in d'.items
        ensures d.items[key] == d'.items[key]
      {
        if key !in t.items {
          MarksGoneOnce(d.items[key], d'.items[key], b.items[key]);
        } else if key in b.items {
          MarksOnce(d.items[key], d'.items[key], t.items[key], b.items[key]);
        }
      }
      ItemsOnce(d, d', t, b);
    }
  }

  /** So this says all about a diff. */
  lemma DiffMarksExactly(d: Tree, t: Tree, b: Tree)
    requires !t.Nothing? && !b.Nothing? && Alike(t, b) && OpFree(t) && OpFree(b) && Proper(t) && Proper(b)
    ensures Marks(d, t, b) <==> d == Diff(t, b)
  {
    DiffMarks(t, b);
    if Marks(d, t, b) {
      MarksOnce(d, Diff(t, b), t, b);
    }
  }

  // ----- the operations a merge leaves behind -----

  /** Whatever is merged: an operation of the diff is taken over, and otherwise the base keeps its own. */
  lemma MergeTakesOp(b: Tree, d: Tree)
    requires (b.Leaf? && d.Leaf? && d.data.Some?) || (b.Entry? && d.Entry? && Init(d))
    requires d.op != Delete
    ensures (Merge(b, d).Leaf? <==> b.Leaf?) && (Merge(b, d).Entry? <==> b.Entry?)
    ensures Merge(b, d).op == d.op || (d.op == NoOp && Merge(b, d).op == b.op)
    ensures d.op != NoOp ==> Merge(b, d).op == d.op
  {
  }

  /** `m` is the base with the diff merged into it: what was added or changed is still marked, what was deleted
      is gone, and nothing else is marked. */
  ghost predicate Noted(m: Tree, t: Tree, b: Tree)
    requires Alike(t, b)
    decreases t, 1
  {
    match (t, b)
    case (Leaf(data, _), Leaf(data', _)) =>
      m == Leaf(data, if data.None? || data == data' then NoOp else if data'.None? then Create else Replace)
    case (Container(kids), Container(_)) =>
      m.Container? && m.kids.Keys == kids.Keys && forall k :: k in kids ==> NotedKid(m.kids[k], t, b, k)
    case (Entry(tag, kids, _), Entry(_, _, _)) =>
      && m.Entry? && m.tag == tag && m.op == NoOp && m.kids.Keys == kids.Keys
      && forall k :: k in kids ==> NotedKid(m.kids[k], t, b, k)
    case (List(items), List(items')) =>
      && m.List? && m.items.Keys == items.Keys
      && (forall key :: key in items && key !in items' ==> MarksNew(m.items[key], items[key]))
      && (forall key :: key in items && key in items' ==> Noted(m.items[key], items[key], items'[key]))
    case _ => false
  }

  ghost predicate NotedKid(m: Tree, t: Tree, b: Tree, k: string)
    requires Alike(t, b) && ((t.Container? && b.Container?) || (t.Entry? && b.Entry?)) && k in t.kids
    decreases t, 0
  {
    if Skipped(t, k) then OpFree(m)
    else if t.kids[k].Nothing? then m == b.kids[k]
    else if b.kids[k].Nothing? then m == t.kids[k] || (m.Nothing? && !Init(t.kids[k]))
    else Noted(m, t.kids[k], b.kids[k])
  }

  lemma MergeKidsOpFree(b: Tree, d: Tree)
    requires OpFree(b) && OpFree(d) && ((b.Container? && d.Container?) || (b.Entry? && d.Entry?))
    requires forall k :: k in b.kids && k in d.kids ==> OpFree(MergeKid(b.kids[k], d.kids[k]))
    ensures OpFree(Merge(b, d))
  {
  }

  lemma MergeItemsOpFree(b: Tree, d: Tree)
    requires OpFree(b) && OpFree(d) && b.List? && d.List?
    requires forall key :: key in b.items && key in d.items ==>
      OpFree(Merge(b.items[key], d.items[key])) && Merge(b.items[key], d.items[key]).Entry?
    ensures OpFree(Merge(b, d))
  {
  }

  lemma {:induction false} MergeOpFree(b: Tree, d: Tree)
    requires OpFree(b) && OpFree(d)
    ensures OpFree(Merge(b, d)) && OpFree(MergeKid(b, d))
    decreases d
  {
    if (b.Container? && d.Container?) || (b.Entry? && d.Entry?) {
      forall k | k in b.kids && k in d.kids {
        MergeOpFree(b.kids[k], d.kids[k]);
      }
      MergeKidsOpFree(b, d);
    } else if b.List? && d.List? {
      forall key | key in b.items && key in d.items
        ensures OpFree(Merge(b.items[key], d.items[key])) && Merge(b.items[key], d.items[key]).Entry?
      {
        MergeOpFree(b.items[key], d.items[key]);
      }
      MergeItemsOpFree(b, d);
    }
  }

  /** Where the diff shows nothing, the base itself is marked so. */
  lemma {:induction false} HiddenNoted(t: Tree, b: Tree)
    requires !t.Nothing? && !b.Nothing? && Alike(t, b) && OpFree(b) && !Shown(t, b)
    ensures Noted(b, t, b)
  {
    match t
    case Leaf(_, _) =>
    case Container(kids) =>
      forall k | k in kids
        ensures NotedKid(b.kids[k], t, b, k)
      {
        assert !ShownKid(t, b, k);
        if !Whole(t, b, k) {
          HiddenNoted(kids[k], b.kids[k]);
        }
      }
    case Entry(tag, kids, _) =>
      forall k | k in kids
        ensures NotedKid(b.kids[k], t, b, k)
      {
        assert k != tag ==> !ShownKid(t, b, k);
        if !Whole(t, b, k) {
          HiddenNoted(kids[k], b.kids[k]);
        }
      }
    case List(items) =>
      forall key | key in items && key in b.items
        ensures Noted(b.items[key], items[key], b.items[key])
      {
        assert !ShownItem(t, b, key);
        HiddenNoted(items[key], b.items[key]);
      }
      forall key
        ensures key in items <==> key in b.items
      {
        assert !ShownItem(t, b, key);
      }
  }

  lemma ComparedNoted(t: Tree, b: Tree)
    requires !t.Nothing? && !b.Nothing? && Alike(t, b) && OpFree(b)
    requires Init(Diff(t, b)) <==> Shown(t, b)
    requires Noted(Merge(b, Diff(t, b)), t, b)
    ensures Noted(MergeKid(b, DiffKid(t, b)), t, b)
  {
    if DiffKid(t, b).Nothing? {
      HiddenNoted(t, b);
    }
  }

  /** The induction step for one attribute. */
  lemma KidNoted(t: Tree, b: Tree, k: string)
    requires Alike(t, b) && ((t.Container? && b.Container?) || (t.Entry? && b.Entry?)) && k in t.kids
    requires OpFree(t.kids[k]) && OpFree(b.kids[k])
    requires !Whole(t, b, k) ==> Noted(MergeKid(b.kids[k], DiffKid(t.kids[k], b.kids[k])), t.kids[k], b.kids[k])
    ensures NotedKid(MergeKid(b.kids[k], Diff(t, b).kids[k]), t, b, k)
  {
    var d := Diff(t, b).kids[k];
    if Skipped(t, k) {
      assert d == t.kids[k];
      MergeOpFree(b.kids[k], d);
    } else {
      assert d == DiffKid(t.kids[k], b.kids[k]);
    }
  }

  lemma KidsNoted(t: Tree, b: Tree)
    requires !t.Nothing? && !b.Nothing? && Alike(t, b) && OpFree(t) && OpFree(b) && (t.Container? || t.Entry?)
    requires Init(Diff(t, b)) <==> Shown(t, b)
    requires forall k :: k in t.kids ==> NotedKid(MergeKid(b.kids[k], Diff(t, b).kids[k]), t, b, k)
    ensures Noted(Merge(b, Diff(t, b)), t, b)
  {
    if !Shown(t, b) {
      HiddenNoted(t, b);
    }
  }

  lemma LoneItemNoted(t: Tree, b: Tree, key: string)
    requires t.List? && b.List? && Alike(t, b) && OpFree(t) && OpFree(b) && Proper(t) && Proper(b)
    requires key !in t.items || key !in b.items
    ensures var m := Merge(b, Diff(t, b));
      && m.List? && (key in m.items <==> key in t.items)
      && (key in t.items ==> MarksNew(m.items[key], t.items[key]))
  {
  }

  lemma CommonItemNoted(t: Tree, b: Tree, key: string)
    requires t.List? && b.List? && Alike(t, b) && OpFree(b) && key in t.items && key in b.items
    requires Init(Diff(t.items[key], b.items[key])) <==> Shown(t.items[key], b.items[key])
    requires Noted(Merge(b.items[key], Diff(t.items[key], b.items[key])), t.items[key], b.items[key])
    ensures var m := Merge(b, Diff(t, b));
      m.List? && key in m.items && Noted(m.items[key], t.items[key], b.items[key])
  {
    if key !in Diff(t, b).items {
      HiddenNoted(t.items[key], b.items[key]);
    }
  }

  /** Merging a diff into its base marks what it adds as created, what it changes as replaced, and nothing else. */
  lemma {:induction false} MergeNotes(t: Tree, b: Tree)
    requires !t.Nothing? && !b.Nothing? && Alike(t, b) && OpFree(t) && OpFree(b) && Proper(t) && Proper(b)
    ensures Noted(Merge(b, Diff(t, b)), t, b)
  {
    DiffShown(t, b);
    if t.Container? || t.Entry? {
      forall k | k in t.kids
        ensures NotedKid(MergeKid(b.kids[k], Diff(t, b).kids[k]), t, b, k)
      {
        if !Whole(t, b, k) {
          DiffShown(t.kids[k], b.kids[k]);
          MergeNotes(t.kids[k], b.kids[k]);
          ComparedNoted(t.kids[k], b.kids[k]);
        }
        KidNoted(t, b, k);
      }
      KidsNoted(t, b);
    } else if t.List? {
      var m := Merge(b, Diff(t, b));
      forall key | key in t.items && key in b.items
        ensures key in m.items && Noted(m.items[key], t.items[key], b.items[key])
      {
        DiffShown(t.items[key], b.items[key]);
        MergeNotes(t.items[key], b.items[key]);
        CommonItemNoted(t, b, key);
      }
      forall key | key !in t.items || key !in b.items {
        LoneItemNoted(t, b, key);
      }
    }
  }
}

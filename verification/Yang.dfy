/** The tree library of the virtualizer: structural diff, and patch by executing the diff. */
module Yang {
  import opened Options

  /** The edit operations of section 7.2 of RFC 6241 that a diff marks. */
  datatype Op = NoOp | Create | Delete | Replace

  datatype Tree =
    | Nothing                                                // an attribute that is None
    | Leaf(data: Option<string>, op: Op)
    | Container(kids: map<string, Tree>)
    | List(items: map<string, Tree>)                         // entries by key
    | Entry(tag: string, kids: map<string, Tree>, op: Op)    // `tag` names the key attribute

  /** Never compared by a diff. */
  const VERSION := "version"

  /** Attributes a diff skips: the version, the key, and one that happens to be named like the key's value. */
  predicate Skipped(t: Tree, k: string) {
    && (t.Container? || t.Entry?)
    && (k == VERSION || (t.Entry? && (k == t.tag || KeyValue(t) == Some(k))))
  }

  function KeyValue(t: Tree): Option<string>
    requires t.Entry?
  {
    if t.tag in t.kids && t.kids[t.tag].Leaf? then t.kids[t.tag].data else None
  }

  predicate Init(t: Tree) {
    match t
    case Nothing => false
    case Leaf(data, _) => data.Some?
    case Container(kids) => exists k :: k in kids && Init(kids[k])
    case List(items) => items != map[]
    case Entry(tag, kids, op) => op != NoOp || exists k :: k in kids && k != tag && Init(kids[k])
  }

  /** Entries occur in lists and only there, each under its own key. */
  predicate Proper(t: Tree) {
    match t
    case Nothing => true
    case Leaf(_, _) => true
    case Container(kids) => forall k :: k in kids ==> !kids[k].Entry? && Proper(kids[k])
    case List(items) =>
      forall key :: key in items ==> items[key].Entry? && KeyValue(items[key]) == Some(key) && Proper(items[key])
    case Entry(_, kids, _) => forall k :: k in kids ==> !kids[k].Entry? && Proper(kids[k])
  }

  // ----- diff: the target, reduced to what differs from the base and marked -----

  /** Two trees of one schema. */
  predicate Alike(a: Tree, b: Tree) {
    match (a, b)
    case (Nothing, _) => true
    case (_, Nothing) => true
    case (Leaf(_, _), Leaf(_, _)) => true
    case (Container(kids), Container(kids')) =>
      && kids.Keys == kids'.Keys
      && forall k :: k in kids ==> !kids[k].Entry? && !kids'[k].Entry? && Alike(kids[k], kids'[k])
    case (List(items), List(items')) =>
      forall key :: key in items && key in items' ==>
        items[key].Entry? && items'[key].Entry? && Alike(items[key], items'[key])
    case (Entry(tag, kids, _), Entry(tag', kids', _)) =>
      && tag == tag' && kids.Keys == kids'.Keys && KeyValue(a) == KeyValue(b)
      && tag in kids && kids[tag] == Leaf(KeyValue(a), NoOp) && kids'[tag] == kids[tag]
      && forall k :: k in kids ==> !kids[k].Entry? && !kids'[k].Entry? && Alike(kids[k], kids'[k])
    case _ => false
  }

  function Diff(t: Tree, b: Tree): Tree
    requires !t.Nothing? && !b.Nothing? && Alike(t, b)
    decreases t, 0
  {
    match t
    case Leaf(data, op) =>
      if data.None? && b.data.Some? then Leaf(b.data, Delete)
      else if data.Some? && b.data.None? then Leaf(data, Create)
      else if data != b.data then Leaf(data, Replace)
      else Leaf(None, op)
    case Container(kids) =>
      Container(map k | k in kids :: if Skipped(t, k) then kids[k] else DiffKid(kids[k], b.kids[k]))
    case Entry(tag, kids, op) =>
      Entry(tag, map k | k in kids :: if Skipped(t, k) then kids[k] else DiffKid(kids[k], b.kids[k]), op)
    case List(items) =>
      List(map key | key in items.Keys + b.items.Keys &&
                     (key in items && key in b.items ==> Init(Diff(items[key], b.items[key]))) ::
             if key in items && key in b.items then Diff(items[key], b.items[key])
             else if key in items then Marked(items[key], Create)
             else EmptyCopy(b.items[key]))
  }

  /** An attribute without a counterpart is kept whole; one in which nothing differs is cleared. */
  function DiffKid(t: Tree, b: Tree): Tree
    requires Alike(t, b)
    decreases t, 1
  {
    if t.Nothing? || b.Nothing? then t
    else
      var d := Diff(t, b);
      if Init(d) || d.Leaf? then d else Nothing
  }

  /** Sets the operation of an entry that has none yet. */
  function Marked(t: Tree, op: Op): Tree {
    if t.Entry? && t.op == NoOp then t.(op := op) else t
  }

  /** Only the key, marked for deletion. */
  function EmptyCopy(t: Tree): Tree {
    if t.Entry? && t.tag in t.kids then
      Entry(t.tag, map k | k in t.kids :: if k == t.tag then t.kids[k] else Nothing, Delete)
    else t
  }

  // ----- patch: merge, executing the deletions -----

  function Merge(b: Tree, d: Tree): Tree
    decreases d, 0
  {
    match (b, d)
    case (Leaf(_, op), Leaf(data, op')) =>
      if op' == Delete then Leaf(None, op)
      else if data.None? then b
      else Leaf(data, if op' == NoOp then op else op')
    case (Container(kids), Container(kids')) =>
      if !Init(d) then b
      else Container(map k | k in kids :: if k in kids' then MergeKid(kids[k], kids'[k]) else kids[k])
    case (Entry(tag, kids, op), Entry(_, kids', op')) =>
      if op' == Delete then Nothing  // taken out of its list
      else if !Init(d) then b
      else Entry(tag, map k | k in kids :: if k in kids' then MergeKid(kids[k], kids'[k]) else kids[k],
                 if op' == NoOp then op else op')
    case (List(items), List(items')) =>
      List(map key | key in items.Keys + items'.Keys &&
                     (key in items && key in items' ==> !Merge(items[key], items'[key]).Nothing?) ::
             if key in items && key in items' then Merge(items[key], items'[key])
             else if key in items then items[key]
             else items'[key])
    case _ => b
  }

  function MergeKid(b: Tree, d: Tree): Tree
    decreases d, 1
  {
    if d.Nothing? then b else if b.Nothing? then d else Merge(b, d)
  }

  /** Forgets every operation. */
  function Clear(t: Tree): Tree {
    match t
    case Nothing => Nothing
    case Leaf(data, _) => Leaf(data, NoOp)
    case Container(kids) => Container(map k | k in kids :: Clear(kids[k]))
    case List(items) => List(map key | key in items :: Clear(items[key]))
    case Entry(tag, kids, _) => Entry(tag, map k | k in kids :: Clear(kids[k]), NoOp)
  }

  function Patch(b: Tree, d: Tree): Tree {
    Clear(Merge(b, d))
  }

  predicate OpFree(t: Tree) {
    match t
    case Nothing => true
    case Leaf(_, op) => op == NoOp
    case Container(kids) => forall k :: k in kids ==> OpFree(kids[k])
    case List(items) => forall key :: key in items ==> items[key].Entry? && OpFree(items[key])
    case Entry(_, kids, op) => op == NoOp && forall k :: k in kids ==> OpFree(kids[k])
  }

  // ----- sameness: equal data, however absence is written -----

  predicate Same(a: Tree, b: Tree)
    decreases a, 0
  {
    match (a, b)
    case (Leaf(data, _), Leaf(data', _)) => data == data'
    case (Container(kids), Container(kids')) =>
      kids.Keys == kids'.Keys && forall k :: k in kids ==> SameKid(kids[k], kids'[k])
    case (Entry(tag, kids, _), Entry(tag', kids', _)) =>
      tag == tag' && kids.Keys == kids'.Keys && forall k :: k in kids ==> SameKid(kids[k], kids'[k])
    case (List(items), List(items')) =>
      items.Keys == items'.Keys && forall key :: key in items ==> Same(items[key], items'[key])
    case _ => false
  }

  predicate SameKid(a: Tree, b: Tree)
    decreases a, 1
  {
    (!Init(a) && !Init(b)) || Same(a, b)
  }

  // ----- when the round trip works -----

  /** Whatever the base has, the other has too: all that merging an unmarked tree can deliver. */
  predicate Covered(b: Tree, t: Tree)
    decreases t
  {
    match (b, t)
    case (Nothing, _) => true
    case (_, Nothing) => !Init(b)
    case (Leaf(data, _), Leaf(data', _)) => data.Some? ==> data'.Some?
    case (Container(kids), Container(kids')) =>
      kids.Keys == kids'.Keys && forall k :: k in kids' ==> k in kids && Covered(kids[k], kids'[k])
    case (Entry(tag, kids, _), Entry(_, kids', _)) =>
      kids.Keys == kids'.Keys && forall k :: k in kids' ==> k in kids && Covered(kids[k], kids'[k])
    case (List(items), List(items')) =>
      items.Keys <= items'.Keys && forall key :: key in items' ==> key in items ==> Covered(items[key], items'[key])
    case _ => false
  }

  /** No attribute is None in the target while the base has data there, and skipped attributes only grow. */
  predicate Diffable(b: Tree, t: Tree)
    decreases t
  {
    match (b, t)
    case (Nothing, _) => true
    case (_, Nothing) => !Init(b)
    case (Leaf(_, _), Leaf(_, _)) => true
    case (Container(kids), Container(kids')) =>
      forall k :: k in kids' ==>
        k in kids && if Skipped(t, k) then Covered(kids[k], kids'[k]) else Diffable(kids[k], kids'[k])
    case (Entry(_, kids, _), Entry(_, kids', _)) =>
      forall k :: k in kids' ==>
        k in kids && if Skipped(t, k) then Covered(kids[k], kids'[k]) else Diffable(kids[k], kids'[k])
    case (List(items), List(items')) =>
      forall key :: key in items' ==> key in items ==> Diffable(items[key], items'[key])
    case _ => false
  }

  // ----- sameness of trees without data -----

  lemma {:induction false} SameRefl(t: Tree)
    requires !t.Nothing? && OpFree(t)
    ensures Same(t, t)
  {
    match t
    case Leaf(_, _) =>
    case Container(kids) =>
      forall k | k in kids && !kids[k].Nothing? {
        SameRefl(kids[k]);
      }
    case Entry(_, kids, _) =>
      forall k | k in kids && !kids[k].Nothing? {
        SameRefl(kids[k]);
      }
    case List(items) =>
      forall key | key in items {
        SameRefl(items[key]);
      }
  }

  lemma UninitSame(a: Tree, b: Tree)
    requires !Init(a) && !Init(b)
    requires
      || (a.Leaf? && b.Leaf?)
      || (a.List? && b.List?)
      || (a.Container? && b.Container? && a.kids.Keys == b.kids.Keys)
    ensures Same(a, b)
  {
  }

  // ----- merging, attribute by attribute -----

  /** A diff that says nothing changes nothing. */
  lemma MergeUninit(b: Tree, d: Tree)
    requires !Init(d) && (d.Leaf? ==> d.op != Delete)
    ensures Merge(b, d) == b && MergeKid(b, d) == if b.Nothing? then d else b
  {
    match (b, d)
    case (List(items), List(_)) =>
      assert Merge(b, d).items == items;
    case _ =>
  }

  lemma {:induction false} SameInit(a: Tree, b: Tree)
    requires Same(a, b) && !a.Entry? && Proper(a) && Proper(b)
    ensures Init(a) <==> Init(b)
  {
    if a.Container? {
      forall k | k in a.kids
        ensures Init(a.kids[k]) <==> Init(b.kids[k])
      {
        if Same(a.kids[k], b.kids[k]) {
          SameInit(a.kids[k], b.kids[k]);
        }
      }
    }
  }

  lemma SameKidUninit(d: Tree, x: Tree)
    requires !Init(d) && !d.Entry? && Proper(d) && Proper(x)
    ensures SameKid(d, x) <==> !Init(x)
  {
    if Same(d, x) {
      SameInit(d, x);
    }
  }

  /** The skipped-when-empty shortcut makes no difference to what an attribute holds afterwards. */
  lemma MergedKid(b: Tree, d: Tree, x: Tree)
    requires !Init(d) && (d.Leaf? ==> d.op != Delete) && !d.Entry? && Proper(d) && Proper(x)
    ensures SameKid(b, x) <==> SameKid(MergeKid(b, d), x)
  {
    MergeUninit(b, d);
    if b.Nothing? {
      SameKidUninit(d, x);
    }
  }

  /** A leaf marked for deletion shows what it deletes. */
  predicate Calm(d: Tree) {
    d.Leaf? && d.op == Delete ==> d.data.Some?
  }

  /** Two nodes are the same if their attributes are. */
  lemma SameByAttribute(a: Tree, t: Tree, d: Tree, b: Tree)
    requires (a.Container? && t.Container?) || (a.Entry? && t.Entry? && a.tag == t.tag)
    requires (b.Container? || b.Entry?) && (d.Container? || d.Entry?)
    requires a.kids.Keys == b.kids.Keys == d.kids.Keys == t.kids.Keys
    requires forall k :: k in t.kids ==>
      (SameKid(a.kids[k], t.kids[k]) <==> SameKid(MergeKid(b.kids[k], d.kids[k]), t.kids[k]))
    ensures Same(a, t) <==> forall k :: k in t.kids ==> SameKid(MergeKid(b.kids[k], d.kids[k]), t.kids[k])
  {
  }

  /** Merging containers is merging their attributes. */
  lemma MergeContainers(b: Tree, d: Tree, t: Tree)
    requires b.Container? && d.Container? && t.Container? && b.kids.Keys == d.kids.Keys == t.kids.Keys && Proper(d)
    requires Proper(t)
    requires forall k :: k in d.kids ==> Calm(d.kids[k])
    ensures Same(Merge(b, d), t) <==> forall k :: k in t.kids ==> SameKid(MergeKid(b.kids[k], d.kids[k]), t.kids[k])
  {
    var m := Merge(b, d);
    forall k | k in t.kids
      ensures k in m.kids && (SameKid(m.kids[k], t.kids[k]) <==> SameKid(MergeKid(b.kids[k], d.kids[k]), t.kids[k]))
    {
      if !Init(d) {
        MergedKid(b.kids[k], d.kids[k], t.kids[k]);
      }
    }
    SameByAttribute(m, t, d, b);
  }

  /** The same for entries with the same key. */
  lemma MergeEntries(b: Tree, d: Tree, t: Tree)
    requires b.Entry? && d.Entry? && t.Entry? && b.kids.Keys == d.kids.Keys == t.kids.Keys && b.tag == d.tag == t.tag
    requires t.tag in t.kids && Proper(d) && Proper(t)
    requires d.op != Delete && b.kids[b.tag] == d.kids[b.tag] && b.kids[b.tag].Leaf? && b.kids[b.tag].data.Some?
    requires b.kids[b.tag].op == NoOp
    requires forall k :: k in d.kids ==> Calm(d.kids[k])
    ensures Same(Merge(b, d), t) <==> forall k :: k in t.kids ==> SameKid(MergeKid(b.kids[k], d.kids[k]), t.kids[k])
  {
    var m := Merge(b, d);
    forall k | k in t.kids
      ensures k in m.kids && (SameKid(m.kids[k], t.kids[k]) <==> SameKid(MergeKid(b.kids[k], d.kids[k]), t.kids[k]))
    {
      if !Init(d) && k != b.tag {
        MergedKid(b.kids[k], d.kids[k], t.kids[k]);
      }
    }
    SameByAttribute(m, t, d, b);
  }

  // ----- what merging an unmarked tree delivers -----

  ghost predicate Comparable(b: Tree, t: Tree) {
    Alike(t, b) && OpFree(t) && OpFree(b) && Proper(t) && Proper(b)
  }

  lemma AlikeKids(b: Tree, t: Tree, k: string)
    requires Comparable(b, t) && ((t.Container? && b.Container?) || (t.Entry? && b.Entry?)) && k in t.kids
    ensures k in b.kids && Comparable(b.kids[k], t.kids[k]) && !t.kids[k].Entry? && !b.kids[k].Entry?
  {
  }

  lemma OpFreeCalm(t: Tree)
    requires OpFree(t)
    ensures Calm(t)
  {
  }

  lemma {:induction false} CoveredExactly(b: Tree, t: Tree)
    requires !b.Nothing? && !t.Nothing? && Comparable(b, t) && (t.Entry? ==> KeyValue(t).Some?)
    ensures Same(Merge(b, t), t) <==> Covered(b, t)
    decreases t, 1
  {
    match t
    case Leaf(_, _) =>
    case Container(kids) =>
      forall k | k in kids
        ensures k in b.kids && Calm(kids[k])
        ensures (SameKid(MergeKid(b.kids[k], kids[k]), kids[k]) <==> Covered(b.kids[k], kids[k]))
      {
        AlikeKids(b, t, k);
        OpFreeCalm(kids[k]);
        CoveredKid(b.kids[k], kids[k]);
      }
      MergeContainers(b, t, t);
    case Entry(_, kids, _) =>
      forall k | k in kids
        ensures k in b.kids && Calm(kids[k])
        ensures (SameKid(MergeKid(b.kids[k], kids[k]), kids[k]) <==> Covered(b.kids[k], kids[k]))
      {
        AlikeKids(b, t, k);
        OpFreeCalm(kids[k]);
        CoveredKid(b.kids[k], kids[k]);
      }
      MergeEntries(b, t, t);
    case List(items) =>
      CoveredList(b, t);
  }

  lemma CoveredKid(b: Tree, t: Tree)
    requires Comparable(b, t) && !t.Entry?
    ensures SameKid(MergeKid(b, t), t) <==> Covered(b, t)
    decreases t, 2
  {
    if b.Nothing? && !t.Nothing? {
      SameRefl(t);
    } else if !b.Nothing? && !t.Nothing? {
      CoveredExactly(b, t);
      if !Init(Merge(b, t)) && !Init(t) {
        UninitSame(Merge(b, t), t);
      }
    }
  }

  lemma AlikeItems(b: Tree, t: Tree, key: string)
    requires Comparable(b, t) && t.List? && b.List? && key in t.items && key in b.items
    ensures Comparable(b.items[key], t.items[key]) && t.items[key].Entry? && b.items[key].Entry?
    ensures KeyValue(t.items[key]).Some?
  {
  }

  lemma CoveredList(b: Tree, t: Tree)
    requires t.List? && b.List? && Comparable(b, t)
    ensures Same(Merge(b, t), t) <==> Covered(b, t)
    decreases t, 0
  {
    var m := Merge(b, t).items;
    forall key | key in t.items
      ensures key in m
      ensures Same(m[key], t.items[key]) <==> (key in b.items ==> Covered(b.items[key], t.items[key]))
    {
      if key in b.items {
        AlikeItems(b, t, key);
        CoveredExactly(b.items[key], t.items[key]);
      } else {
        SameRefl(t.items[key]);
      }
    }
    assert forall key :: key in m <==> key in b.items || key in t.items;
  }

  // ----- the round trip -----

  lemma {:induction false} DiffProper(t: Tree, b: Tree)
    requires !t.Nothing? && !b.Nothing? && Comparable(b, t) && (t.Entry? ==> KeyValue(t).Some?)
    ensures Proper(Diff(t, b)) && (Diff(t, b).Leaf? ==> Calm(Diff(t, b)))
    ensures t.Entry? ==> Diff(t, b).Entry? && KeyValue(Diff(t, b)) == KeyValue(t) && Diff(t, b).op == NoOp
    decreases t, 1
  {
    match t
    case Leaf(_, _) =>
    case Container(kids) =>
      forall k | k in kids
        ensures Proper(DiffKid(kids[k], b.kids[k])) && !DiffKid(kids[k], b.kids[k]).Entry?
      {
        AlikeKids(b, t, k);
        DiffKidProper(kids[k], b.kids[k]);
      }
    case Entry(_, kids, _) =>
      forall k | k in kids
        ensures Proper(DiffKid(kids[k], b.kids[k])) && !DiffKid(kids[k], b.kids[k]).Entry?
      {
        AlikeKids(b, t, k);
        DiffKidProper(kids[k], b.kids[k]);
      }
    case List(items) =>
      forall key | key in Diff(t, b).items
        ensures var e := Diff(t, b).items[key]; e.Entry? && KeyValue(e) == Some(key) && Proper(e)
      {
        if key in items && key in b.items {
          AlikeItems(b, t, key);
          DiffProper(items[key], b.items[key]);
        } else if key in b.items {
          EmptyCopyProper(b.items[key]);
        } else {
          MarkedProper(items[key]);
        }
      }
  }

  lemma EmptyCopyProper(e: Tree)
    requires e.Entry? && Proper(e) && KeyValue(e).Some?
    ensures EmptyCopy(e).Entry? && EmptyCopy(e).op == Delete && KeyValue(EmptyCopy(e)) == KeyValue(e)
    ensures Proper(EmptyCopy(e))
  {
  }

  lemma MarkedProper(e: Tree)
    requires e.Entry? && Proper(e)
    ensures Marked(e, Create).Entry? && KeyValue(Marked(e, Create)) == KeyValue(e) && Proper(Marked(e, Create))
  {
  }

  lemma DiffKidProper(t: Tree, b: Tree)
    requires Comparable(b, t) && !t.Entry? && !b.Entry?
    ensures Proper(DiffKid(t, b)) && Calm(DiffKid(t, b)) && !DiffKid(t, b).Entry?
    decreases t, 2
  {
    if t.Nothing? || b.Nothing? {
      OpFreeCalm(t);
    } else {
      DiffProper(t, b);
    }
  }

  ghost predicate AttributeFits(b: Tree, t: Tree, k: string) {
    && (t.Container? || t.Entry?) && (b.Container? || b.Entry?) && k in t.kids && k in b.kids
    && if Skipped(t, k) then Covered(b.kids[k], t.kids[k]) else Diffable(b.kids[k], t.kids[k])
  }

  lemma DiffableByAttribute(b: Tree, t: Tree)
    requires (t.Container? && b.Container?) || (t.Entry? && b.Entry?)
    ensures Diffable(b, t) <==> forall k :: k in t.kids ==> AttributeFits(b, t, k)
  {
  }

  /** The diff and the base meet what merging attribute by attribute asks for. */
  lemma DiffAttributes(b: Tree, t: Tree)
    requires Comparable(b, t) && ((t.Container? && b.Container?) || (t.Entry? && b.Entry? && KeyValue(t).Some?))
    ensures Diff(t, b).kids.Keys == t.kids.Keys == b.kids.Keys && Proper(Diff(t, b))
    ensures t.Entry? ==>
      Diff(t, b).Entry? && Diff(t, b).op == NoOp && Diff(t, b).tag == t.tag == b.tag && t.tag in t.kids
                         && Diff(t, b).kids[t.tag] == b.kids[t.tag] == Leaf(KeyValue(t), NoOp)
    ensures forall k :: k in t.kids ==> Calm(Diff(t, b).kids[k])
  {
    DiffProper(t, b);
    forall k | k in t.kids
      ensures Calm(Diff(t, b).kids[k])
    {
      AlikeKids(b, t, k);
      OpFreeCalm(t.kids[k]);
      DiffKidProper(t.kids[k], b.kids[k]);
    }
  }

  /** What a diff does to one attribute, skipped or not, and what the patch makes of it. */
  lemma AttributeRoundTrip(b: Tree, t: Tree, k: string)
    requires Comparable(b, t) && ((t.Container? && b.Container?) || (t.Entry? && b.Entry? && KeyValue(t).Some?))
    requires k in t.kids
    ensures k in b.kids && k in Diff(t, b).kids
    ensures SameKid(MergeKid(b.kids[k], Diff(t, b).kids[k]), t.kids[k]) <==> AttributeFits(b, t, k)
    decreases t, 0
  {
    AlikeKids(b, t, k);
    if Skipped(t, k) {
      CoveredKid(b.kids[k], t.kids[k]);
    } else {
      KidRoundTrip(b.kids[k], t.kids[k]);
    }
  }

  lemma KidRoundTrip(b: Tree, t: Tree)
    requires Comparable(b, t) && !t.Entry? && !b.Entry?
    ensures SameKid(MergeKid(b, DiffKid(t, b)), t) <==> Diffable(b, t)
    decreases t, 3
  {
    if t.Nothing? {
    } else if b.Nothing? {
      SameRefl(t);
    } else {
      DiffProper(t, b);
      RoundTripExactly(b, t);
      var m := Merge(b, Diff(t, b));
      if !Init(Diff(t, b)) {
        MergeUninit(b, Diff(t, b));
      }
      if !Init(m) && !Init(t) {
        UninitSame(m, t);
      }
    }
  }

  /** A common entry ends up as the merge of its own diff, whether or not the diff of the list keeps it. */
  lemma CommonItem(b: Tree, t: Tree, key: string)
    requires t.List? && b.List? && Comparable(b, t) && key in t.items && key in b.items
    ensures t.items[key].Entry? && b.items[key].Entry? && Alike(t.items[key], b.items[key])
    ensures key in Merge(b, Diff(t, b)).items
    ensures Merge(b, Diff(t, b)).items[key] == Merge(b.items[key], Diff(t.items[key], b.items[key]))
  {
    AlikeItems(b, t, key);
    DiffProper(t.items[key], b.items[key]);
    var e := Diff(t.items[key], b.items[key]);
    if !Init(e) {
      MergeUninit(b.items[key], e);
    }
  }

  lemma NewItem(b: Tree, t: Tree, key: string)
    requires t.List? && b.List? && Comparable(b, t) && key in t.items && key !in b.items
    ensures key in Merge(b, Diff(t, b)).items && Same(Merge(b, Diff(t, b)).items[key], t.items[key])
  {
    SameRefl(t.items[key]);
    assert Diff(t, b).items[key] == Marked(t.items[key], Create);
  }

  lemma GoneItem(b: Tree, t: Tree, key: string)
    requires t.List? && b.List? && Comparable(b, t) && key !in t.items
    ensures key !in Merge(b, Diff(t, b)).items
  {
    if key in b.items {
      EmptyCopyProper(b.items[key]);
      assert Diff(t, b).items[key] == EmptyCopy(b.items[key]);
    }
  }

  lemma ListRoundTrip(b: Tree, t: Tree)
    requires t.List? && b.List? && Comparable(b, t)
    ensures Same(Merge(b, Diff(t, b)), t) <==> Diffable(b, t)
    decreases t, 0
  {
    var m := Merge(b, Diff(t, b)).items;
    forall key
      ensures key in m <==> key in t.items
      ensures key in t.items ==>
        (Same(m[key], t.items[key]) <==> (key in b.items ==> Diffable(b.items[key], t.items[key])))
    {
      if key !in t.items {
        GoneItem(b, t, key);
      } else if key !in b.items {
        NewItem(b, t, key);
      } else {
        CommonItem(b, t, key);
        AlikeItems(b, t, key);
        RoundTripExactly(b.items[key], t.items[key]);
      }
    }
    assert m.Keys == t.items.Keys;
  }

  lemma ContainerRoundTrip(b: Tree, t: Tree)
    requires t.Container? && b.Container? && Comparable(b, t)
    ensures Same(Merge(b, Diff(t, b)), t) <==> Diffable(b, t)
    decreases t, 1
  {
    DiffAttributes(b, t);
    MergeContainers(b, Diff(t, b), t);
    DiffableByAttribute(b, t);
    forall k | k in t.kids {
      AttributeRoundTrip(b, t, k);
    }
  }

  lemma EntryRoundTrip(b: Tree, t: Tree)
    requires t.Entry? && b.Entry? && KeyValue(t).Some? && Comparable(b, t)
    ensures Same(Merge(b, Diff(t, b)), t) <==> Diffable(b, t)
    decreases t, 1
  {
    DiffAttributes(b, t);
    MergeEntries(b, Diff(t, b), t);
    DiffableByAttribute(b, t);
    forall k | k in t.kids {
      AttributeRoundTrip(b, t, k);
    }
  }

  /** Patching a base with its diff to a target yields the target's data, up to the order of lists, if and
      only if no attribute is None in the target while the base has data there, and the attributes the
      diff skips only gain data. */
  lemma {:induction false} RoundTripExactly(b: Tree, t: Tree)
    requires !b.Nothing? && !t.Nothing? && Comparable(b, t) && (t.Entry? ==> KeyValue(t).Some?)
    ensures Same(Merge(b, Diff(t, b)), t) <==> Diffable(b, t)
    decreases t, 2
  {
    match t
    case Leaf(_, _) =>
    case Container(_) => ContainerRoundTrip(b, t);
    case Entry(_, _, _) => EntryRoundTrip(b, t);
    case List(_) => ListRoundTrip(b, t);
  }

  // ----- no operation is left -----

  /** Entries occur in lists and only there. */
  predicate Placed(t: Tree) {
    match t
    case Nothing => true
    case Leaf(_, _) => true
    case Container(kids) => forall k :: k in kids ==> !kids[k].Entry? && Placed(kids[k])
    case List(items) => forall key :: key in items ==> items[key].Entry? && Placed(items[key])
    case Entry(_, kids, _) => forall k :: k in kids ==> !kids[k].Entry? && Placed(kids[k])
  }

  lemma {:induction false} ProperPlaced(t: Tree)
    requires Proper(t)
    ensures Placed(t)
  {
    match t
    case Nothing =>
    case Leaf(_, _) =>
    case Container(kids) =>
      forall k | k in kids {
        ProperPlaced(kids[k]);
      }
    case Entry(_, kids, _) =>
      forall k | k in kids {
        ProperPlaced(kids[k]);
      }
    case List(items) =>
      forall key | key in items {
        ProperPlaced(items[key]);
      }
  }

  lemma {:induction false} MergePlaced(b: Tree, d: Tree)
    requires Placed(b) && Placed(d)
    ensures Placed(Merge(b, d)) && Placed(MergeKid(b, d)) && (!b.Entry? ==> !Merge(b, d).Entry?)
    ensures (b.Entry? ==> Merge(b, d).Entry? || Merge(b, d).Nothing?)
    decreases d
  {
    match (b, d)
    case (Container(kids), Container(kids')) =>
      forall k | k in kids && k in kids' {
        MergePlaced(kids[k], kids'[k]);
      }
    case (Entry(_, kids, _), Entry(_, kids', _)) =>
      forall k | k in kids && k in kids' {
        MergePlaced(kids[k], kids'[k]);
      }
    case (List(items), List(items')) =>
      forall key | key in items && key in items' {
        MergePlaced(items[key], items'[key]);
      }
    case _ =>
  }

  lemma {:induction false} ClearOpFree(x: Tree)
    requires Placed(x)
    ensures OpFree(Clear(x)) && (x.Entry? <==> Clear(x).Entry?)
  {
    match x
    case Nothing =>
    case Leaf(_, _) =>
    case Container(kids) =>
      forall k | k in kids {
        ClearOpFree(kids[k]);
      }
    case Entry(_, kids, _) =>
      forall k | k in kids {
        ClearOpFree(kids[k]);
      }
    case List(items) =>
      forall key | key in items {
        ClearOpFree(items[key]);
      }
  }

  lemma {:induction false} ClearInit(x: Tree)
    requires Placed(x) && !x.Entry?
    ensures Init(Clear(x)) <==> Init(x)
  {
    match x
    case Container(kids) =>
      var kids' := Clear(x).kids;
      forall k | k in kids
        ensures k in kids' && (Init(kids'[k]) <==> Init(kids[k]))
      {
        ClearInit(kids[k]);
      }
      assert forall k :: k in kids <==> k in kids';
    case List(items) =>
      if items != map[] {
        var key :| key in items;
        assert key in Clear(x).items;
      }
    case _ =>
  }

  lemma {:induction false} ClearSame(x: Tree, t: Tree)
    requires Placed(x)
    ensures Same(Clear(x), t) <==> Same(x, t)
  {
    match x
    case Container(kids) =>
      if t.Container? && t.kids.Keys == kids.Keys {
        forall k | k in kids
          ensures SameKid(Clear(kids[k]), t.kids[k]) <==> SameKid(kids[k], t.kids[k])
        {
          ClearInit(kids[k]);
          ClearSame(kids[k], t.kids[k]);
        }
      }
    case Entry(_, kids, _) =>
      if t.Entry? && t.kids.Keys == kids.Keys {
        forall k | k in kids
          ensures SameKid(Clear(kids[k]), t.kids[k]) <==> SameKid(kids[k], t.kids[k])
        {
          ClearInit(kids[k]);
          ClearSame(kids[k], t.kids[k]);
        }
      }
    case List(items) =>
      if t.List? && t.items.Keys == items.Keys {
        forall key | key in items {
          ClearSame(items[key], t.items[key]);
        }
      }
    case _ =>
  }

  /** The whole patch: no operation is left, and the data is the target's exactly when the pair is diffable. */
  lemma PatchRoundTrip(b: Tree, t: Tree)
    requires b.Container? && t.Container? && Comparable(b, t)
    ensures OpFree(Patch(b, Diff(t, b))) && (Same(Patch(b, Diff(t, b)), t) <==> Diffable(b, t))
  {
    var m := Merge(b, Diff(t, b));
    DiffProper(t, b);
    ProperPlaced(b);
    ProperPlaced(Diff(t, b));
    MergePlaced(b, Diff(t, b));
    ClearOpFree(m);
    ClearSame(m, t);
    RoundTripExactly(b, t);
  }

  // ----- nothing to say -----

  /** The only data in attributes a diff skips are keys. */
  predicate Plain(t: Tree) {
    match t
    case Nothing => true
    case Leaf(_, _) => true
    case Container(kids) => forall k :: k in kids ==> Plain(kids[k]) && (Skipped(t, k) ==> !Init(kids[k]))
    case Entry(tag, kids, _) =>
      forall k :: k in kids ==> Plain(kids[k]) && (Skipped(t, k) && k != tag ==> !Init(kids[k]))
    case List(items) => forall key :: key in items ==> Plain(items[key])
  }

  lemma {:induction false} DiffUninit(t: Tree, b: Tree)
    requires Comparable(b, t) && !t.Entry? && !b.Entry? && !Init(t) && !Init(b)
    ensures !Init(DiffKid(t, b))
  {
    if t.Container? && b.Container? {
      forall k | k in t.kids
        ensures k in b.kids && !Init(Diff(t, b).kids[k])
      {
        AlikeKids(b, t, k);
        DiffUninit(t.kids[k], b.kids[k]);
      }
    } else if t.List? && b.List? {
      assert Diff(t, b).items == map[];
    }
  }

  lemma SameDiffKid(b: Tree, t: Tree)
    requires Comparable(b, t) && !t.Entry? && !b.Entry? && Plain(t) && SameKid(b, t)
    ensures !Init(DiffKid(t, b))
    decreases t, 1
  {
    if !Init(b) && !Init(t) {
      DiffUninit(t, b);
    } else {
      SameDiff(b, t);
    }
  }

  /** Trees with the same data have an empty diff. */
  lemma {:induction false} SameDiff(b: Tree, t: Tree)
    requires !b.Nothing? && !t.Nothing? && Comparable(b, t) && Plain(t) && Same(b, t)
    ensures !Init(Diff(t, b))
    decreases t, 0
  {
    match t
    case Leaf(_, _) =>
    case Container(kids) =>
      forall k | k in kids
        ensures k in b.kids && !Init(Diff(t, b).kids[k])
      {
        AlikeKids(b, t, k);
        if !Skipped(t, k) {
          SameDiffKid(b.kids[k], kids[k]);
        }
      }
    case Entry(tag, kids, _) =>
      forall k | k in kids && k != tag
        ensures k in b.kids && !Init(Diff(t, b).kids[k])
      {
        AlikeKids(b, t, k);
        if !Skipped(t, k) {
          SameDiffKid(b.kids[k], kids[k]);
        }
      }
    case List(items) =>
      forall key
        ensures key !in Diff(t, b).items
      {
        if key in items {
          AlikeItems(b, t, key);
          SameDiff(b.items[key], items[key]);
        }
      }
  }

  /** A diff is empty exactly for trees with the same data, where the round trip works. */
  lemma EmptyDiffExactly(b: Tree, t: Tree)
    requires b.Container? && t.Container? && Comparable(b, t) && Plain(t)
    ensures Same(b, t) <==> !Init(Diff(t, b)) && Diffable(b, t)
  {
    if Same(b, t) {
      SameDiff(b, t);
    }
    if !Init(Diff(t, b)) {
      MergeUninit(b, Diff(t, b));
      RoundTripExactly(b, t);
    }
  }

  /** The failing case in the small: a container that is None in the target survives the patch. */
  lemma NoneIsNotDiffed(name: string, data: string)
    ensures var b := Container(map["sap_data" := Container(map[name := Leaf(Some(data), NoOp)])]);
      var t := Container(map["sap_data" := Nothing]);
      Comparable(b, t) && !Same(Patch(b, Diff(t, b)), t)
  {
    var b := Container(map["sap_data" := Container(map[name := Leaf(Some(data), NoOp)])]);
    var t := Container(map["sap_data" := Nothing]);
    var inner := b.kids["sap_data"];
    assert Init(inner.kids[name]);
    assert Comparable(inner, Nothing);
    assert Comparable(b, t);
    assert !Diffable(b.kids["sap_data"], t.kids["sap_data"]);
    PatchRoundTrip(b, t);
  }
}

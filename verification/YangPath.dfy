/** Paths through the tree: absolute and relative, written and walked. */
module YangPath {
  import opened Options
  import opened Texts
  import opened Yang

  /** How to get from a node to one below: an attribute, or an entry of one of its lists by key. */
  datatype Step = Attribute(name: string) | Item(name: string, key: string)

  /** A node is where it is: the steps from the root. An entry's parent is the holder of its list. */
  type Location = seq<Step>

  function Kid(t: Tree, name: string): Tree {
    if (t.Container? || t.Entry?) && name in t.kids then t.kids[name] else Nothing
  }

  function Below(t: Tree, step: Step): Tree {
    var kid := Kid(t, step.name);
    match step
    case Attribute(_) => kid
    case Item(_, key) => if kid.List? && key in kid.items then kid.items[key] else Nothing
  }

  function At(t: Tree, loc: Location): Tree {
    if loc == [] then t else Below(At(t, loc[..|loc| - 1]), loc[|loc| - 1])
  }

  /** The first `i` steps lead somewhere. */
  predicate Reaches(t: Tree, loc: Location, i: nat)
    requires i <= |loc|
  {
    !At(t, loc[..i]).Nothing?
  }

  // ----- writing -----

  /** One step of a path: a tag, and for an entry its key in brackets. */
  function Text(t: Tree, step: Step): string {
    match step
    case Attribute(name) => name
    case Item(name, key) =>
      var entry := Below(t, step);
      name + "[" + ((if entry.Entry? then entry.tag else "") + "=" + key) + "]"
  }

  function Path(t: Tree, root: string, loc: Location): string {
    if loc == [] then "/" + root
    else Path(t, root, loc[..|loc| - 1]) + "/" + Text(At(t, loc[..|loc| - 1]), loc[|loc| - 1])
  }

  // ----- walking -----

  datatype Move = Up | Down(step: Step) | Bad

  /** One component of a path. Keys of several parts are not told apart from errors here. */
  function Parse(l: string): Move {
    var open, close := Find(l, '['), Find(l, ']');
    if l == ".." then Up
    else if 0 < open < |l| && 0 < close < |l| then
      if FindLast(l, ']') < open + 1 then Bad
      else
        var keyString := l[open + 1..FindLast(l, ']')];
        var parts := Split(keyString, '=');
        if ',' in keyString || |parts| < 2 then Bad else Down(Item(l[..open], parts[1]))
    else Down(Attribute(l))
  }

  /** None where the source raises. An absolute path first climbs to the root. */
  function Walk(t: Tree, root: string, from: Location, path: string): Option<Location>
    decreases |path|, |from|
  {
    if path == "" then Some(from)
    else
      var parts := Split(path, '/');
      if path[0] == '/' then
        if from != [] then Walk(t, root, from[..|from| - 1], path)
        else if |parts| > 1 && parts[1] == root then
          JoinShorter(path, '/', 2);
          Walk(t, root, from, Join(parts[2..], '/'))
        else None
      else
        JoinShorter(path, '/', 1);
        var rest := Join(parts[1..], '/');
        match Parse(parts[0])
        case Up => if from == [] then None else Walk(t, root, from[..|from| - 1], rest)
        case Down(step) => if Below(At(t, from), step).Nothing? then None else Walk(t, root, from + [step], rest)
        case Bad => None
  }

  /** What is left of a path after its first components is shorter. */
  lemma JoinShorter(path: string, c: char, n: nat)
    requires path != "" && 0 < n
    ensures n <= |Split(path, c)| ==> |Join(Split(path, c)[n..], c)| < |path|
  {
    SplitLength(path, c);
    if n <= |Split(path, c)| {
      JoinTail(Split(path, c), c, n);
    }
  }

  lemma Rejoin(s: string, i: nat, c: char, rest: seq<string>)
    requires i < |s| && s[i] == c && rest != [] && Join(rest, c) == s[i + 1..]
    ensures Join([s[..i]] + rest, c) == s
  {
    assert ([s[..i]] + rest)[1..] == rest;
    assert s == s[..i] + [c] + s[i + 1..];
  }

  /** The length of the parts with their separators. */
  lemma {:induction false} SplitLength(s: string, c: char)
    ensures Join(Split(s, c), c) == s
    decreases |s|
  {
    var i := Find(s, c);
    if i < |s| {
      SplitLength(s[i + 1..], c);
      Rejoin(s, i, c, Split(s[i + 1..], c));
    }
  }

  lemma {:induction false} JoinTail(parts: seq<string>, c: char, n: nat)
    requires 0 < n <= |parts| && Join(parts, c) != ""
    ensures |Join(parts[n..], c)| < |Join(parts, c)|
  {
    if |parts| > 1 {
      assert parts[1..][n - 1..] == parts[n..];
      if n > 1 {
        if Join(parts[1..], c) == "" {
          TailEmpty(parts[1..], c, n - 1);
        } else {
          JoinTail(parts[1..], c, n - 1);
        }
      }
    }
  }

  lemma {:induction false} TailEmpty(parts: seq<string>, c: char, n: nat)
    requires n <= |parts| && Join(parts, c) == ""
    ensures Join(parts[n..], c) == ""
  {
  }

  // ----- names that can be written and read back -----

  predicate Free(s: string, c: char) {
    c !in s
  }

  predicate LegalName(name: string) {
    name != "" && name != ".." && Free(name, '/') && Free(name, '[') && Free(name, ']')
  }

  /** What a key has to be free of: the separators of components, of key and value, and of keys. */
  predicate LegalKey(s: string) {
    Free(s, '/') && Free(s, '=') && Free(s, ',')
  }

  /** Names and tags, which come from the schema, can be written; nothing is asked of keys, which are data. */
  predicate NamedStep(t: Tree, step: Step) {
    LegalName(step.name) && (step.Item? ==> Below(t, step).Entry? && LegalKey(Below(t, step).tag))
  }

  /** The node is there. */
  ghost predicate Named(t: Tree, loc: Location) {
    && (forall i :: 0 <= i <= |loc| ==> Reaches(t, loc, i))
    && (forall i :: 0 <= i < |loc| ==> NamedAt(t, loc, i))
  }

  predicate NamedAt(t: Tree, loc: Location, i: nat)
    requires i < |loc|
  {
    NamedStep(At(t, loc[..i]), loc[i])
  }

  predicate Clean(step: Step) {
    step.Item? ==> LegalKey(step.key)
  }

  /** Every key on the way is free of '/', '=' and ','. */
  predicate KeysClean(steps: seq<Step>) {
    forall i :: 0 <= i < |steps| ==> Clean(steps[i])
  }

  predicate Whole(step: Step) {
    step.Item? ==> Free(step.key, '/')
  }

  /** No key on the way is torn apart by a '/'. */
  predicate KeysWhole(steps: seq<Step>) {
    forall i :: 0 <= i < |steps| ==> Whole(steps[i])
  }

  /** What an entry is written as: its list, and in brackets the attribute that is its key, and the key. */
  lemma TextParts(t: Tree, step: Step)
    requires NamedStep(t, step) && step.Item?
    ensures var l, n := Text(t, step), |step.name|;
      && |l| > n + 1 && l[..n] == step.name && l[n] == '[' && l[|l| - 1] == ']'
      && var inner := l[n + 1..|l| - 1];
      && Find(inner, '=') < |inner| && inner[..Find(inner, '=')] == Below(t, step).tag
      && inner[Find(inner, '=') + 1..] == step.key
  {
    var tag := Below(t, step).tag;
    var inner := tag + "=" + step.key;
    assert Text(t, step)[|step.name| + 1..|Text(t, step)| - 1] == inner;
    assert inner[|tag|] == '=' && forall j :: 0 <= j < |tag| ==> inner[j] == tag[j];
  }

  lemma ItemText(name: string, inner: string)
    requires LegalName(name)
    ensures var l := name + "[" + inner + "]";
      && l != ".." && Find(l, '[') == |name| && 0 < Find(l, ']') < |l| && FindLast(l, ']') == |l| - 1
      && l[|name| + 1..|l| - 1] == inner && l[..|name|] == name
  {
    var l := name + "[" + inner + "]";
    assert l == name + ['['] + (inner + "]");
    FindAt(name, '[', inner + "]");
    assert l[0] == name[0] && name[0] in name && l[|l| - 1] == ']';
    assert l == (name + "[" + inner) + [']'];
    FindLastAt(name + "[" + inner, ']');
  }

  lemma KeyText(tag: string, key: string)
    requires LegalKey(tag) && Free(key, '=')
    ensures Split(tag + "=" + key, '=') == [tag, key]
  {
    SplitJoin([tag, key], '=');
    assert Join([tag, key], '=') == tag + "=" + key;
  }

  /** A key that is read holds no '=' and no ',', nor anything the component does not hold. */
  lemma ParseKeys(l: string)
    requires Parse(l).Down? && Parse(l).step.Item?
    ensures var key := Parse(l).step.key; Free(key, '=') && Free(key, ',') && forall x :: x in key ==> x in l
  {
    var keyString := l[Find(l, '[') + 1..FindLast(l, ']')];
    SplitParts(keyString, '=', Split(keyString, '=')[1]);
  }

  lemma ItemParses(name: string, tag: string, key: string)
    requires LegalName(name) && LegalKey(tag) && Free(key, '=') && Free(key, ',')
    ensures Parse(name + "[" + (tag + "=" + key) + "]") == Down(Item(name, key))
  {
    ItemText(name, tag + "=" + key);
    KeyText(tag, key);
  }

  // ----- what every component is read as -----

  predicate FreeIn(l: string, from: nat, to: nat, c: char)
    requires to <= |l|
  {
    forall j :: from <= j < to ==> l[j] != c
  }

  /** A component that names an entry: the list up to the first '[', at `open`, and in brackets, up to the last
      ']', at `close`, the key: from after the first '=', at `equals`, to the second or to the end, at `end`. */
  ghost predicate ReadsItem(l: string, open: nat, equals: nat, end: nat, close: nat) {
    && 0 < open < equals < end <= close < |l| && l[open] == '[' && l[equals] == '=' && l[close] == ']'
    && (end == close || l[end] == '=') && l[0] != ']'
    && FreeIn(l, 0, open, '[') && FreeIn(l, close + 1, |l|, ']') && FreeIn(l, open + 1, close, ',')
    && FreeIn(l, open + 1, equals, '=') && FreeIn(l, equals + 1, end, '=')
  }

  lemma FindIs(s: string, c: char, i: nat)
    requires i <= |s| && (i < |s| ==> s[i] == c) && FreeIn(s, 0, i, c)
    ensures Find(s, c) == i
  {
  }

  /** The second part of a text that is cut twice. */
  lemma SecondPart(s: string, c: char, i: nat, j: nat)
    requires i < j <= |s| && s[i] == c && (j < |s| ==> s[j] == c) && FreeIn(s, 0, i, c) && FreeIn(s, i + 1, j, c)
    ensures |Split(s, c)| >= 2 && Split(s, c)[1] == s[i + 1..j]
  {
    FindIs(s, c, i);
    FindIs(s[i + 1..], c, j - i - 1);
    assert Split(s[i + 1..], c)[0] == s[i + 1..][..j - i - 1];
  }

  lemma CutTwice(s: string, c: char) returns (i: nat, j: nat)
    requires |Split(s, c)| >= 2
    ensures i < j <= |s| && s[i] == c && (j < |s| ==> s[j] == c) && FreeIn(s, 0, i, c) && FreeIn(s, i + 1, j, c)
  {
    i := Find(s, c);
    j := i + 1 + Find(s[i + 1..], c);
  }

  lemma FindLastIs(s: string, c: char, i: nat)
    requires i < |s| && s[i] == c && FreeIn(s, i + 1, |s|, c)
    ensures FindLast(s, c) == i
  {
  }

  lemma FreeInside(l: string, from: nat, to: nat, c: char)
    requires from <= to <= |l|
    ensures FreeIn(l, from, to, c) <==> c !in l[from..to]
  {
    assert forall j :: from <= j < to ==> l[j] == l[from..to][j - from];
  }

  lemma PartOf(l: string, from: nat, to: nat, i: nat, j: nat)
    requires from <= i <= j <= to <= |l|
    ensures l[from..to][i - from..j - from] == l[i..j]
  {
    var part := l[from..to][i - from..j - from];
    assert |part| == j - i && forall k :: 0 <= k < j - i ==> part[k] == l[i + k];
  }

  lemma FreePart(l: string, from: nat, to: nat, i: nat, j: nat, c: char)
    requires from <= i <= j <= to <= |l| && FreeIn(l, i, j, c)
    ensures FreeIn(l[from..to], i - from, j - from, c)
  {
  }

  lemma KeyInside(l: string, open: nat, equals: nat, end: nat, close: nat)
    requires ReadsItem(l, open, equals, end, close)
    ensures var parts := Split(l[open + 1..close], '='); |parts| >= 2 && parts[1] == l[equals + 1..end]
  {
    var inner := l[open + 1..close];
    PartOf(l, open + 1, close, equals + 1, end);
    FreePart(l, open + 1, close, open + 1, equals, '=');
    FreePart(l, open + 1, close, equals + 1, end, '=');
    SecondPart(inner, '=', equals - open - 1, end - open - 1);
  }

  lemma ItemIsRead(l: string, open: nat, equals: nat, end: nat, close: nat)
    requires ReadsItem(l, open, equals, end, close)
    ensures Parse(l) == Down(Item(l[..open], l[equals + 1..end]))
  {
    FindIs(l, '[', open);
    FindLastIs(l, ']', close);
    FreeInside(l, open + 1, close, ',');
    KeyInside(l, open, equals, end, close);
  }

  lemma KeyWasInside(l: string, from: nat, to: nat) returns (equals: nat, end: nat)
    requires from <= to <= |l| && |Split(l[from..to], '=')| >= 2
    ensures from <= equals < end <= to && l[equals] == '=' && (end < to ==> l[end] == '=')
    ensures FreeIn(l, from, equals, '=') && FreeIn(l, equals + 1, end, '=')
  {
    var i, j := CutTwice(l[from..to], '=');
    assert forall k :: from <= k < to ==> l[k] == l[from..to][k - from];
    equals, end := from + i, from + j;
  }

  lemma ItemWasThere(l: string) returns (open: nat, equals: nat, end: nat, close: nat)
    requires Parse(l).Down? && Parse(l).step.Item?
    ensures ReadsItem(l, open, equals, end, close)
  {
    open, close := Find(l, '['), FindLast(l, ']');
    FreeInside(l, open + 1, close, ',');
    equals, end := KeyWasInside(l, open + 1, close);
  }

  /** A component has that form, for this list and this key. */
  ghost predicate ReadsAs(l: string, name: string, key: string) {
    exists open: nat, equals: nat, end: nat, close: nat ::
      ReadsItem(l, open, equals, end, close) && name == l[..open] && key == l[equals + 1..end]
  }

  /** It is read as an entry if and only if it has. */
  lemma ParseItemExactly(l: string, name: string, key: string)
    ensures Parse(l) == Down(Item(name, key)) <==> ReadsAs(l, name, key)
  {
    if ReadsAs(l, name, key) {
      var open: nat, equals: nat, end: nat, close: nat :|
        ReadsItem(l, open, equals, end, close) && name == l[..open] && key == l[equals + 1..end];
      ItemIsRead(l, open, equals, end, close);
    }
    if Parse(l) == Down(Item(name, key)) {
      var open, equals, end, close := ItemWasThere(l);
      ItemIsRead(l, open, equals, end, close);
    }
  }

  /** And as an attribute if and only if it is no step up and has no brackets, or begins with one. */
  lemma ParseAttributeExactly(l: string, name: string)
    ensures Parse(l) == Up <==> l == ".."
    ensures Parse(l) == Down(Attribute(name)) <==>
      name == l && l != ".." && ('[' !in l || ']' !in l || l[0] == '[' || l[0] == ']')
  {
    if '[' !in l {
      FindAbsent(l, '[');
    }
    if ']' !in l {
      FindAbsent(l, ']');
    }
  }

  /** What is written as a step is read as that step exactly if its key holds no '=' and no ','. */
  lemma ParseText(t: Tree, step: Step)
    requires NamedStep(t, step)
    ensures Parse(Text(t, step)) == Down(step) <==> (step.Item? ==> Free(step.key, '=') && Free(step.key, ','))
  {
    match step
    case Attribute(name) =>
      FindAbsent(name, '[');
    case Item(name, key) =>
      if Free(key, '=') && Free(key, ',') {
        ItemParses(name, Below(t, step).tag, key);
      }
      if Parse(Text(t, step)) == Down(step) {
        ParseKeys(Text(t, step));
      }
  }

  /** A component is cut exactly by a '/' in its key. */
  lemma TextFree(t: Tree, step: Step)
    requires NamedStep(t, step)
    ensures Text(t, step) != "" && Text(t, step) != ".." && (Free(Text(t, step), '/') <==> Whole(step))
  {
    match step
    case Attribute(_) =>
    case Item(name, key) =>
      var tag := Below(t, step).tag;
      ItemText(name, tag + "=" + key);
      assert Text(t, step) == name + "[" + (tag + "=" + key) + "]";
  }

  lemma KeySplits(tag: string, key: string)
    requires LegalKey(tag)
    ensures Find(tag + "=" + key, '=') == |tag| && (tag + "=" + key)[..|tag|] == tag
    ensures (tag + "=" + key)[|tag| + 1..] == key
  {
    assert tag + "=" + key == tag + ['='] + key;
    FindAt(tag, '=', key);
  }

  lemma Bracketed(t: Tree, step: Step)
    requires NamedStep(t, step)
    ensures step.Item? <==> '[' in Text(t, step)
  {
    if step.Item? {
      assert Text(t, step)[|step.name|] == '[';
    }
  }

  /** Whatever its key, a component tells the step. */
  lemma TextInjective(t: Tree, a: Step, b: Step)
    requires NamedStep(t, a) && NamedStep(t, b) && Text(t, a) == Text(t, b)
    ensures a == b
  {
    Bracketed(t, a);
    Bracketed(t, b);
    if a.Item? && b.Item? {
      var tag, tag' := Below(t, a).tag, Below(t, b).tag;
      ItemText(a.name, tag + "=" + a.key);
      ItemText(b.name, tag' + "=" + b.key);
      KeySplits(tag, a.key);
      KeySplits(tag', b.key);
    }
  }

  // ----- walking down -----

  function Written(t: Tree, from: Location, steps: seq<Step>): seq<string>
    decreases |steps|
  {
    if steps == [] then [] else [Text(At(t, from), steps[0])] + Written(t, from + [steps[0]], steps[1..])
  }

  /** One component at a time. */
  lemma WalkOne(t: Tree, root: string, from: Location, part: string, rest: seq<string>)
    requires part != "" && Free(part, '/') && forall p :: p in rest ==> Free(p, '/')
    ensures Walk(t, root, from, Join([part] + rest, '/')) ==
      match Parse(part)
      case Up => (if from == [] then None else Walk(t, root, from[..|from| - 1], Join(rest, '/')))
      case Down(step) =>
        (if Below(At(t, from), step).Nothing? then None else Walk(t, root, from + [step], Join(rest, '/')))
      case Bad => None
  {
    var parts := [part] + rest;
    var path := Join(parts, '/');
    SplitJoin(parts, '/');
    assert path[0] == part[0] && part[0] in part;
    assert parts[1..] == rest;
  }

  lemma NextStep(t: Tree, from: Location, steps: seq<Step>)
    requires Named(t, from + steps) && steps != []
    ensures from + [steps[0]] + steps[1..] == from + steps
    ensures NamedStep(At(t, from), steps[0]) && !Below(At(t, from), steps[0]).Nothing?
  {
    var loc, n := from + steps, |from|;
    assert loc[..n] == from && loc[n] == steps[0] && loc[..n + 1] == from + [steps[0]];
    assert Reaches(t, loc, n + 1) && NamedAt(t, loc, n);
    assert (from + [steps[0]])[..n] == from;
  }

  lemma {:induction false} WrittenFree(t: Tree, from: Location, steps: seq<Step>, p: string)
    requires Named(t, from + steps) && KeysWhole(steps) && p in Written(t, from, steps)
    ensures Free(p, '/') && p != "" && p != ".."
    decreases |steps|
  {
    NextStep(t, from, steps);
    TextFree(At(t, from), steps[0]);
    if p != Text(At(t, from), steps[0]) {
      WrittenFree(t, from + [steps[0]], steps[1..], p);
    }
  }

  lemma AllFree(t: Tree, from: Location, steps: seq<Step>)
    requires Named(t, from + steps) && KeysWhole(steps)
    ensures Parts(Written(t, from, steps)) && ".." !in Written(t, from, steps)
  {
    forall p | p in Written(t, from, steps)
      ensures Free(p, '/') && p != "" && p != ".."
    {
      WrittenFree(t, from, steps, p);
    }
  }

  lemma CleanWhole(steps: seq<Step>)
    requires KeysClean(steps)
    ensures KeysWhole(steps)
  {
    forall i | 0 <= i < |steps|
      ensures Whole(steps[i])
    {
      assert Clean(steps[i]);
    }
  }

  // ----- the walk over components already told apart and read -----

  function Go(t: Tree, from: Location, moves: seq<Move>): Option<Location>
    decreases |moves|
  {
    if moves == [] then Some(from)
    else
      match moves[0]
      case Up => if from == [] then None else Go(t, from[..|from| - 1], moves[1..])
      case Down(step) => if Below(At(t, from), step).Nothing? then None else Go(t, from + [step], moves[1..])
      case Bad => None
  }

  function Moves(parts: seq<string>): seq<Move> {
    seq(|parts|, i requires 0 <= i < |parts| => Parse(parts[i]))
  }

  function Rise(n: nat): seq<Move> {
    seq(n, i => Up)
  }

  function Descend(steps: seq<Step>): seq<Move> {
    seq(|steps|, i requires 0 <= i < |steps| => Down(steps[i]))
  }

  predicate Parts(parts: seq<string>) {
    forall p :: p in parts ==> p != "" && Free(p, '/')
  }

  /** Joined components are told apart again. */
  lemma {:induction false} WalkIsGo(t: Tree, root: string, from: Location, parts: seq<string>)
    requires Parts(parts)
    ensures Walk(t, root, from, Join(parts, '/')) == Go(t, from, Moves(parts))
    decreases |parts|
  {
    if parts != [] {
      var part, rest := parts[0], parts[1..];
      assert part in parts && parts == [part] + rest && Moves(parts)[1..] == Moves(rest);
      WalkOne(t, root, from, part, rest);
      match Parse(part)
      case Up => if from != [] { WalkIsGo(t, root, from[..|from| - 1], rest); }
      case Down(step) => WalkIsGo(t, root, from + [step], rest);
      case Bad =>
    }
  }

  /** One move, from a node to its parent or to a node below it that is there. */
  predicate Leads(t: Tree, from: Location, move: Move, to: Location) {
    match move
    case Up => from != [] && to == from[..|from| - 1]
    case Down(step) => to == from + [step] && !At(t, to).Nothing?
    case Bad => false
  }

  /** Where the walk is before each move and at the end. */
  ghost predicate Trail(t: Tree, from: Location, moves: seq<Move>, stops: seq<Location>) {
    && |stops| == |moves| + 1 && stops[0] == from
    && forall i :: 0 <= i < |moves| ==> Leads(t, stops[i], moves[i], stops[i + 1])
  }

  lemma BelowIsAt(t: Tree, from: Location, step: Step)
    ensures At(t, from + [step]) == Below(At(t, from), step)
  {
    assert (from + [step])[..|from|] == from;
  }

  lemma TrailFirst(t: Tree, from: Location, moves: seq<Move>, stops: seq<Location>)
    requires moves != [] && stops != [] && Trail(t, stops[0], moves[1..], stops) && Leads(t, from, moves[0], stops[0])
    ensures Trail(t, from, moves, [from] + stops)
  {
    var all := [from] + stops;
    forall i | 0 <= i < |moves|
      ensures Leads(t, all[i], moves[i], all[i + 1])
    {
      if i > 0 {
        assert moves[1..][i - 1] == moves[i] && all[i] == stops[i - 1];
      }
    }
  }

  /** A walk that ends somewhere went move by move over nodes that are there. */
  lemma {:induction false} GoneOnTrail(t: Tree, from: Location, moves: seq<Move>) returns (stops: seq<Location>)
    requires Go(t, from, moves).Some?
    ensures Trail(t, from, moves, stops) && Go(t, from, moves) == Some(stops[|moves|])
    decreases |moves|
  {
    if moves == [] {
      stops := [from];
    } else {
      var to := if moves[0].Up? then from[..|from| - 1] else from + [moves[0].step];
      if moves[0].Down? {
        BelowIsAt(t, from, moves[0].step);
      }
      stops := GoneOnTrail(t, to, moves[1..]);
      TrailFirst(t, from, moves, stops);
      stops := [from] + stops;
    }
  }

  /** And where there is such a way, the walk goes it. */
  lemma {:induction false} TrailIsGone(t: Tree, from: Location, moves: seq<Move>, stops: seq<Location>)
    requires Trail(t, from, moves, stops)
    ensures Go(t, from, moves) == Some(stops[|moves|])
    decreases |moves|
  {
    if moves != [] {
      assert Leads(t, stops[0], moves[0], stops[1]);
      if moves[0].Down? {
        BelowIsAt(t, from, moves[0].step);
      }
      TrailIsGone(t, stops[1], moves[1..], stops[1..]);
    }
  }

  /** A path of components leads from one node to another if and only if it does so move by move. */
  lemma WalkExactly(t: Tree, root: string, from: Location, parts: seq<string>, loc: Location)
    requires Parts(parts)
    ensures Walk(t, root, from, Join(parts, '/')) == Some(loc) <==>
      exists stops :: Trail(t, from, Moves(parts), stops) && stops[|parts|] == loc
  {
    WalkIsGo(t, root, from, parts);
    if Go(t, from, Moves(parts)) == Some(loc) {
      var stops := GoneOnTrail(t, from, Moves(parts));
    }
    if stops :| Trail(t, from, Moves(parts), stops) && stops[|parts|] == loc {
      TrailIsGone(t, from, Moves(parts), stops);
    }
  }

  /** An absolute path is walked from the root, whose tag it has to begin with. */
  lemma {:induction false} WalkFromRoot(t: Tree, root: string, from: Location, tag: string, parts: seq<string>)
    requires Free(tag, '/') && forall p :: p in parts ==> Free(p, '/')
    ensures Walk(t, root, from, Join(["", tag] + parts, '/')) ==
      if tag == root then Walk(t, root, [], Join(parts, '/')) else None
    decreases |from|
  {
    var all := ["", tag] + parts;
    SplitJoin(all, '/');
    assert Join(all, '/') == [] + ['/'] + Join(all[1..], '/');
    if from != [] {
      WalkFromRoot(t, root, from[..|from| - 1], tag, parts);
    } else {
      assert all[2..] == parts;
    }
  }

  lemma {:induction false} GoDown(t: Tree, from: Location, steps: seq<Step>)
    requires forall i :: 0 <= i <= |from + steps| ==> Reaches(t, from + steps, i)
    ensures Go(t, from, Descend(steps)) == Some(from + steps)
    decreases |steps|
  {
    if steps == [] {
      assert from + steps == from;
    } else {
      var next := from + [steps[0]];
      assert next + steps[1..] == from + steps && Descend(steps)[1..] == Descend(steps[1..]);
      assert Reaches(t, from + steps, |next|) && (from + steps)[..|next|] == next && next[..|from|] == from;
      GoDown(t, next, steps[1..]);
    }
  }

  lemma {:induction false} GoUp(t: Tree, from: Location, n: nat, rest: seq<Move>)
    ensures n <= |from| ==> Go(t, from, Rise(n) + rest) == Go(t, from[..|from| - n], rest)
    ensures n > |from| ==> Go(t, from, Rise(n) + rest) == None
    decreases n
  {
    if n == 0 {
      assert Rise(0) + rest == rest && from[..|from|] == from;
    } else {
      assert (Rise(n) + rest)[1..] == Rise(n - 1) + rest;
      if from != [] {
        var parent := from[..|from| - 1];
        assert n <= |from| ==> parent[..|parent| - (n - 1)] == from[..|from| - n];
        GoUp(t, parent, n - 1, rest);
      }
    }
  }

  /** Going down, every component is one step. */
  lemma {:induction false} GoLength(t: Tree, from: Location, moves: seq<Move>, loc: Location)
    requires Up !in moves && Go(t, from, moves) == Some(loc)
    ensures |loc| == |from| + |moves|
    decreases |moves|
  {
    if moves != [] {
      assert moves[0] in moves;
      GoLength(t, from + [moves[0].step], moves[1..], loc);
    }
  }

  lemma MovesCons(part: string, rest: seq<string>)
    ensures Moves([part] + rest) == [Parse(part)] + Moves(rest)
  {
  }

  lemma DescendCons(steps: seq<Step>)
    requires steps != []
    ensures Descend(steps) == [Down(steps[0])] + Descend(steps[1..])
  {
  }

  /** Clean steps are read as written. */
  lemma {:induction false} MovesWritten(t: Tree, from: Location, steps: seq<Step>)
    requires Named(t, from + steps) && KeysClean(steps)
    ensures Moves(Written(t, from, steps)) == Descend(steps)
    decreases |steps|
  {
    if steps != [] {
      NextStep(t, from, steps);
      assert Clean(steps[0]);
      ParseText(At(t, from), steps[0]);
      MovesWritten(t, from + [steps[0]], steps[1..]);
      MovesCons(Text(At(t, from), steps[0]), Written(t, from + [steps[0]], steps[1..]));
      DescendCons(steps);
    }
  }

  // ----- where a walk can end -----

  /** Part of the way, then steps whose keys were read from a path. */
  ghost predicate Derived(from: Location, loc: Location) {
    exists j: nat :: DerivedAt(from, loc, j)
  }

  predicate DerivedAt(from: Location, loc: Location, j: nat) {
    j <= |from| && j <= |loc| && from[..j] == loc[..j] && KeysClean(loc[j..])
  }

  lemma RestAfter(from: Location, step: Step, loc: Location)
    requires |from| < |loc| && loc[..|from| + 1] == from + [step]
    ensures loc[..|from|] == from && loc[|from|..] == [step] + loc[|from| + 1..]
  {
    assert loc[..|from|] == loc[..|from| + 1][..|from|];
    assert loc[|from|] == loc[..|from| + 1][|from|];
  }

  lemma DerivedDown(from: Location, step: Step, loc: Location)
    requires Derived(from + [step], loc) && Clean(step)
    ensures Derived(from, loc)
  {
    var j: nat :| DerivedAt(from + [step], loc, j);
    if j <= |from| {
      assert (from + [step])[..j] == from[..j];
      assert DerivedAt(from, loc, j);
    } else {
      RestAfter(from, step, loc);
      assert DerivedAt(from, loc, |from|);
    }
  }

  lemma DerivedUp(from: Location, loc: Location)
    requires from != [] && Derived(from[..|from| - 1], loc)
    ensures Derived(from, loc)
  {
    var j: nat :| DerivedAt(from[..|from| - 1], loc, j);
    assert DerivedAt(from, loc, j);
  }

  lemma PartClean(path: string)
    requires path != "" && Parse(Split(path, '/')[0]).Down?
    ensures Clean(Parse(Split(path, '/')[0]).step)
  {
    var l := Split(path, '/')[0];
    SplitParts(path, '/', l);
    if Parse(l).step.Item? {
      ParseKeys(l);
    }
  }

  /** Wherever a walk ends, the keys it read are clean; an absolute one reads them all. */
  lemma {:induction false} WalkKeys(t: Tree, root: string, from: Location, path: string, loc: Location)
    requires Walk(t, root, from, path) == Some(loc)
    ensures Derived(from, loc) && (path != "" && path[0] == '/' ==> KeysClean(loc))
    decreases |path|, |from|
  {
    if path == "" {
      assert DerivedAt(from, loc, |from|);
    } else {
      var parts := Split(path, '/');
      if path[0] == '/' {
        if from != [] {
          WalkKeys(t, root, from[..|from| - 1], path, loc);
          DerivedUp(from, loc);
        } else {
          JoinShorter(path, '/', 2);
          WalkKeys(t, root, from, Join(parts[2..], '/'), loc);
          RootClean(loc);
        }
      } else {
        JoinShorter(path, '/', 1);
        WalkPart(t, root, from, path, Join(parts[1..], '/'), loc);
      }
    }
  }

  lemma RootClean(loc: Location)
    requires Derived([], loc)
    ensures KeysClean(loc)
  {
    var j: nat :| DerivedAt([], loc, j);
    assert loc[0..] == loc;
  }

  lemma WalkPart(t: Tree, root: string, from: Location, path: string, rest: string, loc: Location)
    requires path != "" && path[0] != '/' && rest == Join(Split(path, '/')[1..], '/') && |rest| < |path|
    requires Walk(t, root, from, path) == Some(loc)
    ensures Derived(from, loc)
    decreases |path|, |from|, 0
  {
    match Parse(Split(path, '/')[0])
    case Up =>
      WalkKeys(t, root, from[..|from| - 1], rest, loc);
      DerivedUp(from, loc);
    case Down(step) =>
      WalkKeys(t, root, from + [step], rest, loc);
      PartClean(path);
      DerivedDown(from, step, loc);
  }

  // ----- absolute paths -----

  /** The components of a path below the root: a key with a '/' gives more than one. */
  function Components(t: Tree, loc: Location): seq<string> {
    if loc == [] then []
    else Components(t, loc[..|loc| - 1]) + Split(Text(At(t, loc[..|loc| - 1]), loc[|loc| - 1]), '/')
  }

  lemma RootPart(root: string)
    requires Free(root, '/')
    ensures Split("/" + root, '/') == ["", root]
  {
    assert "/" + root == "" + ['/'] + root;
    SplitConcat("", '/', root);
    SplitSingle("", '/');
    SplitSingle(root, '/');
  }

  lemma AppendPart(path: string, text: string, head: seq<string>, parts: seq<string>)
    requires Split(path, '/') == head + parts
    ensures Split(path + "/" + text, '/') == head + (parts + Split(text, '/'))
  {
    SplitConcat(path, '/', text);
  }

  lemma {:induction false} PathParts(t: Tree, root: string, loc: Location)
    requires Free(root, '/')
    ensures Split(Path(t, root, loc), '/') == ["", root] + Components(t, loc)
  {
    if loc == [] {
      RootPart(root);
    } else {
      var most := loc[..|loc| - 1];
      PathParts(t, root, most);
      AppendPart(Path(t, root, most), Text(At(t, most), loc[|loc| - 1]), ["", root], Components(t, most));
    }
  }

  lemma {:induction false} PathAbsolute(t: Tree, root: string, loc: Location)
    ensures Path(t, root, loc) != "" && Path(t, root, loc)[0] == '/'
  {
    if loc != [] {
      PathAbsolute(t, root, loc[..|loc| - 1]);
    }
  }

  lemma {:induction false} WrittenAppend(t: Tree, from: Location, steps: seq<Step>, last: Step)
    ensures Written(t, from, steps + [last]) == Written(t, from, steps) + [Text(At(t, from + steps), last)]
    decreases |steps|
  {
    if steps == [] {
      assert from + steps == from;
    } else {
      WrittenAppend(t, from + [steps[0]], steps[1..], last);
      assert (steps + [last])[1..] == steps[1..] + [last];
      assert from + [steps[0]] + steps[1..] == from + steps;
    }
  }

  lemma NamedPrefix(t: Tree, loc: Location, n: nat)
    requires Named(t, loc) && n <= |loc|
    ensures Named(t, loc[..n])
  {
    var most := loc[..n];
    forall i | 0 <= i <= n
      ensures Reaches(t, most, i)
    {
      assert Reaches(t, loc, i) && most[..i] == loc[..i];
    }
    forall i | 0 <= i < n
      ensures NamedAt(t, most, i)
    {
      assert NamedAt(t, loc, i) && most[..i] == loc[..i];
    }
  }

  /** The last component, in one piece or in several. */
  lemma LastPart(t: Tree, loc: Location)
    requires Named(t, loc) && loc != []
    ensures var n := |loc| - 1; var text := Text(At(t, loc[..n]), loc[n]);
      (|Split(text, '/')| == 1 <==> Whole(loc[n])) && (Whole(loc[n]) ==> Split(text, '/') == [text])
  {
    var n := |loc| - 1;
    assert NamedAt(t, loc, n);
    TextFree(At(t, loc[..n]), loc[n]);
    SplitSingle(Text(At(t, loc[..n]), loc[n]), '/');
  }

  lemma Last(loc: Location, n: nat)
    requires n < |loc|
    ensures var most := loc[..|loc| - 1];
      most[..n] == loc[..n] && loc[n..] == most[n..] + [loc[|loc| - 1]] && loc[..n] + most[n..] == most
  {
  }

  lemma WholeAppend(steps: seq<Step>, last: Step)
    ensures KeysWhole(steps + [last]) <==> KeysWhole(steps) && Whole(last)
  {
    if KeysWhole(steps + [last]) {
      assert Whole((steps + [last])[|steps|]);
      assert forall i :: 0 <= i < |steps| ==> (steps + [last])[i] == steps[i];
    }
  }

  /** Below a node, whole keys are written as components one by one. */
  lemma {:induction false} ComponentsWritten(t: Tree, loc: Location, n: nat)
    requires Named(t, loc) && n <= |loc| && KeysWhole(loc[n..])
    ensures Components(t, loc) == Components(t, loc[..n]) + Written(t, loc[..n], loc[n..])
    decreases |loc|
  {
    if n == |loc| {
      assert loc[..n] == loc && loc[n..] == [];
    } else {
      var most, last := loc[..|loc| - 1], loc[|loc| - 1];
      Last(loc, n);
      WholeAppend(most[n..], last);
      NamedPrefix(t, loc, |loc| - 1);
      ComponentsWritten(t, most, n);
      ComponentsLast(t, loc);
      WrittenAppend(t, loc[..n], most[n..], last);
      AppendLast(Components(t, loc[..n]), Written(t, loc[..n], most[n..]), Text(At(t, most), last));
    }
  }

  lemma ComponentsLast(t: Tree, loc: Location)
    requires Named(t, loc) && loc != [] && Whole(loc[|loc| - 1])
    ensures Components(t, loc) == Components(t, loc[..|loc| - 1]) + [Text(At(t, loc[..|loc| - 1]), loc[|loc| - 1])]
  {
    LastPart(t, loc);
  }

  lemma AppendLast(a: seq<string>, b: seq<string>, last: string)
    ensures a + b + [last] == a + (b + [last])
  {
  }

  /** From any node, the absolute path of a node leads to that node if and only if every key on the way
      is free of '/', '=' and ','. */
  lemma WalkAbsolute(t: Tree, root: string, from: Location, loc: Location)
    requires Named(t, loc) && Free(root, '/')
    ensures Walk(t, root, from, Path(t, root, loc)) == Some(loc) <==> KeysClean(loc)
  {
    PathAbsolute(t, root, loc);
    if Walk(t, root, from, Path(t, root, loc)) == Some(loc) {
      WalkKeys(t, root, from, Path(t, root, loc), loc);
    }
    if KeysClean(loc) {
      WalkClean(t, root, from, loc);
    }
  }

  lemma RootComponents(t: Tree, loc: Location)
    requires Named(t, loc) && KeysClean(loc)
    ensures Components(t, loc) == Written(t, [], loc)
  {
    CleanWhole(loc);
    assert loc[0..] == loc && loc[..0] == [];
    ComponentsWritten(t, loc, 0);
  }

  lemma {:induction false} WalkClean(t: Tree, root: string, from: Location, loc: Location)
    requires Named(t, loc) && Free(root, '/') && KeysClean(loc)
    ensures Walk(t, root, from, Path(t, root, loc)) == Some(loc)
    decreases |from|
  {
    PathAbsolute(t, root, loc);
    if from != [] {
      WalkClean(t, root, from[..|from| - 1], loc);
    } else {
      PathParts(t, root, loc);
      RootComponents(t, loc);
      assert (["", root] + Written(t, [], loc))[2..] == Written(t, [], loc);
      assert [] + loc == loc;
      CleanWhole(loc);
      AllFree(t, [], loc);
      WalkIsGo(t, root, [], Written(t, [], loc));
      MovesWritten(t, [], loc);
      GoDown(t, [], loc);
    }
  }

  /** The failing cases in the small: an entry whose key is a separator. */
  lemma SeparatorLost(c: char)
    requires c == '/' || c == '=' || c == ','
    ensures var t := Container(map["l" := List(map[[c] := Entry("id", map["id" := Leaf(Some([c]), NoOp)], NoOp)])]);
      var loc := [Item("l", [c])];
      Named(t, loc) && Walk(t, "r", [], Path(t, "r", loc)) != Some(loc)
  {
    var t := Container(map["l" := List(map[[c] := Entry("id", map["id" := Leaf(Some([c]), NoOp)], NoOp)])]);
    var loc := [Item("l", [c])];
    assert loc[..0] == [] && loc[..1] == loc;
    assert Reaches(t, loc, 0) && Reaches(t, loc, 1) && NamedAt(t, loc, 0);
    assert c in loc[0].key;
    assert !Clean(loc[0]);
    WalkAbsolute(t, "r", [], loc);
  }
}

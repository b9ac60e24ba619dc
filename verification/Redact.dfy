/** Redaction of audit snapshots over an explicit object heap with sharing and cycles. */
module Redact {
  import opened Wrappers

  /** Text, or a primitive that redaction never looks into. */
  datatype Atom = Text(text: string) | Other(id: nat)

  datatype Value = Plain(atom: Atom) | Ref(address: nat)

  /** Array items have no key. */
  datatype Entry = Entry(key: Option<string>, value: Value)

  datatype Cell = Cell(isArray: bool, entries: seq<Entry>)

  type Heap = map<nat, Cell>

  /** What an unshared value looks like when written out. */
  datatype Tree = Leaf(atom: Atom) | Node(isArray: bool, branches: Branches)

  /** The entries of a node, oldest first. */
  datatype Branches = Empty | Push(before: Branches, key: Option<string>, tree: Tree)

  type Keys = string -> bool

  const CIRCULAR := Text("[Circular]")

  predicate Known(h: Heap, v: Value) {
    v.Ref? ==> v.address in h
  }

  predicate AllKnown(h: Heap, es: seq<Entry>) {
    forall k | 0 <= k < |es| :: Known(h, es[k].value)
  }

  predicate Closed(h: Heap) {
    forall a | a in h :: AllKnown(h, h[a].entries)
  }

  predicate Dropped(key: Option<string>, sensitive: Keys) {
    key.Some? && sensitive(key.value)
  }

  lemma LessLeft(xs: set<nat>, seen: set<nat>, more: set<nat>)
    requires seen <= more
    ensures |xs - more| <= |xs - seen|
    ensures forall a | a in xs && a !in seen && a in more :: |xs - more| < |xs - seen|
  {
    var p, q := xs - more, xs - seen;
    assert q == p + (q - p);
    assert |q| == |p| + |q - p|;
    forall a | a in xs && a !in seen && a in more ensures |p| < |q| {
      assert a in q - p;
    }
  }

  /** What redaction returns, and the objects seen by then. */
  function Redacted(h: Heap, v: Value, seen: set<nat>, sensitive: Keys): (r: (Tree, set<nat>))
    requires Closed(h) && Known(h, v)
    ensures seen <= r.1 <= seen + h.Keys
    decreases |h.Keys - seen|, 0, 0
  {
    match v
    case Plain(atom) => (Leaf(atom), seen)
    case Ref(a) =>
      if a in seen then (Leaf(CIRCULAR), seen)
      else
        LessLeft(h.Keys, seen, seen + {a});
        var (ts, after) := RedactedEntries(h, h[a].entries, seen + {a}, sensitive);
        (Node(h[a].isArray, ts), after)
  }

  function RedactedEntries(h: Heap, es: seq<Entry>, seen: set<nat>, sensitive: Keys): (r: (Branches, set<nat>))
    requires Closed(h) && AllKnown(h, es)
    ensures seen <= r.1 <= seen + h.Keys
    decreases |h.Keys - seen|, |es|, 1
  {
    if es == [] then (Empty, seen)
    else
      var (ts, mid) := RedactedEntries(h, es[..|es| - 1], seen, sensitive);
      var e := es[|es| - 1];
      if Dropped(e.key, sensitive) then (ts, mid)
      else
        LessLeft(h.Keys, seen, mid);
        var (t, after) := Redacted(h, e.value, mid, sensitive);
        (Push(ts, e.key, t), after)
  }

  lemma FirstMeeting(h: Heap, a: nat, seen: set<nat>, sensitive: Keys)
    requires Closed(h) && a in h && a !in seen
    ensures AllKnown(h, h[a].entries) && |h.Keys - (seen + {a})| < |h.Keys - seen|
    ensures var r := RedactedEntries(h, h[a].entries, seen + {a}, sensitive);
      Redacted(h, Ref(a), seen, sensitive).0 == Node(h[a].isArray, r.0) && Redacted(h, Ref(a), seen, sensitive).1 == r.1
  {
    LessLeft(h.Keys, seen, seen + {a});
  }

  lemma OneMoreEntry(h: Heap, es: seq<Entry>, i: nat, seen: set<nat>, sensitive: Keys)
    requires Closed(h) && AllKnown(h, es) && i < |es|
    ensures var (ts, mid) := RedactedEntries(h, es[..i], seen, sensitive);
      RedactedEntries(h, es[..i + 1], seen, sensitive) ==
      if Dropped(es[i].key, sensitive) then (ts, mid)
      else (Push(ts, es[i].key, Redacted(h, es[i].value, mid, sensitive).0), Redacted(h, es[i].value, mid, sensitive).1)
  {
    assert es[..i + 1][..i] == es[..i];
  }

  // ----- Trees in the heap -----

  /** The addresses that hold `t` when `v` reads as `t`. */
  function Footprint(h: Heap, v: Value, t: Tree): set<nat>
    decreases t
  {
    if v.Ref? && v.address in h && t.Node? then {v.address} + Footprints(h, h[v.address].entries, t.branches) else {}
  }

  function Footprints(h: Heap, es: seq<Entry>, ts: Branches): set<nat>
    decreases ts
  {
    match ts
    case Empty => {}
    case Push(before, _, t) =>
      if es == [] then {} else Footprints(h, es[..|es| - 1], before) + Footprint(h, es[|es| - 1].value, t)
  }

  /** `v` reads as `t`, and no object below it is reached twice. */
  predicate IsTree(h: Heap, v: Value, t: Tree)
    decreases t
  {
    match v
    case Plain(atom) => t == Leaf(atom)
    case Ref(a) =>
      t.Node? && a in h && t.isArray == h[a].isArray
      && AreTrees(h, h[a].entries, t.branches) && a !in Footprints(h, h[a].entries, t.branches)
  }

  predicate AreTrees(h: Heap, es: seq<Entry>, ts: Branches)
    decreases ts
  {
    match ts
    case Empty => es == []
    case Push(before, key, t) =>
      es != [] &&
      var rest, e := es[..|es| - 1], es[|es| - 1];
      AreTrees(h, rest, before) && e.key == key && IsTree(h, e.value, t)
      && Footprints(h, rest, before) !! Footprint(h, e.value, t)
  }

  /** Plain recursive key filtering, with no memory of what was seen. */
  function Filtered(t: Tree, sensitive: Keys): Tree {
    match t
    case Leaf(_) => t
    case Node(isArray, ts) => Node(isArray, FilteredBranches(ts, sensitive))
  }

  function FilteredBranches(ts: Branches, sensitive: Keys): Branches {
    match ts
    case Empty => Empty
    case Push(before, key, t) =>
      if key.Some? && sensitive(key.value) then FilteredBranches(before, sensitive)
      else Push(FilteredBranches(before, sensitive), key, Filtered(t, sensitive))
  }

  /** No sensitive key at any depth. */
  predicate Safe(t: Tree, sensitive: Keys) {
    t.Node? ==> SafeBranches(t.branches, sensitive)
  }

  predicate SafeBranches(ts: Branches, sensitive: Keys) {
    match ts
    case Empty => true
    case Push(before, key, t) => SafeBranches(before, sensitive) && (key.Some? ==> !sensitive(key.value)) && Safe(t, sensitive)
  }

  // ----- What comes out is safe -----

  lemma {:induction false} OutputIsSafe(h: Heap, v: Value, seen: set<nat>, sensitive: Keys)
    requires Closed(h) && Known(h, v)
    ensures Safe(Redacted(h, v, seen, sensitive).0, sensitive)
    decreases |h.Keys - seen|, 0, 0
  {
    if v.Ref? && v.address !in seen {
      LessLeft(h.Keys, seen, seen + {v.address});
      OutputsAreSafe(h, h[v.address].entries, seen + {v.address}, sensitive);
    }
  }

  lemma {:induction false} OutputsAreSafe(h: Heap, es: seq<Entry>, seen: set<nat>, sensitive: Keys)
    requires Closed(h) && AllKnown(h, es)
    ensures SafeBranches(RedactedEntries(h, es, seen, sensitive).0, sensitive)
    decreases |h.Keys - seen|, |es|, 1
  {
    if es != [] {
      OutputsAreSafe(h, es[..|es| - 1], seen, sensitive);
      var e, mid := es[|es| - 1], RedactedEntries(h, es[..|es| - 1], seen, sensitive).1;
      LessLeft(h.Keys, seen, mid);
      if !Dropped(e.key, sensitive) {
        OutputIsSafe(h, e.value, mid, sensitive);
      }
    }
  }

  // ----- On unshared input, plain filtering -----

  lemma {:induction false} UnsharedIsFiltered(h: Heap, v: Value, t: Tree, seen: set<nat>, sensitive: Keys)
    requires Closed(h) && Known(h, v) && IsTree(h, v, t) && seen !! Footprint(h, v, t)
    ensures Redacted(h, v, seen, sensitive).0 == Filtered(t, sensitive)
    ensures Redacted(h, v, seen, sensitive).1 <= seen + Footprint(h, v, t)
    decreases t
  {
    if v.Ref? {
      UnsharedAreFiltered(h, h[v.address].entries, t.branches, seen + {v.address}, sensitive);
    }
  }

  lemma {:induction false} UnsharedAreFiltered(h: Heap, es: seq<Entry>, ts: Branches, seen: set<nat>, sensitive: Keys)
    requires Closed(h) && AllKnown(h, es) && AreTrees(h, es, ts) && seen !! Footprints(h, es, ts)
    ensures RedactedEntries(h, es, seen, sensitive).0 == FilteredBranches(ts, sensitive)
    ensures RedactedEntries(h, es, seen, sensitive).1 <= seen + Footprints(h, es, ts)
    decreases ts
  {
    if ts.Push? {
      var rest, e := es[..|es| - 1], es[|es| - 1];
      UnsharedAreFiltered(h, rest, ts.before, seen, sensitive);
      if !Dropped(e.key, sensitive) {
        UnsharedIsFiltered(h, e.value, ts.tree, RedactedEntries(h, rest, seen, sensitive).1, sensitive);
      }
    }
  }

  lemma {:induction false} SafeIsFixed(t: Tree, sensitive: Keys)
    requires Safe(t, sensitive)
    ensures Filtered(t, sensitive) == t
  {
    if t.Node? {
      SafeAreFixed(t.branches, sensitive);
    }
  }

  lemma {:induction false} SafeAreFixed(ts: Branches, sensitive: Keys)
    requires SafeBranches(ts, sensitive)
    ensures FilteredBranches(ts, sensitive) == ts
  {
    if ts.Push? {
      SafeAreFixed(ts.before, sensitive);
      SafeIsFixed(ts.tree, sensitive);
    }
  }

  // ----- On any input, every reachable object is written out once -----

  /** A reference that redaction follows. */
  predicate Follows(h: Heap, a: nat, b: nat, sensitive: Keys) {
    a in h && Mentions(h[a].entries, b, sensitive)
  }

  predicate Mentions(es: seq<Entry>, b: nat, sensitive: Keys) {
    exists k :: 0 <= k < |es| && !Dropped(es[k].key, sensitive) && es[k].value == Ref(b)
  }

  ghost predicate Path(h: Heap, v: Value, path: seq<nat>, sensitive: Keys) {
    path != [] && v == Ref(path[0]) && forall k | 0 <= k < |path| - 1 :: Follows(h, path[k], path[k + 1], sensitive)
  }

  /** `a` can be reached from `v` without going through a sensitive key. */
  ghost predicate Reachable(h: Heap, v: Value, a: nat, sensitive: Keys) {
    exists path :: Path(h, v, path, sensitive) && path[|path| - 1] == a
  }

  function Nodes(t: Tree): nat {
    match t
    case Leaf(_) => 0
    case Node(_, ts) => 1 + NodesIn(ts)
  }

  function NodesIn(ts: Branches): nat {
    match ts
    case Empty => 0
    case Push(before, _, t) => NodesIn(before) + Nodes(t)
  }

  lemma LastMention(es: seq<Entry>, b: nat, sensitive: Keys)
    requires es != []
    ensures var e := es[|es| - 1];
      Mentions(es, b, sensitive) <==>
      Mentions(es[..|es| - 1], b, sensitive) || (!Dropped(e.key, sensitive) && e.value == Ref(b))
  {
    var rest := es[..|es| - 1];
    assert forall k | 0 <= k < |rest| :: rest[k] == es[k];
  }

  /** `t` is what `v` looks like when its nodes show, in order, the objects at the addresses `from`. */
  predicate Shows(h: Heap, v: Value, t: Tree, from: seq<nat>, sensitive: Keys)
    decreases t
  {
    match v
    case Plain(atom) => t == Leaf(atom) && from == []
    case Ref(a) =>
      if t.Leaf? then t == Leaf(Text("[Circular]")) && from == []
      else
        from != [] && from[0] == a && a in h && t.isArray == h[a].isArray
        && ShowEntries(h, h[a].entries, t.branches, from[1..], sensitive)
  }

  /** The kept entries in order, each under its key. */
  predicate ShowEntries(h: Heap, es: seq<Entry>, ts: Branches, from: seq<nat>, sensitive: Keys)
    decreases ts, |es|
  {
    if es == [] then ts == Empty && from == []
    else
      var rest, e := es[..|es| - 1], es[|es| - 1];
      if Dropped(e.key, sensitive) then ShowEntries(h, rest, ts, from, sensitive)
      else
        && ts.Push? && ts.key == e.key && NodesIn(ts.before) <= |from|
        && ShowEntries(h, rest, ts.before, from[..NodesIn(ts.before)], sensitive)
        && Shows(h, e.value, ts.tree, from[NodesIn(ts.before)..], sensitive)
  }

  /** `from` names each address of `xs` once, and no other. */
  ghost predicate Lists(from: seq<nat>, xs: set<nat>) {
    (forall a :: a in from <==> a in xs) && forall i, j | 0 <= i < j < |from| :: from[i] != from[j]
  }

  lemma ListsJoin(from: seq<nat>, more: seq<nat>, seen: set<nat>, mid: set<nat>, after: set<nat>)
    requires seen <= mid <= after && Lists(from, mid - seen) && Lists(more, after - mid)
    ensures Lists(from + more, after - seen)
  {
    var all := from + more;
    forall i, j | 0 <= i < j < |all| ensures all[i] != all[j] {
      if i < |from| <= j {
        assert all[i] in from && all[j] in more;
      }
    }
  }

  /** Each object entered is shown by one node. */
  lemma {:induction false} NodePerObject(h: Heap, v: Value, seen: set<nat>, sensitive: Keys) returns (from: seq<nat>)
    requires Closed(h) && Known(h, v)
    ensures var (t, after) := Redacted(h, v, seen, sensitive);
      Shows(h, v, t, from, sensitive) && |from| == Nodes(t) && Lists(from, after - seen)
    decreases |h.Keys - seen|, 0, 0
  {
    from := [];
    if v.Ref? && v.address !in seen {
      var a := v.address;
      LessLeft(h.Keys, seen, seen + {a});
      var below := NodesPerObject(h, h[a].entries, seen + {a}, sensitive);
      from := [a] + below;
      assert from[1..] == below;
      ListsJoin([a], below, seen, seen + {a}, Redacted(h, v, seen, sensitive).1);
    }
  }

  lemma {:induction false} NodesPerObject(h: Heap, es: seq<Entry>, seen: set<nat>, sensitive: Keys) returns (from: seq<nat>)
    requires Closed(h) && AllKnown(h, es)
    ensures var (ts, after) := RedactedEntries(h, es, seen, sensitive);
      ShowEntries(h, es, ts, from, sensitive) && |from| == NodesIn(ts) && Lists(from, after - seen)
    decreases |h.Keys - seen|, |es|, 1
  {
    from := [];
    if es != [] {
      var rest, e := es[..|es| - 1], es[|es| - 1];
      var before := NodesPerObject(h, rest, seen, sensitive);
      from := before;
      var mid := RedactedEntries(h, rest, seen, sensitive).1;
      LessLeft(h.Keys, seen, mid);
      if !Dropped(e.key, sensitive) {
        var more := NodePerObject(h, e.value, mid, sensitive);
        from := before + more;
        assert from[..|before|] == before && from[|before|..] == more;
        ListsJoin(before, more, seen, mid, Redacted(h, e.value, mid, sensitive).1);
      }
    }
  }

  /** What an entered object refers to is entered too. */
  ghost predicate Entered(h: Heap, seen: set<nat>, after: set<nat>, sensitive: Keys) {
    forall a, b | a in after && a !in seen && Follows(h, a, b, sensitive) :: b in after
  }

  lemma EnteredJoin(h: Heap, seen: set<nat>, mid: set<nat>, after: set<nat>, sensitive: Keys)
    requires Entered(h, seen, mid, sensitive) && Entered(h, mid, after, sensitive) && mid <= after
    ensures Entered(h, seen, after, sensitive)
  {
  }

  lemma {:induction false} EntersAll(h: Heap, v: Value, seen: set<nat>, sensitive: Keys)
    requires Closed(h) && Known(h, v)
    ensures var after := Redacted(h, v, seen, sensitive).1;
      Entered(h, seen, after, sensitive) && (v.Ref? ==> v.address in after)
    decreases |h.Keys - seen|, 0, 0
  {
    if v.Ref? && v.address !in seen {
      LessLeft(h.Keys, seen, seen + {v.address});
      EntersEach(h, h[v.address].entries, seen + {v.address}, sensitive);
    }
  }

  lemma {:induction false} EntersEach(h: Heap, es: seq<Entry>, seen: set<nat>, sensitive: Keys)
    requires Closed(h) && AllKnown(h, es)
    ensures var after := RedactedEntries(h, es, seen, sensitive).1;
      Entered(h, seen, after, sensitive) && forall b | Mentions(es, b, sensitive) :: b in after
    decreases |h.Keys - seen|, |es|, 1
  {
    if es != [] {
      var rest, e := es[..|es| - 1], es[|es| - 1];
      EntersEach(h, rest, seen, sensitive);
      var mid := RedactedEntries(h, rest, seen, sensitive).1;
      LessLeft(h.Keys, seen, mid);
      if !Dropped(e.key, sensitive) {
        EntersAll(h, e.value, mid, sensitive);
        EnteredJoin(h, seen, mid, Redacted(h, e.value, mid, sensitive).1, sensitive);
      }
      forall b | Mentions(es, b, sensitive) ensures b in RedactedEntries(h, es, seen, sensitive).1 {
        LastMention(es, b, sensitive);
      }
    }
  }

  lemma {:induction false} PathStaysIn(h: Heap, v: Value, path: seq<nat>, after: set<nat>, sensitive: Keys, k: nat)
    requires Path(h, v, path, sensitive) && k < |path|
    requires Entered(h, {}, after, sensitive) && path[0] in after
    ensures path[k] in after
  {
    if k > 0 {
      PathStaysIn(h, v, path, after, sensitive, k - 1);
      assert Follows(h, path[k - 1], path[k - 1 + 1], sensitive);
    }
  }

  lemma {:induction false} EntersOnlyReachable(h: Heap, v: Value, seen: set<nat>, sensitive: Keys, a: nat)
    requires Closed(h) && Known(h, v) && a in Redacted(h, v, seen, sensitive).1 && a !in seen
    ensures Reachable(h, v, a, sensitive)
    decreases |h.Keys - seen|, 0, 0
  {
    var root := v.address;
    if a == root {
      assert Path(h, v, [a], sensitive) && [a][|[a]| - 1] == a;
    } else {
      LessLeft(h.Keys, seen, seen + {root});
      var b := EntersFromMention(h, h[root].entries, seen + {root}, sensitive, a);
      var path :| Path(h, Ref(b), path, sensitive) && path[|path| - 1] == a;
      var longer := [root] + path;
      assert Follows(h, root, b, sensitive);
      forall k | 0 <= k < |longer| - 1 ensures Follows(h, longer[k], longer[k + 1], sensitive) {
        if k > 0 {
          assert longer[k] == path[k - 1] && longer[k + 1] == path[k - 1 + 1];
        }
      }
      assert Path(h, v, longer, sensitive) && longer[|longer| - 1] == a;
    }
  }

  lemma {:induction false} EntersFromMention(h: Heap, es: seq<Entry>, seen: set<nat>, sensitive: Keys, a: nat) returns (b: nat)
    requires Closed(h) && AllKnown(h, es) && a in RedactedEntries(h, es, seen, sensitive).1 && a !in seen
    ensures Mentions(es, b, sensitive) && Reachable(h, Ref(b), a, sensitive)
    decreases |h.Keys - seen|, |es|, 1
  {
    var rest, e := es[..|es| - 1], es[|es| - 1];
    var mid := RedactedEntries(h, rest, seen, sensitive).1;
    if a in mid {
      b := EntersFromMention(h, rest, seen, sensitive, a);
    } else {
      LessLeft(h.Keys, seen, mid);
      EntersOnlyReachable(h, e.value, mid, sensitive, a);
      b := e.value.address;
    }
    LastMention(es, b, sensitive);
  }

  /** However shared or cyclic the input: every object reachable without a sensitive key is shown by exactly one node, and no other object by any. */
  lemma EachReachableObjectOnce(h: Heap, v: Value, sensitive: Keys) returns (from: seq<nat>)
    requires Closed(h) && Known(h, v)
    ensures var (t, after) := Redacted(h, v, {}, sensitive);
      && Shows(h, v, t, from, sensitive) && |from| == Nodes(t) && Lists(from, after)
      && forall a :: a in after <==> Reachable(h, v, a, sensitive)
  {
    var after := Redacted(h, v, {}, sensitive).1;
    from := NodePerObject(h, v, {}, sensitive);
    assert after - {} == after;
    EntersAll(h, v, {}, sensitive);
    forall a ensures a in after <==> Reachable(h, v, a, sensitive) {
      if a in after {
        EntersOnlyReachable(h, v, {}, sensitive, a);
      }
      if path :| Path(h, v, path, sensitive) && path[|path| - 1] == a {
        PathStaysIn(h, v, path, after, sensitive, |path| - 1);
      }
    }
  }

  // ----- The algorithm on the heap -----

  ghost predicate Keeps(before: Heap, after: Heap) {
    forall a | a in before :: a in after && after[a] == before[a]
  }

  ghost predicate KeepsOthers(before: Heap, after: Heap, out: nat) {
    forall a | a in before && a != out :: a in after && after[a] == before[a]
  }

  ghost predicate Agree(h: Heap, g: Heap, on: set<nat>) {
    forall a | a in on :: a in h && a in g && h[a] == g[a]
  }

  lemma {:induction false} TreeFrame(h: Heap, g: Heap, v: Value, t: Tree)
    requires IsTree(h, v, t) && Agree(h, g, Footprint(h, v, t))
    ensures IsTree(g, v, t) && Footprint(g, v, t) == Footprint(h, v, t)
    decreases t
  {
    if v.Ref? {
      assert v.address in Footprint(h, v, t);
      TreesFrame(h, g, h[v.address].entries, t.branches);
    }
  }

  lemma {:induction false} TreesFrame(h: Heap, g: Heap, es: seq<Entry>, ts: Branches)
    requires AreTrees(h, es, ts) && Agree(h, g, Footprints(h, es, ts))
    ensures AreTrees(g, es, ts) && Footprints(g, es, ts) == Footprints(h, es, ts)
    decreases ts
  {
    if ts.Push? {
      TreesFrame(h, g, es[..|es| - 1], ts.before);
      TreeFrame(h, g, es[|es| - 1].value, ts.tree);
    }
  }

  lemma OneMoreTree(h: Heap, es: seq<Entry>, ts: Branches, key: Option<string>, v: Value, t: Tree)
    requires AreTrees(h, es, ts) && IsTree(h, v, t) && Footprints(h, es, ts) !! Footprint(h, v, t)
    ensures AreTrees(h, es + [Entry(key, v)], Push(ts, key, t))
    ensures Footprints(h, es + [Entry(key, v)], Push(ts, key, t)) == Footprints(h, es, ts) + Footprint(h, v, t)
  {
    assert (es + [Entry(key, v)])[..|es|] == es;
  }

  /** All of `xs` are addresses from `low` up to `high`. */
  ghost predicate Between(xs: set<nat>, low: nat, high: nat) {
    forall a | a in xs :: low <= a < high
  }

  /** One object heap and the WeakSet that a redaction shares with its recursive calls. */
  class Redactor {
    var cells: Heap
    var next: nat
    var seen: set<nat>

    ghost predicate Valid()
      reads this
    {
      forall a | a in cells :: a < next
    }

    constructor (h: Heap, free: nat)
      requires forall a | a in h :: a < free
      ensures Valid() && cells == h && next == free && seen == {}
    {
      cells, next, seen := h, free, {};
    }

    /** The result is a fresh unshared tree with the specified content; no existing object changes. */
    method RedactSensitive(v: Value, sensitive: Keys, ghost h: Heap) returns (r: Value, ghost t: Tree)
      requires Valid() && Closed(h) && Known(h, v) && Keeps(h, cells)
      modifies this
      ensures Valid() && old(next) <= next && Keeps(old(cells), cells)
      ensures t == Redacted(h, v, old(seen), sensitive).0 && seen == Redacted(h, v, old(seen), sensitive).1
      ensures IsTree(cells, r, t) && Between(Footprint(cells, r, t), old(next), next)
      decreases |h.Keys - seen|, 1
    {
      match v
      case Plain(atom) =>
        r, t := v, Leaf(atom);
      case Ref(a) =>
        if a in seen {
          r, t := Plain(CIRCULAR), Leaf(CIRCULAR);
        } else {
          r, t := Enter(a, sensitive, h);
        }
    }

    /** A new object without entries. */
    method Allocate(isArray: bool) returns (out: nat)
      requires Valid()
      modifies this`cells, this`next
      ensures Filled(out, Empty, next) && Keeps(old(cells), cells)
      ensures out == old(next) && next == out + 1 && cells[out] == Cell(isArray, [])
    {
      out := next;
      cells, next := cells[out := Cell(isArray, [])], next + 1;
    }

    /** An object met for the first time: a new one is filled in its place. */
    method Enter(a: nat, sensitive: Keys, ghost h: Heap) returns (r: Value, ghost t: Tree)
      requires Valid() && Closed(h) && a in h && a !in seen && Keeps(h, cells)
      modifies this
      ensures Valid() && old(next) <= next && Keeps(old(cells), cells)
      ensures t == Redacted(h, Ref(a), old(seen), sensitive).0 && seen == Redacted(h, Ref(a), old(seen), sensitive).1
      ensures IsTree(cells, r, t) && Between(Footprint(cells, r, t), old(next), next)
      decreases |h.Keys - seen|, 0
    {
      FirstMeeting(h, a, seen, sensitive);
      var cell := cells[a];
      seen := seen + {a};
      var out := Allocate(cell.isArray);
      ghost var ts := Fill(out, cell.entries, sensitive, h);
      r, t := Ref(out), Node(cell.isArray, ts);
      NodeIsTree(cells, out, ts, next);
    }

    /** The entries put into `out` so far read as `ts`, all in objects made since `low`. */
    ghost predicate Filled(out: nat, ts: Branches, low: nat)
      reads this
    {
      Valid() && out in cells && out < low <= next
      && AreTrees(cells, cells[out].entries, ts) && Between(Footprints(cells, cells[out].entries, ts), low, next)
    }

    method PutEntry(out: nat, key: Option<string>, v: Value, sensitive: Keys, ghost h: Heap, ghost ts: Branches, ghost low: nat)
      returns (ghost t: Tree)
      requires Filled(out, ts, low) && Closed(h) && Known(h, v) && Keeps(h, cells) && out !in h
      modifies this
      ensures Filled(out, Push(ts, key, t), low)
      ensures KeepsOthers(old(cells), cells, out) && cells[out].isArray == old(cells)[out].isArray
      ensures t == Redacted(h, v, old(seen), sensitive).0 && seen == Redacted(h, v, old(seen), sensitive).1
      decreases |h.Keys - seen|, 2
    {
      ghost var before, mid := cells, next;
      var r;
      r, t := RedactSensitive(v, sensitive, h);
      ghost var filled := cells;
      var cell := cells[out];
      cells := cells[out := Cell(cell.isArray, cell.entries + [Entry(key, r)])];
      Append(before, filled, cells, out, cell.entries, ts, key, r, t, low, mid, next);
    }

    /** The loop over the entries of an object, or the items of an array. */
    method Fill(out: nat, entries: seq<Entry>, sensitive: Keys, ghost h: Heap) returns (ghost ts: Branches)
      requires Filled(out, Empty, next) && Closed(h) && AllKnown(h, entries) && Keeps(h, cells) && out !in h
      modifies this
      ensures Filled(out, ts, old(next))
      ensures KeepsOthers(old(cells), cells, out) && cells[out].isArray == old(cells)[out].isArray
      ensures ts == RedactedEntries(h, entries, old(seen), sensitive).0
      ensures seen == RedactedEntries(h, entries, old(seen), sensitive).1
      decreases |h.Keys - seen|, 3
    {
      ts := Empty;
      for i := 0 to |entries|
        invariant Filled(out, ts, old(next))
        invariant KeepsOthers(old(cells), cells, out) && cells[out].isArray == old(cells)[out].isArray
        invariant ts == RedactedEntries(h, entries[..i], old(seen), sensitive).0
        invariant seen == RedactedEntries(h, entries[..i], old(seen), sensitive).1
      {
        var e := entries[i];
        OneMoreEntry(h, entries, i, old(seen), sensitive);
        if !Dropped(e.key, sensitive) {
          LessLeft(h.Keys, old(seen), seen);
          ghost var t := PutEntry(out, e.key, e.value, sensitive, h, ts, old(next));
          ts := Push(ts, e.key, t);
        }
      }
      assert entries[..|entries|] == entries;
    }
  }

  lemma NodeIsTree(g: Heap, out: nat, ts: Branches, high: nat)
    requires out in g && out < high
    requires AreTrees(g, g[out].entries, ts) && Between(Footprints(g, g[out].entries, ts), out + 1, high)
    ensures IsTree(g, Ref(out), Node(g[out].isArray, ts))
    ensures Between(Footprint(g, Ref(out), Node(g[out].isArray, ts)), out, high)
  {
  }

  lemma Append(before: Heap, filled: Heap, done: Heap, out: nat, es: seq<Entry>, ts: Branches, key: Option<string>,
               r: Value, t: Tree, low: nat, mid: nat, high: nat)
    requires out in before && out < low <= mid <= high && Keeps(before, filled)
    requires AreTrees(before, es, ts) && Between(Footprints(before, es, ts), low, mid)
    requires IsTree(filled, r, t) && Between(Footprint(filled, r, t), mid, high)
    requires filled.Keys <= done.Keys && forall a | a in filled && a != out :: done[a] == filled[a]
    ensures AreTrees(done, es + [Entry(key, r)], Push(ts, key, t))
    ensures Between(Footprints(done, es + [Entry(key, r)], Push(ts, key, t)), low, high)
  {
    FootprintsKnown(before, es, ts);
    FootprintKnown(filled, r, t);
    TreesFrame(before, done, es, ts);
    TreeFrame(filled, done, r, t);
    OneMoreTree(done, es, ts, key, r, t);
  }

  lemma {:induction false} FootprintKnown(h: Heap, v: Value, t: Tree)
    ensures Footprint(h, v, t) <= h.Keys
    decreases t
  {
    if v.Ref? && v.address in h && t.Node? {
      FootprintsKnown(h, h[v.address].entries, t.branches);
    }
  }

  lemma {:induction false} FootprintsKnown(h: Heap, es: seq<Entry>, ts: Branches)
    ensures Footprints(h, es, ts) <= h.Keys
    decreases ts
  {
    if ts.Push? && es != [] {
      FootprintsKnown(h, es[..|es| - 1], ts.before);
      FootprintKnown(h, es[|es| - 1].value, ts.tree);
    }
  }

  /** The part of the heap that holds `t`. */
  function Part(h: Heap, v: Value, t: Tree): Heap {
    map a | a in Footprint(h, v, t) && a in h :: h[a]
  }

  lemma {:induction false} TreeIsKnown(h: Heap, v: Value, t: Tree)
    requires IsTree(h, v, t)
    ensures Known(Part(h, v, t), v)
    ensures forall a | a in Footprint(h, v, t) && a in h :: OnlyMentions(h[a].entries, Footprint(h, v, t))
    decreases t
  {
    if v.Ref? {
      TreesAreKnown(h, h[v.address].entries, t.branches);
    }
  }

  lemma {:induction false} TreesAreKnown(h: Heap, es: seq<Entry>, ts: Branches)
    requires AreTrees(h, es, ts)
    ensures OnlyMentions(es, Footprints(h, es, ts))
    ensures forall a | a in Footprints(h, es, ts) && a in h :: OnlyMentions(h[a].entries, Footprints(h, es, ts))
    decreases ts
  {
    if ts.Push? {
      TreesAreKnown(h, es[..|es| - 1], ts.before);
      TreeIsKnown(h, es[|es| - 1].value, ts.tree);
      assert forall k | 0 <= k < |es| - 1 :: es[k] == es[..|es| - 1][k];
    }
  }

  predicate OnlyMentions(es: seq<Entry>, xs: set<nat>) {
    forall k | 0 <= k < |es| && es[k].value.Ref? :: es[k].value.address in xs
  }

  lemma PartIsClosed(h: Heap, v: Value, t: Tree)
    requires IsTree(h, v, t)
    ensures var g := Part(h, v, t); Closed(g) && Known(g, v) && Keeps(g, h) && IsTree(g, v, t) && g.Keys == Footprint(h, v, t)
  {
    var g := Part(h, v, t);
    FootprintKnown(h, v, t);
    TreeIsKnown(h, v, t);
    TreeFrame(h, g, v, t);
  }

  /** A redacted tree redacts to itself. */
  lemma SecondPassChangesNothing(h: Heap, v: Value, g: Heap, r: Value, sensitive: Keys)
    requires Closed(h) && Known(h, v) && Closed(g) && Known(g, r)
    requires IsTree(g, r, Redacted(h, v, {}, sensitive).0)
    ensures Redacted(g, r, {}, sensitive).0 == Redacted(h, v, {}, sensitive).0
  {
    var t := Redacted(h, v, {}, sensitive).0;
    OutputIsSafe(h, v, {}, sensitive);
    UnsharedIsFiltered(g, r, t, {}, sensitive);
    SafeIsFixed(t, sensitive);
  }

  /** A snapshot on its way to the audit log: redacted by the interceptor, and again by the sink. */
  method Snapshot(h: Heap, free: nat, v: Value, sensitive: Keys)
    returns (cells: Heap, once: Value, twice: Value, ghost t: Tree)
    requires Closed(h) && Known(h, v) && forall a | a in h :: a < free
    ensures t == Redacted(h, v, {}, sensitive).0 && Safe(t, sensitive)
    ensures Keeps(h, cells) && IsTree(cells, once, t) && IsTree(cells, twice, t)
    ensures Footprint(cells, once, t) !! h.Keys && Footprint(cells, twice, t) !! h.Keys + Footprint(cells, once, t)
  {
    var interceptor := new Redactor(h, free);
    once, t := interceptor.RedactSensitive(v, sensitive, h);
    OutputIsSafe(h, v, {}, sensitive);
    ghost var between := interceptor.cells;
    ghost var part := Part(between, once, t);
    PartIsClosed(between, once, t);
    FootprintKnown(between, once, t);
    var sink := new Redactor(interceptor.cells, interceptor.next);
    ghost var u;
    twice, u := sink.RedactSensitive(once, sensitive, part);
    SecondPassChangesNothing(h, v, part, once, sensitive);
    cells := sink.cells;
    TreeFrame(between, cells, once, t);
  }
}

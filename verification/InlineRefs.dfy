/** Inlining the references of a parsed OpenAPI document that may refer to itself. */
module InlineRefs {
  import opened Wrappers

  datatype Scalar = Null | Boolean(b: bool) | Number(n: int) | Text(text: string)

  /** The entries of an array carry their index as key. */
  datatype Json = Scalar(scalar: Scalar) | Node(isArray: bool, entries: Entries)

  datatype Entries = End | Entry(key: string, value: Json, rest: Entries)

  function Get(es: Entries, key: string): Option<Json> {
    match es
    case End => None
    case Entry(k, v, rest) => if k == key then Some(v) else Get(rest, key)
  }

  function KeysOf(es: Entries): seq<string> {
    match es
    case End => []
    case Entry(k, _, rest) => [k] + KeysOf(rest)
  }

  predicate Truthy(v: Json) {
    match v
    case Node(_, _) => true
    case Scalar(Null) => false
    case Scalar(Boolean(b)) => b
    case Scalar(Number(n)) => n != 0
    case Scalar(Text(s)) => s != ""
  }

  const REF := "$ref"
  const MARK := "$circular"

  /** A truthy `$ref` of an object, whatever its type. */
  function RefValue(v: Json): Option<Json> {
    if v.Node? && !v.isArray then
      match Get(v.entries, REF)
      case None => None
      case Some(r) => if Truthy(r) then Some(r) else None
    else None
  }

  function RefOf(v: Json): Option<string> {
    match RefValue(v)
    case Some(Scalar(Text(r))) => Some(r)
    case _ => None
  }

  function Marker(ref: string): Json {
    Node(false, Entry(MARK, Scalar(Text(ref)), End))
  }

  // ----- Resolving one reference -----

  function Split(s: string): (r: seq<string>)
    ensures r != []
  {
    if s == "" then [""]
    else if s[0] == '/' then [""] + Split(s[1..])
    else var r := Split(s[1..]); [[s[0]] + r[0]] + r[1..]
  }

  function Step(cur: Json, seg: string): Option<Json> {
    if cur.Node? then Get(cur.entries, seg) else None
  }

  function Descend(cur: Json, segs: seq<string>): Option<Json>
    decreases |segs|
  {
    if segs == [] then Some(cur)
    else
      match Step(cur, segs[0])
      case None => None
      case Some(next) => Descend(next, segs[1..])
  }

  function Resolve(spec: Json, ref: string): Option<Json> {
    if |ref| < 2 || ref[..2] != "#/" then None else Descend(spec, Split(ref[2..]))
  }

  method ResolveRef(spec: Json, ref: string) returns (found: Option<Json>)
    ensures found == Resolve(spec, ref)
  {
    if |ref| < 2 || ref[..2] != "#/" {
      return None;
    }
    var path := Split(ref[2..]);
    var cur := spec;
    for k := 0 to |path|
      invariant Resolve(spec, ref) == Descend(cur, path[k..])
    {
      var next := Step(cur, path[k]);
      if next.None? {
        return None;
      }
      cur := next.value;
    }
    found := Some(cur);
  }

  // ----- what a reference path means -----

  /** No part of a path holds a slash. */
  predicate NoSlash(keys: seq<string>) {
    forall k | 0 <= k < |keys| :: '/' !in keys[k]
  }

  /** The path as it is written in a reference. */
  function Joined(keys: seq<string>): string
    requires keys != []
  {
    if |keys| == 1 then keys[0] else keys[0] + "/" + Joined(keys[1..])
  }

  /** `v` is the value of the first entry under `key`. */
  predicate Under(es: Entries, key: string, v: Json) {
    match es
    case End => false
    case Entry(k, w, rest) => if k == key then w == v else Under(rest, key, v)
  }

  /** `v` is what stands in the document under the keys, one inside the other. */
  ghost predicate Holds(doc: Json, keys: seq<string>, v: Json)
    decreases |keys|
  {
    if keys == [] then doc == v
    else doc.Node? && exists child :: Under(doc.entries, keys[0], child) && Holds(child, keys[1..], v)
  }

  lemma {:induction false} SplitParts(s: string)
    ensures NoSlash(Split(s)) && Joined(Split(s)) == s
  {
    if s != "" {
      var r := Split(s[1..]);
      SplitParts(s[1..]);
      if s[0] == '/' {
        assert ([""] + r)[1..] == r;
        assert s == "" + "/" + s[1..];
      } else {
        var t := [[s[0]] + r[0]] + r[1..];
        assert t[1..] == r[1..] && s == [s[0]] + s[1..];
        assert |r| > 1 ==> [s[0]] + (r[0] + "/" + Joined(r[1..])) == t[0] + "/" + Joined(t[1..]);
      }
    }
  }

  /** A key up to its slash, or to the end. */
  lemma {:induction false} SplitKey(key: string, rest: string)
    requires '/' !in key
    ensures Split(key) == [key] && Split(key + "/" + rest) == [key] + Split(rest)
  {
    var s := key + "/" + rest;
    if key == "" {
      assert s[0] == '/' && s[1..] == rest;
    } else {
      SplitKey(key[1..], rest);
      assert key[0] in key && s[0] == key[0] && s[1..] == key[1..] + "/" + rest;
      assert [key[0]] + key[1..] == key;
    }
  }

  lemma {:induction false} SplitJoined(keys: seq<string>)
    requires keys != [] && NoSlash(keys)
    ensures Split(Joined(keys)) == keys
  {
    if |keys| == 1 {
      SplitKey(keys[0], "");
    } else {
      SplitJoined(keys[1..]);
      SplitKey(keys[0], Joined(keys[1..]));
    }
  }

  lemma {:induction false} GetIsUnder(es: Entries, key: string, v: Json)
    ensures Get(es, key) == Some(v) <==> Under(es, key, v)
  {
    if es.Entry? {
      GetIsUnder(es.rest, key, v);
    }
  }

  lemma {:induction false} DescendHolds(doc: Json, keys: seq<string>, v: Json)
    ensures Descend(doc, keys) == Some(v) <==> Holds(doc, keys, v)
    decreases |keys|
  {
    if keys != [] && doc.Node? {
      forall child ensures Under(doc.entries, keys[0], child) <==> Get(doc.entries, keys[0]) == Some(child) {
        GetIsUnder(doc.entries, keys[0], child);
      }
      if Get(doc.entries, keys[0]).Some? {
        DescendHolds(Get(doc.entries, keys[0]).value, keys[1..], v);
      }
    }
  }

  /** The reference `#/k1/../kn` resolves to exactly the value that stands in the document under k1, .., kn. */
  lemma ResolvesToPath(spec: Json, keys: seq<string>, v: Json)
    requires keys != [] && NoSlash(keys)
    ensures Resolve(spec, "#/" + Joined(keys)) == Some(v) <==> Holds(spec, keys, v)
  {
    var ref := "#/" + Joined(keys);
    assert ref[..2] == "#/" && ref[2..] == Joined(keys);
    SplitJoined(keys);
    DescendHolds(spec, keys, v);
  }

  /** Nothing else resolves. */
  lemma OnlyPathsResolve(spec: Json, ref: string)
    requires Resolve(spec, ref).Some?
    ensures exists keys :: keys != [] && NoSlash(keys) && ref == "#/" + Joined(keys)
  {
    SplitParts(ref[2..]);
    var keys := Split(ref[2..]);
    assert ref == "#/" + ref[2..];
    assert keys != [] && NoSlash(keys) && ref == "#/" + Joined(keys);
  }

  /** What a reference stands for; a falsy target counts as none. */
  function Target(spec: Json, ref: string): Option<Json> {
    match Resolve(spec, ref)
    case Some(v) => if Truthy(v) then Some(v) else None
    case None => None
  }

  /** Exactly null, false, zero and the empty string count as no target. */
  lemma FalsyIsNoTarget(spec: Json, ref: string)
    ensures Target(spec, ref) == (if Resolve(spec, ref).Some?
        && Resolve(spec, ref).value !in [Scalar(Null), Scalar(Boolean(false)), Scalar(Number(0)), Scalar(Text(""))]
      then Resolve(spec, ref) else None)
  {
  }

  // ----- The references of a document -----

  /** Every truthy `$ref` below is one of these strings. */
  predicate Within(v: Json, refs: set<string>) {
    (RefValue(v).Some? ==> RefOf(v).Some? && RefOf(v).value in refs)
    && (v.Node? ==> AllWithin(v.entries, refs))
  }

  predicate AllWithin(es: Entries, refs: set<string>) {
    match es
    case End => true
    case Entry(_, v, rest) => Within(v, refs) && AllWithin(rest, refs)
  }

  /** Every truthy `$ref` is a string, as OpenAPI has it. */
  predicate StringRefs(v: Json) {
    (RefValue(v).Some? ==> RefOf(v).Some?) && (v.Node? ==> AllStringRefs(v.entries))
  }

  predicate AllStringRefs(es: Entries) {
    match es
    case End => true
    case Entry(_, v, rest) => StringRefs(v) && AllStringRefs(rest)
  }

  function RefsIn(v: Json): set<string> {
    (if RefOf(v).Some? then {RefOf(v).value} else {}) + if v.Node? then RefsInAll(v.entries) else {}
  }

  function RefsInAll(es: Entries): set<string> {
    match es
    case End => {}
    case Entry(_, v, rest) => RefsIn(v) + RefsInAll(rest)
  }

  lemma {:induction false} RefsAreEnough(v: Json, refs: set<string>)
    requires StringRefs(v) && RefsIn(v) <= refs
    ensures Within(v, refs)
  {
    if v.Node? {
      AllRefsAreEnough(v.entries, refs);
    }
  }

  lemma {:induction false} AllRefsAreEnough(es: Entries, refs: set<string>)
    requires AllStringRefs(es) && RefsInAll(es) <= refs
    ensures AllWithin(es, refs)
  {
    if es.Entry? {
      RefsAreEnough(es.value, refs);
      AllRefsAreEnough(es.rest, refs);
    }
  }

  lemma {:induction false} GetWithin(es: Entries, key: string, refs: set<string>)
    requires AllWithin(es, refs)
    ensures Get(es, key).Some? ==> Within(Get(es, key).value, refs) && Get(es, key).value < es
  {
    if es.Entry? && es.key != key {
      GetWithin(es.rest, key, refs);
    }
  }

  lemma {:induction false} DescendWithin(cur: Json, segs: seq<string>, refs: set<string>)
    requires Within(cur, refs)
    ensures Descend(cur, segs).Some? ==> Within(Descend(cur, segs).value, refs)
  {
    if segs != [] && cur.Node? {
      GetWithin(cur.entries, segs[0], refs);
      if Get(cur.entries, segs[0]).Some? {
        DescendWithin(Get(cur.entries, segs[0]).value, segs[1..], refs);
      }
    }
  }

  lemma TargetWithin(spec: Json, ref: string, refs: set<string>)
    requires Within(spec, refs)
    ensures Target(spec, ref).Some? ==> Within(Target(spec, ref).value, refs)
  {
    if |ref| >= 2 {
      DescendWithin(spec, Split(ref[2..]), refs);
    }
  }

  lemma OneLess(refs: set<string>, seen: set<string>, ref: string)
    requires ref in refs && ref !in seen
    ensures |refs - (seen + {ref})| + 1 == |refs - seen|
  {
    assert refs - seen == (refs - (seen + {ref})) + {ref};
  }

  // ----- Inlining -----

  /** The document with its references replaced; it ends because `refs` runs out, then the node does. */
  function Inline(spec: Json, node: Json, seen: set<string>, ghost refs: set<string>): Json
    requires Within(spec, refs) && Within(node, refs)
    decreases |refs - seen|, node
  {
    match node
    case Scalar(_) => node
    case Node(isArray, es) =>
      if RefOf(node).Some? then
        var ref := RefOf(node).value;
        if ref in seen then Marker(ref)
        else
          match Target(spec, ref)
          case None => node
          case Some(target) =>
            TargetWithin(spec, ref, refs);
            OneLess(refs, seen, ref);
            Inline(spec, target, seen + {ref}, refs)
      else Node(isArray, InlineAll(spec, es, seen, refs))
  }

  function InlineAll(spec: Json, es: Entries, seen: set<string>, ghost refs: set<string>): Entries
    requires Within(spec, refs) && AllWithin(es, refs)
    decreases |refs - seen|, es
  {
    match es
    case End => End
    case Entry(k, v, rest) => Entry(k, Inline(spec, v, seen, refs), InlineAll(spec, rest, seen, refs))
  }

  function AllRefs(spec: Json, node: Json): set<string> {
    RefsIn(spec) + RefsIn(node)
  }

  function InlineRefs(spec: Json, node: Json): Json
    requires StringRefs(spec) && StringRefs(node)
  {
    RefsAreEnough(spec, AllRefs(spec, node));
    RefsAreEnough(node, AllRefs(spec, node));
    Inline(spec, node, {}, AllRefs(spec, node))
  }

  lemma TopLevel(spec: Json, node: Json)
    requires StringRefs(spec) && StringRefs(node)
    ensures var refs := AllRefs(spec, node);
      Within(spec, refs) && Within(node, refs) && refs - {} == refs && InlineRefs(spec, node) == Inline(spec, node, {}, refs)
  {
    RefsAreEnough(spec, AllRefs(spec, node));
    RefsAreEnough(node, AllRefs(spec, node));
  }

  /** An array is inlined item by item, whatever its items are called; it is never taken for a reference. */
  lemma ArraysAreMapped(spec: Json, es: Entries, seen: set<string>, refs: set<string>, key: string, v: Json)
    requires Within(spec, refs) && AllWithin(es, refs) && Under(es, key, v)
    ensures Within(Node(true, es), refs) && Within(v, refs)
    ensures var out := Inline(spec, Node(true, es), seen, refs);
      out.Node? && out.isArray && KeysOf(out.entries) == KeysOf(es) && Under(out.entries, key, Inline(spec, v, seen, refs))
  {
    GetIsUnder(es, key, v);
    GetInlined(spec, es, seen, refs, key);
    GetIsUnder(InlineAll(spec, es, seen, refs), key, Inline(spec, v, seen, refs));
  }

  // ----- What is left in the result -----

  /** Wherever a `$ref` is met from the top, it has no target; below it the object is as it was written. */
  predicate Settled(spec: Json, v: Json) {
    if RefOf(v).Some? then Target(spec, RefOf(v).value).None?
    else v.Node? ==> AllSettled(spec, v.entries)
  }

  predicate AllSettled(spec: Json, es: Entries) {
    match es
    case End => true
    case Entry(_, v, rest) => Settled(spec, v) && AllSettled(spec, rest)
  }

  lemma {:induction false} GetInlined(spec: Json, es: Entries, seen: set<string>, refs: set<string>, key: string)
    requires Within(spec, refs) && AllWithin(es, refs)
    ensures KeysOf(InlineAll(spec, es, seen, refs)) == KeysOf(es)
    ensures Get(es, key).Some? ==> Within(Get(es, key).value, refs) && Get(es, key).value < es
    ensures Get(InlineAll(spec, es, seen, refs), key) ==
      if Get(es, key).Some? then Some(Inline(spec, Get(es, key).value, seen, refs)) else None
  {
    if es.Entry? {
      GetInlined(spec, es.rest, seen, refs, key);
    }
  }

  lemma MarkerIsPlain(ref: string)
    ensures RefValue(Marker(ref)).None?
  {
    assert |MARK| == 9 && |REF| == 4;
    assert Get(Entry(MARK, Scalar(Text(ref)), End), REF) == Get(End, REF);
  }

  /** Inlining makes no reference out of an object that had none. */
  lemma NoNewRef(spec: Json, node: Json, seen: set<string>, refs: set<string>)
    requires Within(spec, refs) && Within(node, refs) && node.Node? && RefOf(node).None?
    ensures RefOf(Inline(spec, node, seen, refs)).None? && RefValue(Inline(spec, node, seen, refs)).None?
  {
    GetInlined(spec, node.entries, seen, refs, REF);
    if !node.isArray && Get(node.entries, REF).Some? {
      var r := Get(node.entries, REF).value;
      assert !Truthy(r) && r.Scalar?;
    }
  }

  lemma {:induction false} ResultIsSettled(spec: Json, node: Json, seen: set<string>, refs: set<string>)
    requires Within(spec, refs) && Within(node, refs)
    ensures Settled(spec, Inline(spec, node, seen, refs)) && Within(Inline(spec, node, seen, refs), refs)
    decreases |refs - seen|, node
  {
    if node.Node? {
      if RefOf(node).Some? {
        var ref := RefOf(node).value;
        MarkerIsPlain(ref);
        if ref !in seen && Target(spec, ref).Some? {
          TargetWithin(spec, ref, refs);
          OneLess(refs, seen, ref);
          ResultIsSettled(spec, Target(spec, ref).value, seen + {ref}, refs);
        }
      } else {
        NoNewRef(spec, node, seen, refs);
        ResultsAreSettled(spec, node.entries, seen, refs);
      }
    }
  }

  lemma {:induction false} ResultsAreSettled(spec: Json, es: Entries, seen: set<string>, refs: set<string>)
    requires Within(spec, refs) && AllWithin(es, refs)
    ensures AllSettled(spec, InlineAll(spec, es, seen, refs)) && AllWithin(InlineAll(spec, es, seen, refs), refs)
    decreases |refs - seen|, es
  {
    if es.Entry? {
      ResultIsSettled(spec, es.value, seen, refs);
      ResultsAreSettled(spec, es.rest, seen, refs);
    }
  }

  lemma {:induction false} SettledIsFixed(spec: Json, v: Json, refs: set<string>)
    requires Within(spec, refs) && Within(v, refs)
    ensures Settled(spec, v) ==> Inline(spec, v, {}, refs) == v
    decreases v
  {
    if v.Node? && RefOf(v).None? && Settled(spec, v) {
      SettledAreFixed(spec, v.entries, refs);
    }
  }

  lemma {:induction false} SettledAreFixed(spec: Json, es: Entries, refs: set<string>)
    requires Within(spec, refs) && AllWithin(es, refs) && AllSettled(spec, es)
    ensures InlineAll(spec, es, {}, refs) == es
    decreases es
  {
    if es.Entry? {
      SettledIsFixed(spec, es.value, refs);
      SettledAreFixed(spec, es.rest, refs);
    }
  }

  /** Inlining what has been inlined changes nothing. */
  lemma InliningTwice(spec: Json, node: Json, seen: set<string>, refs: set<string>)
    requires Within(spec, refs) && Within(node, refs)
    ensures var out := Inline(spec, node, seen, refs);
      Settled(spec, out) && Within(out, refs) && Inline(spec, out, {}, refs) == out
  {
    ResultIsSettled(spec, node, seen, refs);
    SettledIsFixed(spec, Inline(spec, node, seen, refs), refs);
  }

  // ----- Reading a path -----

  datatype Reading = Found(value: Json) | Absent | Endless

  /** Follow the path and every reference on it, remembering nothing, for at most `fuel` references. */
  function Read(spec: Json, node: Json, path: seq<string>, fuel: nat): Reading
    decreases |path| + fuel
  {
    if RefOf(node).Some? then
      match Target(spec, RefOf(node).value)
      case Some(target) => if fuel == 0 then Endless else Read(spec, target, path, fuel - 1)
      case None => AsWritten(node, path)
    else if path == [] then Found(node)
    else
      match Step(node, path[0])
      case Some(child) => Read(spec, child, path[1..], fuel)
      case None => Absent
  }

  function AsWritten(node: Json, path: seq<string>): Reading {
    match Descend(node, path)
    case Some(v) => Found(v)
    case None => Absent
  }

  /** The references that reading follows, in order. */
  function Trail(spec: Json, node: Json, path: seq<string>, fuel: nat): seq<string>
    decreases |path| + fuel
  {
    if RefOf(node).Some? then
      match Target(spec, RefOf(node).value)
      case Some(target) => if fuel == 0 then [] else [RefOf(node).value] + Trail(spec, target, path, fuel - 1)
      case None => []
    else if path == [] then []
    else
      match Step(node, path[0])
      case Some(child) => Trail(spec, child, path[1..], fuel)
      case None => []
  }

  function FirstRepeat(trail: seq<string>, seen: set<string>): Option<string> {
    if trail == [] then None
    else if trail[0] in seen then Some(trail[0])
    else FirstRepeat(trail[1..], seen + {trail[0]})
  }

  /** The same scalar, the same object as written, or an array or object with the same keys. */
  predicate Alike(out: Json, v: Json) {
    if v.Scalar? || RefOf(v).Some? then out == v
    else out.Node? && out.isArray == v.isArray && KeysOf(out.entries) == KeysOf(v.entries)
  }

  /** `v` is found at some point of the path. */
  predicate StandsOn(v: Json, out: Json, path: seq<string>)
    decreases |path|
  {
    out == v || (path != [] && Step(out, path[0]).Some? && StandsOn(v, Step(out, path[0]).value, path[1..]))
  }

  /** What the inlined document shows along a path, against what following references finds. */
  predicate Agrees(out: Json, path: seq<string>, reading: Reading, repeat: Option<string>) {
    match repeat
    case Some(ref) => StandsOn(Marker(ref), out, path)
    case None =>
      match reading
      case Found(v) => Descend(out, path).Some? && Alike(Descend(out, path).value, v)
      case Absent => Descend(out, path).None?
      case Endless => false
  }

  lemma StepAgrees(out: Json, child: Json, path: seq<string>, reading: Reading, repeat: Option<string>)
    requires path != [] && Step(out, path[0]) == Some(child) && Agrees(child, path[1..], reading, repeat)
    ensures Agrees(out, path, reading, repeat)
  {
  }

  /** Along `path`, the inlined node shows what following references finds. */
  ghost predicate PathOk(spec: Json, node: Json, seen: set<string>, refs: set<string>, path: seq<string>, fuel: nat)
    requires Within(spec, refs) && Within(node, refs)
  {
    Agrees(Inline(spec, node, seen, refs), path, Read(spec, node, path, fuel), FirstRepeat(Trail(spec, node, path, fuel), seen))
  }

  lemma {:induction false} PathAgrees(spec: Json, node: Json, seen: set<string>, refs: set<string>, path: seq<string>, fuel: nat)
    requires Within(spec, refs) && Within(node, refs) && fuel > |refs - seen|
    requires forall ref | ref in seen :: Target(spec, ref).Some?
    ensures PathOk(spec, node, seen, refs, path, fuel)
    decreases |refs - seen|, node, 1
  {
    if RefOf(node).Some? {
      var ref := RefOf(node).value;
      if ref in seen {
        MeetAgain(spec, node, seen, refs, path, fuel);
      } else if Target(spec, ref).Some? {
        FollowOnce(spec, node, seen, refs, path, fuel);
      } else {
        KeepDangling(spec, node, seen, refs, path, fuel);
      }
    } else if path == [] {
      StayHere(spec, node, seen, refs, fuel);
    } else if Step(node, path[0]).Some? {
      StepInto(spec, node, seen, refs, path, fuel);
    } else {
      FindNothing(spec, node, seen, refs, path, fuel);
    }
  }

  lemma MeetAgain(spec: Json, node: Json, seen: set<string>, refs: set<string>, path: seq<string>, fuel: nat)
    requires Within(spec, refs) && Within(node, refs) && RefOf(node).Some? && RefOf(node).value in seen
    requires Target(spec, RefOf(node).value).Some? && fuel > 0
    ensures PathOk(spec, node, seen, refs, path, fuel)
  {
  }

  lemma KeepDangling(spec: Json, node: Json, seen: set<string>, refs: set<string>, path: seq<string>, fuel: nat)
    requires Within(spec, refs) && Within(node, refs) && RefOf(node).Some? && RefOf(node).value !in seen
    requires Target(spec, RefOf(node).value).None?
    ensures PathOk(spec, node, seen, refs, path, fuel)
  {
  }

  lemma FindNothing(spec: Json, node: Json, seen: set<string>, refs: set<string>, path: seq<string>, fuel: nat)
    requires Within(spec, refs) && Within(node, refs) && RefOf(node).None? && path != [] && Step(node, path[0]).None?
    ensures PathOk(spec, node, seen, refs, path, fuel)
  {
    if node.Node? {
      GetInlined(spec, node.entries, seen, refs, path[0]);
    }
  }

  lemma StayHere(spec: Json, node: Json, seen: set<string>, refs: set<string>, fuel: nat)
    requires Within(spec, refs) && Within(node, refs) && RefOf(node).None?
    ensures PathOk(spec, node, seen, refs, [], fuel)
  {
    if node.Node? {
      GetInlined(spec, node.entries, seen, refs, "");
    }
  }

  lemma {:induction false} StepInto(spec: Json, node: Json, seen: set<string>, refs: set<string>, path: seq<string>, fuel: nat)
    requires Within(spec, refs) && Within(node, refs) && fuel > |refs - seen|
    requires forall ref | ref in seen :: Target(spec, ref).Some?
    requires RefOf(node).None? && path != [] && Step(node, path[0]).Some?
    ensures PathOk(spec, node, seen, refs, path, fuel)
    decreases |refs - seen|, node, 0
  {
    var child := Step(node, path[0]).value;
    GetInlined(spec, node.entries, seen, refs, path[0]);
    PathAgrees(spec, child, seen, refs, path[1..], fuel);
    StepAgrees(Inline(spec, node, seen, refs), Inline(spec, child, seen, refs), path,
               Read(spec, child, path[1..], fuel), FirstRepeat(Trail(spec, child, path[1..], fuel), seen));
  }

  lemma {:induction false} FollowOnce(spec: Json, node: Json, seen: set<string>, refs: set<string>, path: seq<string>, fuel: nat)
    requires Within(spec, refs) && Within(node, refs) && fuel > |refs - seen|
    requires forall ref | ref in seen :: Target(spec, ref).Some?
    requires RefOf(node).Some? && RefOf(node).value !in seen && Target(spec, RefOf(node).value).Some?
    ensures PathOk(spec, node, seen, refs, path, fuel)
    decreases |refs - seen|, node, 0
  {
    var ref := RefOf(node).value;
    var target := Target(spec, ref).value;
    TargetWithin(spec, ref, refs);
    OneLess(refs, seen, ref);
    PathAgrees(spec, target, seen + {ref}, refs, path, fuel - 1);
    var out, reading := Inline(spec, target, seen + {ref}, refs), Read(spec, target, path, fuel - 1);
    var repeat := FirstRepeat(Trail(spec, target, path, fuel - 1), seen + {ref});
    assert Agrees(out, path, reading, repeat);
    FollowUnfolds(spec, node, ref, target, seen, refs, path, fuel);
  }

  lemma FollowUnfolds(spec: Json, node: Json, ref: string, target: Json, seen: set<string>, refs: set<string>, path: seq<string>, fuel: nat)
    requires Within(spec, refs) && Within(node, refs) && Within(target, refs) && fuel > 0
    requires RefOf(node) == Some(ref) && Target(spec, ref) == Some(target) && ref !in seen
    ensures Inline(spec, node, seen, refs) == Inline(spec, target, seen + {ref}, refs)
    ensures Read(spec, node, path, fuel) == Read(spec, target, path, fuel - 1)
    ensures FirstRepeat(Trail(spec, node, path, fuel), seen) == FirstRepeat(Trail(spec, target, path, fuel - 1), seen + {ref})
  {
    var trail := Trail(spec, target, path, fuel - 1);
    assert ([ref] + trail)[1..] == trail;
  }

  /**
   For every path into the inlined document: if following references meets one twice, the marker of the
   first such reference stands on the path; otherwise following ends, and both find the same or both nothing.
   */
  lemma InlinedReadsLikeFollowing(spec: Json, node: Json, path: seq<string>, fuel: nat)
    requires StringRefs(spec) && StringRefs(node) && fuel > |AllRefs(spec, node)|
    ensures Agrees(InlineRefs(spec, node), path, Read(spec, node, path, fuel),
                   FirstRepeat(Trail(spec, node, path, fuel), {}))
  {
    TopLevel(spec, node);
    PathAgrees(spec, node, {}, AllRefs(spec, node), path, fuel);
  }

  // ----- References that survive -----

  predicate Resolvable(spec: Json, v: Json) {
    RefOf(v).Some? && Target(spec, RefOf(v).value).Some?
  }

  /** A reference with a target stands somewhere in `v`. */
  predicate HoldsResolvable(spec: Json, v: Json) {
    Resolvable(spec, v) || (v.Node? && AnyHoldsResolvable(spec, v.entries))
  }

  predicate AnyHoldsResolvable(spec: Json, es: Entries) {
    es.Entry? && (HoldsResolvable(spec, es.value) || AnyHoldsResolvable(spec, es.rest))
  }

  predicate Dangling(spec: Json, v: Json) {
    RefOf(v).Some? && Target(spec, RefOf(v).value).None?
  }

  /** No object whose own reference has no target carries one that has; what stands beside a resolvable reference is dropped. */
  predicate Tidy(spec: Json, v: Json) {
    if RefOf(v).Some? then Dangling(spec, v) ==> !HoldsResolvable(spec, v)
    else v.Node? ==> AllTidy(spec, v.entries)
  }

  predicate AllTidy(spec: Json, es: Entries) {
    es.Entry? ==> Tidy(spec, es.value) && AllTidy(spec, es.rest)
  }

  /** The references met in `v` from the top, not looking beside a reference. */
  function Met(v: Json): set<string> {
    if RefOf(v).Some? then {RefOf(v).value} else if v.Node? then AllMet(v.entries) else {}
  }

  function AllMet(es: Entries): set<string> {
    match es
    case End => {}
    case Entry(_, v, rest) => Met(v) + AllMet(rest)
  }

  /** Each reference of the chain is met in the target of the one before, the first one in `start`. */
  predicate Chain(spec: Json, start: set<string>, chain: seq<string>)
    decreases |chain|
  {
    chain != [] && chain[0] in start
    && (|chain| > 1 ==> Target(spec, chain[0]).Some? && Chain(spec, Met(Target(spec, chain[0]).value), chain[1..]))
  }

  /** `ref` is met from `v`, or in the target of a reference that is. */
  ghost predicate MetFrom(spec: Json, v: Json, ref: string) {
    exists chain :: Chain(spec, Met(v), chain) && chain[|chain| - 1] == ref
  }

  predicate UntidyTarget(spec: Json, ref: string) {
    Target(spec, ref).Some? && !Tidy(spec, Target(spec, ref).value)
  }

  /** A chain that meets nothing of `seen` and ends at an untidy target. */
  predicate LeadsToUntidy(spec: Json, start: set<string>, seen: set<string>, chain: seq<string>) {
    Chain(spec, start, chain) && (forall k | 0 <= k < |chain| :: chain[k] !in seen) && UntidyTarget(spec, chain[|chain| - 1])
  }

  ghost predicate ReachesUntidy(spec: Json, start: set<string>, seen: set<string>) {
    exists chain :: LeadsToUntidy(spec, start, seen, chain)
  }

  lemma {:induction false} ChainSuffix(spec: Json, start: set<string>, chain: seq<string>, k: nat)
    requires Chain(spec, start, chain) && k + 1 < |chain|
    ensures Target(spec, chain[k]).Some? && Chain(spec, Met(Target(spec, chain[k]).value), chain[k + 1..])
    decreases k
  {
    if k > 0 {
      ChainSuffix(spec, Met(Target(spec, chain[0]).value), chain[1..], k - 1);
      assert chain[1..][k..] == chain[k + 1..];
    }
  }

  /** The last place of `ref` in a chain. */
  lemma {:induction false} LastPlace(chain: seq<string>, ref: string) returns (k: nat)
    requires ref in chain
    ensures k < |chain| && chain[k] == ref && forall j | k < j < |chain| :: chain[j] != ref
  {
    k := |chain| - 1;
    if chain[k] != ref {
      assert chain == chain[..k] + [chain[k]];
      k := LastPlace(chain[..k], ref);
    }
  }

  /** Cut off behind the last visit to `ref`, a chain through it starts in its target and never comes back. */
  lemma EnterOnce(spec: Json, start: set<string>, seen: set<string>, ref: string, chain: seq<string>)
    requires LeadsToUntidy(spec, start, seen, chain) && ref in chain && Target(spec, ref).Some?
    ensures !Tidy(spec, Target(spec, ref).value) || ReachesUntidy(spec, Met(Target(spec, ref).value), seen + {ref})
  {
    var k := LastPlace(chain, ref);
    if k + 1 < |chain| {
      ChainSuffix(spec, start, chain, k);
      assert LeadsToUntidy(spec, Met(Target(spec, ref).value), seen + {ref}, chain[k + 1..]);
    }
  }

  /** Through a reference that is followed. */
  lemma ReachThrough(spec: Json, ref: string, seen: set<string>)
    requires ref !in seen && Target(spec, ref).Some?
    ensures ReachesUntidy(spec, {ref}, seen) <==>
      !Tidy(spec, Target(spec, ref).value) || ReachesUntidy(spec, Met(Target(spec, ref).value), seen + {ref})
  {
    var target := Target(spec, ref).value;
    if !Tidy(spec, target) {
      assert LeadsToUntidy(spec, {ref}, seen, [ref]);
    } else if chain :| LeadsToUntidy(spec, Met(target), seen + {ref}, chain) {
      assert ([ref] + chain)[1..] == chain;
      assert LeadsToUntidy(spec, {ref}, seen, [ref] + chain);
    }
    if chain :| LeadsToUntidy(spec, {ref}, seen, chain) {
      EnterOnce(spec, {ref}, seen, ref, chain);
    }
  }

  /** Nothing is reached through a reference that is already being expanded, or has no target. */
  lemma ReachNowhere(spec: Json, ref: string, seen: set<string>)
    requires ref in seen || Target(spec, ref).None?
    ensures !ReachesUntidy(spec, {ref}, seen)
  {
  }

  lemma ReachEither(spec: Json, start: set<string>, more: set<string>, seen: set<string>)
    ensures ReachesUntidy(spec, start + more, seen) <==> ReachesUntidy(spec, start, seen) || ReachesUntidy(spec, more, seen)
  {
    if chain :| LeadsToUntidy(spec, start, seen, chain) {
      assert LeadsToUntidy(spec, start + more, seen, chain);
    }
    if chain :| LeadsToUntidy(spec, more, seen, chain) {
      assert LeadsToUntidy(spec, start + more, seen, chain);
    }
    if chain :| LeadsToUntidy(spec, start + more, seen, chain) {
      assert LeadsToUntidy(spec, if chain[0] in start then start else more, seen, chain);
    }
  }

  lemma MarkerHoldsNone(spec: Json, ref: string)
    ensures !HoldsResolvable(spec, Marker(ref))
  {
    MarkerIsPlain(ref);
    assert !AnyHoldsResolvable(spec, End) && !HoldsResolvable(spec, Scalar(Text(ref)));
    assert !AnyHoldsResolvable(spec, Entry(MARK, Scalar(Text(ref)), End));
  }

  lemma {:induction false} SurvivingRefs(spec: Json, node: Json, seen: set<string>, refs: set<string>)
    requires Within(spec, refs) && Within(node, refs)
    requires forall ref | ref in seen :: Target(spec, ref).Some?
    ensures HoldsResolvable(spec, Inline(spec, node, seen, refs)) <==> !Tidy(spec, node) || ReachesUntidy(spec, Met(node), seen)
    decreases |refs - seen|, node
  {
    if RefOf(node).Some? {
      var ref := RefOf(node).value;
      if ref in seen || Target(spec, ref).None? {
        MarkerHoldsNone(spec, ref);
        ReachNowhere(spec, ref, seen);
      } else {
        TargetWithin(spec, ref, refs);
        OneLess(refs, seen, ref);
        SurvivingRefs(spec, Target(spec, ref).value, seen + {ref}, refs);
        ReachThrough(spec, ref, seen);
      }
    } else if node.Node? {
      NoNewRef(spec, node, seen, refs);
      AllSurvivingRefs(spec, node.entries, seen, refs);
    }
  }

  lemma {:induction false} AllSurvivingRefs(spec: Json, es: Entries, seen: set<string>, refs: set<string>)
    requires Within(spec, refs) && AllWithin(es, refs)
    requires forall ref | ref in seen :: Target(spec, ref).Some?
    ensures AnyHoldsResolvable(spec, InlineAll(spec, es, seen, refs)) <==> !AllTidy(spec, es) || ReachesUntidy(spec, AllMet(es), seen)
    decreases |refs - seen|, es
  {
    if es.Entry? {
      SurvivingRefs(spec, es.value, seen, refs);
      AllSurvivingRefs(spec, es.rest, seen, refs);
      ReachEither(spec, Met(es.value), AllMet(es.rest), seen);
    }
  }

  /** A reference that has a target survives inlining exactly when the node, or the target of a reference met from it, is untidy. */
  lemma OnlyDanglingRefsSurvive(spec: Json, node: Json)
    requires StringRefs(spec) && StringRefs(node)
    ensures HoldsResolvable(spec, InlineRefs(spec, node)) <==>
      !Tidy(spec, node) || exists ref :: MetFrom(spec, node, ref) && UntidyTarget(spec, ref)
  {
    TopLevel(spec, node);
    SurvivingRefs(spec, node, {}, AllRefs(spec, node));
    if chain :| LeadsToUntidy(spec, Met(node), {}, chain) {
      assert MetFrom(spec, node, chain[|chain| - 1]);
    }
    if ref :| MetFrom(spec, node, ref) && UntidyTarget(spec, ref) {
      var chain :| Chain(spec, Met(node), chain) && chain[|chain| - 1] == ref;
      assert LeadsToUntidy(spec, Met(node), {}, chain);
    }
  }

  /** A document with a good component `a`, and a component `b` that refers to it from beside a broken reference. */
  function Untidy(good: Json): Json {
    Node(false, Entry("a", good, Entry("b", BrokenBesideGood(), End)))
  }

  function BrokenBesideGood(): Json {
    Node(false, Entry(REF, Scalar(Text("#/c")), Entry("x", Node(false, Entry(REF, Scalar(Text("#/a")), End)), End)))
  }

  lemma OneSegment(c: char)
    requires c != '/'
    ensures Split([c]) == [[c]]
  {
    assert [c][1..] == "" && [c] + "" == [c];
  }

  lemma UntidyTargets(good: Json)
    ensures Resolve(Untidy(good), "#/a") == Some(good) && Resolve(Untidy(good), "#/b") == Some(BrokenBesideGood())
    ensures Resolve(Untidy(good), "#/c") == None
  {
    var b := BrokenBesideGood();
    OneSegment('a');
    OneSegment('b');
    OneSegment('c');
    assert "#/a"[2..] == ['a'] && "#/b"[2..] == ['b'] && "#/c"[2..] == ['c'];
    assert ['a'][0] != ['b'][0] && ['a'][0] != ['c'][0] && ['b'][0] != ['c'][0];
    assert Get(Entry("b", b, End), "b") == Some(b) && Get(Entry("b", b, End), "c") == None;
    assert Descend(good, []) == Some(good) && Descend(b, []) == Some(b);
  }

  /** Inlining component `b` of that document leaves its resolvable reference in place. */
  lemma UntidyKeepsARef(good: Json)
    requires Truthy(good) && StringRefs(good)
    ensures var spec, node := Untidy(good), BrokenBesideGood();
      Resolve(spec, "#/b") == Some(node) && StringRefs(spec) && StringRefs(node) && InlineRefs(spec, node) == node && HoldsResolvable(spec, InlineRefs(spec, node))
  {
    var spec, node := Untidy(good), BrokenBesideGood();
    var inner := Node(false, Entry(REF, Scalar(Text("#/a")), End));
    UntidyTargets(good);
    assert |"#/a"| == 3 && |"#/c"| == 3;
    assert RefOf(inner) == Some("#/a") && RefOf(node) == Some("#/c");
    assert AllStringRefs(Entry("x", inner, End)) && AllStringRefs(node.entries) && StringRefs(node);
    assert |REF| == 4 && |"a"| == 1 && |"b"| == 1;
    assert Get(spec.entries, REF) == None && AllStringRefs(Entry("b", node, End)) && StringRefs(spec);
    assert HoldsResolvable(spec, inner);
    assert AnyHoldsResolvable(spec, Entry("x", inner, End)) && AnyHoldsResolvable(spec, node.entries);
  }

  // ----- a component as documents have it -----

  function One(key: string, v: Json): Json {
    Node(false, Entry(key, v, End))
  }

  lemma HoldsOne(key: string, v: Json, keys: seq<string>, w: Json)
    requires Holds(v, keys, w)
    ensures Holds(One(key, v), [key] + keys, w)
  {
    assert ([key] + keys)[1..] == keys && Under(One(key, v).entries, key, v);
  }

  /** A component three levels down, like `#/components/schemas/A`, resolves to itself. */
  lemma NestedComponent(k1: string, k2: string, k3: string, a: Json)
    requires '/' !in k1 && '/' !in k2 && '/' !in k3
    ensures Resolve(One(k1, One(k2, One(k3, a))), "#/" + (k1 + "/" + (k2 + "/" + k3))) == Some(a)
  {
    var keys := [k1, k2, k3];
    assert [k3] + [] == [k3] && [k2] + [k3] == [k2, k3] && [k1] + [k2, k3] == keys;
    HoldsOne(k3, a, [], a);
    HoldsOne(k2, One(k3, a), [k3], a);
    HoldsOne(k1, One(k2, One(k3, a)), [k2, k3], a);
    ResolvesToPath(One(k1, One(k2, One(k3, a))), keys, a);
    assert keys[1..] == [k2, k3] && [k2, k3][1..] == [k3];
    assert Joined([k3]) == k3;
    assert Joined([k2, k3]) == k2 + "/" + k3;
    assert Joined(keys) == k1 + "/" + Joined(keys[1..]);
  }

  /** A schema whose property refers back to it: one expansion, and the marker where the reference comes again. */
  lemma SelfReference(spec: Json, ref: string, key: string, kind: Scalar, property: string)
    requires ref != "" && key != "$ref" && property != "$ref"
    requires var a := Node(false, Entry(key, Scalar(kind), Entry(property, One("$ref", Scalar(Text(ref))), End)));
      StringRefs(spec) && Resolve(spec, ref) == Some(a)
    ensures StringRefs(One("$ref", Scalar(Text(ref)))) && InlineRefs(spec, One("$ref", Scalar(Text(ref))))
      == Node(false, Entry(key, Scalar(kind), Entry(property, One("$circular", Scalar(Text(ref))), End)))
  {
    var node := One(REF, Scalar(Text(ref)));
    var tail := Entry(property, node, End);
    var a := Node(false, Entry(key, Scalar(kind), tail));
    assert Get(tail, REF) == None && RefOf(a) == None && RefOf(node) == Some(ref) && Target(spec, ref) == Some(a);
    assert AllStringRefs(node.entries) && StringRefs(node);
    TopLevel(spec, node);
    var refs := AllRefs(spec, node);
    TargetWithin(spec, ref, refs);
    assert Inline(spec, node, {ref}, refs) == Marker(ref);
    assert InlineAll(spec, tail, {ref}, refs) == Entry(property, Marker(ref), End);
    assert InlineAll(spec, a.entries, {ref}, refs) == Entry(key, Scalar(kind), Entry(property, Marker(ref), End));
    assert Inline(spec, a, {ref}, refs) == Node(false, InlineAll(spec, a.entries, {ref}, refs));
    assert {} + {ref} == {ref};
    assert Inline(spec, node, {}, refs) == Inline(spec, a, {ref}, refs);
  }
}

/**
 The orphan sweep over object storage: prefixes may overlap, deletes may fail, a
 listing or a reference provider may throw. Nobody else writes the bucket meanwhile.
 */
module MediaSweep {
  import opened Wrappers
  import R = Redis
  import L = SweepLock

  datatype PrefixSpec = PrefixSpec(prefix: string, graceMs: int)

  /** Object name to creation time; `None` when the metadata has none. */
  type Objects = map<string, Option<int>>

  datatype Info = Info(name: string, timeCreated: Option<int>)

  /** What the world answers during one sweep: time, failing listings, failing deletes per prefix. */
  datatype Oracle = Oracle(now: int, listFails: nat -> bool, deleteFails: (nat, string) -> bool)

  datatype Counts = Counts(scanned: nat, deleted: nat, failed: nat, skippedNoTimestamp: nat)

  // ----- what a sweep removes -----

  function Listed(objects: Objects, spec: PrefixSpec): set<string> {
    set n | n in objects && spec.prefix <= n
  }

  predicate Orphan(spec: PrefixSpec, referenced: set<string>, now: int, name: string, created: Option<int>) {
    spec.prefix <= name && name !in referenced && created.Some? && created.value < now - spec.graceMs
  }

  predicate Undated(spec: PrefixSpec, referenced: set<string>, name: string, created: Option<int>) {
    spec.prefix <= name && name !in referenced && created.None?
  }

  function Removed(objects: Objects, specs: seq<PrefixSpec>, i: nat, referenced: set<string>, o: Oracle): set<string>
    requires i < |specs|
  {
    set n | n in objects && Orphan(specs[i], referenced, o.now, n, objects[n]) && !o.deleteFails(i, n)
  }

  function FailedSet(objects: Objects, specs: seq<PrefixSpec>, i: nat, referenced: set<string>, o: Oracle): set<string>
    requires i < |specs|
  {
    set n | n in objects && Orphan(specs[i], referenced, o.now, n, objects[n]) && o.deleteFails(i, n)
  }

  function UndatedSet(objects: Objects, specs: seq<PrefixSpec>, i: nat, referenced: set<string>): set<string>
    requires i < |specs|
  {
    set n | n in objects && Undated(specs[i], referenced, n, objects[n])
  }

  /** Listed objects that are referenced or still within the grace window. */
  function KeptSet(objects: Objects, specs: seq<PrefixSpec>, i: nat, referenced: set<string>, o: Oracle): set<string>
    requires i < |specs|
  {
    set n | n in objects && specs[i].prefix <= n &&
      (n in referenced || (objects[n].Some? && objects[n].value >= o.now - specs[i].graceMs))
  }

  /** The bucket after the first `i` prefixes. */
  function After(objects: Objects, specs: seq<PrefixSpec>, i: nat, referenced: set<string>, o: Oracle): Objects
    requires i <= |specs|
  {
    if i == 0 then objects
    else
      var before := After(objects, specs, i - 1, referenced, o);
      before - Removed(before, specs, i - 1, referenced, o)
  }

  /** The four counters of one listed prefix. */
  function CountsOf(objects: Objects, specs: seq<PrefixSpec>, i: nat, referenced: set<string>, o: Oracle): Counts
    requires i < |specs|
  {
    Counts(|Listed(objects, specs[i])|, |Removed(objects, specs, i, referenced, o)|,
           |FailedSet(objects, specs, i, referenced, o)|, |UndatedSet(objects, specs, i, referenced)|)
  }

  function Plus(a: Counts, b: Counts): Counts {
    Counts(a.scanned + b.scanned, a.deleted + b.deleted, a.failed + b.failed, a.skippedNoTimestamp + b.skippedNoTimestamp)
  }

  /** The totals of the first `i` prefixes, when prefix `j` is swept in bucket `bs[j]`. */
  function TotalOf(bs: seq<Objects>, specs: seq<PrefixSpec>, i: nat, referenced: set<string>, o: Oracle): Counts
    requires i <= |specs| && i <= |bs|
  {
    if i == 0 then Counts(0, 0, 0, 0)
    else Plus(TotalOf(bs, specs, i - 1, referenced, o), CountsOf(bs[i - 1], specs, i - 1, referenced, o))
  }

  function KeptOf(bs: seq<Objects>, specs: seq<PrefixSpec>, i: nat, referenced: set<string>, o: Oracle): nat
    requires i <= |specs| && i <= |bs|
  {
    if i == 0 then 0
    else KeptOf(bs, specs, i - 1, referenced, o) + |KeptSet(bs[i - 1], specs, i - 1, referenced, o)|
  }

  /** The bucket before each prefix, and after the last. */
  function Buckets(objects: Objects, specs: seq<PrefixSpec>, referenced: set<string>, o: Oracle): seq<Objects> {
    seq(|specs| + 1, j requires 0 <= j <= |specs| => After(objects, specs, j, referenced, o))
  }

  function Total(objects: Objects, specs: seq<PrefixSpec>, i: nat, referenced: set<string>, o: Oracle): Counts
    requires i <= |specs|
  {
    TotalOf(Buckets(objects, specs, referenced, o), specs, i, referenced, o)
  }

  /** Listed objects the first `i` prefixes kept. */
  function TotalKept(objects: Objects, specs: seq<PrefixSpec>, i: nat, referenced: set<string>, o: Oracle): nat
    requires i <= |specs|
  {
    KeptOf(Buckets(objects, specs, referenced, o), specs, i, referenced, o)
  }

  /** Exactly the objects that some prefix made an orphan of and whose delete there worked are gone; the rest is untouched. */
  lemma {:induction false} SweepRemovesExactly(objects: Objects, specs: seq<PrefixSpec>, i: nat, referenced: set<string>, o: Oracle, name: string)
    requires i <= |specs|
    ensures name in After(objects, specs, i, referenced, o) <==>
      name in objects && !(exists j :: (
        0 <= j < i && specs[j].prefix <= name && name !in referenced
        && objects[name].Some? && objects[name].value < o.now - specs[j].graceMs && !o.deleteFails(j, name)))
    ensures name in After(objects, specs, i, referenced, o) ==> After(objects, specs, i, referenced, o)[name] == objects[name]
  {
    if i > 0 {
      SweepRemovesExactly(objects, specs, i - 1, referenced, o, name);
    }
  }

  lemma SplitListing(objects: Objects, specs: seq<PrefixSpec>, i: nat, referenced: set<string>, o: Oracle)
    requires i < |specs|
    ensures |Listed(objects, specs[i])| == |Removed(objects, specs, i, referenced, o)| + |FailedSet(objects, specs, i, referenced, o)|
      + |UndatedSet(objects, specs, i, referenced)| + |KeptSet(objects, specs, i, referenced, o)|
  {
    var a, b := Removed(objects, specs, i, referenced, o), FailedSet(objects, specs, i, referenced, o);
    var c, d := UndatedSet(objects, specs, i, referenced), KeptSet(objects, specs, i, referenced, o);
    assert a !! b && (a + b) !! c && (a + b + c) !! d;
    assert a + b + c + d == Listed(objects, specs[i]);
  }

  lemma DropShrinks(objects: Objects, gone: set<string>)
    requires gone <= objects.Keys
    ensures |objects - gone| == |objects| - |gone|
  {
    assert (objects - gone).Keys == objects.Keys - gone;
    assert |objects.Keys - gone| == |objects.Keys| - |gone|;
  }

  /** The counters of one listed prefix, with what it keeps. */
  lemma SplitCounts(objects: Objects, specs: seq<PrefixSpec>, i: nat, referenced: set<string>, o: Oracle)
    requires i < |specs|
    ensures var c := CountsOf(objects, specs, i, referenced, o);
      c.scanned == c.deleted + c.failed + c.skippedNoTimestamp + |KeptSet(objects, specs, i, referenced, o)|
  {
    SplitListing(objects, specs, i, referenced, o);
  }

  lemma {:induction false} EachCountsOnce(bs: seq<Objects>, specs: seq<PrefixSpec>, i: nat, referenced: set<string>, o: Oracle)
    requires i <= |specs| && i <= |bs|
    ensures var t := TotalOf(bs, specs, i, referenced, o);
      t.scanned == t.deleted + t.failed + t.skippedNoTimestamp + KeptOf(bs, specs, i, referenced, o)
  {
    if i > 0 {
      EachCountsOnce(bs, specs, i - 1, referenced, o);
      SplitCounts(bs[i - 1], specs, i - 1, referenced, o);
    }
  }

  /** Every listed object is counted once. */
  lemma CountsAddUp(objects: Objects, specs: seq<PrefixSpec>, i: nat, referenced: set<string>, o: Oracle)
    requires i <= |specs|
    ensures var t := Total(objects, specs, i, referenced, o);
      t.scanned == t.deleted + t.failed + t.skippedNoTimestamp + TotalKept(objects, specs, i, referenced, o)
  {
    EachCountsOnce(Buckets(objects, specs, referenced, o), specs, i, referenced, o);
  }

  // ----- what the other counters count -----

  /** The deletes that fail: of which object, under which prefix. */
  function Failures(bs: seq<Objects>, specs: seq<PrefixSpec>, i: nat, referenced: set<string>, o: Oracle): set<(nat, string)>
    requires i <= |specs| && i <= |bs|
  {
    set j: nat, n | 0 <= j < i && n in bs[j] && o.deleteFails(j, n) && specs[j].prefix <= n && n !in referenced
      && bs[j][n].Some? && bs[j][n].value < o.now - specs[j].graceMs :: (j, n)
  }

  /** The unreferenced objects met without a creation time. */
  function Undatables(bs: seq<Objects>, specs: seq<PrefixSpec>, i: nat, referenced: set<string>): set<(nat, string)>
    requires i <= |specs| && i <= |bs|
  {
    set j: nat, n | 0 <= j < i && n in bs[j] && specs[j].prefix <= n && n !in referenced && bs[j][n].None? :: (j, n)
  }

  function Tagged(j: nat, xs: set<string>): set<(nat, string)> {
    set n | n in xs :: (j, n)
  }

  lemma {:induction false} TaggedSize(j: nat, xs: set<string>)
    ensures |Tagged(j, xs)| == |xs|
  {
    if xs != {} {
      var x :| x in xs;
      TaggedSize(j, xs - {x});
      assert Tagged(j, xs) == Tagged(j, xs - {x}) + {(j, x)};
    }
  }

  /** `failed` counts the failing deletes, `skippedNoTimestamp` the undated objects, prefix by prefix. */
  lemma {:induction false} CountersMean(bs: seq<Objects>, specs: seq<PrefixSpec>, i: nat, referenced: set<string>, o: Oracle)
    requires i <= |specs| && i <= |bs|
    ensures TotalOf(bs, specs, i, referenced, o).failed == |Failures(bs, specs, i, referenced, o)|
    ensures TotalOf(bs, specs, i, referenced, o).skippedNoTimestamp == |Undatables(bs, specs, i, referenced)|
  {
    if i > 0 {
      CountersMean(bs, specs, i - 1, referenced, o);
      OneMoreFailures(bs, specs, i - 1, referenced, o);
      OneMoreUndatables(bs, specs, i - 1, referenced, o);
    }
  }

  lemma OneMoreFailures(bs: seq<Objects>, specs: seq<PrefixSpec>, i: nat, referenced: set<string>, o: Oracle)
    requires i < |specs| && i < |bs|
    ensures |Failures(bs, specs, i + 1, referenced, o)|
         == |Failures(bs, specs, i, referenced, o)| + CountsOf(bs[i], specs, i, referenced, o).failed
  {
    var more := Tagged(i, FailedSet(bs[i], specs, i, referenced, o));
    TaggedSize(i, FailedSet(bs[i], specs, i, referenced, o));
    assert Failures(bs, specs, i + 1, referenced, o) == Failures(bs, specs, i, referenced, o) + more;
    assert Failures(bs, specs, i, referenced, o) !! more;
  }

  lemma OneMoreUndatables(bs: seq<Objects>, specs: seq<PrefixSpec>, i: nat, referenced: set<string>, o: Oracle)
    requires i < |specs| && i < |bs|
    ensures |Undatables(bs, specs, i + 1, referenced)|
         == |Undatables(bs, specs, i, referenced)| + CountsOf(bs[i], specs, i, referenced, o).skippedNoTimestamp
  {
    var more := Tagged(i, UndatedSet(bs[i], specs, i, referenced));
    TaggedSize(i, UndatedSet(bs[i], specs, i, referenced));
    assert Undatables(bs, specs, i + 1, referenced) == Undatables(bs, specs, i, referenced) + more;
    assert Undatables(bs, specs, i, referenced) !! more;
  }

  lemma DeletedFrom(objects: Objects, specs: seq<PrefixSpec>, i: nat, referenced: set<string>, o: Oracle)
    requires i < |specs|
    ensures |objects - Removed(objects, specs, i, referenced, o)| + CountsOf(objects, specs, i, referenced, o).deleted == |objects|
  {
    DropShrinks(objects, Removed(objects, specs, i, referenced, o));
  }

  ghost predicate SweptInTurn(bs: seq<Objects>, specs: seq<PrefixSpec>, referenced: set<string>, o: Oracle) {
    |bs| == |specs| + 1 && forall j | 0 <= j < |specs| :: bs[j + 1] == bs[j] - Removed(bs[j], specs, j, referenced, o)
  }

  lemma OneMoreDrop(before: Objects, after: Objects, specs: seq<PrefixSpec>, i: nat, referenced: set<string>, o: Oracle, t: Counts)
    requires i < |specs| && after == before - Removed(before, specs, i, referenced, o)
    ensures |after| + Plus(t, CountsOf(before, specs, i, referenced, o)).deleted == |before| + t.deleted
  {
    DeletedFrom(before, specs, i, referenced, o);
  }

  lemma {:induction false} DropsAddUp(bs: seq<Objects>, specs: seq<PrefixSpec>, i: nat, referenced: set<string>, o: Oracle)
    requires i <= |specs| && SweptInTurn(bs, specs, referenced, o)
    ensures |bs[i]| + TotalOf(bs, specs, i, referenced, o).deleted == |bs[0]|
  {
    if i > 0 {
      DropsAddUp(bs, specs, i - 1, referenced, o);
      assert bs[i - 1 + 1] == bs[i - 1] - Removed(bs[i - 1], specs, i - 1, referenced, o);
      OneMoreDrop(bs[i - 1], bs[i], specs, i - 1, referenced, o, TotalOf(bs, specs, i - 1, referenced, o));
    }
  }

  lemma BucketsInTurn(objects: Objects, specs: seq<PrefixSpec>, referenced: set<string>, o: Oracle)
    ensures SweptInTurn(Buckets(objects, specs, referenced, o), specs, referenced, o)
    ensures Buckets(objects, specs, referenced, o)[0] == objects
  {
  }

  /** `deleted` is what the bucket lost, even when prefixes overlap. */
  lemma DeletedIsTheDrop(objects: Objects, specs: seq<PrefixSpec>, i: nat, referenced: set<string>, o: Oracle)
    requires i <= |specs|
    ensures |After(objects, specs, i, referenced, o)| + Total(objects, specs, i, referenced, o).deleted == |objects|
  {
    BucketsInTurn(objects, specs, referenced, o);
    DropsAddUp(Buckets(objects, specs, referenced, o), specs, i, referenced, o);
    assert Buckets(objects, specs, referenced, o)[i] == After(objects, specs, i, referenced, o);
  }

  // ----- storage -----

  /** `list` holds each of `names` once, with its metadata. */
  ghost predicate Lists(list: seq<Info>, objects: Objects, names: set<string>) {
    && (forall k | 0 <= k < |list| :: list[k].name in names && list[k].name in objects && list[k].timeCreated == objects[list[k].name])
    && (forall j, k | 0 <= j < k < |list| :: list[j].name != list[k].name)
    && (forall n | n in names :: n in objects && Info(n, objects[n]) in list)
  }

  lemma ListsMore(list: seq<Info>, objects: Objects, names: set<string>, n: string)
    requires Lists(list, objects, names) && n in objects && n !in names
    ensures Lists(list + [Info(n, objects[n])], objects, names + {n})
  {
    var more := list + [Info(n, objects[n])];
    assert more[|list|] == Info(n, objects[n]);
    assert forall m | m in names :: Info(m, objects[m]) in more;
  }

  /** The names whose delete under prefix `i` fails, or works. */
  function With(names: seq<string>, i: nat, o: Oracle, fails: bool): set<string> {
    set n | n in names && o.deleteFails(i, n) == fails
  }

  lemma WithMore(objects: Objects, names: seq<string>, k: nat, i: nat, o: Oracle)
    requires k < |names| && AllDistinct(names)
    ensures forall fails ::
      With(names[..k + 1], i, o, fails) == With(names[..k], i, o, fails) + (if o.deleteFails(i, names[k]) == fails then {names[k]} else {})
    ensures forall fails :: names[k] !in With(names[..k], i, o, fails)
    ensures objects - With(names[..k], i, o, false) - {names[k]} == objects - (With(names[..k], i, o, false) + {names[k]})
  {
    assert names[..k + 1] == names[..k] + [names[k]];
    assert names[k] !in names[..k];
  }

  ghost predicate AllDistinct(names: seq<string>) {
    forall j, k | 0 <= j < k < |names| :: names[j] != names[k]
  }

  function OrphanNames(list: seq<Info>, spec: PrefixSpec, referenced: set<string>, now: int): seq<string> {
    if list == [] then []
    else
      var x := list[|list| - 1];
      OrphanNames(list[..|list| - 1], spec, referenced, now) +
        if x.name !in referenced && x.timeCreated.Some? && x.timeCreated.value < now - spec.graceMs then [x.name] else []
  }

  function UndatedNames(list: seq<Info>, spec: PrefixSpec, referenced: set<string>): set<string> {
    set x | x in list && x.name !in referenced && x.timeCreated.None? :: x.name
  }

  lemma UndatedMore(list: seq<Info>, k: nat, spec: PrefixSpec, referenced: set<string>)
    requires k < |list| && forall j, k | 0 <= j < k < |list| :: list[j].name != list[k].name
    ensures var undated := UndatedNames(list[..k], spec, referenced); var x := list[k];
      |UndatedNames(list[..k + 1], spec, referenced)| == |undated| + if x.name !in referenced && x.timeCreated.None? then 1 else 0
  {
    var undated, x := UndatedNames(list[..k], spec, referenced), list[k];
    assert list[..k + 1] == list[..k] + [x];
    assert x.name !in undated;
    assert UndatedNames(list[..k + 1], spec, referenced)
        == undated + if x.name !in referenced && x.timeCreated.None? then {x.name} else {};
  }

  lemma {:induction false} OrphanNamesMembers(list: seq<Info>, spec: PrefixSpec, referenced: set<string>, now: int)
    requires forall j, k | 0 <= j < k < |list| :: list[j].name != list[k].name
    requires forall x | x in list :: spec.prefix <= x.name
    ensures forall n :: n in OrphanNames(list, spec, referenced, now) <==>
      exists x :: x in list && x.name == n && Orphan(spec, referenced, now, x.name, x.timeCreated)
    ensures AllDistinct(OrphanNames(list, spec, referenced, now))
  {
    if list != [] {
      var rest, x := list[..|list| - 1], list[|list| - 1];
      OrphanNamesMembers(rest, spec, referenced, now);
      assert list == rest + [x];
      var names := OrphanNames(rest, spec, referenced, now);
      assert x.name !in names;
      forall n ensures n in OrphanNames(list, spec, referenced, now) <==>
        exists x :: x in list && x.name == n && Orphan(spec, referenced, now, x.name, x.timeCreated)
      {
        if n in OrphanNames(list, spec, referenced, now) {
          assert n in names || (n == x.name && x in list && Orphan(spec, referenced, now, x.name, x.timeCreated));
        }
      }
    }
  }

  lemma FilterIsExact(list: seq<Info>, objects: Objects, specs: seq<PrefixSpec>, i: nat, referenced: set<string>, o: Oracle)
    requires i < |specs| && Lists(list, objects, Listed(objects, specs[i]))
    ensures var orphans := OrphanNames(list, specs[i], referenced, o.now);
      && (forall n :: n in orphans <==> n in objects && Orphan(specs[i], referenced, o.now, n, objects[n]))
      && AllDistinct(orphans)
    ensures UndatedNames(list, specs[i], referenced) == UndatedSet(objects, specs, i, referenced)
  {
    OrphanNamesMembers(list, specs[i], referenced, o.now);
    forall n ensures n in OrphanNames(list, specs[i], referenced, o.now) <==> n in objects && Orphan(specs[i], referenced, o.now, n, objects[n]) {
      if n in objects && Orphan(specs[i], referenced, o.now, n, objects[n]) {
        assert Info(n, objects[n]) in list;
      }
    }
    forall n ensures n in UndatedNames(list, specs[i], referenced) <==> n in UndatedSet(objects, specs, i, referenced) {
      if n in UndatedSet(objects, specs, i, referenced) {
        assert Info(n, objects[n]) in list;
      }
    }
  }

  class Storage {
    var objects: Objects

    constructor (objects: Objects)
      ensures this.objects == objects
    {
      this.objects := objects;
    }

    /** Every object under the prefix once, in no particular order. */
    method ListObjects(prefix: string) returns (list: seq<Info>)
      ensures Lists(list, objects, Listed(objects, PrefixSpec(prefix, 0)))
      ensures |list| == |Listed(objects, PrefixSpec(prefix, 0))|
    {
      var rest := set n | n in objects && prefix <= n;
      ghost var all := rest;
      list := [];
      while rest != {}
        invariant rest <= all && |list| + |rest| == |all|
        invariant Lists(list, objects, all - rest)
        decreases |rest|
      {
        var n :| n in rest;
        ListsMore(list, objects, all - rest, n);
        list := list + [Info(n, objects[n])];
        rest := rest - {n};
        assert all - rest == (all - (rest + {n})) + {n};
      }
      assert all == Listed(objects, PrefixSpec(prefix, 0)) && all - {} == all;
    }

    /** Removing an absent object succeeds. */
    method DeleteObject(name: string, fails: bool) returns (ok: bool)
      modifies this
      ensures ok == !fails
      ensures objects == if ok then old(objects) - {name} else old(objects)
    {
      if fails {
        return false;
      }
      objects := objects - {name};
      return true;
    }
  }

  datatype SweepResult = SweepResult(acquired: bool, counts: Counts)

  /** The lock protocol's steps for one replica: begin, end, free. */
  function AloneSweep(s: R.Store): R.Store {
    L.Step(L.Step(L.Step(L.World(s, [L.Idle], []), L.Begin(0)), L.End(0)), L.Free(0)).store
  }

  class MediaCleanupService {
    const storage: Storage
    const redis: R.RedisService
    const specs: seq<PrefixSpec>

    constructor (storage: Storage, redis: R.RedisService, specs: seq<PrefixSpec>)
      ensures this.storage == storage && this.redis == redis && this.specs == specs
    {
      this.storage, this.redis, this.specs := storage, redis, specs;
    }

    /** The union of the providers' keys; a provider that throws (`None`) throws through. */
    method CollectReferencedKeys(providers: seq<Option<set<string>>>) returns (r: Option<set<string>>)
      ensures r.None? <==> exists i :: 0 <= i < |providers| && providers[i].None?
      ensures r.Some? ==> forall k :: k in r.value <==> exists i :: 0 <= i < |providers| && providers[i].Some? && k in providers[i].value
    {
      var keys: set<string> := {};
      for i := 0 to |providers|
        invariant forall j | 0 <= j < i :: providers[j].Some?
        invariant forall k :: k in keys <==> exists j :: 0 <= j < i && providers[j].Some? && k in providers[j].value
      {
        if providers[i].None? {
          return None;
        }
        keys := keys + providers[i].value;
      }
      return Some(keys);
    }

    /** One listed prefix: pick the orphans, then delete them one by one. */
    method SweepPrefix(i: nat, referenced: set<string>, o: Oracle)
      returns (counts: Counts)
      requires i < |specs|
      modifies storage
      ensures storage.objects == old(storage.objects) - Removed(old(storage.objects), specs, i, referenced, o)
      ensures counts == CountsOf(old(storage.objects), specs, i, referenced, o)
    {
      ghost var before := storage.objects;
      var list := storage.ListObjects(specs[i].prefix);
      assert Listed(before, specs[i]) == Listed(before, PrefixSpec(specs[i].prefix, 0));
      var orphans, skipped := FilterOrphans(list, i, referenced, o, before);
      var deleted, failed := DeleteAll(orphans, i, o);
      assert With(orphans, i, o, false) == Removed(before, specs, i, referenced, o);
      assert With(orphans, i, o, true) == FailedSet(before, specs, i, referenced, o);
      counts := Counts(|list|, deleted, failed, skipped);
    }

    /** The inner loop: a failing delete is counted and the loop goes on. */
    method DeleteAll(orphans: seq<string>, i: nat, o: Oracle) returns (deleted: nat, failed: nat)
      requires AllDistinct(orphans)
      modifies storage
      ensures storage.objects == old(storage.objects) - With(orphans, i, o, false)
      ensures deleted == |With(orphans, i, o, false)| && failed == |With(orphans, i, o, true)|
    {
      deleted, failed := 0, 0;
      for k := 0 to |orphans|
        invariant storage.objects == old(storage.objects) - With(orphans[..k], i, o, false)
        invariant deleted == |With(orphans[..k], i, o, false)| && failed == |With(orphans[..k], i, o, true)|
      {
        WithMore(old(storage.objects), orphans, k, i, o);
        var ok := storage.DeleteObject(orphans[k], o.deleteFails(i, orphans[k]));
        if ok {
          deleted := deleted + 1;
        } else {
          failed := failed + 1;
        }
      }
      assert orphans[..|orphans|] == orphans;
    }

    /** The filter of the loop body, which counts the undated objects as it goes. */
    method FilterOrphans(list: seq<Info>, i: nat, referenced: set<string>, o: Oracle, ghost objects: Objects)
      returns (orphans: seq<string>, skipped: nat)
      requires i < |specs| && Lists(list, objects, Listed(objects, specs[i]))
      ensures forall n :: n in orphans <==> n in objects && Orphan(specs[i], referenced, o.now, n, objects[n])
      ensures AllDistinct(orphans)
      ensures skipped == |UndatedSet(objects, specs, i, referenced)|
    {
      orphans, skipped := [], 0;
      for k := 0 to |list|
        invariant orphans == OrphanNames(list[..k], specs[i], referenced, o.now)
        invariant skipped == |UndatedNames(list[..k], specs[i], referenced)|
      {
        var x := list[k];
        assert list[..k + 1][..k] == list[..k];
        UndatedMore(list, k, specs[i], referenced);
        if x.name !in referenced {
          if x.timeCreated.None? {
            skipped := skipped + 1;
          } else if x.timeCreated.value < o.now - specs[i].graceMs {
            orphans := orphans + [x.name];
          }
        }
      }
      assert list[..|list|] == list;
      FilterIsExact(list, objects, specs, i, referenced, o);
    }

    /** `None` when a provider or a listing throws; what was deleted before stays deleted. */
    method RunSweep(providers: seq<Option<set<string>>>, o: Oracle) returns (r: Option<Counts>, ghost swept: nat, ghost referenced: set<string>)
      modifies storage
      ensures swept <= |specs|
      ensures storage.objects == After(old(storage.objects), specs, swept, referenced, o)
      ensures r.Some? ==> swept == |specs| && r.value == Total(old(storage.objects), specs, swept, referenced, o)
      ensures r.None? <==> (exists i :: 0 <= i < |providers| && providers[i].None?) || exists i :: 0 <= i < |specs| && o.listFails(i)
      ensures forall i | 0 <= i < |providers| && providers[i].None? :: swept == 0
      ensures forall i | 0 <= i < swept :: !o.listFails(i)
      ensures (forall i | 0 <= i < |providers| :: providers[i].Some?) ==>
        forall k :: k in referenced <==> exists i :: 0 <= i < |providers| && providers[i].Some? && k in providers[i].value
    {
      swept, referenced := 0, {};
      var keys := CollectReferencedKeys(providers);
      if keys.None? {
        return None, swept, referenced;
      }
      referenced := keys.value;
      var total := Counts(0, 0, 0, 0);
      for i := 0 to |specs|
        invariant swept == i && forall j | 0 <= j < i :: !o.listFails(j)
        invariant storage.objects == After(old(storage.objects), specs, i, referenced, o)
        invariant total == Total(old(storage.objects), specs, i, referenced, o)
      {
        if o.listFails(i) {
          return None, swept, referenced;
        }
        var c := SweepPrefix(i, keys.value, o);
        total := Plus(total, c);
        swept := i + 1;
      }
      return Some(total), swept, referenced;
    }

    /** Without prefixes, or without the lock, nothing is listed or deleted; the lock is given back even when the sweep throws. */
    method SweepOrphans(providers: seq<Option<set<string>>>, o: Oracle)
      returns (r: Option<SweepResult>, ghost swept: nat, ghost referenced: set<string>)
      requires R.FreshTokens(redis.State())
      modifies storage, redis`cells, redis`issued
      ensures specs == [] || R.Live(old(redis.State()), L.LOCK_KEY) ==>
        r == Some(SweepResult(false, Counts(0, 0, 0, 0))) && storage.objects == old(storage.objects)
      ensures R.Get(redis.State(), L.LOCK_KEY) == R.Get(old(redis.State()), L.LOCK_KEY)
      ensures redis.State() == if specs == [] then old(redis.State()) else AloneSweep(old(redis.State()))
      ensures swept <= |specs| && storage.objects == After(old(storage.objects), specs, swept, referenced, o)
      ensures specs != [] && !R.Live(old(redis.State()), L.LOCK_KEY) && r.Some? ==>
        && swept == |specs| && r == Some(SweepResult(true, Total(old(storage.objects), specs, swept, referenced, o)))
        && (forall i | 0 <= i < |providers| :: providers[i].Some?)
        && (forall k :: k in referenced <==> exists i :: 0 <= i < |providers| && providers[i].Some? && k in providers[i].value)
        && |storage.objects| == |old(storage.objects)| - r.value.counts.deleted
      ensures specs != [] && !R.Live(old(redis.State()), L.LOCK_KEY) && r.None? ==>
        (exists i :: 0 <= i < |providers| && providers[i].None?) || exists i :: 0 <= i < |specs| && o.listFails(i)
    {
      swept, referenced := 0, {};
      if |specs| == 0 {
        return Some(SweepResult(false, Counts(0, 0, 0, 0))), swept, referenced;
      }
      var lock := redis.AcquireLock(L.LOCK_KEY, L.LOCK_TTL_SECONDS);
      if lock.None? {
        return Some(SweepResult(false, Counts(0, 0, 0, 0))), swept, referenced;
      }
      var counts;
      counts, swept, referenced := RunSweep(providers, o);
      redis.ReleaseLock(L.LOCK_KEY, lock.value);
      if counts.None? {
        return None, swept, referenced;
      }
      DeletedIsTheDrop(old(storage.objects), specs, swept, referenced, o);
      return Some(SweepResult(true, counts.value)), swept, referenced;
    }
  }
}

/**
 The presign cache in front of the object-storage signer. Calls with different
 expiries share one cache entry per key and overlap freely; signing takes time,
 so an entry is stored some seconds after its URL was signed.
 */
module PresignCache {
  import opened Wrappers
  import C = Concurrency

  const CACHE_MARGIN_SECONDS: nat := 60
  const DEFAULT_EXPIRES: nat := 900
  const SIGNING_MAX_CONCURRENCY: nat := 8

  /** A signed URL: for which key, and when it stops working. */
  datatype Url = Url(key: string, expiresAt: int)

  datatype Entry = Entry(url: Url, expiry: int)

  datatype Cache = Cache(entries: map<string, Entry>, now: int)

  /** The expiry asked for, or the configured one, or 900. */
  function Expiry(expiresIn: Option<int>, configured: Option<int>): int {
    if expiresIn.Some? then expiresIn.value else if configured.Some? then configured.value else DEFAULT_EXPIRES
  }

  function CacheTtl(expiry: int): nat {
    if expiry - CACHE_MARGIN_SECONDS > 0 then expiry - CACHE_MARGIN_SECONDS else 0
  }

  predicate Hit(c: Cache, key: string) {
    key in c.entries && c.now < c.entries[key].expiry
  }

  function Store(c: Cache, key: string, url: Url, ttl: nat): Cache {
    c.(entries := c.entries[key := Entry(url, c.now + ttl)])
  }

  // ----- overlapping calls -----

  datatype Call =
    | Asking(key: string, expiry: int)
    | Signing(key: string, expiry: int)
    | Signed(key: string, expiry: int, url: Url, at: int)
    | Served(key: string, url: Url, cached: bool)
    | Failed

  datatype World = World(cache: Cache, calls: seq<Call>)

  /** `Sign` is the moment the URL's expiry is fixed; the answer reaches the caller later. */
  datatype Event = Ask(key: string, expiry: int) | Look(call: nat) | Sign(call: nat) | Fail(call: nat) | Put(call: nat) | Tick(seconds: nat)

  function Step(w: World, e: Event): World {
    match e
    case Ask(key, expiry) => w.(calls := w.calls + [Asking(key, expiry)])
    case Tick(seconds) => w.(cache := w.cache.(now := w.cache.now + seconds))
    case Look(i) =>
      if i < |w.calls| && w.calls[i].Asking? then
        var c := w.calls[i];
        w.(calls := w.calls[i :=
          if CacheTtl(c.expiry) > 0 && Hit(w.cache, c.key) then Served(c.key, w.cache.entries[c.key].url, true)
          else Signing(c.key, c.expiry)])
      else w
    case Sign(i) =>
      if i < |w.calls| && w.calls[i].Signing? then
        var c := w.calls[i];
        w.(calls := w.calls[i := Signed(c.key, c.expiry, Url(c.key, w.cache.now + c.expiry), w.cache.now)])
      else w
    case Fail(i) => if i < |w.calls| && w.calls[i].Signing? then w.(calls := w.calls[i := Failed]) else w
    case Put(i) =>
      if i < |w.calls| && w.calls[i].Signed? then
        var c := w.calls[i];
        World(if CacheTtl(c.expiry) > 0 then Store(w.cache, c.key, c.url, CacheTtl(c.expiry)) else w.cache,
              w.calls[i := Served(c.key, c.url, false)])
      else w
  }

  function Run(now: int, events: Trace<Event>): World {
    match events
    case Start => World(Cache(map[], now), [])
    case Then(before, e) => Step(Run(now, before), e)
  }

  /** No answer of the signer takes longer than `delay` seconds to be stored. */
  predicate Prompt(w: World, delay: nat) {
    forall i | 0 <= i < |w.calls| && w.calls[i].Signed? :: w.cache.now <= w.calls[i].at + delay
  }

  predicate AlwaysPrompt(now: int, events: Trace<Event>, delay: nat) {
    Prompt(Run(now, events), delay) && (events.Then? ==> AlwaysPrompt(now, events.before, delay))
  }

  /** Every entry is of its own key and is dropped 60 s minus the delay before its URL expires. */
  ghost predicate EntriesOk(c: Cache, delay: nat) {
    forall k | k in c.entries ::
      c.entries[k].url.key == k && c.entries[k].url.expiresAt >= c.entries[k].expiry + CACHE_MARGIN_SECONDS - delay
  }

  ghost predicate Inv(w: World, delay: nat) {
    && EntriesOk(w.cache, delay)
    && (forall i | 0 <= i < |w.calls| && w.calls[i].Signed? ::
          w.calls[i].url == Url(w.calls[i].key, w.calls[i].at + w.calls[i].expiry) && w.calls[i].at <= w.cache.now)
    && (forall i | 0 <= i < |w.calls| && w.calls[i].Served? :: w.calls[i].url.key == w.calls[i].key)
  }

  lemma {:induction false} EveryRun(now: int, events: Trace<Event>, delay: nat)
    requires AlwaysPrompt(now, events, delay)
    ensures Inv(Run(now, events), delay)
  {
    if events.Then? {
      EveryRun(now, events.before, delay);
    }
  }

  /** A URL served from the cache was signed for that key and has more than 60 s minus the signing delay left, whatever expiry was asked for. */
  lemma CachedUrlHasMargin(now: int, events: Trace<Event>, delay: nat, i: nat)
    requires AlwaysPrompt(now, events, delay)
    requires var w := Run(now, events); i < |w.calls| && w.calls[i].Asking?
    ensures var w := Run(now, events); var c := Step(w, Look(i)).calls[i];
      c.Served? ==> c.cached && c.url.key == w.calls[i].key && c.url.expiresAt - w.cache.now > 60 - delay
  {
    EveryRun(now, events, delay);
  }

  /** Cached under expiry `stored`, signed `delay` seconds before it was stored, and asked for in the entry's last second. */
  function LastSecond(key: string, stored: int, asked: int, delay: nat): Trace<Event>
    requires stored > CACHE_MARGIN_SECONDS
  {
    Then(Then(Then(FirstCall(key, stored, delay), Tick(CacheTtl(stored) - 1)), Ask(key, asked)), Look(1))
  }

  function FirstCall(key: string, stored: int, delay: nat): Trace<Event> {
    Then(Then(Then(Then(Then(Start, Ask(key, stored)), Look(0)), Sign(0)), Tick(delay)), Put(0))
  }

  lemma FirstCallStores(now: int, key: string, stored: int, delay: nat)
    requires stored > CACHE_MARGIN_SECONDS
    ensures var w := Run(now, FirstCall(key, stored, delay)); var url := Url(key, now + stored);
      && AlwaysPrompt(now, FirstCall(key, stored, delay), delay)
      && w == World(Store(Cache(map[], now + delay), key, url, CacheTtl(stored)), [Served(key, url, false)])
  {
    var url := Url(key, now + stored);
    var e1 := Then(Start, Ask(key, stored));
    var e2 := Then(e1, Look(0));
    var e3 := Then(e2, Sign(0));
    var e4 := Then(e3, Tick(delay));
    assert Run(now, e1) == World(Cache(map[], now), [Asking(key, stored)]);
    assert Run(now, e2) == World(Cache(map[], now), [Signing(key, stored)]);
    assert Run(now, e3) == World(Cache(map[], now), [Signed(key, stored, url, now)]);
    assert Run(now, e4) == World(Cache(map[], now + delay), [Signed(key, stored, url, now)]);
    assert AlwaysPrompt(now, e2, delay);
    assert AlwaysPrompt(now, e4, delay);
  }

  /** Whatever expiry is asked for, a cached URL can be served with exactly 61 s minus the delay left: the cache key leaves the expiry out. */
  lemma CachedUrlIgnoresRequestedExpiry(now: int, key: string, stored: int, asked: int, delay: nat)
    requires stored > CACHE_MARGIN_SECONDS && asked > CACHE_MARGIN_SECONDS
    ensures var e := LastSecond(key, stored, asked, delay); var w := Run(now, e);
      && AlwaysPrompt(now, e, delay) && |w.calls| == 2
      && w.calls[1] == Served(key, Url(key, now + stored), true)
      && w.calls[1].url.expiresAt - w.cache.now == 61 - delay
  {
    FirstCallStores(now, key, stored, delay);
    var url, first := Url(key, now + stored), FirstCall(key, stored, delay);
    var e1 := Then(first, Tick(CacheTtl(stored) - 1));
    var e2 := Then(e1, Ask(key, asked));
    var later := now + delay + CacheTtl(stored) - 1;
    var entries := map[key := Entry(url, later + 1)];
    assert Run(now, e1) == World(Cache(entries, later), [Served(key, url, false)]);
    assert Run(now, e2) == World(Cache(entries, later), [Served(key, url, false), Asking(key, asked)]);
    assert Run(now, Then(e2, Look(1))).calls[1] == Served(key, url, true);
    assert AlwaysPrompt(now, e1, delay);
    assert AlwaysPrompt(now, e2, delay);
  }

  /** One call of `presignRead` that nothing overlaps. */
  function Alone(c: Cache, key: string, expiry: int, took: nat, signs: bool): World {
    var looked := Step(Step(World(c, []), Ask(key, expiry)), Look(0));
    if looked.calls[0].Served? then looked
    else Step(Step(Step(looked, if signs then Sign(0) else Fail(0)), Tick(took)), Put(0))
  }

  /** A signed URL is served again, without signing, until 60 s before the lifetime it was signed for has run out. */
  lemma ServedAgain(c: Cache, key: string, expiry: int, took: nat, later: nat, asked: int)
    requires expiry > 60 && asked > 60 && !Hit(c, key)
    ensures var first := Alone(c, key, expiry, took, true); var url := Url(key, c.now + expiry);
      var again := Alone(first.cache.(now := first.cache.now + later), key, asked, took, true);
      && first.calls == [Served(key, url, false)]
      && again.calls ==
        [if later < expiry - 60 then Served(key, url, true) else Served(key, Url(key, first.cache.now + later + asked), false)]
  {
    MissIsSigned(c, key, expiry, took);
    var first := Alone(c, key, expiry, took, true);
    var next := first.cache.(now := first.cache.now + later);
    if later < expiry - 60 {
      HitIsServed(next, key, asked, took, true);
    } else {
      MissIsSigned(next, key, asked, took);
    }
  }

  lemma MissIsSigned(c: Cache, key: string, expiry: int, took: nat)
    requires expiry > 60 && !Hit(c, key)
    ensures Alone(c, key, expiry, took, true)
      == World(Store(c.(now := c.now + took), key, Url(key, c.now + expiry), expiry - 60), [Served(key, Url(key, c.now + expiry), false)])
  {
    var url := Url(key, c.now + expiry);
    var w1 := World(c, [Asking(key, expiry)]);
    assert Step(World(c, []), Ask(key, expiry)) == w1;
    var w2 := World(c, [Signing(key, expiry)]);
    assert Step(w1, Look(0)) == w2;
    var w3 := World(c, [Signed(key, expiry, url, c.now)]);
    assert Step(w2, Sign(0)) == w3;
    assert Step(w3, Tick(took)) == World(c.(now := c.now + took), [Signed(key, expiry, url, c.now)]);
  }

  lemma HitIsServed(c: Cache, key: string, expiry: int, took: nat, signs: bool)
    requires expiry > 60 && Hit(c, key)
    ensures Alone(c, key, expiry, took, signs) == World(c, [Served(key, c.entries[key].url, true)])
  {
    var w1 := World(c, [Asking(key, expiry)]);
    assert Step(World(c, []), Ask(key, expiry)) == w1;
  }

  /** A lifetime of a minute or less is neither looked up nor stored. */
  lemma ShortLivedIsNotCached(c: Cache, key: string, expiry: int, took: nat, signs: bool)
    requires expiry <= 60
    ensures var w := Alone(c, key, expiry, took, signs);
      w.cache == c.(now := c.now + took) && w.calls == [if signs then Served(key, Url(key, c.now + expiry), false) else Failed]
  {
    var w1 := World(c, [Asking(key, expiry)]);
    assert Step(World(c, []), Ask(key, expiry)) == w1;
    var w2 := World(c, [Signing(key, expiry)]);
    assert Step(w1, Look(0)) == w2;
    assert signs ==> Step(w2, Sign(0)) == World(c, [Signed(key, expiry, Url(key, c.now + expiry), c.now)]);
    assert !signs ==> Step(w2, Fail(0)) == World(c, [Failed]);
  }

  // ----- the services -----

  /** The signing backend: which keys it can sign, each after `delay` seconds at most. */
  class GcsStorageService {
    const signs: string -> bool
    /** Every key handed to the signer, in order. */
    var asked: seq<string>

    constructor (signs: string -> bool)
      ensures this.signs == signs && asked == []
    {
      this.signs, asked := signs, [];
    }

    method PresignRead(key: string, expiry: int, now: int) returns (url: Option<Url>)
      modifies this
      ensures asked == old(asked) + [key]
      ensures url == if signs(key) then Some(Url(key, now + expiry)) else None
    {
      asked := asked + [key];
      url := if signs(key) then Some(Url(key, now + expiry)) else None;
    }

    /** Signs each key once, at most eight at a time (`peak`); a key that fails is simply absent from the result. */
    method PresignReadMany(keys: seq<string>, expiry: int, now: int) returns (result: map<string, Url>, peak: nat)
      modifies this
      ensures peak <= 8
      ensures asked == old(asked) + Unique(keys)
      ensures forall k :: k in result <==> k in keys && signs(k)
      ensures forall k | k in result :: result[k] == Url(k, now + expiry)
    {
      var uniqueKeys := Unique(keys);
      UniqueIsExact(keys);
      var sign := (key: string, i: nat) => if signs(key) then C.Fulfilled(Url(key, now + expiry)) else C.Rejected("sign");
      if |uniqueKeys| == 0 {
        return map[], 0;
      }
      var settled, order;
      settled, order, peak := C.MapWithConcurrency(uniqueKeys, SIGNING_MAX_CONCURRENCY, sign);
      asked := asked + seq(|order|, i requires 0 <= i < |order| && order[i] < |uniqueKeys| => uniqueKeys[order[i]]);
      result := Fulfilments(uniqueKeys, settled, expiry, now);
    }

    /** The loop over the settled results. */
    method Fulfilments(keys: seq<string>, settled: seq<C.Settled<Url>>, expiry: int, now: int) returns (result: map<string, Url>)
      requires |settled| == |keys|
      requires forall i | 0 <= i < |keys| ::
        settled[i] == if signs(keys[i]) then C.Fulfilled(Url(keys[i], now + expiry)) else C.Rejected("sign")
      ensures forall k :: k in result <==> k in keys && signs(k)
      ensures forall k | k in result :: result[k] == Url(k, now + expiry)
    {
      result := map[];
      for i := 0 to |keys|
        invariant forall k :: k in result <==> k in keys[..i] && signs(k)
        invariant forall k | k in result :: result[k] == Url(k, now + expiry)
      {
        assert keys[..i + 1] == keys[..i] + [keys[i]];
        if settled[i].Fulfilled? {
          result := result[keys[i] := settled[i].value];
        }
      }
      assert keys[..|keys|] == keys;
    }
  }

  ghost predicate AllDistinct(keys: seq<string>) {
    forall i, j | 0 <= i < j < |keys| :: keys[i] != keys[j]
  }

  /** `Array.from(new Set(keys))`: first occurrences, in order. */
  function Unique(keys: seq<string>): seq<string> {
    if keys == [] then []
    else
      var before := Unique(keys[..|keys| - 1]);
      if keys[|keys| - 1] in before then before else before + [keys[|keys| - 1]]
  }

  lemma {:induction false} UniqueIsExact(keys: seq<string>)
    ensures forall k :: k in Unique(keys) <==> k in keys
    ensures AllDistinct(Unique(keys))
  {
    if keys != [] {
      UniqueIsExact(keys[..|keys| - 1]);
      assert keys == keys[..|keys| - 1] + [keys[|keys| - 1]];
    }
  }

  lemma {:induction false} UniqueOfDistinct(keys: seq<string>)
    requires AllDistinct(keys)
    ensures Unique(keys) == keys
  {
    if keys != [] {
      UniqueOfDistinct(keys[..|keys| - 1]);
      assert keys == keys[..|keys| - 1] + [keys[|keys| - 1]];
    }
  }

  /** The keys the cache answers by itself, given the lifetime of new entries. */
  function Hits(c: Cache, keys: seq<string>, ttl: nat): set<string> {
    set k | k in keys && ttl > 0 && Hit(c, k)
  }

  function Misses(c: Cache, keys: seq<string>, ttl: nat): set<string> {
    (set k | k in keys) - Hits(c, keys, ttl)
  }

  /** The entries that one batch adds: every miss that was signed. */
  function Batch(misses: set<string>, signs: string -> bool, expiry: int, now: int, took: nat): map<string, Entry> {
    map k | k in misses && signs(k) && CacheTtl(expiry) > 0 :: Entry(Url(k, now + expiry), now + took + CacheTtl(expiry))
  }

  /** The cache after one batch; without misses no time passes. */
  function AfterBatch(c: Cache, misses: set<string>, signs: string -> bool, expiry: int, took: nat): Cache {
    Cache(c.entries + Batch(misses, signs, expiry, c.now, took), if misses == {} then c.now else c.now + took)
  }

  /** Hits under their cached URL, and the misses that could be signed. */
  ghost predicate Answers(result: map<string, Url>, c: Cache, keys: seq<string>, signs: string -> bool, expiry: int) {
    && (forall k :: k in result <==> k in Hits(c, keys, CacheTtl(expiry)) || (k in keys && signs(k)))
    && (forall k | k in result ::
          result[k] == if k in Hits(c, keys, CacheTtl(expiry)) then c.entries[k].url else Url(k, c.now + expiry))
  }

  /** The signer was handed each of `misses` once more, and nothing else. */
  ghost predicate AskedOnce(before: seq<string>, after: seq<string>, misses: set<string>) {
    exists order :: after == before + order && AllDistinct(order) && forall k :: k in order <==> k in misses
  }

  lemma MissesOf(c: Cache, keys: seq<string>, missing: seq<string>, ttl: nat)
    requires forall k :: k in missing <==> k in keys && (ttl == 0 || !Hit(c, k))
    ensures (set k | k in missing) == Misses(c, keys, ttl)
    ensures missing == [] <==> Misses(c, keys, ttl) == {}
  {
    assert missing != [] ==> missing[0] in Misses(c, keys, ttl);
  }

  /** The entries written for freshly signed URLs. */
  function Written(more: map<string, Url>, now: int, ttl: nat): map<string, Entry> {
    map k | k in more :: Entry(more[k], now + ttl)
  }

  /** `more` holds exactly the misses that could be signed. */
  ghost predicate SignedMisses(more: map<string, Url>, c: Cache, keys: seq<string>, signs: string -> bool, expiry: int) {
    && (forall k :: k in more <==> k in Misses(c, keys, CacheTtl(expiry)) && signs(k))
    && (forall k | k in more :: more[k] == Url(k, c.now + expiry))
  }

  ghost predicate CachedHits(hits: map<string, Url>, c: Cache, keys: seq<string>, ttl: nat) {
    (forall k :: k in hits <==> k in Hits(c, keys, ttl)) && forall k | k in hits :: k in c.entries && hits[k] == c.entries[k].url
  }

  lemma JoinedAnswers(hits: map<string, Url>, more: map<string, Url>, c: Cache, keys: seq<string>, signs: string -> bool, expiry: int)
    requires CachedHits(hits, c, keys, CacheTtl(expiry)) && SignedMisses(more, c, keys, signs, expiry)
    ensures Answers(hits + more, c, keys, signs, expiry)
  {
  }

  lemma WrittenIsBatch(more: map<string, Url>, c: Cache, keys: seq<string>, signs: string -> bool, expiry: int, took: nat)
    requires SignedMisses(more, c, keys, signs, expiry) && Misses(c, keys, CacheTtl(expiry)) != {} && CacheTtl(expiry) > 0
    ensures AfterBatch(c, Misses(c, keys, CacheTtl(expiry)), signs, expiry, took)
         == Cache(c.entries + Written(more, c.now + took, CacheTtl(expiry)), c.now + took)
  {
    var batch := Batch(Misses(c, keys, CacheTtl(expiry)), signs, expiry, c.now, took);
    assert batch == Written(more, c.now + took, CacheTtl(expiry));
  }

  lemma Fetched(c: Cache, keys: seq<string>, misses: set<string>, missing: seq<string>, more: map<string, Url>,
                signs: string -> bool, expiry: int, took: nat)
    requires CacheTtl(expiry) > 0 && misses == Misses(c, keys, CacheTtl(expiry))
    requires missing != [] && forall k :: k in missing <==> k in keys && !Hit(c, k)
    requires forall k :: k in more <==> k in missing && signs(k)
    requires forall k | k in more :: more[k] == Url(k, c.now + expiry)
    ensures (set k | k in missing) == misses
    ensures SignedMisses(more, c, keys, signs, expiry)
    ensures Cache(c.entries + Written(more, c.now + took, CacheTtl(expiry)), c.now + took) == AfterBatch(c, misses, signs, expiry, took)
  {
    MissesOf(c, keys, missing, CacheTtl(expiry));
    WrittenIsBatch(more, c, keys, signs, expiry, took);
  }

  lemma NothingWritten(c: Cache, misses: set<string>, signs: string -> bool, expiry: int, took: nat)
    requires misses != {} && CacheTtl(expiry) == 0
    ensures AfterBatch(c, misses, signs, expiry, took) == Cache(c.entries, c.now + took)
  {
    assert Batch(misses, signs, expiry, c.now, took) == map[];
    assert c.entries + map[] == c.entries;
  }

  /** What a batch call leaves: each URL signed for the whole lifetime, stored until a minute before its end, and every other entry as it was. */
  ghost predicate BatchLeaves(c: Cache, c': Cache, result: map<string, Url>, lifetime: int) {
    && (forall k | k in result && !Hit(c, k) :: result[k] == Url(k, c.now + lifetime))
    && (forall k | k in result && !Hit(c, k) && lifetime > 60 ::
          k in c'.entries && c'.entries[k] == Entry(result[k], c'.now + lifetime - 60))
    && (forall k | k in c.entries && (k !in result || Hit(c, k) || lifetime <= 60) :: k in c'.entries && c'.entries[k] == c.entries[k])
  }

  lemma SpelledOut(c: Cache, keys: seq<string>, result: map<string, Url>, signs: string -> bool, expiry: int, took: nat)
    requires Answers(result, c, keys, signs, expiry)
    ensures BatchLeaves(c, AfterBatch(c, Misses(c, keys, CacheTtl(expiry)), signs, expiry, took), result, expiry)
  {
  }

  /** Every URL a batch call answers from the cache is for its key and has the margin of `CachedUrlHasMargin`. */
  lemma AnswersHaveMargin(result: map<string, Url>, c: Cache, keys: seq<string>, signs: string -> bool, expiry: int, delay: nat)
    requires Answers(result, c, keys, signs, expiry) && EntriesOk(c, delay)
    ensures forall k | k in result :: result[k].key == k
    ensures forall k | k in Hits(c, keys, CacheTtl(expiry)) :: result[k].expiresAt - c.now > 60 - delay
  {
  }

  lemma NothingAsked(c: Cache, asked: seq<string>, misses: set<string>, signs: string -> bool, expiry: int, took: nat)
    requires forall k :: k !in misses
    ensures AskedOnce(asked, asked, misses) && AfterBatch(c, misses, signs, expiry, took) == c
  {
    assert misses == {} && Batch(misses, signs, expiry, c.now, took) == map[];
    assert asked == asked + [];
  }

  /** A batch keeps the margin of `CachedUrlHasMargin`, like a single `Put`. */
  lemma BatchKeepsEntries(c: Cache, misses: set<string>, signs: string -> bool, expiry: int, took: nat, delay: nat)
    requires EntriesOk(c, delay) && took <= delay
    ensures EntriesOk(AfterBatch(c, misses, signs, expiry, took), delay)
  {
  }

  class CachedStorageService {
    const inner: GcsStorageService
    var cache: Cache

    constructor (inner: GcsStorageService)
      ensures this.inner == inner && cache == Cache(map[], 0)
    {
      this.inner, cache := inner, Cache(map[], 0);
    }

    /** `took` seconds pass between signing and the answer. `None` is the signer's exception. */
    method PresignRead(key: string, expiresIn: Option<int>, configured: Option<int>, took: nat) returns (url: Option<Url>)
      modifies this`cache, inner
      ensures var w := Alone(old(cache), key, Expiry(expiresIn, configured), took, inner.signs(key));
        && cache == w.cache && |w.calls| == 1
        && (if url.Some? then w.calls[0].Served? && w.calls[0].url == url.value else w.calls[0].Failed?)
        && inner.asked == old(inner.asked) + (if w.calls[0].Served? && w.calls[0].cached then [] else [key])
      ensures var lifetime := if expiresIn.Some? then expiresIn.value else if configured.Some? then configured.value else 900;
        url.Some? && inner.asked != old(inner.asked) ==> url.value == Url(key, old(cache).now + lifetime)
      ensures forall delay: nat | took <= delay && EntriesOk(old(cache), delay) :: EntriesOk(cache, delay)
    {
      var expiry := Expiry(expiresIn, configured);
      var ttl := CacheTtl(expiry);
      if ttl > 0 && Hit(cache, key) {
        return Some(cache.entries[key].url);
      }
      url := inner.PresignRead(key, expiry, cache.now);
      cache := cache.(now := cache.now + took);
      if url.Some? && ttl > 0 {
        cache := Store(cache, key, url.value, ttl);
      }
    }

    /** Hits, plus the misses that could be signed; each miss is signed once, no hit is, and exactly the signed misses are stored. */
    method PresignReadMany(keys: seq<string>, expiresIn: Option<int>, configured: Option<int>, took: nat) returns (result: map<string, Url>)
      modifies this`cache, inner
      ensures var expiry := Expiry(expiresIn, configured); var misses := Misses(old(cache), keys, CacheTtl(expiry));
        && Answers(result, old(cache), keys, inner.signs, expiry)
        && AskedOnce(old(inner.asked), inner.asked, misses)
        && cache == AfterBatch(old(cache), misses, inner.signs, expiry, took)
      ensures var lifetime := if expiresIn.Some? then expiresIn.value else if configured.Some? then configured.value else 900;
        BatchLeaves(old(cache), cache, result, lifetime)
    {
      ghost var c := cache;
      result := ReadMany(keys, Expiry(expiresIn, configured), took);
      SpelledOut(c, keys, result, inner.signs, Expiry(expiresIn, configured), took);
    }

    method ReadMany(keys: seq<string>, expiry: int, took: nat) returns (result: map<string, Url>)
      modifies this`cache, inner
      ensures var misses := Misses(old(cache), keys, CacheTtl(expiry));
        && Answers(result, old(cache), keys, inner.signs, expiry)
        && AskedOnce(old(inner.asked), inner.asked, misses)
        && cache == AfterBatch(old(cache), misses, inner.signs, expiry, took)
    {
      var uniqueKeys := Unique(keys);
      UniqueIsExact(keys);
      var ttl := CacheTtl(expiry);
      ghost var c, misses := cache, Misses(cache, keys, ttl);
      if |uniqueKeys| == 0 {
        NothingAsked(c, inner.asked, misses, inner.signs, expiry, took);
        return map[];
      }
      if ttl == 0 {
        MissesOf(c, keys, uniqueKeys, ttl);
        result := Delegate(uniqueKeys, expiry, took);
        JoinedAnswers(map[], result, c, keys, inner.signs, expiry);
        NothingWritten(c, misses, inner.signs, expiry, took);
        assert map[] + result == result;
        return;
      }
      var hits, missing := SplitByCache(uniqueKeys);
      if |missing| == 0 {
        MissesOf(c, keys, missing, ttl);
        NothingAsked(c, inner.asked, misses, inner.signs, expiry, took);
        JoinedAnswers(hits, map[], c, keys, inner.signs, expiry);
        assert hits + map[] == hits;
        return hits;
      }
      var more := FetchMissing(keys, misses, missing, expiry, took);
      JoinedAnswers(hits, more, c, keys, inner.signs, expiry);
      result := hits + more;
    }

    /** The second half: sign what is missing, and store it. */
    method FetchMissing(ghost keys: seq<string>, ghost misses: set<string>, missing: seq<string>, expiry: int, took: nat)
      returns (more: map<string, Url>)
      requires CacheTtl(expiry) > 0 && misses == Misses(cache, keys, CacheTtl(expiry))
      requires AllDistinct(missing) && missing != [] && forall k :: k in missing <==> k in keys && !Hit(cache, k)
      modifies this`cache, inner
      ensures SignedMisses(more, old(cache), keys, inner.signs, expiry)
      ensures AskedOnce(old(inner.asked), inner.asked, misses)
      ensures cache == AfterBatch(old(cache), misses, inner.signs, expiry, took)
    {
      ghost var c := cache;
      more := Delegate(missing, expiry, took);
      Fetched(c, keys, misses, missing, more, inner.signs, expiry, took);
      StoreAll(more, CacheTtl(expiry));
    }

    /** The pipeline of SETs. */
    method StoreAll(more: map<string, Url>, ttl: nat)
      modifies this`cache
      ensures cache == Cache(old(cache).entries + Written(more, old(cache).now, ttl), old(cache).now)
    {
      cache := Cache(cache.entries + Written(more, cache.now, ttl), cache.now);
    }

    /** The signer's batch call, which takes its time. */
    method Delegate(keys: seq<string>, expiry: int, took: nat) returns (result: map<string, Url>)
      requires AllDistinct(keys)
      modifies this`cache, inner
      ensures cache == Cache(old(cache).entries, old(cache).now + took)
      ensures forall k :: k in result <==> k in keys && inner.signs(k)
      ensures forall k | k in result :: result[k] == Url(k, old(cache).now + expiry)
      ensures AskedOnce(old(inner.asked), inner.asked, set k | k in keys)
    {
      UniqueOfDistinct(keys);
      var peak;
      result, peak := inner.PresignReadMany(keys, expiry, cache.now);
      cache := cache.(now := cache.now + took);
    }

    /** The mget loop: what the cache has, and the keys it has not, in order. */
    method SplitByCache(uniqueKeys: seq<string>) returns (hits: map<string, Url>, missing: seq<string>)
      requires AllDistinct(uniqueKeys)
      ensures forall k :: k in hits <==> k in uniqueKeys && Hit(cache, k)
      ensures forall k | k in hits :: k in cache.entries && hits[k] == cache.entries[k].url
      ensures forall k :: k in missing <==> k in uniqueKeys && !Hit(cache, k)
      ensures AllDistinct(missing)
    {
      hits, missing := map[], [];
      for i := 0 to |uniqueKeys|
        invariant forall k :: k in hits <==> k in uniqueKeys[..i] && Hit(cache, k)
        invariant forall k | k in hits :: hits[k] == cache.entries[k].url
        invariant forall k :: k in missing <==> k in uniqueKeys[..i] && !Hit(cache, k)
        invariant AllDistinct(missing)
      {
        var key := uniqueKeys[i];
        assert uniqueKeys[..i + 1] == uniqueKeys[..i] + [key];
        assert key !in uniqueKeys[..i];
        if Hit(cache, key) {
          hits := hits[key := cache.entries[key].url];
        } else {
          missing := missing + [key];
        }
      }
      assert uniqueKeys[..|uniqueKeys|] == uniqueKeys;
    }
  }
}

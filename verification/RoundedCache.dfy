/**
 The report cache with rounded lifetimes (pkg/api/cache.go).

 A lifetime is computed from the clock before the data is generated and applied when the result is
 stored, so generation latency is part of what a reader can observe.
 */
module RoundedCache {
  import opened Common
  import opened ReleaseTime

  const DefaultCacheDuration := 8 * Hour

  datatype RequestOptions = RequestOptions(
    expiry: int, factor: int, offset: int, skipCacheWrites: bool,
    stableExpiry: int, stableAge: int, forceRefresh: bool, refreshRecent: bool)

  /** A query: its key, if it could be rendered, and the end of the date range it covers. */
  datatype CacheSpec = CacheSpec(key: Option<string>, queryEndDate: Option<int>)

  datatype Entry = Entry(value: string, storedAt: int, lifetime: int)

  /** How an entry came about: the clock when its lifetime was computed, and the rule used. */
  datatype Origin = Origin(computedAt: int, options: RequestOptions, stable: bool)

  predicate HasStableData(spec: CacheSpec, options: RequestOptions, now: int) {
    spec.queryEndDate.Some? && options.stableAge != 0 && spec.queryEndDate.value + options.stableAge < now
  }

  function CalculateRoundedCacheDuration(options: RequestOptions, now: int): (d: int)
    ensures options.factor > 0 ==>
              0 < d <= options.factor && IsBoundary(now + d, options.factor, options.offset) &&
              now + d == TruncateAligned(now, options.factor, options.offset) + options.factor
    ensures options.factor <= 0 && options.expiry > 0 ==> d == options.expiry
    ensures options.factor <= 0 && options.expiry <= 0 ==> d == 8 * Hour
  {
    var duration := if options.expiry > 0 then options.expiry else DefaultCacheDuration;
    if options.factor > 0 then
      var truncated := TruncateAligned(now, options.factor, options.offset);
      NextBoundary(truncated, options.factor, options.offset);
      truncated + options.factor - now
    else duration
  }

  lemma NextBoundary(b: int, factor: int, offset: int)
    requires factor > 0 && IsBoundary(b, factor, offset)
    ensures IsBoundary(b + factor, factor, offset)
  {
    var q := (b - offset) / factor;
    assert b + factor - offset == (q + 1) * factor;
    MultipleIsZero(q + 1, factor);
  }

  predicate Rounded(o: Origin) {
    o.options.factor > 0 && !o.stable
  }

  /** The lifetime an origin prescribes. */
  function Lifetime(o: Origin): int {
    if o.stable then o.options.stableExpiry else CalculateRoundedCacheDuration(o.options, o.computedAt)
  }

  /** The window a time falls in. */
  function WindowOf(t: int, options: RequestOptions): int {
    TruncateAligned(t, options.factor, options.offset)
  }

  /**
   A live rounded entry is read in the window its lifetime was computed in, or later than the end of
   that window by less than the time the generation took.
   */
  lemma RoundedHitIsFresh(entry: Entry, o: Origin, now: int)
    requires Rounded(o) && entry.lifetime == Lifetime(o) && o.computedAt <= entry.storedAt <= now
    requires now < entry.storedAt + entry.lifetime
    ensures var boundary := WindowOf(o.computedAt, o.options) + o.options.factor;
            && (now < boundary <==> WindowOf(now, o.options) == WindowOf(o.computedAt, o.options))
            && now < boundary + (entry.storedAt - o.computedAt)
  {
    var w := WindowOf(o.computedAt, o.options);
    if now < w + o.options.factor {
      TruncateUnique(now, w, o.options.factor, o.options.offset);
    }
  }

  class Cache {
    var entries: map<string, Entry>
    ghost var origins: map<string, Origin>
    /** Every value a generation has returned without errors, with its key. */
    ghost var generated: set<(string, string)>
    ghost var clock: int

    ghost predicate Valid()
      reads this
    {
      && entries.Keys == origins.Keys
      && forall k :: k in entries ==>
           && (k, entries[k].value) in generated
           && entries[k].lifetime == Lifetime(origins[k])
           && origins[k].computedAt <= entries[k].storedAt <= clock
    }

    constructor (ghost now: int)
      ensures Valid() && entries == map[] && generated == {} && clock == now
    {
      entries, origins, generated, clock := map[], map[], {}, now;
    }

    /** The key has an entry whose lifetime is not over. */
    predicate Live(key: string, now: int)
      reads this
    {
      key in entries && now < entries[key].storedAt + entries[key].lifetime
    }

    /** A live entry, unless the store does not answer. */
    method Get(key: string, now: int, healthy: bool) returns (found: Option<string>)
      ensures healthy ==> (found.Some? <==> Live(key, now))
      ensures found.Some? ==>
                key in entries && found == Some(entries[key].value) &&
                  now < entries[key].storedAt + entries[key].lifetime
    {
      found := None;
      var answers: bool := *;
      if (healthy || answers) && Live(key, now) {
        found := Some(entries[key].value);
      }
    }

    /** `CacheSet`: marshalling and storing may fail, which is only logged. */
    method CacheSet(key: string, value: string, lifetime: int, now: int, healthy: bool, ghost origin: Origin)
      requires Valid() && (key, value) in generated && lifetime == Lifetime(origin) && origin.computedAt <= now &&
               clock <= now
      modifies `entries, `origins, `clock
      ensures Valid() && clock == now
      ensures (entries == old(entries) && origins == old(origins)) ||
              (entries == old(entries)[key := Entry(value, now, lifetime)] && origins == old(origins)[key := origin])
      ensures healthy ==> entries == old(entries)[key := Entry(value, now, lifetime)]
    {
      clock := now;
      var stores: bool := *;
      if healthy || stores {
        entries := entries[key := Entry(value, now, lifetime)];
        origins := origins[key := origin];
      }
    }

    /** The generator of the caller: any value, and any number of errors. */
    method Generate(key: string) returns (value: string, errors: nat)
      modifies `generated
      ensures generated == if errors == 0 then old(generated) + {(key, value)} else old(generated)
    {
      var v: string, e: nat := *, *;
      value, errors := v, e;
      if errors == 0 { generated := generated + {(key, value)}; }
    }

    /** `GetDataFromCacheOrGenerate`; the times are the clock at each step. */
    method GetDataFromCacheOrGenerate(spec: CacheSpec, options: RequestOptions, t0: int, t1: int, t2: int, t3: int,
                                      healthy: bool)
      returns (value: string, errors: nat, hit: bool)
      requires Valid() && clock <= t0 <= t1 <= t2 <= t3
      requires spec.key.Some? ==> spec.key.value != ""
      modifies this
      ensures Valid() && old(generated) <= generated
      ensures hit ==>
                errors == 0 && entries == old(entries) && spec.key.Some? && (spec.key.value, value) in old(generated)
      ensures hit ==> !options.forceRefresh && !(options.refreshRecent && !HasStableData(spec, options, t1))
      ensures hit ==>
                spec.key.value in entries && spec.key.value in origins &&
                  var o := origins[spec.key.value]; Rounded(o) ==>
                WindowOf(t2, o.options) == WindowOf(o.computedAt, o.options) ||
                t2 < WindowOf(o.computedAt, o.options) + o.options.factor +
                  (entries[spec.key.value].storedAt - o.computedAt)
      ensures hit ==>
                var e, o := entries[spec.key.value], origins[spec.key.value];
                t2 - e.storedAt < if o.stable then o.options.stableExpiry
                                  else if o.options.factor > 0 then o.options.factor
                                  else if o.options.expiry > 0 then o.options.expiry
                                  else 8 * Hour
      ensures healthy ==>
                (hit <==> spec.key.Some? && old(Live(spec.key.value, t2)) && !options.forceRefresh &&
                          !(options.refreshRecent && !HasStableData(spec, options, t1)))
      ensures healthy && spec.key.Some? && !hit && errors == 0 && !options.skipCacheWrites ==>
                var stable := options.stableExpiry != 0 && HasStableData(spec, options, t1);
                entries == old(entries)[spec.key.value := Entry(value, t3, Lifetime(Origin(t0, options, stable)))]
      ensures errors > 0 || options.skipCacheWrites ==> entries == old(entries)
      ensures !hit && errors == 0 ==> spec.key.Some? && (spec.key.value, value) in generated
      ensures entries != old(entries) ==>
                && !hit && errors == 0 && spec.key.value in origins
                && entries == old(entries)[spec.key.value := Entry(value, t3, Lifetime(origins[spec.key.value]))]
                && origins[spec.key.value] == Origin(t0, options, origins[spec.key.value].stable)
                && (origins[spec.key.value].stable <==>
                      options.stableExpiry != 0 && options.stableAge != 0 && spec.queryEndDate.Some? &&
                      t1 - spec.queryEndDate.value > options.stableAge)
    {
      hit := false;
      if spec.key.None? {
        return "", 1, false;
      }
      var key := spec.key.value;
      var cacheDuration := CalculateRoundedCacheDuration(options, t0);
      var hasStableData := HasStableData(spec, options, t1);
      if options.stableExpiry != 0 && hasStableData {
        cacheDuration := options.stableExpiry;
      }
      var refreshRecent := options.refreshRecent && !hasStableData;
      if !options.forceRefresh && !refreshRecent {
        var found := Get(key, t2, healthy);
        var unmarshals: bool := *;
        if found.Some? && (healthy || unmarshals) {
          var o := origins[key];
          if Rounded(o) { RoundedHitIsFresh(entries[key], o, t2); }
          return found.value, 0, true;
        }
      }
      value, errors := Generate(key);
      if errors == 0 && !options.skipCacheWrites {
        CacheSet(key, value, cacheDuration, t3, healthy,
          Origin(t0, options, options.stableExpiry != 0 && hasStableData));
      }
    }
  }
}

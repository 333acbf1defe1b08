/**
 Caching and rate limiting of an endpoint (pkg/sippyserver/server.go).

 The middleware stack is capability check, then cache, then limiter, then handler. A request is
 served in three steps - look up, generate, record - that only rely on `Valid()` and on the log,
 which never shrinks, so the steps of different requests may interleave in any order.
 */
module ResponseCache {
  import opened Common
  import opened RateLimit

  type Fields = map<string, seq<string>>

  /** What a handler, or the limiter in its place, leaves in the recorder. */
  datatype Response = Response(status: int, header: Fields, body: string)

  /** The status line and headers as they went over the wire. */
  datatype Head = Head(status: int, header: Fields)

  /** A stored page: `cache.APIResponse`. */
  datatype Page = Page(header: Fields, body: string)

  datatype Stored = Stored(page: Page, expires: int)

  /** One call of the handler, or one refusal by the limiter. */
  datatype Generated = Generated(uri: string, at: int, response: Response, limited: bool)

  /**
   The outcome of recording a generated response on a client's connection: the head that client
   got, the final content of the header map, and the head that had already gone out, if any.
   */
  datatype Recorded = Recorded(source: Generated, head: Head, header: Fields, prior: Option<Head>)

  const StatusOK := 200
  const StatusTooManyRequests := 429

  predicate Successful(status: int) {
    200 <= status < 300
  }

  /** An `http.Header`: a map that is shared by reference. */
  class HeaderMap {
    var fields: Fields

    constructor (fields: Fields)
      ensures this.fields == fields
    {
      this.fields := fields;
    }

    /** `for k, v := range more { h[k] = v }` */
    method SetAll(more: Fields)
      modifies this
      ensures fields == old(fields) + more
    {
      var todo := more.Keys;
      while todo != {}
        invariant todo <= more.Keys
        invariant fields == old(fields) + (more - todo)
      {
        var k :| k in todo;
        fields := fields[k := more[k]];
        todo := todo - {k};
      }
      assert more - {} == more;
    }
  }

  /** An `http.ResponseWriter`: the first `WriteHeader` fixes status and headers. */
  class ResponseWriter {
    const header: HeaderMap
    var head: Option<Head>
    var body: string

    constructor (header: HeaderMap)
      ensures this.header == header && head == None && body == ""
    {
      this.header, head, body := header, None, "";
    }

    method WriteHeader(status: int)
      modifies this
      ensures head == if old(head).None? then Some(Head(status, header.fields)) else old(head)
      ensures body == old(body)
    {
      if head.None? {
        head := Some(Head(status, header.fields));
      }
    }

    method Write(content: string, healthy: bool) returns (ok: bool)
      requires head.Some?
      modifies `body
      ensures body == (if ok then old(body) + content else old(body))
      ensures healthy ==> ok
    {
      var writes: bool := *;
      ok := healthy || writes;
      if ok { body := body + content; }
    }
  }

  const CachedMarker: Fields := map["X-Sippy-Cached" := ["true"]]

  const NotImplemented := 501

  /** `respondFromCache`. */
  method RespondFromCache(page: Page, w: ResponseWriter, healthy: bool) returns (ok: bool)
    modifies w, w.header
    ensures w.head.Some? && w.header.fields == old(w.header.fields) + page.header + CachedMarker
    ensures old(w.head).None? ==> w.head == Some(CachedHead(old(w.header.fields), page))
    ensures w.body == if ok then old(w.body) + page.body else old(w.body)
    ensures healthy ==> ok
  {
    w.header.SetAll(page.header);
    w.header.SetAll(CachedMarker);
    w.WriteHeader(StatusOK);
    ok := w.Write(page.body, healthy);
  }

  /** The page came from a successful handler call for the URI and has the headers of that response. */
  ghost predicate Replayable(uri: string, page: Page, r: Recorded) {
    && r.source.uri == uri && !r.source.limited && Successful(r.source.response.status)
    && page == Page(r.header, r.source.response.body)
  }

  ghost predicate Genuine(cache: map<string, Stored>, log: seq<Recorded>) {
    forall uri :: uri in cache ==> exists i :: 0 <= i < |log| && Replayable(uri, cache[uri].page, log[i])
  }

  lemma GenuineGrows(cache: map<string, Stored>, log: seq<Recorded>, r: Recorded)
    requires Genuine(cache, log)
    ensures Genuine(cache, log + [r])
  {
    forall uri | uri in cache
      ensures exists i :: 0 <= i < |log + [r]| && Replayable(uri, cache[uri].page, (log + [r])[i])
    {
      var i :| 0 <= i < |log| && Replayable(uri, cache[uri].page, log[i]);
      assert (log + [r])[i] == log[i];
    }
  }

  lemma StoredIsGenuine(cache: map<string, Stored>, log: seq<Recorded>, uri: string, entry: Stored)
    requires Genuine(cache, log) && log != [] && Replayable(uri, entry.page, log[|log| - 1])
    ensures Genuine(cache[uri := entry], log)
  {
  }

  /** An open head takes status and headers of the response; one that has gone out stays as it was. */
  ghost predicate WellRecorded(r: Recorded) {
    && (r.source.limited ==> r.source.response.status == StatusTooManyRequests)
    && (r.prior.None? ==> r.head == Head(r.source.response.status, r.header))
    && (r.prior.Some? ==> r.head == r.prior.value && r.header == r.prior.value.header + r.source.response.header)
  }

  /** The response repeats headers that have gone out already, or has none. */
  ghost predicate AddsNoHeader(sent: Fields, more: Fields) {
    forall k :: k in more ==> k in sent && sent[k] == more[k]
  }

  /**
   The headers of a recording, which are those a stored page keeps, are the headers sent exactly when the
   head was still open or the response adds no header to those sent.
   */
  lemma HeadersSentIff(r: Recorded)
    requires WellRecorded(r)
    ensures r.header == r.head.header <==> r.prior.None? || AddsNoHeader(r.prior.value.header, r.source.response.header)
  {
    if r.prior.Some? {
      var sent, more := r.prior.value.header, r.source.response.header;
      if AddsNoHeader(sent, more) {
        assert sent + more == sent;
      } else {
        var k :| k in more && !(k in sent && sent[k] == more[k]);
        assert (sent + more)[k] == more[k];
      }
    }
  }

  /** A cached page failed to go out after its head: the page stored next has a header nobody was sent. */
  lemma StoredHeaderNeverSent(uri: string, at: int, body: string)
    ensures var sent := Head(StatusOK, CachedMarker);
            var response := Response(StatusOK, map["Content-Type" := ["application/json"]], body);
            var r := Recorded(Generated(uri, at, response, false), sent, CachedMarker + response.header, Some(sent));
            var page := Page(r.header, body);
            && WellRecorded(r) && Replayable(uri, page, r)
            && "Content-Type" in page.header && "Content-Type" !in r.head.header
  {
  }

  // ---------------------------------------------------------------------------------------
  // The endpoint

  /** What an endpoint carries from one request to the next: when its handler was called, and the cache. */
  datatype Memory = Memory(calls: seq<int>, cache: map<string, Stored>)

  /** What a client gets. */
  datatype Reply = Reply(head: Head, body: string)

  /** How a request was served: from the cache, by a response generated for it, or not at all. */
  datatype Step = Step(before: Memory, hit: bool, source: Option<Generated>, after: Memory)

  /** When the handler was called in these steps. */
  function Called(steps: seq<Step>): seq<int> {
    if steps == [] then []
    else
      var source := steps[|steps| - 1].source;
      Called(steps[..|steps| - 1]) + if source.Some? && !source.value.limited then [source.value.at] else []
  }

  /** Each step starts from what the one before left. */
  ghost predicate Follow(steps: seq<Step>, first: Memory, last: Memory) {
    if steps == [] then first == last
    else
      steps[|steps| - 1].after == last && Follow(steps[..|steps| - 1], first, steps[|steps| - 1].before)
  }

  /** The steps before one lead to where it starts. */
  lemma {:induction false} StepsUpTo(steps: seq<Step>, first: Memory, last: Memory, j: nat)
    requires Follow(steps, first, last) && j < |steps|
    ensures Follow(steps[..j], first, steps[j].before)
  {
    var n := |steps| - 1;
    if j < n {
      StepsUpTo(steps[..n], first, steps[n].before, j);
      assert steps[..n][..j] == steps[..j];
    }
  }

  predicate LiveIn(cache: map<string, Stored>, uri: string, now: int) {
    uri in cache && now < cache[uri].expires
  }

  /** The head of a cached page, behind the headers that middleware had set before. */
  function CachedHead(header: Fields, page: Page): Head {
    Head(200, header + page.header + map["X-Sippy-Cached" := ["true"]])
  }

  class Endpoint {
    const limiter: RateLimiter?
    const cacheTime: int
    const hasCache: bool
    const capable: bool
    var cache: map<string, Stored>
    /** When the handler was called. */
    ghost var calls: seq<int>
    ghost var generated: set<Generated>
    ghost var log: seq<Recorded>

    ghost predicate Valid()
      reads this, limiter
    {
      && (limiter != null ==> limiter.Valid() && limiter.period > 0 && limiter.history == calls)
      && (forall i :: 0 <= i < |log| ==> WellRecorded(log[i]) && log[i].source in generated)
      && (forall g :: g in generated && g.limited ==> g.response.status == StatusTooManyRequests)
      && Genuine(cache, log)
    }

    ghost predicate NotBefore(now: int)
      reads limiter
    {
      limiter != null ==> limiter.clock <= now
    }

    /** The middleware of an entry of the endpoint table. */
    constructor (maxRequests: int, period: int, cacheTime: int, hasCache: bool, capable: bool, ghost now: int)
      ensures Valid() && NotBefore(now) && cache == map[] && calls == [] && log == []
      ensures limiter != null <==> maxRequests > 0 && period > 0
      ensures limiter != null ==> limiter.maxRequests == maxRequests && limiter.period == period
      ensures this.cacheTime == cacheTime && this.hasCache == hasCache && this.capable == capable
      ensures limiter != null ==> fresh(limiter)
    {
      this.cacheTime, this.hasCache, this.capable := cacheTime, hasCache, capable;
      cache, calls, generated, log := map[], [], {}, [];
      if maxRequests > 0 && period > 0 {
        limiter := new RateLimiter(maxRequests, period, now);
      } else {
        limiter := null;
      }
    }

    ghost function Now(): Memory
      reads this
    {
      Memory(calls, cache)
    }

    predicate Caching() {
      cacheTime > 0 && hasCache
    }

    /** One period holds all the calls the limiter admits. */
    ghost predicate Full(calls: seq<int>, now: int) {
      limiter != null && |Window(calls, now - limiter.period, now)| >= limiter.maxRequests
    }

    /** A request at the time `t0` is answered from the cache and changes nothing. */
    ghost predicate Replays(step: Step, uri: string, t0: int, header: Fields, reply: Reply) {
      && Caching() && uri in step.before.cache && t0 < step.before.cache[uri].expires
      && step.source.None? && step.after == step.before
      && reply.head == CachedHead(header, step.before.cache[uri].page)
      && reply.body == step.before.cache[uri].page.body
    }

    /**
     A response is generated at `t1`, by the limiter exactly when the window is full and by the handler
     otherwise, and sent and recorded at `t2` behind the headers `base`. A head that went out before stays.
     */
    ghost predicate Generates(step: Step, uri: string, t1: int, t2: int, base: Fields, prior: Option<Head>,
                              reply: Reply, healthy: bool)
    {
      && step.source.Some?
      && var g := step.source.value;
         var entry := Stored(Page(base + g.response.header, g.response.body), t2 + cacheTime);
         && g.uri == uri && g.at == t1
         && (g.limited <==> Full(step.before.calls, t1))
         && (g.limited ==> g.response.status == 429)
         && step.after.calls == (if g.limited then step.before.calls else step.before.calls + [t1])
         && (step.after.cache == step.before.cache || step.after.cache == step.before.cache[uri := entry])
         && (step.after.cache != step.before.cache ==> Caching() && 200 <= g.response.status < 300)
         && (healthy && Caching() && 200 <= g.response.status < 300 ==>
               step.after.cache == step.before.cache[uri := entry])
         && reply.head == (if prior.Some? then prior.value else Head(g.response.status, base + g.response.header))
         && (reply.body == g.response.body || (!healthy && reply.body == ""))
    }

    /**
     How a request is answered: refused without the capability, from a live entry, or with a generated
     response. A live entry is missed only by a failure, possibly after its head went out.
     */
    ghost predicate Answers(step: Step, uri: string, t0: int, t1: int, t2: int, header: Fields, reply: Reply,
                            healthy: bool)
    {
      var live := Caching() && LiveIn(step.before.cache, uri, t0);
      if !capable then
        !step.hit && step.source.None? && step.after == step.before && reply == Reply(Head(501, header), "")
      else if step.hit then Replays(step, uri, t0, header, reply)
      else
        && (healthy ==> !live)
        && (|| Generates(step, uri, t1, t2, header, None, reply, healthy)
            || (live && (var head := CachedHead(header, step.before.cache[uri].page);
                Generates(step, uri, t1, t2, head.header, Some(head), reply, healthy))))
    }

    /** `cached`, first half: a hit answers from the page and touches neither limiter nor cache. */
    method Lookup(uri: string, w: ResponseWriter, now: int, healthy: bool) returns (hit: bool)
      modifies w, w.header
      ensures healthy ==> (hit <==> LiveIn(cache, uri, now))
      ensures hit ==> LiveIn(cache, uri, now) && w.body == old(w.body) + cache[uri].page.body
      ensures hit && old(w.head).None? ==>
                w.head == Some(CachedHead(old(w.header.fields), cache[uri].page))
      ensures !hit ==> w.body == old(w.body)
      ensures !hit ==>
                (w.head == old(w.head) && w.header.fields == old(w.header.fields)) ||
                  (LiveIn(cache, uri, now) &&
                   w.header.fields == old(w.header.fields) + cache[uri].page.header + CachedMarker &&
                   (old(w.head).None? ==> w.head == Some(CachedHead(old(w.header.fields), cache[uri].page))))
    {
      hit := false;
      var answers: bool, decodes: bool := *, *;
      if LiveIn(cache, uri, now) && (healthy || (answers && decodes)) {
        hit := RespondFromCache(cache[uri].page, w, healthy);
      }
    }

    /** `rateLimit` around the handler. */
    method Generate(uri: string, now: int) returns (g: Generated)
      requires Valid() && NotBefore(now)
      modifies `calls, `generated, limiter
      ensures Valid() && NotBefore(now) && generated == old(generated) + {g}
      ensures g.uri == uri && g.at == now
      ensures g.limited <==> Full(old(calls), now)
      ensures g.limited ==> g.response.status == StatusTooManyRequests
      ensures calls == if g.limited then old(calls) else old(calls) + [now]
    {
      var allowed := true;
      if limiter != null {
        allowed := limiter.Allow(now);
      }
      if allowed {
        var response: Response := *;
        calls := calls + [now];
        g := Generated(uri, now, response, false);
      } else {
        g := Generated(uri, now, Response(StatusTooManyRequests, map[], "Rate limit exceeded"), true);
      }
      generated := generated + {g};
    }

    /** `recordResponse`: the stored headers are the live header map, read after the merge. */
    method Record(g: Generated, w: ResponseWriter, now: int, healthy: bool)
      requires Valid() && g in generated
      requires w.head.Some? ==> w.head.value.header == w.header.fields
      modifies `cache, `log, w, w.header
      ensures Valid()
      ensures w.body == old(w.body) || w.body == old(w.body) + g.response.body
      ensures healthy ==> w.body == old(w.body) + g.response.body
      ensures healthy && Successful(g.response.status) ==>
                cache == old(cache)[g.uri :=
                  Stored(Page(old(w.header.fields) + g.response.header, g.response.body), now + cacheTime)]
      ensures w.head.Some? &&
              log == old(log) + [Recorded(g, w.head.value, old(w.header.fields) + g.response.header, old(w.head))]
      ensures w.head == if old(w.head).Some? then old(w.head)
                        else Some(Head(g.response.status, old(w.header.fields) + g.response.header))
      ensures cache == old(cache) ||
              (Successful(g.response.status) &&
               cache == old(cache)[g.uri :=
                 Stored(Page(old(w.header.fields) + g.response.header, g.response.body), now + cacheTime)])
    {
      var headers := w.header;
      w.header.SetAll(g.response.header);
      ghost var prior := w.head;
      w.WriteHeader(g.response.status);
      ghost var record := Recorded(g, w.head.value, w.header.fields, prior);
      GenuineGrows(cache, log, record);
      hide Genuine;
      log := log + [record];
      if Successful(g.response.status) {
        var page := Page(headers.fields, g.response.body);
        var stores: bool := *;
        if healthy || stores {
          StoredIsGenuine(cache, log, g.uri, Stored(page, now + cacheTime));
          cache := cache[g.uri := Stored(page, now + cacheTime)];
        }
      }
      var _ := w.Write(g.response.body, healthy);
    }

    /** `cached`: from the cache, or generated and recorded. */
    method Cached(uri: string, w: ResponseWriter, t0: int, t1: int, t2: int, healthy: bool)
      returns (hit: bool, ghost source: Option<Generated>)
      requires Valid() && NotBefore(t1) && capable && Caching() && w.head.None? && w.body == ""
      modifies this, limiter, w, w.header
      ensures Valid() && (limiter != null ==> limiter.clock <= t1 || limiter.clock == old(limiter.clock))
      ensures w.head.Some? && (hit ==> log == old(log))
      ensures Answers(Step(old(Now()), hit, source, Now()), uri, t0, t1, t2, old(w.header.fields),
                      Reply(w.head.value, w.body), healthy)
    {
      hide Genuine;
      ghost var before, header := Now(), w.header.fields;
      source := None;
      hit := Lookup(uri, w, t0, healthy);
      if hit {
        assert Replays(Step(before, hit, source, Now()), uri, t0, header, Reply(w.head.value, w.body));
        return;
      }
      ghost var base, prior := w.header.fields, w.head;
      var g := Generate(uri, t1);
      source := Some(g);
      Record(g, w, t2, healthy);
      ghost var step, reply := Step(before, hit, source, Now()), Reply(w.head.value, w.body);
      assert Generates(step, uri, t1, t2, base, prior, reply, healthy);
    }

    /** One request through the whole stack; the three times are those of its steps. */
    method Serve(uri: string, w: ResponseWriter, t0: int, t1: int, t2: int, healthy: bool)
      returns (hit: bool, ghost source: Option<Generated>)
      requires Valid() && NotBefore(t1) && t0 <= t1 <= t2
      requires w.head.None? && w.body == ""
      modifies this, limiter, w, w.header
      ensures Valid() && (limiter != null ==> limiter.clock <= t1 || limiter.clock == old(limiter.clock))
      ensures w.head.Some? && (hit ==> log == old(log))
      ensures Answers(Step(old(Now()), hit, source, Now()), uri, t0, t1, t2, old(w.header.fields),
                      Reply(w.head.value, w.body), healthy)
    {
      hide Genuine;
      hit, source := false, None;
      if !capable {
        w.WriteHeader(NotImplemented);
        return;
      }
      if cacheTime > 0 && hasCache {
        hit, source := Cached(uri, w, t0, t1, t2, healthy);
      } else {
        ghost var before, header := Now(), w.header.fields;
        var g := Generate(uri, t1);
        source := Some(g);
        w.header.SetAll(g.response.header);
        w.WriteHeader(g.response.status);
        var _ := w.Write(g.response.body, healthy);
        ghost var step, reply := Step(before, hit, source, Now()), Reply(w.head.value, w.body);
        assert Generates(step, uri, t1, t2, header, None, reply, healthy);
      }
    }

    /**
     A run of requests in the order of their times, from a fresh server or any later state. Each request is
     answered as `Answers` says from what the requests before it left; the handler is called for exactly
     those that were neither hits nor refused, and within the limit in every window.
     */
    method ServeRun(requests: seq<(string, int)>, header: Fields, healthy: bool)
      returns (replies: seq<Reply>, ghost steps: seq<Step>)
      requires Valid() && (requests != [] ==> NotBefore(requests[0].1))
      requires forall i, j :: 0 <= i < j < |requests| ==> requests[i].1 <= requests[j].1
      modifies this, limiter
      ensures Valid() && Serves(steps, requests, header, replies, healthy, old(Now()), Now())
      ensures limiter != null ==> forall from :: WithinLimit(calls, limiter.maxRequests, limiter.period, from)
    {
      hide AnswersAt, Serves;
      StartsServing(header, healthy, Now());
      replies, steps := [], [];
      for i := 0 to |requests|
        invariant Valid() && (i < |requests| ==> NotBefore(requests[i].1))
        invariant Serves(steps, requests[..i], header, replies, healthy, old(Now()), Now())
      {
        var h := new HeaderMap(header);
        var w := new ResponseWriter(h);
        var (uri, at) := requests[i];
        ghost var before := Now();
        var hit, source := Serve(uri, w, at, at, at, healthy);
        ghost var step := Step(before, hit, source, Now());
        var reply := Reply(w.head.value, w.body);
        ServesOneMore(steps, requests[..i], header, replies, healthy, old(Now()), step, requests[i], reply);
        assert requests[..i] + [requests[i]] == requests[..i + 1];
        replies, steps := replies + [reply], steps + [step];
      }
      assert requests[..|requests|] == requests;
      forall from | limiter != null ensures WithinLimit(calls, limiter.maxRequests, limiter.period, from) {
        Promises("", from);
      }
    }

    /** All three steps of the request at its one time. */
    ghost predicate AnswersAt(step: Step, request: (string, int), header: Fields, reply: Reply, healthy: bool) {
      Answers(step, request.0, request.1, request.1, request.1, header, reply, healthy)
    }

    /**
     Every request is answered from what the one before it left, and the handler is called for exactly those
     that were neither hits nor refused, in order.
     */
    ghost predicate Serves(steps: seq<Step>, requests: seq<(string, int)>, header: Fields, replies: seq<Reply>,
                           healthy: bool, first: Memory, last: Memory)
    {
      && |replies| == |steps| == |requests|
      && (forall i :: 0 <= i < |steps| ==> AnswersAt(steps[i], requests[i], header, replies[i], healthy))
      && Follow(steps, first, last)
      && last.calls == first.calls + Called(steps)
    }

    lemma StartsServing(header: Fields, healthy: bool, first: Memory)
      ensures Serves([], [], header, [], healthy, first, first)
    {
    }

    lemma ServesOneMore(steps: seq<Step>, requests: seq<(string, int)>, header: Fields, replies: seq<Reply>,
                        healthy: bool, first: Memory, step: Step, request: (string, int), reply: Reply)
      requires Serves(steps, requests, header, replies, healthy, first, step.before)
      requires AnswersAt(step, request, header, reply, healthy)
      ensures Serves(steps + [step], requests + [request], header, replies + [reply], healthy, first, step.after)
    {
      var all := steps + [step];
      assert all[..|steps|] == steps;
      assert step.source.Some? ==> step.source.value.at == request.1;
    }

    /** A response of this step, if stored, would answer later requests. */
    ghost predicate StoresPage(step: Step) {
      Caching() && step.source.Some? && Successful(step.source.value.response.status)
    }

    /** What one request without failures does to the entries: it stores its page, and misses only what is stale. */
    lemma StepOnEntries(step: Step, request: (string, int), header: Fields, reply: Reply)
      requires AnswersAt(step, request, header, reply, true)
      ensures StoresPage(step) ==>
                request.0 in step.after.cache && step.after.cache[request.0].expires == request.1 + cacheTime
      ensures forall uri :: uri in step.before.cache ==>
                uri in step.after.cache &&
                  (step.after.cache[uri] == step.before.cache[uri] ||
                   step.after.cache[uri].expires == request.1 + cacheTime)
      ensures step.source.Some? && Caching() ==> !LiveIn(step.before.cache, request.0, request.1)
    {
    }

    /** Without failures the entry of a stored page is still there later, or a younger one. */
    lemma {:induction false} EntryStays(steps: seq<Step>, requests: seq<(string, int)>, header: Fields,
                                        replies: seq<Reply>, first: Memory, last: Memory, i: nat)
      requires |replies| == |steps| == |requests| && i < |steps| && Follow(steps, first, last)
      requires forall k :: 0 <= k < |steps| ==> AnswersAt(steps[k], requests[k], header, replies[k], true)
      requires forall k :: i <= k < |steps| ==> requests[i].1 <= requests[k].1
      requires StoresPage(steps[i])
      ensures requests[i].0 in last.cache && last.cache[requests[i].0].expires >= requests[i].1 + cacheTime
    {
      hide AnswersAt, StoresPage;
      var n := |steps| - 1;
      StepOnEntries(steps[n], requests[n], header, replies[n]);
      if i < n {
        EntryStays(steps[..n], requests[..n], header, replies[..n], first, steps[n].before, i);
      }
    }

    /**
     Without failures a page that was generated and stored is not generated again, nor refused, for the
     lifetime of its entry, whatever other requests come in between.
     */
    lemma {:induction false} OncePerLifetime(steps: seq<Step>, requests: seq<(string, int)>, header: Fields,
                                             replies: seq<Reply>, first: Memory, last: Memory, i: nat, j: nat)
      requires Serves(steps, requests, header, replies, true, first, last)
      requires forall k, l :: 0 <= k < l < |requests| ==> requests[k].1 <= requests[l].1
      requires i < j < |steps| && requests[i].0 == requests[j].0
      requires StoresPage(steps[i]) && steps[j].source.Some?
      ensures requests[j].1 >= requests[i].1 + cacheTime
    {
      hide AnswersAt, Follow, Called;
      StepsUpTo(steps, first, last, j);
      EntryStays(steps[..j], requests[..j], header, replies[..j], first, steps[j].before, i);
      StepOnEntries(steps[j], requests[j], header, replies[j]);
    }

    /** What every reachable state promises. */
    lemma Promises(uri: string, from: int)
      requires Valid()
      ensures limiter != null ==> WithinLimit(calls, limiter.maxRequests, limiter.period, from)
      ensures uri in cache ==>
                exists i :: 0 <= i < |log| && Replayable(uri, cache[uri].page, log[i]) &&
                            200 <= log[i].source.response.status < 300 && !log[i].source.limited &&
                            (cache[uri].page.header == log[i].head.header <==>
                               log[i].prior.None? ||
                                 AddsNoHeader(log[i].prior.value.header, log[i].source.response.header))
    {
      if limiter != null {
        WindowBounded(calls, limiter.maxRequests, limiter.period, from);
      }
      if uri in cache {
        var i :| 0 <= i < |log| && Replayable(uri, cache[uri].page, log[i]);
        HeadersSentIff(log[i]);
      }
    }
  }
}

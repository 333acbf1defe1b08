/**
 The worker that writes risk-analysis comments on pull requests
 (pkg/sippyserver/pr_commenting_processor.go, pkg/github/commenter/ghcommenter.go,
 pkg/util/rate_limiter.go), for one pull request.

 Every call to GitHub and to the database may fail, with or without having taken effect.
 */
module PrComments {
  import opened Common
  import opened CommentHeader

  datatype Comment = Comment(id: int, body: string)

  /** The state GitHub reports: `state` is missing when the API omits it. */
  datatype PrEntry = PrEntry(sha: string, merged: bool, state: Option<string>)

  datatype Prepared = Prepared(comment: string, sha: string, commentType: int)

  datatype RecordKey = RecordKey(sha: string, commentType: int)

  datatype PendingRecord = PendingRecord(lastAttempt: int, failedAttempts: int)

  /** Ten minutes in milliseconds. */
  const AttemptWait := 600_000
  const MaxBackoff := 10

  /** Reads the comment ID out of a comment body, if there is one. */
  type MetaReader = string -> Option<string>

  function MetaOf(json: JsonReader): MetaReader {
    (body: string) => ReadId(json, body)
  }

  // ---------------------------------------------------------------------------------------
  // The comments of a pull request

  predicate HasId(meta: MetaReader, c: Comment, id: string) {
    meta(c.body) == Some(id)
  }

  ghost predicate AtMostOne(meta: MetaReader, comments: seq<Comment>, id: string) {
    forall i, j :: 0 <= i < j < |comments| ==> !(HasId(meta, comments[i], id) && HasId(meta, comments[j], id))
  }

  function Listed(comments: seq<Comment>, page: nat): seq<Comment> {
    if |comments| <= page then comments else comments[..page]
  }

  /** No comment with the ID hides beyond the page that GitHub lists. */
  ghost predicate AllListed(meta: MetaReader, comments: seq<Comment>, page: nat, id: string) {
    forall i :: page <= i < |comments| ==> !HasId(meta, comments[i], id)
  }

  function FirstWithId(meta: MetaReader, comments: seq<Comment>, id: string): (at: Option<nat>)
    ensures at.Some? ==> at.value < |comments| && HasId(meta, comments[at.value], id)
    ensures at.Some? ==> forall i :: 0 <= i < at.value ==> !HasId(meta, comments[i], id)
    ensures at.None? ==> forall i :: 0 <= i < |comments| ==> !HasId(meta, comments[i], id)
  {
    if comments == [] then None
    else
      var init := FirstWithId(meta, comments[..|comments| - 1], id);
      if init.Some? then init
      else if HasId(meta, comments[|comments| - 1], id) then Some(|comments| - 1)
      else None
  }

  function Removed(comments: seq<Comment>, at: nat): seq<Comment>
    requires at < |comments|
  {
    comments[..at] + comments[at + 1..]
  }

  /** The comments of everyone else, and of our other IDs. */
  function Others(meta: MetaReader, comments: seq<Comment>, id: string): seq<Comment> {
    if comments == [] then []
    else
      var rest := Others(meta, comments[..|comments| - 1], id);
      if HasId(meta, comments[|comments| - 1], id) then rest else rest + [comments[|comments| - 1]]
  }

  function Crowd(meta: MetaReader, comments: seq<Comment>, id: string): nat {
    |Others(meta, comments, id)|
  }

  ghost predicate Present(comments: seq<Comment>, body: string) {
    exists i :: 0 <= i < |comments| && TrimSpace(comments[i].body) == TrimSpace(body)
  }

  /** The outcome of a write in which nothing fails. */
  function Written(meta: MetaReader, comments: seq<Comment>, page: nat, id: string, new_: Comment): seq<Comment> {
    var at := FirstWithId(meta, Listed(comments, page), id);
    if at.None? then comments + [new_]
    else if TrimSpace(comments[at.value].body) == TrimSpace(new_.body) then comments
    else Removed(comments, at.value) + [new_]
  }

  lemma {:induction false} OthersConcat(meta: MetaReader, a: seq<Comment>, b: seq<Comment>, id: string)
    ensures Others(meta, a + b, id) == Others(meta, a, id) + Others(meta, b, id)
  {
    if b == [] {
      assert a + b == a;
    } else {
      var init := b[..|b| - 1];
      assert (a + b)[..|a + b| - 1] == a + init;
      OthersConcat(meta, a, init, id);
    }
  }

  lemma RemovingOurs(meta: MetaReader, comments: seq<Comment>, at: nat, id: string)
    requires at < |comments| && HasId(meta, comments[at], id)
    ensures Others(meta, Removed(comments, at), id) == Others(meta, comments, id)
    ensures AtMostOne(meta, comments, id) ==> forall i :: 0 <= i < |Removed(comments, at)| ==>
              !HasId(meta, Removed(comments, at)[i], id)
  {
    var a, c, b := comments[..at], [comments[at]], comments[at + 1..];
    assert comments == a + c + b;
    OthersConcat(meta, a + c, b, id);
    OthersConcat(meta, a, c, id);
    OthersConcat(meta, a, b, id);
    assert c[..0] == [];
  }

  lemma AddingOurs(meta: MetaReader, comments: seq<Comment>, new_: Comment, id: string)
    requires HasId(meta, new_, id)
    ensures Others(meta, comments + [new_], id) == Others(meta, comments, id)
    ensures (forall i :: 0 <= i < |comments| ==> !HasId(meta, comments[i], id)) ==>
              AtMostOne(meta, comments + [new_], id)
  {
    OthersConcat(meta, comments, [new_], id);
    assert [new_][..0] == [];
  }

  /**
   A completed write keeps the comment unique exactly when the existing one is within the listed
   page. Otherwise it is not found, stays where it is and gets a twin.
   */
  lemma WriteKeepsUniqueIff(meta: MetaReader, comments: seq<Comment>, page: nat, id: string, new_: Comment)
    requires AtMostOne(meta, comments, id) && HasId(meta, new_, id)
    ensures AtMostOne(meta, Written(meta, comments, page, id, new_), id) <==> AllListed(meta, comments, page, id)
    ensures Others(meta, Written(meta, comments, page, id, new_), id) == Others(meta, comments, id)
  {
    var at := FirstWithId(meta, Listed(comments, page), id);
    AddingOurs(meta, comments, new_, id);
    if at.Some? {
      assert Listed(comments, page)[at.value] == comments[at.value];
      assert AllListed(meta, comments, page, id);
      RemovingOurs(meta, comments, at.value, id);
      AddingOurs(meta, Removed(comments, at.value), new_, id);
    } else if AllListed(meta, comments, page, id) {
      forall i | 0 <= i < |comments| ensures !HasId(meta, comments[i], id) {
        if i < page { assert Listed(comments, page)[i] == comments[i]; }
      }
    } else {
      var i :| page <= i < |comments| && HasId(meta, comments[i], id);
      var after := comments + [new_];
      assert HasId(meta, after[i], id) && HasId(meta, after[|comments|], id);
    }
  }

  /**
   Writing the same comment again changes nothing exactly when the first write left the comment on the
   listed page: it was listed and unchanged, it was listed and replaced on a page that holds all
   comments, or it was added to a page with room.
   */
  lemma WriteIsIdempotentIff(meta: MetaReader, comments: seq<Comment>, page: nat, id: string, new_: Comment,
                             again: Comment)
    requires AtMostOne(meta, comments, id) && HasId(meta, new_, id) && again.body == new_.body
    ensures var at := FirstWithId(meta, Listed(comments, page), id);
            var once := Written(meta, comments, page, id, new_);
            Written(meta, once, page, id, again) == once <==>
            if at.None? then |comments| < page
            else TrimSpace(comments[at.value].body) == TrimSpace(new_.body) || |comments| <= page
  {
    var at := FirstWithId(meta, Listed(comments, page), id);
    if at.Some? && TrimSpace(comments[at.value].body) == TrimSpace(new_.body) {
      assert Listed(comments, page)[at.value] == comments[at.value];
    } else {
      var now := if at.Some? then Removed(comments, at.value) else comments;
      if at.Some? {
        assert Listed(comments, page)[at.value] == comments[at.value];
        RemovingOurs(meta, comments, at.value, id);
      } else {
        forall i | 0 <= i < |comments| && i < page ensures !HasId(meta, comments[i], id) {
          assert Listed(comments, page)[i] == comments[i];
        }
      }
      AppendedIsFoundIff(meta, now, page, id, new_);
      assert Written(meta, comments, page, id, new_) == now + [new_];
    }
  }

  /** A comment added behind others is found again exactly when it landed on the listed page. */
  lemma AppendedIsFoundIff(meta: MetaReader, now: seq<Comment>, page: nat, id: string, new_: Comment)
    requires HasId(meta, new_, id)
    requires forall i :: 0 <= i < |now| && i < page ==> !HasId(meta, now[i], id)
    ensures FirstWithId(meta, Listed(now + [new_], page), id) == if |now| < page then Some(|now|) else None
  {
    var listed := Listed(now + [new_], page);
    forall i | 0 <= i < |listed| && i < |now| ensures listed[i] == now[i] {}
    if |now| < page {
      assert listed[|now|] == new_;
    }
  }

  // ---------------------------------------------------------------------------------------
  // One write, whatever fails

  /** What a write of `c` can do: nothing, drop the listed comment, add `c`, or both in that order. */
  ghost predicate OneWrite(meta: MetaReader, page: nat, before: seq<Comment>, after: seq<Comment>, id: string,
                           c: Comment)
  {
    var at := FirstWithId(meta, Listed(before, page), id);
    || after == before
    || (at.None? && after == before + [c])
    || (at.Some? && at.value < |before| &&
       (after == Removed(before, at.value) || after == Removed(before, at.value) + [c]))
  }

  /**
   A write touches no other comment. If nothing hid beyond the page the comment stays unique, and it
   stays listed where there is room. A comment of another ID stays listed wherever it was.
   */
  lemma OneWriteKeeps(meta: MetaReader, page: nat, before: seq<Comment>, after: seq<Comment>, id: string, c: Comment)
    requires HasId(meta, c, id) && OneWrite(meta, page, before, after, id, c)
    ensures Others(meta, after, id) == Others(meta, before, id) && |after| <= |before| + 1
    ensures AtMostOne(meta, before, id) && AllListed(meta, before, page, id) ==> AtMostOne(meta, after, id)
    ensures |after| <= page ==> AllListed(meta, after, page, id)
    ensures forall other :: other != id ==> (AtMostOne(meta, before, other) <==> AtMostOne(meta, after, other))
    ensures forall other :: other != id && AllListed(meta, before, page, other) ==> AllListed(meta, after, page, other)
  {
    var at := FirstWithId(meta, Listed(before, page), id);
    var now := if at.None? then before else Removed(before, at.value);
    WriteKeepsUnique(meta, before, now, page, id, c);
    forall other | other != id
      ensures AtMostOne(meta, before, other) <==> AtMostOne(meta, after, other)
      ensures AllListed(meta, before, page, other) ==> AllListed(meta, after, page, other)
    {
      SameOthersSameCount(meta, before, after, id, other);
      if AllListed(meta, before, page, other) {
        if at.Some? { RemovedKeepsListed(meta, before, at.value, page, other); }
        AppendedKeepsListed(meta, now, c, page, other);
      }
    }
  }

  lemma RemovedKeepsListed(meta: MetaReader, comments: seq<Comment>, at: nat, page: nat, id: string)
    requires at < |comments| && AllListed(meta, comments, page, id)
    ensures AllListed(meta, Removed(comments, at), page, id)
  {
    forall i | page <= i < |comments| - 1 ensures !HasId(meta, Removed(comments, at)[i], id) {
      assert Removed(comments, at)[i] == comments[if i < at then i else i + 1];
    }
  }

  lemma AppendedKeepsListed(meta: MetaReader, comments: seq<Comment>, c: Comment, page: nat, id: string)
    requires AllListed(meta, comments, page, id) && !HasId(meta, c, id)
    ensures AllListed(meta, comments + [c], page, id)
  {
  }

  lemma RemovedKeepsUnique(meta: MetaReader, comments: seq<Comment>, at: nat, id: string)
    requires at < |comments| && AtMostOne(meta, comments, id)
    ensures AtMostOne(meta, Removed(comments, at), id)
  {
    var after := Removed(comments, at);
    forall i, j | 0 <= i < j < |after| ensures !(HasId(meta, after[i], id) && HasId(meta, after[j], id)) {
      assert after[i] == comments[if i < at then i else i + 1] && after[j] == comments[if j < at then j else j + 1];
    }
  }

  // ---------------------------------------------------------------------------------------
  // Backoff

  /** `util.RateLimiter`: the ticker slows down with every error and recovers with every success. */
  class Backoff {
    const baseRate: int
    var errorCount: nat
    var tickerRate: int

    ghost predicate Valid()
      reads this
    {
      errorCount <= 10 && tickerRate == baseRate * (if errorCount == 0 then 1 else errorCount)
    }

    constructor (baseRate: int)
      ensures Valid() && errorCount == 0 && this.baseRate == baseRate
    {
      this.baseRate, errorCount, tickerRate := baseRate, 0, baseRate;
    }

    method UpdateRate(isError: bool)
      requires Valid()
      modifies this
      ensures Valid()
      ensures errorCount ==
              if isError then (if old(errorCount) < 10 then old(errorCount) + 1 else 10)
              else (if old(errorCount) > 0 then old(errorCount) - 1 else 0)
    {
      var update := false;
      if isError {
        if errorCount < MaxBackoff {
          errorCount := errorCount + 1;
          update := true;
        }
      } else if errorCount > 0 {
        errorCount := errorCount - 1;
        update := true;
      }
      if update {
        var rate := baseRate;
        if errorCount > 0 { rate := baseRate * errorCount; }
        tickerRate := rate;
      }
    }
  }

  // ---------------------------------------------------------------------------------------
  // The worker

  datatype Outcome = Failed | Skipped | Commented

  /** The guards before GitHub is asked. */
  predicate Unwanted(pc: Prepared, repoIncluded: bool) {
    pc.comment == "" || !repoIncluded
  }

  /** "open" in any case. */
  predicate IsOpen(state: string) {
    |state| == 4 && state[0] in {'o', 'O'} && state[1] in {'p', 'P'} && state[2] in {'e', 'E'} && state[3] in {'n', 'N'}
  }

  lemma EqualFoldOpen(state: string)
    ensures EqualFold(state, "open") <==> IsOpen(state)
  {
    assert |"open"| == 4 && "open"[0] == 'o' && "open"[1] == 'p' && "open"[2] == 'e' && "open"[3] == 'n';
    if |state| == 4 {
      forall c: char, d: char | 'a' <= d <= 'z' ensures Lower(c) == Lower(d) <==> c == d || c == d - 'a' + 'A' {}
    }
  }

  /** The guards on the state of the pull request that GitHub reports. */
  predicate Obsolete(pc: Prepared, entry: Option<PrEntry>, dryRunOnly: bool) {
    || entry.None?
    || entry.value.sha == ""
    || (pc.commentType == RiskAnalysis && entry.value.merged)
    || entry.value.sha != pc.sha
    || entry.value.state.None?
    || !IsOpen(entry.value.state.value)
    || dryRunOnly
  }

  /** A pending record whose waiting time, ten minutes more with every failure, has passed. */
  predicate Due(records: map<RecordKey, PendingRecord>, key: RecordKey, now: int) {
    key in records && now - records[key].lastAttempt >= 600_000 * (records[key].failedAttempts + 1)
  }

  function Attempted(records: map<RecordKey, PendingRecord>, key: RecordKey, now: int): map<RecordKey, PendingRecord>
    requires key in records
  {
    records[key := records[key].(lastAttempt := now)]
  }

  /** One failure more; the tenth gives up on the record. */
  function Counted(records: map<RecordKey, PendingRecord>, key: RecordKey): map<RecordKey, PendingRecord>
    requires key in records
  {
    if records[key].failedAttempts > 8 then records - {key}
    else records[key := records[key].(failedAttempts := records[key].failedAttempts + 1)]
  }

  /** Something that happens to the pull request: a delivery to the worker, or what others do. */
  datatype Event =
    | Deliver(pc: Prepared, now: int)
    | Arrives(body: string)
    | Withdrawn(at: nat)
    | Becomes(entry: Option<PrEntry>)

  function IdOf(pc: Prepared): string {
    CreateCommentID(pc.commentType, pc.sha)
  }

  predicate Delivers(e: Event, id: string) {
    e.Deliver? && IdOf(e.pc) == id
  }

  function KeyOf(pc: Prepared): RecordKey {
    RecordKey(pc.sha, pc.commentType)
  }

  /** One of the first `n` events is a delivery for this record after its waiting time. */
  ghost predicate DueBefore(records: map<RecordKey, PendingRecord>, events: seq<Event>, n: nat, key: RecordKey) {
    exists i :: 0 <= i < n <= |events| && DueDelivery(records, events[i], key)
  }

  predicate DueDelivery(records: map<RecordKey, PendingRecord>, e: Event, key: RecordKey) {
    e.Deliver? && KeyOf(e.pc) == key && Due(records, key, e.now)
  }

  /** A comment with this ID is delivered from event `n` on. */
  ghost predicate Pending(events: seq<Event>, n: nat, id: string) {
    exists i :: n <= i < |events| && Delivers(events[i], id)
  }

  /** How many of the first `n` events can leave a comment that is not one of this ID. */
  function Foreign(events: seq<Event>, n: nat, id: string): nat
    requires n <= |events|
  {
    if n == 0 then 0
    else
      var e := events[n - 1];
      Foreign(events, n - 1, id) + if e.Arrives? || (e.Deliver? && IdOf(e.pc) != id) then 1 else 0
  }

  /** At each delivery of the ID that is repeated, what others have written leaves room on the page for it. */
  ghost predicate RoomToRepeat(meta: MetaReader, comments: seq<Comment>, page: nat, events: seq<Event>, id: string) {
    forall i, j :: 0 <= i < j < |events| && Delivers(events[i], id) && Delivers(events[j], id) ==>
      Crowd(meta, comments, id) + Foreign(events, i, id) < page
  }

  /** The ID starts unique and, if it will be delivered, on the listed page with room to repeat. */
  ghost predicate StartsWell(meta: MetaReader, comments: seq<Comment>, page: nat, events: seq<Event>, id: string) {
    && AtMostOne(meta, comments, id)
    && (Pending(events, 0, id) ==> AllListed(meta, comments, page, id))
    && RoomToRepeat(meta, comments, page, events, id)
  }

  /** Commit hashes have no character that is special in the header. */
  predicate PlainEntry(entry: Option<PrEntry>) {
    entry.Some? ==> Plain(entry.value.sha)
  }

  /** The comment was posted for this kind and commit. */
  predicate PostedFor(meta: MetaReader, c: Comment, commentType: int, sha: string) {
    HasId(meta, c, CreateCommentID(commentType, sha))
  }

  /** For the same commit, and both or neither a risk analysis. */
  predicate SameSubject(pc: Prepared, commentType: int, sha: string) {
    pc.sha == sha && (pc.commentType == 0 <==> commentType == 0)
  }

  /** Comments for other commits or of another kind are still there, and so are those without an ID. */
  ghost predicate LeavesOthers(meta: MetaReader, before: seq<Comment>, after: seq<Comment>, pc: Prepared) {
    && (forall c, commentType, sha ::
          c in before && PostedFor(meta, c, commentType, sha) && !SameSubject(pc, commentType, sha) ==> c in after)
    && (forall c :: c in before && meta(c.body).None? ==> c in after)
  }

  lemma AlwaysLeavesOthers(meta: MetaReader, page: nat, before: seq<Comment>, pc: Prepared, c: Comment)
    ensures forall after :: OneWrite(meta, page, before, after, IdOf(pc), c) ==> LeavesOthers(meta, before, after, pc)
  {
    forall after | OneWrite(meta, page, before, after, IdOf(pc), c) ensures LeavesOthers(meta, before, after, pc) {
      forall x | x in before && !HasId(meta, x, IdOf(pc)) ensures x in after {
        OthersStay(meta, page, before, after, IdOf(pc), c, x);
      }
      forall commentType, sha | !SameSubject(pc, commentType, sha)
        ensures CreateCommentID(commentType, sha) != IdOf(pc)
      {
        IdsEqualIff(commentType, sha, pc.commentType, pc.sha);
      }
    }
  }

  lemma OthersStay(meta: MetaReader, page: nat, before: seq<Comment>, after: seq<Comment>, id: string, c: Comment,
                   other: Comment)
    requires OneWrite(meta, page, before, after, id, c) && other in before && !HasId(meta, other, id)
    ensures other in after
  {
    var at := FirstWithId(meta, Listed(before, page), id);
    if at.Some? {
      var k :| 0 <= k < |before| && before[k] == other;
      assert Listed(before, page)[at.value] == before[at.value];
      var rest := Removed(before, at.value);
      assert rest[if k < at.value then k else k - 1] == other;
    }
  }

  class CommentWorker {
    const json: JsonReader
    /** How many comments GitHub lists. */
    const page: nat
    const repoIncluded: bool
    const dryRunOnly: bool
    const limiter: Backoff
    /** The pull request as GitHub knows it. */
    var entry: Option<PrEntry>
    var comments: seq<Comment>
    var records: map<RecordKey, PendingRecord>
    var nextId: int

    /** How the comments are read. */
    function Meta(): MetaReader {
      MetaOf(json)
    }

    constructor (json: JsonReader, page: nat, repoIncluded: bool, dryRunOnly: bool, limiter: Backoff,
                 entry: Option<PrEntry>, comments: seq<Comment>, records: map<RecordKey, PendingRecord>)
      ensures this.json == json && this.page == page && this.repoIncluded == repoIncluded &&
              this.dryRunOnly == dryRunOnly
      ensures this.limiter == limiter && this.entry == entry && this.comments == comments && this.records == records
    {
      this.json, this.page, this.repoIncluded, this.dryRunOnly, this.limiter :=
        json, page, repoIncluded, dryRunOnly, limiter;
      this.entry, this.comments, this.records, nextId := entry, comments, records, 0;
    }

    /** `GetCurrentState`. */
    method GetCurrentState(healthy: bool) returns (ok: bool, state: Option<PrEntry>)
      ensures ok ==> state == entry
      ensures healthy ==> ok
    {
      var answers: bool := *;
      ok, state := healthy || answers, None;
      if ok { state := entry; }
    }

    method FindExistingComment(id: string, healthy: bool) returns (ok: bool, at: Option<nat>)
      ensures at == if ok then FirstWithId(Meta(), Listed(comments, page), id) else None
      ensures healthy ==> ok
    {
      var answers: bool := *;
      ok, at := healthy || answers, None;
      if ok { at := FirstWithId(Meta(), Listed(comments, page), id); }
    }

    method DeleteComment(at: nat, healthy: bool) returns (ok: bool)
      requires at < |comments|
      modifies `comments
      ensures comments == Removed(old(comments), at) || (!ok && comments == old(comments))
      ensures healthy ==> ok
    {
      var applied: bool, answers: bool := *, *;
      if healthy || applied { comments := Removed(comments, at); }
      ok := healthy || (applied && answers);
    }

    method AddComment(body: string, healthy: bool) returns (ok: bool)
      modifies `comments, `nextId
      ensures comments == old(comments) + [Comment(old(nextId), body)] || (!ok && comments == old(comments))
      ensures healthy ==> ok
    {
      var applied: bool, answers: bool := *, *;
      if healthy || applied {
        comments := comments + [Comment(nextId, body)];
        nextId := nextId + 1;
      }
      ok := healthy || (applied && answers);
    }

    /** `writeComment`; `stateRead` tells whether GitHub reported the state of the pull request. */
    method WriteComment(pc: Prepared, healthy: bool) returns (outcome: Outcome, ghost stateRead: bool)
      modifies `comments, `nextId
      ensures outcome.Skipped? <==> Unwanted(pc, repoIncluded) || (stateRead && Obsolete(pc, entry, dryRunOnly))
      ensures !Unwanted(pc, repoIncluded) && !stateRead ==> outcome.Failed?
      ensures outcome.Skipped? || !stateRead ==> comments == old(comments)
      ensures comments != old(comments) ==> entry.Some? && entry.value.sha == pc.sha
      ensures LeavesOthers(Meta(), old(comments), comments, pc)
      ensures healthy ==> !outcome.Failed?
      ensures var id, body := IdOf(pc), GhComment(IdOf(pc), pc.comment);
              && OneWrite(Meta(), page, old(comments), comments, id, Comment(old(nextId), body))
              && (outcome.Commented? ==>
                    Present(comments, body) &&
                    comments == Written(Meta(), old(comments), page, id, Comment(old(nextId), body)))
    {
      stateRead := false;
      hide LeavesOthers;
      AlwaysLeavesOthers(Meta(), page, comments, pc, Comment(nextId, GhComment(IdOf(pc), pc.comment)));
      if pc.comment == "" { return Skipped, stateRead; }
      if !repoIncluded { return Skipped, stateRead; }
      var ok, state := GetCurrentState(healthy);
      if !ok { return Failed, stateRead; }
      stateRead := true;
      if state.None? || state.value.sha == "" { return Skipped, stateRead; }
      if pc.commentType == RiskAnalysis && state.value.merged { return Skipped, stateRead; }
      if state.value.sha != pc.sha { return Skipped, stateRead; }
      if state.value.state.None? { return Skipped, stateRead; }
      EqualFoldOpen(state.value.state.value);
      if !EqualFold(state.value.state.value, "open") { return Skipped, stateRead; }
      var id := CreateCommentID(pc.commentType, pc.sha);
      if dryRunOnly { return Skipped, stateRead; }
      var body := GhComment(id, pc.comment);
      var at;
      ok, at := FindExistingComment(id, healthy);
      if !ok { return Failed, stateRead; }
      if at.Some? {
        assert Listed(comments, page)[at.value] == comments[at.value];
        if TrimSpace(comments[at.value].body) == TrimSpace(body) { return Commented, stateRead; }
        ok := DeleteComment(at.value, healthy);
        if !ok { return Failed, stateRead; }
      }
      ok := AddComment(body, healthy);
      assert ok ==> comments[|comments| - 1].body == body;
      return if ok then Commented else Failed, stateRead;
    }

    /** `ValidateAndUpdatePendingRecordComment`: without an error, ready means due. */
    method ValidateAndUpdatePendingRecord(key: RecordKey, now: int, healthy: bool) returns (ready: bool, ok: bool)
      modifies `records
      ensures ok ==> (ready <==> Due(old(records), key, now))
      ensures ready ==> ok && records == Attempted(old(records), key, now)
      ensures !ready ==>
                records == old(records) ||
                  (!ok && Due(old(records), key, now) && records == Attempted(old(records), key, now))
      ensures healthy ==> ok
    {
      var found: bool, updated: bool, answers: bool := *, *, *;
      if !healthy && !found { return false, false; }
      if key !in records { return false, true; }
      if now - records[key].lastAttempt < AttemptWait * (records[key].failedAttempts + 1) { return false, true; }
      if healthy || updated { records := Attempted(records, key, now); }
      ok := healthy || (updated && answers);
      ready := ok;
    }

    /** `ClearPendingRecord`: failures are only logged. */
    method ClearPendingRecord(key: RecordKey, healthy: bool)
      modifies `records
      ensures records == old(records) || records == old(records) - {key}
      ensures healthy ==> records == old(records) - {key}
    {
      var applied: bool := *;
      if healthy || applied { records := records - {key}; }
    }

    /** `UpdatePendingRecordErrorCount`: an error if the record is gone or its update failed. */
    method UpdatePendingRecordErrorCount(key: RecordKey, healthy: bool) returns (ok: bool)
      modifies `records
      ensures ok ==> key in old(records) && records == Counted(old(records), key)
      ensures records == old(records) || (key in old(records) && records == Counted(old(records), key))
      ensures healthy && key in old(records) ==> ok
    {
      var found: bool, applied: bool, answers: bool := *, *, *;
      if (!healthy && !found) || key !in records { return false; }
      if records[key].failedAttempts > 8 {
        if healthy || applied { records := records - {key}; }
      } else if healthy || applied {
        records := records[key := records[key].(failedAttempts := records[key].failedAttempts + 1)];
      }
      ok := healthy || (applied && answers);
    }

    /**
     One round of `Run`. The error of the write is overwritten by the error of the error-count update,
     so the ticker only slows down when both failed. GitHub and the store may fail independently: with a
     working store every failed write is counted on its record.
     */
    method Process(pc: Prepared, now: int, github: bool, store: bool)
      returns (attempted: bool, outcome: Outcome, ghost stateRead: bool, countRecorded: bool)
      requires limiter.Valid()
      modifies this`comments, this`records, this`nextId, limiter
      ensures limiter.Valid()
      ensures OneWrite(Meta(), page, old(comments), comments, IdOf(pc),
              Comment(old(nextId), GhComment(IdOf(pc), pc.comment)))
      ensures comments != old(comments) ==> entry.Some? && entry.value.sha == pc.sha
      ensures LeavesOthers(Meta(), old(comments), comments, pc)
      ensures var key := KeyOf(pc);
              && (attempted ==> Due(old(records), key, now))
              && (store ==> (attempted <==> Due(old(records), key, now)))
              && (!attempted ==> comments == old(comments) && limiter.errorCount == old(limiter.errorCount))
              && (!attempted ==>
                    records == old(records) ||
                      (Due(old(records), key, now) && records == Attempted(old(records), key, now)))
              && (!attempted && store ==> records == old(records))
      ensures attempted ==>
                && (outcome.Skipped? <==> Unwanted(pc, repoIncluded) || (stateRead && Obsolete(pc, entry, dryRunOnly)))
                && (outcome.Commented? ==> Present(comments, GhComment(IdOf(pc), pc.comment)))
      ensures var key := KeyOf(pc);
              && (forall k :: k != key ==>
                 (k in records <==> k in old(records)) && (k in records ==> records[k] == old(records)[k]))
              && (key in records ==> key in old(records))
              && (key in old(records) && key !in records ==>
                    attempted && (!outcome.Failed? || old(records)[key].failedAttempts > 8))
              && (attempted && outcome.Failed? && countRecorded ==>
                    records == Counted(Attempted(old(records), key, now), key))
              && (key in records ==>
                    records[key].failedAttempts == old(records)[key].failedAttempts ||
                      records[key].failedAttempts == old(records)[key].failedAttempts + 1 <= 9)
      ensures github && attempted ==> !outcome.Failed?
      ensures store && attempted ==>
                var key := KeyOf(pc);
                records ==
                if outcome.Failed? then Counted(Attempted(old(records), key, now), key) else old(records) - {key}
      ensures store && attempted && outcome.Failed? ==> countRecorded
      ensures attempted ==>
                limiter.errorCount ==
                if outcome.Failed? && !countRecorded
                then (if old(limiter.errorCount) < 10 then old(limiter.errorCount) + 1 else 10)
                else (if old(limiter.errorCount) > 0 then old(limiter.errorCount) - 1 else 0)
    {
      var key := KeyOf(pc);
      attempted, outcome, stateRead, countRecorded := false, Failed, false, false;
      var commentReady, ok := ValidateAndUpdatePendingRecord(key, now, store);
      if !ok { return; }
      if !commentReady { return; }
      attempted := true;
      outcome, stateRead := WriteComment(pc, github);
      var err := outcome.Failed?;
      if !err {
        ClearPendingRecord(key, store);
      } else {
        countRecorded := UpdatePendingRecordErrorCount(key, store);
        err := !countRecorded;
      }
      limiter.UpdateRate(err);
    }

    /**
     `Run` over any deliveries, with comments of others coming, any comment being deleted and the pull
     request changing in between: every ID that starts well stays unique. Failures are never forgotten, and a
     record with ten is given up. On a healthy worker a pending record goes exactly when a delivery found it due,
     and is left as it was otherwise.
     */
    method Run(events: seq<Event>, github: bool, store: bool)
      requires ReadsOwnObject(json) && limiter.Valid()
      requires PlainEntry(entry) && forall i :: 0 <= i < |events| && events[i].Becomes? ==> PlainEntry(events[i].entry)
      requires forall i :: 0 <= i < |events| && events[i].Arrives? ==> Meta()(events[i].body).None?
      modifies this`comments, this`records, this`nextId, this`entry, limiter
      ensures limiter.Valid()
      ensures forall id :: old(StartsWell(Meta(), comments, page, events, id)) ==> AtMostOne(Meta(), comments, id)
      ensures forall id ::
                Crowd(Meta(), comments, id) <= Crowd(Meta(), old(comments), id) + Foreign(events, |events|, id)
      ensures |comments| <= |old(comments)| + |events|
      ensures NoneWithdrawn(events, |events|) ==> LeavesUnaddressed(Meta(), old(comments), comments, events)
      ensures records.Keys <= old(records).Keys
      ensures FailuresKept(old(records), records)
      ensures github && store ==> Settled(old(records), records, events, |events|)
    {
      hide OneWrite, AllGoWell, Untouched, NoneWithdrawn, LeavesOthers, Plain, ReadsOwnObject, LeavesUnaddressed,
        StartsWell, Crowd, Foreign, AtMostOne, HasId, FailuresKept;
      NothingFailed(records);
      AllStartWell(Meta(), comments, page, events);
      UntouchedAtStart(Meta(), comments, events);
      for n := 0 to |events|
        invariant limiter.Valid()
        invariant AllGoWell(Meta(), old(comments), comments, page, events, n)
        invariant |comments| <= |old(comments)| + n
        invariant PlainEntry(entry)
        invariant Untouched(Meta(), old(comments), comments, events, n)
        invariant records.Keys <= old(records).Keys
        invariant FailuresKept(old(records), records)
        invariant github && store ==> Settled(old(records), records, events, n)
      {
        ghost var before := comments;
        if github && store && !events[n].Deliver? { QuietSettles(old(records), records, events, n); }
        match events[n] {
          case Deliver(pc, now) =>
            ghost var c := Comment(nextId, GhComment(IdOf(pc), pc.comment));
            ghost var pending := records;
            var _, _, _, _ := Process(pc, now, github, store);
            StillKept(old(records), pending, records);
            if comments != before { OwnCommentHasId(json, pc, c); }
            if github && store { DeliverySettles(old(records), pending, records, events, n); }
            DeliveryStaysUntouched(Meta(), page, old(comments), before, comments, events, n, c);
            DeliveryGoesWell(Meta(), page, old(comments), before, comments, events, n, c);
          case Arrives(body) =>
            comments := comments + [Comment(nextId, body)];
            nextId := nextId + 1;
            StaysUntouched(Meta(), old(comments), before, comments, events, n);
            ArrivalGoesWell(Meta(), page, old(comments), before, events, n, Comment(nextId - 1, body));
          case Withdrawn(at) =>
            if at < |comments| { comments := Removed(comments, at); }
            StaysUntouched(Meta(), old(comments), before, comments, events, n);
            WithdrawalGoesWell(Meta(), page, old(comments), before, events, n, at);
          case Becomes(state) =>
            entry := state;
            StaysUntouched(Meta(), old(comments), before, comments, events, n);
            WithdrawalGoesWell(Meta(), page, old(comments), before, events, n, |comments|);
        }
      }
      AllEndWell(Meta(), old(comments), comments, page, events);
      UntouchedAtEnd(Meta(), old(comments), comments, events);
    }
  }

  /** No record appears, and the failures of those that stay never go down and never beyond nine. */
  ghost predicate FailuresKept(before: map<RecordKey, PendingRecord>, now: map<RecordKey, PendingRecord>) {
    forall key :: key in now ==>
      key in before && before[key].failedAttempts <= now[key].failedAttempts &&
        (now[key].failedAttempts <= 9 || now[key].failedAttempts == before[key].failedAttempts)
  }

  lemma NothingFailed(records: map<RecordKey, PendingRecord>)
    ensures FailuresKept(records, records)
  {
  }

  lemma StillKept(before: map<RecordKey, PendingRecord>, pending: map<RecordKey, PendingRecord>,
                  after: map<RecordKey, PendingRecord>)
    requires FailuresKept(before, pending)
    requires forall key :: key in after ==>
               key in pending &&
                 (after[key].failedAttempts == pending[key].failedAttempts ||
                  after[key].failedAttempts == pending[key].failedAttempts + 1 <= 9)
    ensures FailuresKept(before, after)
  {
  }

  ghost predicate NoneWithdrawn(events: seq<Event>, n: nat)
    requires n <= |events|
  {
    forall i :: 0 <= i < n ==> !events[i].Withdrawn?
  }

  /** Some delivery is for this kind and commit. */
  ghost predicate Addressed(events: seq<Event>, commentType: int, sha: string) {
    exists i :: 0 <= i < |events| && events[i].Deliver? && SameSubject(events[i].pc, commentType, sha)
  }

  /** Comments for kinds and commits that nothing is delivered for are still there, and those without an ID. */
  ghost predicate LeavesUnaddressed(meta: MetaReader, start: seq<Comment>, comments: seq<Comment>,
                                    events: seq<Event>)
  {
    && (forall c, commentType, sha ::
          c in start && PostedFor(meta, c, commentType, sha) && !Addressed(events, commentType, sha) ==> c in comments)
    && (forall c :: c in start && meta(c.body).None? ==> c in comments)
  }

  /** None of the first `n` events delivers the ID of the comment. */
  ghost predicate NotDelivered(meta: MetaReader, c: Comment, events: seq<Event>, n: nat)
    requires n <= |events|
  {
    forall i :: 0 <= i < n && events[i].Deliver? ==> !HasId(meta, c, IdOf(events[i].pc))
  }

  /** Without withdrawals, what was not addressed by the first `n` events is still there. */
  ghost predicate Untouched(meta: MetaReader, start: seq<Comment>, comments: seq<Comment>, events: seq<Event>, n: nat)
    requires n <= |events|
  {
    NoneWithdrawn(events, n) ==> forall c :: c in start && NotDelivered(meta, c, events, n) ==> c in comments
  }

  lemma UntouchedAtStart(meta: MetaReader, start: seq<Comment>, events: seq<Event>)
    ensures Untouched(meta, start, start, events, 0)
  {
  }

  lemma StaysUntouched(meta: MetaReader, start: seq<Comment>, before: seq<Comment>, after: seq<Comment>,
                       events: seq<Event>, n: nat)
    requires n < |events| && Untouched(meta, start, before, events, n)
    requires !events[n].Withdrawn? ==>
               forall c :: c in before && (events[n].Deliver? ==> !HasId(meta, c, IdOf(events[n].pc))) ==> c in after
    ensures Untouched(meta, start, after, events, n + 1)
  {
  }

  lemma DeliveryStaysUntouched(meta: MetaReader, page: nat, start: seq<Comment>, before: seq<Comment>,
                               after: seq<Comment>, events: seq<Event>, n: nat, c: Comment)
    requires n < |events| && events[n].Deliver? && Untouched(meta, start, before, events, n)
    requires OneWrite(meta, page, before, after, IdOf(events[n].pc), c)
    ensures Untouched(meta, start, after, events, n + 1)
  {
    var id := IdOf(events[n].pc);
    forall x | x in before && !HasId(meta, x, id) ensures x in after {
      OthersStay(meta, page, before, after, id, c, x);
    }
    hide OneWrite;
    StaysUntouched(meta, start, before, after, events, n);
  }

  lemma UntouchedAtEnd(meta: MetaReader, start: seq<Comment>, comments: seq<Comment>, events: seq<Event>)
    requires Untouched(meta, start, comments, events, |events|)
    ensures NoneWithdrawn(events, |events|) ==> LeavesUnaddressed(meta, start, comments, events)
  {
    if !NoneWithdrawn(events, |events|) { return; }
    forall c, commentType, sha |
      c in start && PostedFor(meta, c, commentType, sha) && !Addressed(events, commentType, sha)
      ensures c in comments
    {
      forall i | 0 <= i < |events| && events[i].Deliver? ensures !HasId(meta, c, IdOf(events[i].pc)) {
        IdsEqualIff(commentType, sha, events[i].pc.commentType, events[i].pc.sha);
      }
      assert NotDelivered(meta, c, events, |events|);
    }
    forall c | c in start && meta(c.body).None? ensures c in comments {
      assert NotDelivered(meta, c, events, |events|);
    }
  }

  lemma OwnCommentHasId(json: JsonReader, pc: Prepared, c: Comment)
    requires ReadsOwnObject(json) && Plain(pc.sha) && c.body == GhComment(IdOf(pc), pc.comment)
    ensures HasId(MetaOf(json), c, IdOf(pc))
  {
    PlainId(pc.commentType, pc.sha);
    ReadsOwnHeader(json, IdOf(pc), pc.comment);
  }

  /**
   What the first `n` events leave of the records when nothing fails: a record goes exactly when a delivery found
   it due, and is as it was otherwise.
   */
  ghost predicate Settled(before: map<RecordKey, PendingRecord>, now: map<RecordKey, PendingRecord>,
                          events: seq<Event>, n: nat)
  {
    forall key :: key in before ==>
      if DueBefore(before, events, n, key) then key !in now else key in now && now[key] == before[key]
  }

  lemma DeliverySettles(before: map<RecordKey, PendingRecord>, pending: map<RecordKey, PendingRecord>,
                        after: map<RecordKey, PendingRecord>, events: seq<Event>, n: nat)
    requires n < |events| && events[n].Deliver? && pending.Keys <= before.Keys && Settled(before, pending, events, n)
    requires var key := KeyOf(events[n].pc);
             if Due(pending, key, events[n].now) then after.Keys == pending.Keys - {key} else after == pending
    requires forall k :: k in after ==> after[k] == pending[k]
    ensures Settled(before, after, events, n + 1)
  {
    forall key | key in before
      ensures DueBefore(before, events, n + 1, key) <==>
              DueBefore(before, events, n, key) || DueDelivery(before, events[n], key) {}
  }

  lemma QuietSettles(before: map<RecordKey, PendingRecord>, now: map<RecordKey, PendingRecord>, events: seq<Event>,
                     n: nat)
    requires n < |events| && !events[n].Deliver? && Settled(before, now, events, n)
    ensures Settled(before, now, events, n + 1)
  {
    forall key | key in before ensures DueBefore(before, events, n + 1, key) <==> DueBefore(before, events, n, key) {}
  }

  /** The ID is unique, and listed as long as it is still to be delivered. */
  ghost predicate GoesWell(meta: MetaReader, comments: seq<Comment>, page: nat, events: seq<Event>, n: nat,
                           id: string)
  {
    AtMostOne(meta, comments, id) && (Pending(events, n, id) ==> AllListed(meta, comments, page, id))
  }

  /** After `n` events: whatever started well goes well, and others have left at most their share. */
  ghost predicate AllGoWell(meta: MetaReader, start: seq<Comment>, comments: seq<Comment>, page: nat,
                            events: seq<Event>, n: nat)
    requires n <= |events|
  {
    forall id ::
      (StartsWell(meta, start, page, events, id) ==> GoesWell(meta, comments, page, events, n, id)) &&
      Crowd(meta, comments, id) <= Crowd(meta, start, id) + Foreign(events, n, id)
  }

  lemma AllStartWell(meta: MetaReader, start: seq<Comment>, page: nat, events: seq<Event>)
    ensures AllGoWell(meta, start, start, page, events, 0)
  {
  }

  lemma AllEndWell(meta: MetaReader, start: seq<Comment>, comments: seq<Comment>, page: nat, events: seq<Event>)
    requires AllGoWell(meta, start, comments, page, events, |events|)
    ensures forall id :: StartsWell(meta, start, page, events, id) ==> AtMostOne(meta, comments, id)
    ensures forall id :: Crowd(meta, comments, id) <= Crowd(meta, start, id) + Foreign(events, |events|, id)
  {
  }

  lemma DeliveryGoesWell(meta: MetaReader, page: nat, start: seq<Comment>, before: seq<Comment>, after: seq<Comment>,
                         events: seq<Event>, n: nat, c: Comment)
    requires n < |events| && events[n].Deliver?
    requires before == after || HasId(meta, c, IdOf(events[n].pc))
    requires OneWrite(meta, page, before, after, IdOf(events[n].pc), c)
    requires AllGoWell(meta, start, before, page, events, n)
    ensures AllGoWell(meta, start, after, page, events, n + 1) && |after| <= |before| + 1
  {
    var ours := IdOf(events[n].pc);
    assert Delivers(events[n], ours);
    if before == after {
      NothingGoesWell(meta, page, start, before, events, n);
      return;
    }
    OneWriteKeeps(meta, page, before, after, ours, c);
    WriteAddsOne(meta, page, before, after, ours, c);
    hide OneWrite, AtMostOne, AllListed, Others;
    forall id | StartsWell(meta, start, page, events, id) ensures GoesWell(meta, after, page, events, n + 1, id) {
      assert GoesWell(meta, before, page, events, n, id);
      assert Crowd(meta, before, id) <= Crowd(meta, start, id) + Foreign(events, n, id);
      if id == ours {
        OurDeliveryGoesWell(meta, page, start, before, after, events, n);
      } else {
        OtherGoesWell(meta, page, before, after, events, n, id);
      }
    }
  }

  lemma NothingGoesWell(meta: MetaReader, page: nat, start: seq<Comment>, comments: seq<Comment>, events: seq<Event>,
                        n: nat)
    requires n < |events| && AllGoWell(meta, start, comments, page, events, n)
    ensures AllGoWell(meta, start, comments, page, events, n + 1)
  {
    WithdrawalGoesWell(meta, page, start, comments, events, n, |comments|);
  }

  lemma OurDeliveryGoesWell(meta: MetaReader, page: nat, start: seq<Comment>, before: seq<Comment>,
                            after: seq<Comment>, events: seq<Event>, n: nat)
    requires n < |events| && events[n].Deliver?
    requires var id := IdOf(events[n].pc);
             && RoomToRepeat(meta, start, page, events, id) && GoesWell(meta, before, page, events, n, id)
             && (AtMostOne(meta, before, id) && AllListed(meta, before, page, id) ==> AtMostOne(meta, after, id))
             && (|after| <= page ==> AllListed(meta, after, page, id))
             && Crowd(meta, after, id) == Crowd(meta, before, id)
             && Crowd(meta, before, id) <= Crowd(meta, start, id) + Foreign(events, n, id)
    ensures GoesWell(meta, after, page, events, n + 1, IdOf(events[n].pc))
  {
    hide AtMostOne, AllListed, Crowd, Foreign;
    var id := IdOf(events[n].pc);
    assert Delivers(events[n], id) && Pending(events, n, id);
    if Pending(events, n + 1, id) { UniqueFits(meta, after, id); }
  }

  lemma OtherGoesWell(meta: MetaReader, page: nat, before: seq<Comment>, after: seq<Comment>,
                              events: seq<Event>, n: nat, id: string)
    requires n < |events| && GoesWell(meta, before, page, events, n, id)
    requires AtMostOne(meta, before, id) ==> AtMostOne(meta, after, id)
    requires AllListed(meta, before, page, id) ==> AllListed(meta, after, page, id)
    ensures GoesWell(meta, after, page, events, n + 1, id)
  {
    hide AtMostOne, AllListed;
    assert Pending(events, n + 1, id) ==> Pending(events, n, id);
  }

  /** A write adds at most one comment to those that do not have a given ID, and none for its own. */
  lemma WriteAddsOne(meta: MetaReader, page: nat, before: seq<Comment>, after: seq<Comment>, ours: string, c: Comment)
    requires HasId(meta, c, ours) && OneWrite(meta, page, before, after, ours, c)
    ensures forall id :: Crowd(meta, after, id) <= Crowd(meta, before, id) + if id == ours then 0 else 1
  {
    var at := FirstWithId(meta, Listed(before, page), ours);
    var now := if at.None? then before else Removed(before, at.value);
    OneWriteKeeps(meta, page, before, after, ours, c);
    AddedOne(meta, now, c);
    if at.Some? { RemovedAddsNone(meta, before, at.value); }
  }

  lemma AddedOne(meta: MetaReader, comments: seq<Comment>, c: Comment)
    ensures forall id :: Crowd(meta, comments, id) <= Crowd(meta, comments + [c], id) <= Crowd(meta, comments, id) + 1
  {
    assert (comments + [c])[..|comments|] == comments;
  }

  lemma RemovedAddsNone(meta: MetaReader, comments: seq<Comment>, at: nat)
    requires at < |comments|
    ensures forall id :: Crowd(meta, Removed(comments, at), id) <= Crowd(meta, comments, id)
  {
    var a, c, b := comments[..at], [comments[at]], comments[at + 1..];
    assert comments == a + c + b;
    forall id ensures Crowd(meta, Removed(comments, at), id) <= Crowd(meta, comments, id) {
      OthersConcat(meta, a + c, b, id);
      OthersConcat(meta, a, c, id);
      OthersConcat(meta, a, b, id);
    }
  }

  /** The comments are those that do not have the ID and those that do. */
  lemma {:induction false} CrowdAndCount(meta: MetaReader, comments: seq<Comment>, id: string)
    ensures |comments| == Crowd(meta, comments, id) + Count(meta, comments, id)
  {
    if comments != [] { CrowdAndCount(meta, comments[..|comments| - 1], id); }
  }

  /** A unique comment is listed when the others leave room for it. */
  lemma UniqueFits(meta: MetaReader, comments: seq<Comment>, id: string)
    requires AtMostOne(meta, comments, id)
    ensures |comments| <= Crowd(meta, comments, id) + 1
  {
    AtMostOneIsCount(meta, comments, id);
    CrowdAndCount(meta, comments, id);
  }

  lemma ArrivalGoesWell(meta: MetaReader, page: nat, start: seq<Comment>, before: seq<Comment>, events: seq<Event>,
                        n: nat, c: Comment)
    requires n < |events| && events[n].Arrives? && meta(c.body).None?
    requires AllGoWell(meta, start, before, page, events, n)
    ensures AllGoWell(meta, start, before + [c], page, events, n + 1)
  {
    AddedOne(meta, before, c);
    forall id | StartsWell(meta, start, page, events, id)
      ensures GoesWell(meta, before + [c], page, events, n + 1, id)
    {
      assert GoesWell(meta, before, page, events, n, id);
      if AllListed(meta, before, page, id) { AppendedKeepsListed(meta, before, c, page, id); }
      OtherGoesWell(meta, page, before, before + [c], events, n, id);
    }
  }

  /** A withdrawal, of a comment or of none, and a change of state. */
  lemma WithdrawalGoesWell(meta: MetaReader, page: nat, start: seq<Comment>, before: seq<Comment>, events: seq<Event>,
                           n: nat, at: nat)
    requires n < |events| && AllGoWell(meta, start, before, page, events, n)
    ensures AllGoWell(meta, start, if at < |before| then Removed(before, at) else before, page, events, n + 1)
  {
    var after := if at < |before| then Removed(before, at) else before;
    if at < |before| { RemovedAddsNone(meta, before, at); }
    forall id | StartsWell(meta, start, page, events, id) ensures GoesWell(meta, after, page, events, n + 1, id) {
      assert GoesWell(meta, before, page, events, n, id);
      if at < |before| {
        RemovedKeepsUnique(meta, before, at, id);
        if AllListed(meta, before, page, id) { RemovedKeepsListed(meta, before, at, page, id); }
      }
      OtherGoesWell(meta, page, before, after, events, n, id);
    }
  }

  function Count(meta: MetaReader, comments: seq<Comment>, id: string): nat {
    if comments == [] then 0
    else Count(meta, comments[..|comments| - 1], id) + if HasId(meta, comments[|comments| - 1], id) then 1 else 0
  }

  lemma {:induction false} AtMostOneIsCount(meta: MetaReader, comments: seq<Comment>, id: string)
    ensures AtMostOne(meta, comments, id) <==> Count(meta, comments, id) <= 1
    ensures (exists i :: 0 <= i < |comments| && HasId(meta, comments[i], id)) <==> Count(meta, comments, id) > 0
  {
    if comments != [] {
      var init, last := comments[..|comments| - 1], |comments| - 1;
      AtMostOneIsCount(meta, init, id);
      if i :| 0 <= i < |init| && HasId(meta, init[i], id) { assert comments[i] == init[i]; }
      if i :| 0 <= i < |comments| && HasId(meta, comments[i], id) && i < last { assert comments[i] == init[i]; }
      if AtMostOne(meta, init, id) {
        forall i, j | 0 <= i < j < last ensures !(HasId(meta, comments[i], id) && HasId(meta, comments[j], id)) {
          assert comments[i] == init[i] && comments[j] == init[j];
        }
      } else {
        var i, j :| 0 <= i < j < |init| && HasId(meta, init[i], id) && HasId(meta, init[j], id);
        assert comments[i] == init[i] && comments[j] == init[j];
      }
    }
  }

  lemma {:induction false} OthersKeepsCount(meta: MetaReader, comments: seq<Comment>, id: string, other: string)
    requires id != other
    ensures Count(meta, Others(meta, comments, id), other) == Count(meta, comments, other)
  {
    if comments != [] {
      var rest := Others(meta, comments[..|comments| - 1], id);
      OthersKeepsCount(meta, comments[..|comments| - 1], id, other);
      assert (rest + [comments[|comments| - 1]])[..|rest|] == rest;
    }
  }

  lemma SameOthersSameCount(meta: MetaReader, a: seq<Comment>, b: seq<Comment>, id: string, other: string)
    requires id != other && Others(meta, a, id) == Others(meta, b, id)
    ensures AtMostOne(meta, a, other) <==> AtMostOne(meta, b, other)
  {
    AtMostOneIsCount(meta, a, other);
    AtMostOneIsCount(meta, b, other);
    OthersKeepsCount(meta, a, id, other);
    OthersKeepsCount(meta, b, id, other);
  }

  predicate EqualFold(a: string, b: string) {
    |a| == |b| && forall i :: 0 <= i < |a| ==> Lower(a[i]) == Lower(b[i])
  }

  function Lower(c: char): char {
    if 'A' <= c <= 'Z' then c - 'A' + 'a' else c
  }

  /** Adding after an unlisted or removed comment keeps it unique if nothing hid beyond the page. */
  lemma WriteKeepsUnique(meta: MetaReader, start: seq<Comment>, now: seq<Comment>, page: nat, id: string, new_: Comment)
    requires HasId(meta, new_, id)
    requires var at := FirstWithId(meta, Listed(start, page), id);
             now == if at.None? then start else Removed(start, at.value)
    ensures Others(meta, now + [new_], id) == Others(meta, now, id) == Others(meta, start, id)
    ensures AtMostOne(meta, start, id) && AllListed(meta, start, page, id) ==>
              AtMostOne(meta, now, id) && AtMostOne(meta, now + [new_], id)
  {
    var at := FirstWithId(meta, Listed(start, page), id);
    AddingOurs(meta, now, new_, id);
    if at.Some? {
      assert Listed(start, page)[at.value] == start[at.value];
      RemovingOurs(meta, start, at.value, id);
    } else if AllListed(meta, start, page, id) {
      forall i | 0 <= i < |start| ensures !HasId(meta, start[i], id) {
        if i < page { assert Listed(start, page)[i] == start[i]; }
      }
    }
  }
}

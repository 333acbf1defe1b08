/**
 Refreshing materialized views phase by phase with two workers
 (pkg/db/views.go:46-62, pkg/sippyserver/server.go:301-377).
 */
module PhasedRefresh {

  datatype View = View(name: string, phase: int)

  type Groups = seq<seq<View>>

  // ---------------------------------------------------------------------------------------
  // RefreshByPhase

  ghost predicate SortedByPhase(views: seq<View>) {
    forall i, j :: 0 <= i < j < |views| ==> views[i].phase <= views[j].phase
  }

  function Flatten(groups: Groups): seq<View> {
    if groups == [] then [] else Flatten(groups[..|groups| - 1]) + groups[|groups| - 1]
  }

  ghost predicate OnePhase(group: seq<View>) {
    group != [] && forall p :: 0 <= p < |group| ==> group[p].phase == group[0].phase
  }

  /** Non-empty groups of one phase each, the phases strictly increasing. */
  ghost predicate WellGrouped(groups: Groups) {
    groups != [] ==>
      var init, last := groups[..|groups| - 1], groups[|groups| - 1];
      && WellGrouped(init)
      && OnePhase(last)
      && (init != [] ==> OnePhase(init[|init| - 1]) && init[|init| - 1][0].phase < last[0].phase)
  }

  lemma {:induction false} GroupsIncrease(groups: Groups, g: nat, h: nat)
    requires WellGrouped(groups) && g < h < |groups|
    ensures OnePhase(groups[g]) && OnePhase(groups[h]) && groups[g][0].phase < groups[h][0].phase
    decreases |groups|
  {
    var init := groups[..|groups| - 1];
    if h < |init| {
      GroupsIncrease(init, g, h);
    } else if g < |init| - 1 {
      GroupsIncrease(init, g, |init| - 1);
    }
  }

  /** The library sort: some ordering by phase, with no promise about equal phases. */
  method SortByPhase(views: seq<View>) returns (sorted: seq<View>)
    ensures SortedByPhase(sorted) && multiset(sorted) == multiset(views)
  {
    sorted := [];
    for n := 0 to |views|
      invariant SortedByPhase(sorted) && multiset(sorted) == multiset(views[..n])
    {
      hide SortedByPhase;
      var at := PlaceFor(sorted, views[n]);
      InsertAt(sorted, at, views[n]);
      assert views[..n + 1] == views[..n] + [views[n]];
      sorted := sorted[..at] + [views[n]] + sorted[at..];
    }
    assert views[..|views|] == views;
  }

  method PlaceFor(sorted: seq<View>, v: View) returns (at: nat)
    ensures at <= |sorted| && (at < |sorted| ==> v.phase < sorted[at].phase)
    ensures forall i :: 0 <= i < at ==> sorted[i].phase <= v.phase
  {
    at := 0;
    while at < |sorted| && sorted[at].phase <= v.phase
      invariant at <= |sorted|
      invariant forall i :: 0 <= i < at ==> sorted[i].phase <= v.phase
    {
      at := at + 1;
    }
  }

  lemma InsertAt(sorted: seq<View>, at: nat, v: View)
    requires SortedByPhase(sorted) && at <= |sorted|
    requires forall i :: 0 <= i < at ==> sorted[i].phase <= v.phase
    requires at < |sorted| ==> v.phase < sorted[at].phase
    ensures SortedByPhase(sorted[..at] + [v] + sorted[at..])
    ensures multiset(sorted[..at] + [v] + sorted[at..]) == multiset(sorted) + multiset{v}
  {
    assert sorted == sorted[..at] + sorted[at..];
  }

  /** `RefreshByPhase`: the groups in the order they are passed on. */
  method RefreshByPhase(matviews: seq<View>) returns (groups: Groups)
    ensures WellGrouped(groups)
    ensures multiset(Flatten(groups)) == multiset(matviews)
  {
    var sorted := SortByPhase(matviews);
    groups := [];
    var i := 0;
    while i < |sorted|
      invariant 0 <= i <= |sorted|
      invariant Flatten(groups) == sorted[..i]
      invariant WellGrouped(groups)
      invariant i < |sorted| && groups != [] ==>
                OnePhase(groups[|groups| - 1]) && groups[|groups| - 1][0].phase < sorted[i].phase
    {
      var phase := sorted[i].phase;
      var j := i;
      while j < |sorted| && sorted[j].phase == phase
        invariant i <= j <= |sorted|
        invariant forall k :: i <= k < j ==> sorted[k].phase == phase
      {
        j := j + 1;
      }
      assert j > i;
      GroupsGrow(groups, sorted[i..j]);
      assert sorted[..j] == sorted[..i] + sorted[i..j];
      groups := groups + [sorted[i..j]];
      i := j;
    }
    assert sorted[..|sorted|] == sorted;
  }

  lemma GroupsGrow(groups: Groups, group: seq<View>)
    requires WellGrouped(groups) && OnePhase(group)
    requires groups != [] ==> OnePhase(groups[|groups| - 1]) && groups[|groups| - 1][0].phase < group[0].phase
    ensures WellGrouped(groups + [group]) && Flatten(groups + [group]) == Flatten(groups) + group
  {
    assert (groups + [group])[..|groups|] == groups;
  }

  // ---------------------------------------------------------------------------------------
  // The two workers as a transition system

  /** A view by group and position. */
  datatype Job = Job(group: nat, pos: nat)

  datatype Worker = Waiting | Busy(job: Job) | Exited

  /**
   Where the sender stands (`phase`, `next`, whether it closed the channel), what each worker does,
   and the jobs handed out and completed so far.
   */
  datatype State = State(phase: nat, next: nat, closed: bool, workers: seq<Worker>, started: seq<Job>,
                         finished: set<Job>)

  const Fresh := [Waiting, Waiting]

  function Initial(): State {
    State(0, 0, false, Fresh, [], {})
  }

  /** The unbuffered send: it meets a worker that waits on the channel. */
  ghost predicate Send(groups: Groups, s: State, t: State, w: nat) {
    && s.phase < |groups| && !s.closed && s.next < |groups[s.phase]|
    && w < |s.workers| && s.workers[w] == Waiting
    && t == s.(next := s.next + 1, workers := s.workers[w := Busy(Job(s.phase, s.next))],
               started := s.started + [Job(s.phase, s.next)])
  }

  /** A worker completes its refresh, successfully or not, and returns to the channel. */
  ghost predicate Finish(s: State, t: State, w: nat) {
    && w < |s.workers| && s.workers[w].Busy?
    && t == s.(workers := s.workers[w := Waiting], finished := s.finished + {s.workers[w].job})
  }

  ghost predicate Close(groups: Groups, s: State, t: State) {
    && s.phase < |groups| && !s.closed && s.next == |groups[s.phase]|
    && t == s.(closed := true)
  }

  /** The range over the closed channel ends: `wg.Done()`. */
  ghost predicate Exit(s: State, t: State, w: nat) {
    && s.closed && w < |s.workers| && s.workers[w] == Waiting
    && t == s.(workers := s.workers[w := Exited])
  }

  /** `wg.Wait()` returns and the next group starts with two new workers. */
  ghost predicate NextPhase(groups: Groups, s: State, t: State) {
    && s.phase < |groups| && s.closed && s.workers == [Exited, Exited]
    && t == s.(phase := s.phase + 1, next := 0, closed := false, workers := Fresh)
  }

  ghost predicate Step(groups: Groups, s: State, t: State) {
    || (exists w :: Send(groups, s, t, w))
    || (exists w :: Finish(s, t, w))
    || Close(groups, s, t)
    || (exists w :: Exit(s, t, w))
    || NextPhase(groups, s, t)
  }

  /** A run under any interleaving. */
  ghost predicate Run(groups: Groups, run: seq<State>) {
    && run != [] && run[0] == Initial()
    && forall i :: 0 <= i < |run| - 1 ==> Step(groups, run[i], run[i + 1])
  }

  // ---------------------------------------------------------------------------------------
  // What every reachable state satisfies

  /** A job the sender has handed out: it lies before the position (phase, next). */
  ghost predicate HandedOut(groups: Groups, phase: nat, next: nat, j: Job) {
    && j.group < |groups| && j.pos < |groups[j.group]|
    && (j.group < phase || (j.group == phase && j.pos < next))
  }

  ghost predicate BusyWith(s: State, j: Job) {
    exists w :: 0 <= w < |s.workers| && s.workers[w] == Busy(j)
  }

  ghost predicate Before(a: Job, b: Job) {
    a.group < b.group || (a.group == b.group && a.pos < b.pos)
  }

  ghost predicate Inv(groups: Groups, s: State) {
    && s.phase <= |groups|
    && (s.phase == |groups| ==> s.next == 0 && s.workers == Fresh && !s.closed)
    && (s.phase < |groups| ==> s.next <= |groups[s.phase]|)
    && (s.closed ==> s.phase < |groups| && s.next == |groups[s.phase]|)
    && |s.workers| == 2
    && (forall w :: 0 <= w < 2 && s.workers[w] == Exited ==> s.closed)
    && (forall w :: 0 <= w < 2 && s.workers[w].Busy? ==>
       s.workers[w].job.group == s.phase && s.workers[w].job in s.started)
    && (s.workers[0].Busy? ==> s.workers[0] != s.workers[1])
    && (forall j :: j in s.started <==> HandedOut(groups, s.phase, s.next, j))
    && (forall a, b :: 0 <= a < b < |s.started| ==> Before(s.started[a], s.started[b]))
    && (forall j :: j in s.finished <==> j in s.started && !BusyWith(s, j))
  }

  lemma SendKeepsInv(groups: Groups, s: State, t: State, w: nat)
    requires Inv(groups, s) && Send(groups, s, t, w)
    ensures Inv(groups, t)
  {
    var job := Job(s.phase, s.next);
    forall a | 0 <= a < |s.started| ensures Before(s.started[a], job) {
      assert s.started[a] in s.started;
    }
    assert job !in s.started;
    forall j ensures BusyWith(t, j) <==> BusyWith(s, j) || j == job {
      if v :| 0 <= v < 2 && s.workers[v] == Busy(j) { assert t.workers[v] == Busy(j); }
      if j == job { assert t.workers[w] == Busy(j); }
    }
  }

  lemma FinishKeepsInv(groups: Groups, s: State, t: State, w: nat)
    requires Inv(groups, s) && Finish(s, t, w)
    ensures Inv(groups, t)
  {
    var job := s.workers[w].job;
    forall j ensures BusyWith(s, j) <==> BusyWith(t, j) || j == job {
      if v :| 0 <= v < 2 && s.workers[v] == Busy(j) && v != w { assert t.workers[v] == Busy(j); }
      if v :| 0 <= v < 2 && t.workers[v] == Busy(j) { assert s.workers[v] == Busy(j); }
      if j == job { assert s.workers[w] == Busy(j); }
    }
    forall j | j == job ensures !BusyWith(t, j) {}
  }

  lemma QuietStepKeepsInv(groups: Groups, s: State, t: State)
    requires Inv(groups, s)
    requires Close(groups, s, t) || (exists w :: Exit(s, t, w)) || NextPhase(groups, s, t)
    ensures Inv(groups, t)
  {
    forall j ensures BusyWith(t, j) <==> BusyWith(s, j) {
      if v :| 0 <= v < 2 && s.workers[v] == Busy(j) { assert t.workers[v] == Busy(j); }
      if v :| 0 <= v < 2 && t.workers[v] == Busy(j) { assert s.workers[v] == Busy(j); }
    }
    forall j | s.phase < |groups| && s.next == |groups[s.phase]|
      ensures HandedOut(groups, s.phase, s.next, j) <==> HandedOut(groups, s.phase + 1, 0, j) {}
  }

  lemma StepKeepsInv(groups: Groups, s: State, t: State)
    requires Inv(groups, s) && Step(groups, s, t)
    ensures Inv(groups, t)
  {
    if w :| Send(groups, s, t, w) {
      SendKeepsInv(groups, s, t, w);
    } else if w :| Finish(s, t, w) {
      FinishKeepsInv(groups, s, t, w);
    } else {
      QuietStepKeepsInv(groups, s, t);
    }
  }

  lemma {:induction false} ReachableInv(groups: Groups, run: seq<State>, i: nat)
    requires Run(groups, run) && i < |run|
    ensures Inv(groups, run[i])
  {
    if i > 0 {
      ReachableInv(groups, run, i - 1);
      assert Step(groups, run[i - 1], run[i - 1 + 1]);
      StepKeepsInv(groups, run[i - 1], run[i]);
    }
  }

  /** Whenever a view is handed to a worker, every view of every earlier group has been completed. */
  lemma PhaseBarrier(groups: Groups, run: seq<State>, i: nat, w: nat, earlier: Job)
    requires Run(groups, run) && i + 1 < |run| && Send(groups, run[i], run[i + 1], w)
    requires earlier.group < run[i].phase && earlier.pos < |groups[earlier.group]|
    ensures earlier in run[i].finished
    ensures Job(run[i].phase, run[i].next) !in run[i].started
  {
    ReachableInv(groups, run, i);
    var s := run[i];
    assert HandedOut(groups, s.phase, s.next, earlier);
    if v :| 0 <= v < |s.workers| && s.workers[v] == Busy(earlier) {
      assert false;
    }
  }

  function ViewOf(groups: Groups, j: Job): View
    requires j.group < |groups| && j.pos < |groups[j.group]|
  {
    groups[j.group][j.pos]
  }

  /** No view of a later phase is handed out before every view of an earlier phase has been completed. */
  lemma LaterPhaseWaits(groups: Groups, run: seq<State>, i: nat, w: nat, earlier: Job)
    requires WellGrouped(groups) && Run(groups, run) && i + 1 < |run| && Send(groups, run[i], run[i + 1], w)
    requires earlier.group < |groups| && earlier.pos < |groups[earlier.group]|
    requires ViewOf(groups, earlier).phase < ViewOf(groups, Job(run[i].phase, run[i].next)).phase
    ensures earlier in run[i].finished
  {
    var g := run[i].phase;
    GroupIsOnePhase(groups, g);
    GroupIsOnePhase(groups, earlier.group);
    if earlier.group > g {
      GroupsIncrease(groups, g, earlier.group);
    }
    PhaseBarrier(groups, run, i, w, earlier);
  }

  lemma {:induction false} GroupIsOnePhase(groups: Groups, g: nat)
    requires WellGrouped(groups) && g < |groups|
    ensures OnePhase(groups[g])
    decreases |groups|
  {
    if g < |groups| - 1 { GroupIsOnePhase(groups[..|groups| - 1], g); }
  }

  /** The views handed out so far, as the sender's position lists them. */
  function SentViews(groups: Groups, s: State): seq<View>
    requires s.phase < |groups| ==> s.next <= |groups[s.phase]|
  {
    if s.phase < |groups| then Flatten(groups[..s.phase]) + groups[s.phase][..s.next] else Flatten(groups)
  }

  /** The started jobs, as views, in the order they were handed out. */
  ghost predicate StartedAre(groups: Groups, started: seq<Job>, views: seq<View>) {
    && |started| == |views|
    && forall k :: 0 <= k < |started| ==>
         started[k].group < |groups| && started[k].pos < |groups[started[k].group]| &&
           ViewOf(groups, started[k]) == views[k]
  }

  lemma StepSendsInOrder(groups: Groups, s: State, t: State)
    requires Inv(groups, s) && Step(groups, s, t) && Inv(groups, t)
    requires StartedAre(groups, s.started, SentViews(groups, s))
    ensures StartedAre(groups, t.started, SentViews(groups, t))
  {
    if w :| Send(groups, s, t, w) {
      assert groups[s.phase][..t.next] == groups[s.phase][..s.next] + [groups[s.phase][s.next]];
      assert SentViews(groups, t) == SentViews(groups, s) + [ViewOf(groups, Job(s.phase, s.next))];
    } else if NextPhase(groups, s, t) {
      PhaseSent(groups, s, t);
    } else {
      assert SentViews(groups, t) == SentViews(groups, s);
    }
  }

  lemma PhaseSent(groups: Groups, s: State, t: State)
    requires Inv(groups, s) && NextPhase(groups, s, t)
    ensures SentViews(groups, t) == SentViews(groups, s)
  {
    var g := s.phase;
    assert groups[g][..s.next] == groups[g];
    assert groups[..g + 1][..g] == groups[..g];
    if t.phase < |groups| {
      assert groups[t.phase][..0] == [];
    } else {
      assert groups[..g + 1] == groups;
    }
  }

  lemma {:induction false} SentInOrder(groups: Groups, run: seq<State>, i: nat)
    requires Run(groups, run) && i < |run|
    ensures Inv(groups, run[i]) && StartedAre(groups, run[i].started, SentViews(groups, run[i]))
  {
    ReachableInv(groups, run, i);
    if i == 0 {
      assert SentViews(groups, run[0]) == [];
    } else {
      SentInOrder(groups, run, i - 1);
      assert Step(groups, run[i - 1], run[i - 1 + 1]);
      StepSendsInOrder(groups, run[i - 1], run[i]);
    }
  }

  /** Whatever the interleaving, a run that ends has handed out the views of the groups one by one, in order. */
  lemma AllViewsInOrder(groups: Groups, run: seq<State>)
    requires Run(groups, run) && Done(groups, run[|run| - 1])
    ensures StartedAre(groups, run[|run| - 1].started, Flatten(groups))
  {
    SentInOrder(groups, run, |run| - 1);
  }

  ghost predicate Done(groups: Groups, s: State) {
    s.phase == |groups|
  }

  /** A run that ends has started every view exactly once, in order, and completed every view. */
  lemma EachProcessedOnce(groups: Groups, run: seq<State>)
    requires Run(groups, run) && Done(groups, run[|run| - 1])
    ensures var s := run[|run| - 1];
            && (forall j :: j in s.started <==> j.group < |groups| && j.pos < |groups[j.group]|)
            && (forall a, b :: 0 <= a < b < |s.started| ==> s.started[a] != s.started[b])
            && (forall j :: j in s.finished <==> j in s.started)
  {
    ReachableInv(groups, run, |run| - 1);
    var s := run[|run| - 1];
    forall j ensures !BusyWith(s, j) {}
    forall a, b | 0 <= a < b < |s.started| ensures s.started[a] != s.started[b] {
      assert Before(s.started[a], s.started[b]);
    }
  }

  // ---------------------------------------------------------------------------------------
  // Progress

  /** No reachable state is stuck: some step is enabled until the last group is done. */
  lemma NeverStuck(groups: Groups, s: State) returns (t: State)
    requires Inv(groups, s) && !Done(groups, s)
    ensures Step(groups, s, t)
  {
    if s.workers[0].Busy? {
      t := s.(workers := s.workers[0 := Waiting], finished := s.finished + {s.workers[0].job});
      assert Finish(s, t, 0);
    } else if s.workers[1].Busy? {
      t := s.(workers := s.workers[1 := Waiting], finished := s.finished + {s.workers[1].job});
      assert Finish(s, t, 1);
    } else if !s.closed && s.next < |groups[s.phase]| {
      t := s.(next := s.next + 1, workers := s.workers[0 := Busy(Job(s.phase, s.next))],
              started := s.started + [Job(s.phase, s.next)]);
      assert Send(groups, s, t, 0);
    } else if !s.closed {
      t := s.(closed := true);
      assert Close(groups, s, t);
    } else if s.workers[0] == Waiting {
      t := s.(workers := s.workers[0 := Exited]);
      assert Exit(s, t, 0);
    } else if s.workers[1] == Waiting {
      t := s.(workers := s.workers[1 := Exited]);
      assert Exit(s, t, 1);
    } else {
      t := s.(phase := s.phase + 1, next := 0, closed := false, workers := Fresh);
      assert s.workers == [Exited, Exited];
      assert NextPhase(groups, s, t);
    }
  }

  function WorkerCost(w: Worker): nat {
    match w
    case Waiting => 1
    case Busy(_) => 2
    case Exited => 0
  }

  /** Sends and completions, one close, two exits and one hand-over for each group. */
  function PhasesCost(groups: Groups, from: nat): nat
    decreases |groups| - from
  {
    if from >= |groups| then 0 else 2 * |groups[from]| + 4 + PhasesCost(groups, from + 1)
  }

  /** How many steps are left. */
  function Rank(groups: Groups, s: State): int
    requires |s.workers| == 2
  {
    if s.phase >= |groups| then 0
    else
      PhasesCost(groups, s.phase + 1) + 2 * (|groups[s.phase]| - s.next) + (if s.closed then 0 else 1) + 1 +
      WorkerCost(s.workers[0]) + WorkerCost(s.workers[1])
  }

  lemma StepLowersRank(groups: Groups, s: State, t: State)
    requires Inv(groups, s) && Step(groups, s, t)
    ensures Inv(groups, t) && 0 <= Rank(groups, t) == Rank(groups, s) - 1
  {
    StepKeepsInv(groups, s, t);
    if w :| Send(groups, s, t, w) {
      assert w == 0 || w == 1;
    } else if w :| Finish(s, t, w) {
      assert w == 0 || w == 1;
    } else if w :| Exit(s, t, w) {
      assert w == 0 || w == 1;
    }
  }

  /** The end is where no steps are left, and the start where all of them are. */
  lemma RankAtEnds(groups: Groups, s: State)
    requires Inv(groups, s)
    ensures Done(groups, s) <==> Rank(groups, s) == 0
    ensures s == Initial() ==> Rank(groups, s) == PhasesCost(groups, 0)
    ensures Rank(groups, s) >= 0
  {
  }

  /** Every run, however interleaved, is over after the same number of steps. */
  lemma {:induction false} RunsAreFinite(groups: Groups, run: seq<State>)
    requires Run(groups, run)
    ensures Inv(groups, run[|run| - 1])
    ensures |run| - 1 + Rank(groups, run[|run| - 1]) == PhasesCost(groups, 0) && Rank(groups, run[|run| - 1]) >= 0
    ensures |run| - 1 == PhasesCost(groups, 0) <==> Done(groups, run[|run| - 1])
    decreases |run|
  {
    hide Rank, Done, Step, Initial, PhasesCost;
    ReachableInv(groups, run, |run| - 1);
    RankAtEnds(groups, run[|run| - 1]);
    if |run| > 1 {
      var shorter, k := run[..|run| - 1], |run| - 2;
      RunsAreFinite(groups, shorter);
      assert Step(groups, run[k], run[k + 1]);
      StepLowersRank(groups, run[k], run[k + 1]);
    }
  }
}

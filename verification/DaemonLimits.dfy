/** Where the daemon promises less than its comments do: runs that show it, and
    the exact line between the runs that are safe and those that are not. */
module DaemonLimits {
  import opened Wrappers
  import opened Framing
  import opened Daemon
  import opened DaemonSafety

  lemma RunOne(w: World, steps: seq<Step>, s: Step)
    ensures Run(w, steps + [s]) == Do(Run(w, steps), s)
  {
    assert (steps + [s])[..|steps|] == steps;
  }

  lemma RunNone(w: World)
    ensures Run(w, []) == w
  {}

  lemma {:induction false} RunOn(w: World, a: seq<Step>, b: seq<Step>)
    ensures Run(w, a + b) == Run(Run(w, a), b)
    decreases |b|
  {
    if |b| == 0 {
      assert a + b == a;
    } else {
      var init := b[..|b| - 1];
      assert a + b == (a + init) + [b[|b| - 1]] && init + [b[|b| - 1]] == b;
      RunOn(w, a, init);
      RunOne(w, a + init, b[|b| - 1]);
      RunOne(Run(w, a), init, b[|b| - 1]);
    }
  }

  const ASK: Option<Exec> := Some(Exec(0, true))

  function Ticking(now: int, hangup: bool, request: Option<Exec>): Step {
    HostTurn(Tick(now, None, hangup, true, request))
  }

  function Ran(status: string): seq<Step> {
    [GuestMake(1), GuestClaim(1), GuestWrite(1, status), GuestFinish(1)]
  }

  function RanEvents(status: string): seq<Event> {
    [GuestMade(1), GuestClaimed(1), GuestWrote(1, status), GuestFinished(1)]
  }

  /** A guest that is free takes the first request from the queue to its end. */
  lemma GuestRuns(w: World, status: string)
    requires 1 in w.channel.queue && 1 !in w.channel.results && w.channel.busy.None?
    ensures Run(w, Ran(status)) ==
            World(w.job, w.channel.(queue := w.channel.queue - {1}, results := w.channel.results[1 := Answer(Some(status), true, false)]),
                  w.log + RanEvents(status))
  {
    var a, b, c, d := GuestMake(1), GuestClaim(1), GuestWrite(1, status), GuestFinish(1);
    RunNone(w);
    RunOne(w, [], a);
    RunOne(w, [a], b);
    RunOne(w, [a, b], c);
    RunOne(w, [a, b, c], d);
    assert [] + [a] == [a] && [a] + [b] == [a, b] && [a, b] + [c] == [a, b, c] && [a, b, c] + [d] == Ran(status);
    assert w.log + [GuestMade(1)] + [GuestClaimed(1)] + [GuestWrote(1, status)] + [GuestFinished(1)] == w.log + RanEvents(status);
  }

  // ----- a kill that is written before there is a place for it -----

  /** A deadline that passes before the guest has begun to claim the command: the
      command runs to its end, its client is told it was stopped. */
  lemma KillBeforeClaimIsLost()
    ensures var steps := [Ticking(1, false, Some(Exec(1, true))), Ticking(2, false, None)] + Ran("0") + [Ticking(3, false, None)];
            Run(Initial(), steps).log == [Queued(1), KillLost(1)] + RanEvents("0") + [Exited(1, 124, Timeout)]
  {
    var a, b, c := Ticking(1, false, Some(Exec(1, true))), Ticking(2, false, None), Ticking(3, false, None);
    RunNone(Initial());
    RunOne(Initial(), [], a);
    RunOne(Initial(), [a], b);
    assert [] + [a] == [a] && [a] + [b] == [a, b];
    var w := Run(Initial(), [a, b]);
    assert w.log == [Queued(1), KillLost(1)] && w.job.timedOut;
    RunOn(Initial(), [a, b], Ran("0"));
    GuestRuns(w, "0");
    RunOne(Initial(), [a, b] + Ran("0"), c);
  }

  lemma InterruptIsTwo()
    ensures SignalIn("SIGNAL 2") == 2
  {
    assert Decimal(2) == "2" && "2" + "" == "2";
    assert "SIGNAL 2"[7..] == "2";
    StrtolDecimal(2, "");
  }

  /** So is an interrupt that comes that early. */
  lemma SignalBeforeClaimIsLost()
    ensures var interrupt := HostTurn(Tick(2, Some("SIGNAL 2"), false, true, None));
            var steps := [Ticking(1, false, ASK), interrupt] + Ran("0") + [Ticking(3, false, None)];
            Run(Initial(), steps).log == [Queued(1), KillLost(1)] + RanEvents("0") + [Exited(1, 130, Signalled(2))]
  {
    var a, b, c := Ticking(1, false, ASK), HostTurn(Tick(2, Some("SIGNAL 2"), false, true, None)), Ticking(3, false, None);
    InterruptIsTwo();
    RunNone(Initial());
    RunOne(Initial(), [], a);
    RunOne(Initial(), [a], b);
    assert [] + [a] == [a] && [a] + [b] == [a, b];
    var w := Run(Initial(), [a, b]);
    assert w.log == [Queued(1), KillLost(1)] && w.job.signalled && w.job.signalNumber == 2;
    RunOn(Initial(), [a, b], Ran("0"));
    GuestRuns(w, "0");
    RunOne(Initial(), [a, b] + Ran("0"), c);
  }

  // ----- a client that leaves -----

  /** When the client of a running command leaves, the next request starts a
      second command beside it. */
  lemma LeavingAllowsASecondCommand()
    ensures Run(Initial(), [Ticking(1, false, ASK), Ticking(2, true, None), Ticking(3, false, ASK)]).log == [Queued(1), Queued(2)]
  {
    var w := Initial();
    var a, b, c := Ticking(1, false, ASK), Ticking(2, true, None), Ticking(3, false, ASK);
    RunNone(w);
    RunOne(w, [], a);
    RunOne(w, [a], b);
    RunOne(w, [a, b], c);
    assert [] + [a] == [a] && [a] + [b] == [a, b] && [a, b] + [c] == [a, b, c];
  }

  // ----- a status that is not the command's own -----

  lemma SevenIsSeven()
    ensures StatusOf(Some("7")) == 7
  {
    assert Decimal(7) == "7" && "7" + "" == "7";
    StrtolDecimal(7, "");
  }

  /** The world after the first command was given up on, and the guest then ran
      it all the same. */
  function Abandoned(): World {
    World(Job(false, 1, false, false, false, false, 0, 0, false, 1, 0), Channel({}, map[1 := Answer(Some("7"), true, false)], None),
          [Queued(1), Exited(1, 125, GaveUp)] + RanEvents("7"))
  }

  lemma AbandonedIsReached()
    ensures Run(Initial(), [Ticking(1, false, ASK), Ticking(40000, false, None)] + Ran("7")) == Abandoned()
  {
    var a, b := Ticking(1, false, ASK), Ticking(40000, false, None);
    RunNone(Initial());
    RunOne(Initial(), [], a);
    RunOne(Initial(), [a], b);
    assert [] + [a] == [a] && [a] + [b] == [a, b];
    var w := Run(Initial(), [a, b]);
    assert w == World(Job(false, 1, false, false, false, false, 0, 0, false, 1, 0), Channel({1}, map[], None), [Queued(1), Exited(1, 125, GaveUp)]);
    RunOn(Initial(), [a, b], Ran("7"));
    GuestRuns(w, "7");
  }

  /** A request that cannot be queued sets the id back to 0, and the command
      after it is told the abandoned one's status at once: the guest has not
      touched it. */
  lemma RefusalAllowsAStaleStatus()
    ensures var steps := [Ticking(50000, false, Some(Exec(0, false))), Ticking(50001, false, ASK), Ticking(50002, false, None)];
            Run(Abandoned(), steps).log == Abandoned().log + [Refused, Queued(1), Exited(1, 7, Reported(Some("7")))]
  {
    var a, b, c := Ticking(50000, false, Some(Exec(0, false))), Ticking(50001, false, ASK), Ticking(50002, false, None);
    var w := Abandoned();
    SevenIsSeven();
    RunNone(w);
    RunOne(w, [], a);
    RunOne(w, [a], b);
    RunOne(w, [a, b], c);
    assert [] + [a] == [a] && [a] + [b] == [a, b] && [a, b] + [c] == [a, b, c];
    assert Run(w, [a, b]).job.running && IsDone(Run(w, [a, b]));
  }

  // ----- the exact line -----

  /** The status reported at e was written for the command it answers, by a guest
      that claimed that command after it was queued. */
  ghost predicate OwnReport(log: seq<Event>, e: int) {
    0 <= e < |log| && log[e].Exited? && log[e].why.Reported? && log[e].why.status.Some?
    && exists q, c, k :: Answers(log, q, e) && q >= 0 && WrittenByOwn(log, q, e, c, k, log[e].why.status.value)
  }

  predicate Reports(log: seq<Event>, e: int) {
    0 <= e < |log| && log[e].Exited? && log[e].why.Reported?
  }

  ghost predicate OnlyOwn(log: seq<Event>) {
    forall e :: Reports(log, e) ==> OwnReport(log, e)
  }

  /** Nobody asks for anything more, and clients stay. */
  predicate Waits(steps: seq<Step>) {
    forall i :: 0 <= i < |steps| && steps[i].HostTurn? ==> !steps[i].tick.hangup && steps[i].tick.request.None?
  }

  lemma GuardedRunsOnlyOwn(steps: seq<Step>)
    requires GuardedRun(steps)
    ensures OnlyOwn(Run(Initial(), steps).log)
  {
    EveryRunIsSafe(steps);
    var log := Run(Initial(), steps).log;
    forall e | Reports(log, e) ensures OwnReport(log, e) {
      WatchAt(log, e);
      var q := CurrentWasQueued(log[..e]);
      assert log[..e][..e] == log[..e] && log[q] == log[..e][q];
      forall k | q < k < e ensures !log[k].Queued? { assert log[k] == log[..e][k]; }
      assert Answers(log, q, e);
      ReportedIsOwn(log, q, e);
    }
  }

  lemma WaitingIsGuarded(steps: seq<Step>, n: nat, more: seq<Step>)
    requires GuardedRun(steps) && n <= |steps| && Waits(more)
    ensures GuardedRun(steps[..n] + more)
  {
    var all := steps[..n] + more;
    forall i | 0 <= i < |all| ensures Legal(all, i) {
      if i < n {
        assert Legal(steps, i);
        assert all[..i] == steps[..i] && all[i] == steps[i];
      } else {
        assert all[i] == more[i - n];
      }
    }
  }

  /** What is left to happen for the wrong status to be reported: if the guest is
      still at the earlier command, it finishes that. */
  function Stale(w: World, id: int, now: int): seq<Step> {
    if id in w.channel.results && w.channel.results[id].done then [Ticking(now, false, None)]
    else [GuestWrite(id, "0"), GuestFinish(id), Ticking(now, false, None)]
  }

  /** A command queued under a taken id is told another one's status. */
  lemma TakenMisleads(w: World, s: Step)
    requires Watched(w) && Stays(s) && !Guarded(w, s)
    ensures var id := w.job.id + 1; var log := Run(Do(w, s), Stale(w, id, s.tick.now)).log;
            && |log| > |w.log| && log[..|w.log|] == w.log && log[|w.log|] == Queued(id)
            && Reports(log, |log| - 1) && log[|log| - 1].id == id
            && forall i :: |w.log| < i < |log| ==> !log[i].Queued? && !log[i].GuestClaimed?
  {
    var id, t, v := w.job.id + 1, s.tick, Do(w, s);
    assert v == Started(w, t.request.value.timeout, t.now, true);
    if w.channel.results[id].done {
      EndsReported(v, t.now);
      RunNone(v);
      RunOne(v, [], Ticking(t.now, false, None));
      assert [] + [Ticking(t.now, false, None)] == Stale(w, id, t.now);
    } else {
      assert w.channel.busy == Some(id);
      FinishedThenReported(v, t.now);
    }
  }

  lemma FinishedThenReported(v: World, now: int)
    requires v.job.running && v.job.client && !v.job.timedOut && !v.job.signalled && v.job.directory == v.job.id
    requires v.channel.busy == Some(v.job.id) && v.job.id in v.channel.results
    ensures var id := v.job.id; var log := Run(v, [GuestWrite(id, "0"), GuestFinish(id), Ticking(now, false, None)]).log;
            && |log| == |v.log| + 3 && log[..|v.log|] == v.log && Reports(log, |v.log| + 2) && log[|v.log| + 2].id == id
            && log[|v.log|] == GuestWrote(id, "0") && log[|v.log| + 1] == GuestFinished(id)
  {
    var id := v.job.id;
    RunThree(v, GuestWrite(id, "0"), GuestFinish(id), Ticking(now, false, None));
    var f := Completed(Published(v, id, "0"), id);
    assert f.log == v.log + [GuestWrote(id, "0")] + [GuestFinished(id)] && f.job == v.job && IsDone(f);
    EndsReported(f, now);
  }

  lemma RunThree(w: World, a: Step, b: Step, c: Step)
    ensures Run(w, [a, b, c]) == Do(Do(Do(w, a), b), c)
  {
    RunNone(w);
    RunOne(w, [], a);
    RunOne(w, [a], b);
    RunOne(w, [a, b], c);
    assert [] + [a] == [a] && [a] + [b] == [a, b] && [a, b] + [c] == [a, b, c];
  }

  lemma EndsReported(w: World, now: int)
    requires w.job.running && w.job.client && !w.job.timedOut && !w.job.signalled && IsDone(w)
    ensures var log := Do(w, Ticking(now, false, None)).log;
            |log| == |w.log| + 1 && log[..|w.log|] == w.log && Reports(log, |w.log|) && log[|w.log|].id == w.job.id
  {}

  lemma MisleadingIsNotOwn(log: seq<Event>, q: nat)
    requires q < |log| - 1 && log[q].Queued? && Reports(log, |log| - 1) && log[|log| - 1].id == log[q].id
    requires forall i :: q < i < |log| ==> !log[i].Queued? && !log[i].GuestClaimed?
    ensures !OnlyOwn(log)
  {
    var e := |log| - 1;
    assert Reports(log, e);
    assert forall p :: Answers(log, p, e) ==> p == q;
  }

  lemma BreakIsNotOwn(w: World, s: Step)
    requires Watched(w) && Stays(s) && !Guarded(w, s)
    ensures var more := Stale(w, w.job.id + 1, s.tick.now); Waits(more) && !OnlyOwn(Run(Do(w, s), more).log)
  {
    TakenMisleads(w, s);
    MisleadingIsNotOwn(Run(Do(w, s), Stale(w, w.job.id + 1, s.tick.now)).log, |w.log|);
  }

  /** The first step at which the run stops being guarded. */
  lemma {:induction false} FirstBreak(steps: seq<Step>) returns (n: nat)
    requires !GuardedRun(steps)
    ensures n < |steps| && GuardedRun(steps[..n]) && !Legal(steps, n)
    decreases |steps|
  {
    var init := steps[..|steps| - 1];
    if GuardedRun(init) {
      n := |init|;
      if Legal(steps, n) {
        forall i | 0 <= i < |steps| ensures Legal(steps, i) {
          if i < n {
            assert Legal(init, i);
            assert init[..i] == steps[..i] && init[i] == steps[i];
          }
        }
      }
    } else {
      n := FirstBreak(init);
      assert init[..n] == steps[..n] && init[n] == steps[n];
    }
  }

  /** While clients stay, refusals included: nobody can ever be told another
      command's status, at any time or from then on, exactly when no command is
      queued under an id whose directory holds a request claimed before. */
  lemma ReportsAreOwnExactly(steps: seq<Step>)
    requires forall i :: 0 <= i < |steps| ==> Stays(steps[i])
    ensures GuardedRun(steps) <==>
            forall n: nat, more :: n <= |steps| && Waits(more) ==> OnlyOwn(Run(Initial(), steps[..n] + more).log)
  {
    if GuardedRun(steps) {
      forall n: nat, more | n <= |steps| && Waits(more) ensures OnlyOwn(Run(Initial(), steps[..n] + more).log) {
        WaitingIsGuarded(steps, n, more);
        GuardedRunsOnlyOwn(steps[..n] + more);
      }
    } else {
      var n := FirstBreak(steps);
      var more := BreakMisleads(steps, n);
      assert n + 1 <= |steps|;
    }
  }

  lemma BreakMisleads(steps: seq<Step>, n: nat) returns (more: seq<Step>)
    requires n < |steps| && GuardedRun(steps[..n]) && Stays(steps[n]) && !Legal(steps, n)
    ensures Waits(more) && !OnlyOwn(Run(Initial(), steps[..n + 1] + more).log)
  {
    var init, s := steps[..n], steps[n];
    EveryRunIsSafe(init);
    var w := Run(Initial(), init);
    more := Stale(w, w.job.id + 1, s.tick.now);
    BreakIsNotOwn(w, s);
    assert steps[..n + 1] == init + [s];
    RunAfter(init, s, more);
  }

  lemma RunAfter(init: seq<Step>, s: Step, more: seq<Step>)
    ensures Run(Initial(), init + [s] + more) == Run(Do(Run(Initial(), init), s), more)
  {
    RunOn(Initial(), init + [s], more);
    RunOne(Initial(), init, s);
  }
}

/** What a run owes to the time a client asks for, from the steps and the log
    alone: which turn queued the command, when, and with which timeout. */
module DaemonTimes {
  import opened Wrappers
  import opened Framing
  import opened Daemon
  import opened DaemonSafety

  function At(steps: seq<Step>, j: nat): World
    requires j <= |steps|
  {
    Run(Initial(), steps[..j])
  }

  /** Turn i queues a command. */
  predicate QueuesAt(steps: seq<Step>, i: nat, id: int) {
    i < |steps| && steps[i].HostTurn? && At(steps, i + 1).log == At(steps, i).log + [Queued(id)]
  }

  /** The turn comes when the timeout is over; 0 is none. */
  predicate IsPast(timeout: int, since: int, now: int) {
    timeout > 0 && now >= since + timeout
  }

  /** A command just queued, with its clocks as the request sets them. */
  predicate JustQueued(w: World, id: int, timeout: int, now: int) {
    && w.job.running && w.job.id == id && !w.job.timedOut && !w.job.signalled && w.job.queuedAt == now
    && w.job.deadline == (if timeout > 0 then now + timeout else 0)
  }

  lemma NotTheSame(log: seq<Event>, news: seq<Event>, e: Event)
    requires e !in news
    ensures log + news != log + [e]
  {
    assert (log + news)[|log|..] == news && (log + [e])[|log|..] == [e];
    assert e in [e];
  }

  lemma QueuedByRequest(w: World, t: Tick, id: int)
    requires Watched(w) && Stays(HostTurn(t)) && Turn(w, t).log == w.log + [Queued(id)]
    ensures t.request.Some? && t.request.value.queueable && !w.job.running
    ensures JustQueued(Turn(w, t), id, t.request.value.timeout, t.now)
  {
    if w.job.running {
      var news := NoSecondCommandBesideAClient(w, t);
      NotTheSame(w.log, news, Queued(id));
    } else {
      assert (w.log + [Queued(id)])[|w.log|] == Queued(id);
    }
  }

  /** The request turn i accepts, and the world it leaves. */
  lemma RequestAt(steps: seq<Step>, i: nat, id: int)
    requires GuardedRun(steps) && QueuesAt(steps, i, id)
    ensures steps[i].tick.request.Some?
    ensures JustQueued(At(steps, i + 1), id, steps[i].tick.request.value.timeout, steps[i].tick.now)
  {
    RunTo(steps, i);
    QueuedByRequest(At(steps, i), steps[i].tick, id);
  }

  // ----- by when -----

  /** Why a turn has to end a command queued at `since`: the guest has published its
      end; it is 15 seconds past its timeout; the guest has not begun to claim it
      after 30 seconds; or the kernel is gone. */
  predicate HasToEnd(id: int, timeout: int, since: int, c: Channel, t: Tick) {
    || (id in c.results && c.results[id].done)
    || (timeout > 0 && t.now > since + timeout + 15000)
    || (id !in c.results && t.now > since + 30000)
    || !t.supervisorAlive
  }

  /** No client waits for ever: in every run, a turn of the host's loop with a
      reason to end the command leaves its client told, whatever happened before. */
  lemma EveryWaitEnds(steps: seq<Step>, i: nat, id: int, j: nat)
    requires GuardedRun(steps) && QueuesAt(steps, i, id) && i < j < |steps| && steps[j].HostTurn? && steps[i].tick.now >= 0
    ensures steps[i].tick.request.Some?
    ensures HasToEnd(id, steps[i].tick.request.value.timeout, steps[i].tick.now, At(steps, j).channel, steps[j].tick) ==>
              Told(At(steps, j + 1).log, |At(steps, i + 1).log|, id)
  {
    RequestAt(steps, i, id);
    if HasToEnd(id, steps[i].tick.request.value.timeout, steps[i].tick.now, At(steps, j).channel, steps[j].tick) {
      WaitEndsFrom(steps, i + 1, j);
    }
  }

  /** By the first turn at which its timeout is over a command's client has been
      told, or there has been the one attempt to stop it; and the kill file is
      there exactly when the guest had begun to claim the command by then. */
  lemma EveryDeadlineIsKept(steps: seq<Step>, i: nat, id: int, j: nat) returns (a: nat)
    requires GuardedRun(steps) && QueuesAt(steps, i, id) && i < j < |steps| && steps[j].HostTurn? && steps[i].tick.now >= 0
    ensures steps[i].tick.request.Some?
    ensures IsPast(steps[i].tick.request.value.timeout, steps[i].tick.now, steps[j].tick.now) ==>
              var v := At(steps, j + 1);
              || Told(v.log, |At(steps, i + 1).log|, id)
              || (AskedAt(v.log, id, a)
                  && (v.log[a] == Killed(id) <==> HasDirectory(v.log[..a], id))
                  && (id in v.channel.results && v.channel.results[id].kill <==> HasDirectory(v.log[..a], id)))
  {
    RequestAt(steps, i, id);
    a := 0;
    if IsPast(steps[i].tick.request.value.timeout, steps[i].tick.now, steps[j].tick.now) {
      a := DeadlineKeptFrom(steps, i + 1, j);
    }
  }

  // ----- and not before -----

  /** Some turn after i and before k comes when the timeout is over. */
  ghost predicate LateTurn(steps: seq<Step>, i: nat, k: nat, timeout: int, since: int) {
    exists j :: i < j < k <= |steps| && steps[j].HostTurn? && IsPast(timeout, since, steps[j].tick.now)
  }

  /** Some turn after i and before k brings this signal. */
  ghost predicate SignalTurn(steps: seq<Step>, i: nat, k: nat, n: int) {
    exists j :: i < j < k <= |steps| && steps[j].HostTurn? && Signals(steps[j].tick, n)
  }

  predicate Signals(t: Tick, n: int) {
    t.line.Some? && 0 < n < 128 && SignalIn(t.line.value) == n
  }

  predicate IsPastDeadline(j: Job, t: Tick) {
    j.deadline > 0 && t.now >= j.deadline
  }

  /** How the marks of the running command change in a turn, and which events that
      makes possible. */
  ghost predicate MarksHaveReason(v: World, t: Tick, after: Job, news: seq<Event>) {
    && (after.timedOut ==> v.job.timedOut || IsPastDeadline(v.job, t))
    && (after.signalled ==> (v.job.signalled && after.signalNumber == v.job.signalNumber) || Signals(t, after.signalNumber))
    && (forall e :: e in news && (e.Killed? || e.KillLost?) ==> IsPastDeadline(v.job, t) || exists n :: Signals(t, n))
    && (forall e :: e in news && e.Exited? && e.why.Timeout? ==> v.job.timedOut || IsPastDeadline(v.job, t))
    && (forall e :: e in news && e.Exited? && e.why.Signalled? ==>
          (v.job.signalled && e.why.number == v.job.signalNumber) || Signals(t, e.why.number))
  }

  lemma HeardReason(v: World, t: Tick) returns (news: seq<Event>)
    requires v.job.running && v.job.client && Stays(HostTurn(t))
    ensures var a := Attended(v, t);
            && a.log == v.log + news && a.job.running && a.job.client && a.job.deadline == v.job.deadline && a.job.id == v.job.id
            && a.job.timedOut == v.job.timedOut && MarksHaveReason(v, t, a.job, news)
  {
    news := if Attended(v, t).log == v.log then [] else [KillNews(v)];
    if t.line.Some? && SignalIn(t.line.value) > 0 {
      assert Signals(t, SignalIn(t.line.value));
    }
  }

  /** A kill that the passed deadline brings, or none. */
  lemma LateReason(c: World, now: int)
    requires c.job.running && !IsDone(c)
    ensures var k := KillIfLate(c, now);
            && k.log == c.log + LateNews(c, now) && k.job.client == c.job.client && k.job.id == c.job.id && k.job.deadline == c.job.deadline
            && k.job.signalled == c.job.signalled && k.job.signalNumber == c.job.signalNumber && k.job.running
            && (k.job.timedOut ==> c.job.timedOut || (c.job.deadline > 0 && now >= c.job.deadline))
  {}

  lemma EndReason(v: World, status: int, why: Why) returns (news: seq<Event>)
    requires v.job.running && v.job.client && !why.Timeout? && !why.Signalled?
    ensures var p := Ended(v, status, why);
            && p.log == v.log + news && !p.job.running && !p.job.timedOut && !p.job.signalled
            && (forall e :: e in news ==> e.Exited?)
            && (forall e :: e in news && e.why.Timeout? ==> v.job.timedOut)
            && (forall e :: e in news && e.why.Signalled? ==> v.job.signalled && e.why.number == v.job.signalNumber)
  {
    news := EndNews(v, status, why);
  }

  lemma PolledReason(v: World, t: Tick) returns (news: seq<Event>)
    requires v.job.running && v.job.client
    ensures var p := Polled(v, t.now, t.supervisorAlive);
            && p.log == v.log + news
            && (p.job.running ==> p.job.id == v.job.id && p.job.deadline == v.job.deadline)
            && (p.job.timedOut ==> v.job.timedOut || IsPastDeadline(v.job, t))
            && (p.job.signalled ==> v.job.signalled && p.job.signalNumber == v.job.signalNumber)
            && (forall e :: e in news && (e.Killed? || e.KillLost?) ==> IsPastDeadline(v.job, t))
            && (forall e :: e in news && e.Exited? && e.why.Timeout? ==> v.job.timedOut || IsPastDeadline(v.job, t))
            && (forall e :: e in news && e.Exited? && e.why.Signalled? ==> v.job.signalled && e.why.number == v.job.signalNumber)
  {
    var c := Claimed(v);
    if IsDone(c) {
      var text := c.channel.results[c.job.directory].status;
      news := EndReason(c, StatusOf(text), Reported(text));
    } else {
      var k := KillIfLate(c, t.now);
      var kill := LateNews(c, t.now);
      LateReason(c, t.now);
      news := kill;
      if Hopeless(k.job, t.now) || !t.supervisorAlive {
        var end := EndReason(k, 125, GaveUp);
        news := kill + end;
        assert v.log + kill + end == v.log + news;
        assert forall e :: e in news <==> e in kill || e in end;
      }
    }
  }

  lemma TurnHasReason(v: World, t: Tick) returns (news: seq<Event>)
    requires v.job.running && v.job.client && Stays(HostTurn(t))
    ensures Turn(v, t).log == v.log + news && MarksHaveReason(v, t, Turn(v, t).job, news)
  {
    var a := Attended(v, t);
    var heard := HeardReason(v, t);
    var polled := PolledReason(a, t);
    news := heard + polled;
    assert (v.log + heard) + polled == v.log + news;
    assert Turn(v, t) == Polled(a, t.now, t.supervisorAlive);
  }

  /** While nothing else has been queued, what runs is the command of turn i, with
      its clocks, or nothing. */
  lemma StillOn(steps: seq<Step>, i: nat, id: int, k: nat)
    requires GuardedRun(steps) && QueuesAt(steps, i, id) && i < k <= |steps|
    requires NoneQueued(At(steps, k).log, |At(steps, i).log|, |At(steps, k).log|)
    ensures Watched(At(steps, k)) && At(steps, i + 1).log <= At(steps, k).log
    ensures At(steps, k).job.running ==> SameJob(At(steps, i + 1).job, At(steps, k).job)
  {
    RequestAt(steps, i, id);
    GoesOnOrTold(steps, i + 1, k);
    GuardedPrefix(steps, k);
    EveryRunIsSafe(steps[..k]);
    var q, w, v := |At(steps, i).log|, At(steps, i + 1), At(steps, k);
    assert v.log[q] == w.log[q] == Queued(id);
    if v.job.running {
      LastQueuedIsOn(v.log, q);
      OnOrAnswered(v.log, q, |v.log|);
      if Told(v.log, |w.log|, id) {
        var e :| |w.log| <= e < |v.log| && v.log[e].Exited? && v.log[e].id == id;
        assert Answers(v.log, q, e);
      }
    }
  }

  /** The marks of the command turn i queued have their reasons in the turns since. */
  ghost predicate MarksExplained(steps: seq<Step>, i: nat, k: nat, timeout: int, since: int, j: Job) {
    && (j.timedOut ==> LateTurn(steps, i, k, timeout, since))
    && (j.signalled ==> SignalTurn(steps, i, k, j.signalNumber))
  }

  lemma ExplainedStep(steps: seq<Step>, i: nat, k: nat, timeout: int, since: int, v: World, news: seq<Event>)
    requires i < k < |steps| && steps[k].HostTurn? && MarksExplained(steps, i, k, timeout, since, v.job)
    requires v.job.deadline == (if timeout > 0 then since + timeout else 0)
    requires MarksHaveReason(v, steps[k].tick, Turn(v, steps[k].tick).job, news)
    ensures MarksExplained(steps, i, k + 1, timeout, since, Turn(v, steps[k].tick).job)
    ensures forall e :: e in news && (e.Killed? || e.KillLost?) ==>
              IsPast(timeout, since, steps[k].tick.now) || exists n :: Signals(steps[k].tick, n)
    ensures forall e :: e in news && e.Exited? && e.why.Timeout? ==> LateTurn(steps, i, k + 1, timeout, since)
    ensures forall e :: e in news && e.Exited? && e.why.Signalled? ==> SignalTurn(steps, i, k + 1, e.why.number)
  {
    if LateTurn(steps, i, k, timeout, since) {
      var j :| i < j < k <= |steps| && steps[j].HostTurn? && IsPast(timeout, since, steps[j].tick.now);
      assert i < j < k + 1 <= |steps|;
    }
    forall n | SignalTurn(steps, i, k, n) ensures SignalTurn(steps, i, k + 1, n) {
      var j :| i < j < k <= |steps| && steps[j].HostTurn? && Signals(steps[j].tick, n);
      assert i < j < k + 1 <= |steps|;
    }
    assert i < k < k + 1 <= |steps|;
  }

  lemma MarksAtStart(steps: seq<Step>, i: nat, id: int, timeout: int, since: int)
    requires GuardedRun(steps) && QueuesAt(steps, i, id)
    ensures MarksExplained(steps, i, i + 1, timeout, since, At(steps, i + 1).job)
  {
    RequestAt(steps, i, id);
  }

  lemma {:induction false} MarksAreExplained(steps: seq<Step>, i: nat, id: int, k: nat, timeout: int, since: int)
    requires GuardedRun(steps) && QueuesAt(steps, i, id) && i < k <= |steps|
    requires steps[i].tick.request.Some? && timeout == steps[i].tick.request.value.timeout && since == steps[i].tick.now
    requires NoneQueued(At(steps, k).log, |At(steps, i).log|, |At(steps, k).log|) && At(steps, k).job.running
    ensures MarksExplained(steps, i, k, timeout, since, At(steps, k).job)
    decreases k
  {
    if k == i + 1 {
      MarksAtStart(steps, i, id, timeout, since);
    } else {
      WasStillOn(steps, i, id, k - 1);
      MarksAreExplained(steps, i, id, k - 1, timeout, since);
      MarksStep(steps, i, id, k - 1, timeout, since);
    }
  }

  /** If it is on after the step, it was before. */
  lemma WasStillOn(steps: seq<Step>, i: nat, id: int, k: nat)
    requires GuardedRun(steps) && QueuesAt(steps, i, id) && i < k < |steps|
    requires NoneQueued(At(steps, k + 1).log, |At(steps, i).log|, |At(steps, k + 1).log|)
    ensures At(steps, k).log <= At(steps, k + 1).log && At(steps, i + 1).log <= At(steps, k).log
    ensures NoneQueued(At(steps, k).log, |At(steps, i).log|, |At(steps, k).log|)
    ensures At(steps, k + 1).job.running ==> At(steps, k).job.running
  {
    RequestAt(steps, i, id);
    RunTo(steps, k);
    GoesOnOrTold(steps, i + 1, k);
    LogGrows(At(steps, k), steps[k]);
    var v, v' := At(steps, k), At(steps, k + 1);
    assert forall e :: 0 <= e < |v.log| ==> v.log[e] == v'.log[e];
    if v'.job.running && !v.job.running { IdleStays(v, steps[k], |At(steps, i).log|); }
  }

  /** Nothing starts to run without being queued. */
  lemma IdleStays(v: World, s: Step, q: nat)
    requires Watched(v) && !v.job.running && Stays(s) && q < |v.log|
    requires NoneQueued(Do(v, s).log, q, |Do(v, s).log|)
    ensures !Do(v, s).job.running
    ensures v.log <= Do(v, s).log && forall e :: |v.log| <= e < |Do(v, s).log| ==>
              !Do(v, s).log[e].Killed? && !Do(v, s).log[e].KillLost? && !Do(v, s).log[e].Exited?
  {
    IdleNews(v, s);
  }

  lemma IdleNews(v: World, s: Step)
    requires !v.job.running
    ensures Do(v, s).job.running ==> |Do(v, s).log| == |v.log| + 1 && Do(v, s).log[|v.log|].Queued?
  {}

  lemma MarksStep(steps: seq<Step>, i: nat, id: int, k: nat, timeout: int, since: int)
    requires GuardedRun(steps) && QueuesAt(steps, i, id) && i < k < |steps| && At(steps, k).job.running
    requires steps[i].tick.request.Some? && timeout == steps[i].tick.request.value.timeout && since == steps[i].tick.now
    requires NoneQueued(At(steps, k).log, |At(steps, i).log|, |At(steps, k).log|)
    requires MarksExplained(steps, i, k, timeout, since, At(steps, k).job)
    ensures MarksExplained(steps, i, k + 1, timeout, since, At(steps, k + 1).job)
    ensures Explained(steps, i, k, timeout, since)
  {
    RequestAt(steps, i, id);
    StillOn(steps, i, id, k);
    RunTo(steps, k);
    var v := At(steps, k);
    if steps[k].HostTurn? {
      var news := TurnHasReason(v, steps[k].tick);
      ExplainedStep(steps, i, k, timeout, since, v, news);
      NewsAreBehind(v.log, news);
    } else {
      GuestExplains(steps, i, k, timeout, since);
    }
  }

  lemma NewsAreBehind<T>(log: seq<T>, news: seq<T>)
    ensures forall e :: |log| <= e < |log + news| ==> (log + news)[e] in news
  {}

  /** The events of step k: the command is stopped only with a reason in that very
      turn, and its client is told of a timeout or a signal only with a reason by
      then. */
  ghost predicate Explained(steps: seq<Step>, i: nat, k: nat, timeout: int, since: int)
    requires k < |steps|
  {
    var v, v' := At(steps, k).log, At(steps, k + 1).log;
    && |v| <= |v'|
    && (forall e :: |v| <= e < |v'| && (v'[e].Killed? || v'[e].KillLost?) ==>
          steps[k].HostTurn? && (IsPast(timeout, since, steps[k].tick.now) || exists n :: Signals(steps[k].tick, n)))
    && (forall e :: |v| <= e < |v'| && v'[e].Exited? && v'[e].why.Timeout? ==> LateTurn(steps, i, k + 1, timeout, since))
    && (forall e :: |v| <= e < |v'| && v'[e].Exited? && v'[e].why.Signalled? ==> SignalTurn(steps, i, k + 1, v'[e].why.number))
  }

  lemma GuestNews(v: World, s: Step)
    requires !s.HostTurn?
    ensures Do(v, s).job == v.job && v.log <= Do(v, s).log
    ensures forall e :: |v.log| <= e < |Do(v, s).log| ==>
              !Do(v, s).log[e].Killed? && !Do(v, s).log[e].KillLost? && !Do(v, s).log[e].Exited?
  {}

  lemma GuestExplains(steps: seq<Step>, i: nat, k: nat, timeout: int, since: int)
    requires GuardedRun(steps) && i < k < |steps| && !steps[k].HostTurn?
    requires MarksExplained(steps, i, k, timeout, since, At(steps, k).job)
    ensures MarksExplained(steps, i, k + 1, timeout, since, At(steps, k + 1).job)
    ensures Explained(steps, i, k, timeout, since)
  {
    RunTo(steps, k);
    GuestNews(At(steps, k), steps[k]);
    if LateTurn(steps, i, k, timeout, since) {
      var j :| i < j < k <= |steps| && steps[j].HostTurn? && IsPast(timeout, since, steps[j].tick.now);
      assert i < j < k + 1 <= |steps|;
    }
    forall n | SignalTurn(steps, i, k, n) ensures SignalTurn(steps, i, k + 1, n) {
      var j :| i < j < k <= |steps| && steps[j].HostTurn? && Signals(steps[j].tick, n);
      assert i < j < k + 1 <= |steps|;
    }
  }

  /** Until another command is queued: in every run a command is stopped only in a
      turn that comes when the timeout its client asked for is over, or brings a
      signal; without a timeout only by a signal.  And its client is told of a
      timeout or of a signal only after such a turn. */
  lemma StopHasReason(steps: seq<Step>, i: nat, id: int, k: nat)
    requires GuardedRun(steps) && QueuesAt(steps, i, id) && i < k < |steps|
    requires NoneQueued(At(steps, k + 1).log, |At(steps, i).log|, |At(steps, k + 1).log|)
    ensures steps[i].tick.request.Some?
    ensures Explained(steps, i, k, steps[i].tick.request.value.timeout, steps[i].tick.now)
  {
    RequestAt(steps, i, id);
    WasStillOn(steps, i, id, k);
    if At(steps, k).job.running {
      MarksAreExplained(steps, i, id, k, steps[i].tick.request.value.timeout, steps[i].tick.now);
      MarksStep(steps, i, id, k, steps[i].tick.request.value.timeout, steps[i].tick.now);
    } else {
      RunTo(steps, k);
      IdleStays(At(steps, k), steps[k], |At(steps, i).log|);
    }
  }

  // ----- what is read from files and clients -----

  /** A status file is read as the number in it, if it is one up to 255; anything
      else is 125. */
  lemma StatusReads(n: nat)
    requires n <= LONG_MAX
    ensures StatusOf(Some(Decimal(n))) == if n <= 255 then n else 125
    ensures StatusOf(None) == 125 && StatusOf(Some("")) == 125
  {
    StrtolDecimal(n, "");
    assert Decimal(n) + "" == Decimal(n);
  }

  /** A client's line asks for a signal exactly when it names one from 1 to 127. */
  lemma SignalReads(n: nat)
    requires n <= LONG_MAX
    ensures SignalIn("SIGNAL " + Decimal(n)) == if 0 < n < 128 then n else 0
    ensures forall line: string :: !("SIGNAL " <= line) ==> SignalIn(line) == 0
  {
    var line := "SIGNAL " + Decimal(n);
    StrtolDecimal(n, "");
    assert Decimal(n) + "" == Decimal(n);
    assert line[7..] == Decimal(n);
  }

  // ----- ends have a reason -----

  /** Until another command is queued: a command's client is told in a turn exactly
      when something makes the turn end it. */
  lemma EndHasReason(steps: seq<Step>, i: nat, id: int, k: nat)
    requires GuardedRun(steps) && QueuesAt(steps, i, id) && i < k < |steps| && steps[k].HostTurn? && At(steps, k).job.running
    requires NoneQueued(At(steps, k + 1).log, |At(steps, i).log|, |At(steps, k + 1).log|) && steps[i].tick.now >= 0
    ensures steps[i].tick.request.Some?
    ensures !At(steps, k + 1).job.running <==>
            HasToEnd(id, steps[i].tick.request.value.timeout, steps[i].tick.now, At(steps, k).channel, steps[k].tick)
    ensures Told(At(steps, k + 1).log, |At(steps, k).log|, id) <==> !At(steps, k + 1).job.running
  {
    RequestAt(steps, i, id);
    WasStillOn(steps, i, id, k);
    StillOn(steps, i, id, k);
    RunTo(steps, k);
    TurnEnds(At(steps, k), steps[k].tick, id, steps[i].tick.request.value.timeout, steps[i].tick.now);
  }

  lemma TurnEnds(v: World, t: Tick, id: int, timeout: int, since: int)
    requires Watched(v) && v.job.running && v.job.id == id && Stays(HostTurn(t)) && since >= 0
    requires v.job.queuedAt == since && v.job.deadline == (if timeout > 0 then since + timeout else 0)
    ensures !Turn(v, t).job.running <==> HasToEnd(id, timeout, since, v.channel, t)
    ensures Told(Turn(v, t).log, |v.log|, id) <==> !Turn(v, t).job.running
  {
    var a := Attended(v, t);
    PollTells(a, t.now, t.supervisorAlive, |v.log|);
    assert Turn(v, t) == Polled(a, t.now, t.supervisorAlive);
    assert MustEnd(a, t.now, t.supervisorAlive) <==> HasToEnd(id, timeout, since, v.channel, t);
    if Turn(v, t).job.running {
      var heard := HeardReason(v, t);
      var end := PollNews(a, t.now, t.supervisorAlive);
      assert Turn(v, t).log == v.log + heard + LateNews(a, t.now) + end;
    }
  }

  /** The loop ends under a running command exactly when the kernel is gone and the
      command would otherwise go on. */
  lemma LoopEndsExactly(w: World, t: Tick)
    ensures Breaks(w, t) <==>
            && w.job.running && !t.supervisorAlive
            && !(w.job.directory in w.channel.results && w.channel.results[w.job.directory].done)
            && !(w.job.deadline > 0 && t.now > w.job.deadline + 15000)
            && (t.now > w.job.queuedAt + 30000 ==> w.job.claimed || w.job.directory in w.channel.results)
  {}
}

/** What every run of the daemon keeps, stated as a monitor that watches the
    events and knows nothing of the daemon's state. */
module DaemonSafety {
  import opened Wrappers
  import opened Framing
  import opened Daemon

  /** The command a client waits for; whether the daemon has decided to stop it
      (asked) and whether that got through (told); the last id given out; the
      directories there are; and what the guest has done with this very command:
      claimed it (own), written its status, finished it. */
  datatype Monitor = Monitor(current: Option<int>, asked: bool, told: bool, last: int, dirs: set<int>,
    own: bool, written: Option<string>, finished: bool)

  function Fresh(): Monitor {
    Monitor(None, false, false, 0, {}, false, None, false)
  }

  /** A client may be told: 124 or 128 plus its signal, when its command was to be
      stopped; else the status that was published for this command; else 125. */
  predicate MayTell(m: Monitor, code: int, why: Why) {
    && 0 <= code <= 255
    && match why
       case Timeout => m.asked && code == 124
       case Signalled(n) => m.asked && 0 < n < 128 && code == 128 + n
       case Reported(text) => !m.asked && m.finished && text.Some? && text == m.written && code == StatusOf(text)
       case GaveUp => !m.asked && !m.finished && code == 125
  }

  /** What may happen next, and what is known then.  A kill gets through exactly
      when the command's directory is there; and nobody but who claimed a command
      after it was queued writes under its id. */
  function Observe(m: Monitor, e: Event): Option<Monitor> {
    match e
    case Queued(id) =>
      if m.current.None? && id == m.last + 1 then Some(Monitor(Some(id), false, false, id, m.dirs, false, None, false)) else None
    case Refused => if m.current.None? then Some(m.(last := 0)) else None
    case Killed(id) => if m.current == Some(id) && !m.asked && id in m.dirs then Some(m.(asked := true, told := true)) else None
    case KillLost(id) => if m.current == Some(id) && !m.asked && id !in m.dirs then Some(m.(asked := true)) else None
    case Exited(id, code, why) =>
      if m.current == Some(id) && MayTell(m, code, why) then Some(m.(current := None, dirs := m.dirs - {id})) else None
    case Unheard(_) => None
    case GuestMade(id) => if id !in m.dirs then Some(m.(dirs := m.dirs + {id})) else None
    case GuestClaimed(id) =>
      if id !in m.dirs || (m.current == Some(id) && m.own) then None
      else Some(if m.current == Some(id) then m.(own := true) else m)
    case GuestWrote(id, text) =>
      if m.current != Some(id) then Some(m) else if m.own && !m.finished then Some(m.(written := Some(text))) else None
    case GuestFinished(id) =>
      if m.current != Some(id) then Some(m)
      else if m.own && m.written.Some? && !m.finished then Some(m.(finished := true))
      else None
  }

  function Watch(log: seq<Event>): Option<Monitor> {
    if |log| == 0 then Some(Fresh())
    else
      match Watch(log[..|log| - 1])
      case None => None
      case Some(m) => Observe(m, log[|log| - 1])
  }

  // ----- the runs that are safe -----

  /** The client stays. */
  predicate Stays(s: Step) {
    s.HostTurn? ==> !s.tick.hangup
  }

  /** results/<id> stands for a request that was claimed under that id. */
  predicate Taken(c: Channel, id: int) {
    id in c.results && id !in c.queue
  }

  /** The step queues no command under an id that is taken. */
  predicate Guarded(w: World, s: Step) {
    s.HostTurn? && !w.job.running && s.tick.request.Some? && s.tick.request.value.queueable ==> !Taken(w.channel, w.job.id + 1)
  }

  /** Clients stay, and no command is queued under an id that is taken; requests
      may be refused. */
  ghost predicate GuardedRun(steps: seq<Step>) {
    var result := forall i {:trigger Legal(steps, i)} :: 0 <= i < |steps| ==> Legal(steps, i);
    result
  }

  predicate Legal(steps: seq<Step>, i: int)
    requires 0 <= i < |steps|
  {
    Stays(steps[i]) && Guarded(Run(Initial(), steps[..i]), steps[i])
  }

  /** The monitor's state and the world's, side by side. */
  ghost predicate InStep(w: World, m: Monitor) {
    var result := JobInStep(w.job, m) && ChannelInStep(w.channel, m) && OwnInStep(w, m);
    result
  }

  ghost predicate JobInStep(j: Job, m: Monitor) {
    && m.last == j.id
    && m.current == (if j.running then Some(j.id) else None)
    && (j.running ==> j.client && j.directory == j.id && m.asked == j.killSent)
    && (j.running && j.killSent ==> j.timedOut || j.signalled)
    && (!j.running ==> !j.killSent && !j.timedOut && !j.signalled)
    && (j.timedOut ==> j.killSent)
    && (j.signalled ==> j.killSent && 0 < j.signalNumber < 128)
  }

  ghost predicate ChannelInStep(c: Channel, m: Monitor) {
    && m.dirs == c.results.Keys
    && (forall id :: id in c.results ==> (c.results[id].kill <==> m.current == Some(id) && m.told))
    && (forall id :: id in c.results && c.results[id].done ==> c.results[id].status.Some?)
    && (forall id :: id in c.results && id in c.queue ==> c.results[id].status.None?)
    && (forall id :: Taken(c, id) ==> c.results[id].done || c.busy == Some(id))
    && (c.busy.Some? && c.busy.value in c.results ==> Taken(c, c.busy.value) && !c.results[c.busy.value].done)
  }

  ghost predicate OwnInStep(w: World, m: Monitor) {
    var (j, c) := (w.job, w.channel);
    && (j.running ==> (m.own <==> j.id !in c.queue))
    && (j.running && (j.claimed || m.own || m.told) ==> j.id in c.results)
    && (j.running && j.id in c.results ==> m.written == c.results[j.id].status && m.finished == c.results[j.id].done)
    && (!m.own ==> m.written.None? && !m.finished)
  }

  /** The log so far is accepted, and leads to a monitor in step. */
  ghost predicate Watched(w: World) {
    Watch(w.log).Some? && InStep(w, Watch(w.log).value)
  }

  lemma WatchOne(log: seq<Event>, e: Event)
    requires Watch(log).Some?
    ensures Watch(log + [e]) == Observe(Watch(log).value, e)
  {
    assert (log + [e])[..|log|] == log;
  }

  lemma EndKeeps(w: World, status: int, why: Why)
    requires Watched(w) && w.job.running
    requires (why == GaveUp && status == 125 && !IsDone(w))
             || (IsDone(w) && why == Reported(w.channel.results[w.job.id].status)
                 && status == StatusOf(w.channel.results[w.job.id].status))
    ensures Watched(Ended(w, status, why)) && !Ended(w, status, why).job.running
  {
    WatchOne(w.log, Exited(w.job.id, ExitCode(w.job, status), ExitReason(w.job, why)));
  }

  lemma KillKeeps(w: World, j: Job)
    requires Watched(w) && w.job.running && !w.job.killSent
    requires j == w.job.(timedOut := true) || (0 < j.signalNumber < 128 && j == w.job.(signalNumber := j.signalNumber, signalled := true))
    ensures Watched(Kill(w.(job := j)))
  {
    WatchOne(w.log, if w.job.id in w.channel.results then Killed(w.job.id) else KillLost(w.job.id));
  }

  lemma PollKeeps(w: World, now: int, supervisorAlive: bool)
    requires Watched(w)
    ensures Watched(Polled(w, now, supervisorAlive))
    ensures Polled(w, now, supervisorAlive).job.running ==> w.job.running
  {
    if w.job.running {
      var c := Claimed(w);
      if IsDone(c) {
        EndKeeps(c, StatusOf(c.channel.results[c.job.directory].status), Reported(c.channel.results[c.job.directory].status));
      } else {
        if !c.job.killSent && c.job.deadline > 0 && now >= c.job.deadline {
          KillKeeps(c, c.job.(timedOut := true));
        }
        var k := KillIfLate(c, now);
        if Hopeless(k.job, now) || !supervisorAlive {
          EndKeeps(k, 125, GaveUp);
        }
      }
    }
  }

  lemma StartKeeps(w: World, r: Exec, now: int)
    requires Watched(w) && !w.job.running && (r.queueable ==> !Taken(w.channel, w.job.id + 1))
    ensures Watched(Started(w, r.timeout, now, r.queueable))
  {
    WatchOne(w.log, if r.queueable then Queued(w.job.id + 1) else Refused);
  }

  lemma TurnKeeps(w: World, t: Tick)
    requires Watched(w) && Stays(HostTurn(t)) && Guarded(w, HostTurn(t))
    ensures Watched(Turn(w, t))
  {
    var busy := w.job.running && w.job.client;
    var a := if busy && t.line.Some? then Heard(w, t.line.value) else w;
    if busy && t.line.Some? && SignalIn(t.line.value) > 0 && !w.job.killSent {
      KillKeeps(w, w.job.(signalNumber := SignalIn(t.line.value), signalled := true));
    }
    PollKeeps(a, t.now, t.supervisorAlive);
    if !busy && t.request.Some? {
      StartKeeps(w, t.request.value, t.now);
    }
  }

  lemma GuestKeeps(w: World, s: Step)
    requires Watched(w) && !s.HostTurn?
    ensures Watched(Do(w, s))
  {
    match s
    case GuestMake(id) => MakeKeeps(w, id);
    case GuestClaim(id) => ClaimKeeps(w, id);
    case GuestWrite(id, status) => WriteKeeps(w, id, status);
    case GuestFinish(id) => FinishKeeps(w, id);
  }

  lemma MakeKeeps(w: World, id: int)
    requires Watched(w)
    ensures Watched(Made(w, id))
  {
    WatchOne(w.log, GuestMade(id));
  }

  lemma ClaimKeeps(w: World, id: int)
    requires Watched(w)
    ensures Watched(Moved(w, id))
  {
    WatchOne(w.log, GuestClaimed(id));
  }

  lemma WriteKeeps(w: World, id: int, status: string)
    requires Watched(w)
    ensures Watched(Published(w, id, status))
  {
    WatchOne(w.log, GuestWrote(id, status));
  }

  lemma FinishKeeps(w: World, id: int)
    requires Watched(w)
    ensures Watched(Completed(w, id))
  {
    WatchOne(w.log, GuestFinished(id));
  }

  lemma GuardedPrefix(steps: seq<Step>, n: nat)
    requires GuardedRun(steps) && n <= |steps|
    ensures GuardedRun(steps[..n])
  {
    forall i | 0 <= i < n ensures Legal(steps[..n], i) {
      assert Legal(steps, i);
      assert steps[..n][..i] == steps[..i] && steps[..n][i] == steps[i];
    }
  }

  /** Every run in which clients stay and no taken id is given out is accepted by
      the monitor: one job at a time, at most one attempt to stop it and one EXIT
      for each, and never another command's status. */
  lemma {:induction false} EveryRunIsSafe(steps: seq<Step>)
    requires GuardedRun(steps)
    ensures Watched(Run(Initial(), steps))
    decreases |steps|
  {
    if |steps| > 0 {
      var init, last := steps[..|steps| - 1], steps[|steps| - 1];
      GuardedPrefix(steps, |init|);
      EveryRunIsSafe(init);
      assert Legal(steps, |init|);
      var w := Run(Initial(), init);
      if last.HostTurn? {
        TurnKeeps(w, last.tick);
      } else {
        GuestKeeps(w, last);
      }
    }
  }

  // ----- without refusals every run is guarded -----

  /** No id has been used that was not given out. */
  ghost predicate Bounded(w: World) {
    && (forall id :: id in w.channel.queue || id in w.channel.results ==> id <= w.job.id)
    && (w.job.running ==> w.job.directory == w.job.id)
  }

  predicate Queueable(s: Step) {
    s.HostTurn? && s.tick.request.Some? ==> s.tick.request.value.queueable
  }

  lemma BoundedKill(w: World, j: Job)
    requires Bounded(w) && j.running == w.job.running && j.id == w.job.id && j.directory == w.job.directory
    ensures Bounded(Kill(w.(job := j))) && Kill(w.(job := j)).job.id == w.job.id
  {}

  lemma BoundedEnd(w: World, status: int, why: Why)
    requires Bounded(w)
    ensures Bounded(Ended(w, status, why)) && Ended(w, status, why).job.id == w.job.id
  {}

  lemma BoundedPoll(w: World, now: int, supervisorAlive: bool)
    requires Bounded(w)
    ensures Bounded(Polled(w, now, supervisorAlive)) && Polled(w, now, supervisorAlive).job.id == w.job.id
  {
    if w.job.running {
      var c := Claimed(w);
      if IsDone(c) {
        var text := c.channel.results[c.job.directory].status;
        BoundedEnd(c, StatusOf(text), Reported(text));
      } else {
        BoundedKill(c, c.job.(timedOut := true));
        BoundedEnd(KillIfLate(c, now), 125, GaveUp);
      }
    }
  }

  lemma BoundedStep(w: World, s: Step)
    requires Bounded(w) && Queueable(s)
    ensures Bounded(Do(w, s)) && Guarded(w, s)
  {
    if s.HostTurn? {
      var a := Attended(w, s.tick);
      if s.tick.line.Some? {
        BoundedKill(w, w.job.(signalNumber := SignalIn(s.tick.line.value), signalled := true));
      }
      assert Bounded(a);
      BoundedPoll(a, s.tick.now, s.tick.supervisorAlive);
    }
  }

  /** As long as every request can be queued, no id is ever taken. */
  lemma {:induction false} QueueableIsGuarded(steps: seq<Step>)
    requires forall i :: 0 <= i < |steps| ==> Stays(steps[i]) && Queueable(steps[i])
    ensures GuardedRun(steps) && Bounded(Run(Initial(), steps))
    decreases |steps|
  {
    if |steps| > 0 {
      var init, last := steps[..|steps| - 1], steps[|steps| - 1];
      QueueableIsGuarded(init);
      BoundedStep(Run(Initial(), init), last);
      forall i | 0 <= i < |steps| ensures Legal(steps, i) {
        if i < |init| {
          assert Legal(init, i);
          assert init[..i] == steps[..i] && init[i] == steps[i];
        }
      }
    }
  }

  // ----- what an accepted log means -----

  lemma {:induction false} WatchPrefix(log: seq<Event>, n: nat)
    requires Watch(log).Some? && n <= |log|
    ensures Watch(log[..n]).Some?
    decreases |log|
  {
    if n == |log| {
      assert log[..n] == log;
    } else {
      assert log[..|log| - 1][..n] == log[..n];
      WatchPrefix(log[..|log| - 1], n);
    }
  }

  /** The monitor before and after the event at i. */
  lemma WatchAt(log: seq<Event>, i: nat)
    requires Watch(log).Some? && i < |log|
    ensures Watch(log[..i]).Some? && Watch(log[..i + 1]).Some?
    ensures Observe(Watch(log[..i]).value, log[i]) == Watch(log[..i + 1])
  {
    WatchPrefix(log, i);
    WatchPrefix(log, i + 1);
    assert log[..i + 1][..i] == log[..i];
  }

  predicate Asks(e: Event, id: int) {
    e == Killed(id) || e == KillLost(id)
  }

  /** No command is queued between two events: ids may come back, but not there. */
  predicate NoneQueued(log: seq<Event>, i: int, j: int) {
    forall k :: 0 <= k < |log| && i < k < j ==> !log[k].Queued?
  }

  /** The command queued at q is answered at e. */
  predicate Answers(log: seq<Event>, q: int, e: int) {
    0 <= q < e < |log| && log[q].Queued? && log[e].Exited? && log[e].id == log[q].id && NoneQueued(log, q, e)
  }

  ghost predicate Answered(log: seq<Event>, q: int, n: int) {
    exists e :: e < n && Answers(log, q, e)
  }

  /** The command queued at q is the one the monitor has on. */
  ghost predicate IsOn(log: seq<Event>, q: nat, n: nat) {
    q < n <= |log| && log[q].Queued? && Watch(log[..n]).Some? && Watch(log[..n]).value.current == Some(log[q].id) && NoneQueued(log, q, n)
  }

  lemma NoneQueuedStep(log: seq<Event>, i: int, j: int)
    requires i < j < |log| && 0 <= j
    ensures NoneQueued(log, i, j + 1) <==> NoneQueued(log, i, j) && !log[j].Queued?
  {}

  /** At any time a command that was queued is either on or has been answered. */
  lemma {:induction false} OnOrAnswered(log: seq<Event>, q: nat, n: nat)
    requires Watch(log).Some? && q < n <= |log| && log[q].Queued?
    ensures IsOn(log, q, n) <==> !Answered(log, q, n)
    decreases n
  {
    WatchAt(log, n - 1);
    if q < n - 1 {
      OnOrAnswered(log, q, n - 1);
      NoneQueuedStep(log, q, n - 1);
      if IsOn(log, q, n - 1) && log[n - 1].Exited? { assert Answers(log, q, n - 1); }
      if Answered(log, q, n - 1) {
        var e :| e < n - 1 && Answers(log, q, e);
        assert e < n && Answers(log, q, e);
      }
    }
  }

  /** No client is told twice. */
  lemma OneExitPerCommand(log: seq<Event>, q: nat, e: nat, f: nat)
    requires Watch(log).Some? && Answers(log, q, e) && Answers(log, q, f)
    ensures e == f
  {
    if e < f { AnsweredIsOff(log, q, e, f); }
    if f < e { AnsweredIsOff(log, q, f, e); }
  }

  lemma AnsweredIsOff(log: seq<Event>, q: nat, e: nat, f: nat)
    requires Watch(log).Some? && Answers(log, q, e) && e < f < |log| && NoneQueued(log, q, f)
    ensures !(log[f].Exited? && log[f].id == log[q].id)
  {
    OnOrAnswered(log, q, f);
    assert Answered(log, q, f);
    WatchAt(log, f);
  }

  /** What the monitor knows of the current command is what has happened since it
      was queued. */
  ghost predicate Since(log: seq<Event>, q: nat, n: nat, m: Monitor)
    requires q < n <= |log| && log[q].Queued?
  {
    && (m.asked <==> exists a :: q < a < n && Asks(log[a], log[q].id))
    && (m.finished <==> exists f :: q < f < n && log[f] == GuestFinished(log[q].id))
    && (m.own ==> exists c :: q < c < n && log[c] == GuestClaimed(log[q].id))
    && (m.written.Some? ==> exists c, k :: WrittenByOwn(log, q, n, c, k, m.written.value))
  }

  predicate WrittenByOwn(log: seq<Event>, q: nat, n: nat, c: int, k: int, text: string) {
    q < c < k < n <= |log| && log[q].Queued? && log[c] == GuestClaimed(log[q].id) && log[k] == GuestWrote(log[q].id, text)
  }

  lemma WasOn(log: seq<Event>, q: nat, n: nat)
    requires Watch(log).Some? && q < n && IsOn(log, q, n + 1)
    ensures IsOn(log, q, n)
  {
    WatchAt(log, n);
    NoneQueuedStep(log, q, n);
  }

  lemma {:induction false} SinceQueued(log: seq<Event>, q: nat, n: nat)
    requires Watch(log).Some? && IsOn(log, q, n)
    ensures Since(log, q, n, Watch(log[..n]).value)
    decreases n
  {
    WatchAt(log, n - 1);
    if q < n - 1 {
      WasOn(log, q, n - 1);
      SinceQueued(log, q, n - 1);
      SinceStep(log, q, n - 1);
    }
  }

  lemma SinceStep(log: seq<Event>, q: nat, n: nat)
    requires Watch(log).Some? && n < |log| && IsOn(log, q, n) && IsOn(log, q, n + 1)
    requires Since(log, q, n, Watch(log[..n]).value)
    ensures Since(log, q, n + 1, Watch(log[..n + 1]).value)
  {
    WatchAt(log, n);
    var id, e := log[q].id, log[n];
    var m, m' := Watch(log[..n]).value, Watch(log[..n + 1]).value;
    if m.written.Some? {
      var c, k :| WrittenByOwn(log, q, n, c, k, m.written.value);
      assert WrittenByOwn(log, q, n + 1, c, k, m.written.value);
    }
    if m.own {
      var c :| q < c < n && log[c] == GuestClaimed(id);
      if e.GuestWrote? && e.id == id { assert WrittenByOwn(log, q, n + 1, c, n, e.status); }
    }
    if Asks(e, id) { assert q < n < n + 1 && Asks(log[n], id); }
  }

  /** The one way a command gets its answer: it was to be stopped, whatever else;
      or the guest had finished it; or neither, and the daemon gave up. */
  lemma AnswerSaysWhy(log: seq<Event>, q: nat, e: nat)
    requires Watch(log).Some? && Answers(log, q, e)
    ensures var why, id := log[e].why, log[q].id;
            var asked := exists a :: q < a < e && Asks(log[a], id);
            var finished := exists f :: q < f < e && log[f] == GuestFinished(id);
            && (why.Timeout? || why.Signalled? <==> asked)
            && (why.Reported? <==> !asked && finished)
            && (why.GaveUp? <==> !asked && !finished)
  {
    AnswersWhatIsOn(log, q, e);
    SinceQueued(log, q, e);
    WatchAt(log, e);
  }

  lemma AnswersWhatIsOn(log: seq<Event>, q: nat, e: nat)
    requires Watch(log).Some? && Answers(log, q, e)
    ensures IsOn(log, q, e)
  {
    WatchAt(log, e);
  }

  /** A status that is reported was written for the very command the client asked
      for: by a guest that claimed it after it was queued. */
  lemma ReportedIsOwn(log: seq<Event>, q: nat, e: nat)
    requires Watch(log).Some? && Answers(log, q, e) && log[e].why.Reported?
    ensures log[e].why.status.Some? && log[e].code == StatusOf(log[e].why.status)
    ensures exists c, k :: WrittenByOwn(log, q, e, c, k, log[e].why.status.value)
  {
    AnswersWhatIsOn(log, q, e);
    SinceQueued(log, q, e);
    WatchAt(log, e);
  }

  lemma NoneQueuedOn(log: seq<Event>, q: nat)
    requires q < |log| - 1 && !log[|log| - 1].Queued? && NoneQueued(log[..|log| - 1], q, |log| - 1)
    ensures NoneQueued(log, q, |log|)
  {
    forall k | q < k < |log| - 1 ensures !log[k].Queued? { assert log[k] == log[..|log| - 1][k]; }
  }

  /** Whoever is answered was queued. */
  lemma {:induction false} CurrentWasQueued(log: seq<Event>) returns (q: nat)
    requires Watch(log).Some? && Watch(log).value.current.Some?
    ensures IsOn(log, q, |log|)
    decreases |log|
  {
    assert log[..|log|] == log;
    WatchAt(log, |log| - 1);
    if log[|log| - 1].Queued? {
      q := |log| - 1;
    } else {
      var init := log[..|log| - 1];
      q := CurrentWasQueued(init);
      assert init[..|init|] == init && log[q] == init[q];
      NoneQueuedOn(log, q);
    }
  }

  /** Of several attempts to stop a command there is just one. */
  lemma OneKillPerCommand(log: seq<Event>, i: nat, j: nat)
    requires Watch(log).Some? && i < j < |log|
    requires (log[i].Killed? || log[i].KillLost?) && Asks(log[j], log[i].id)
    ensures !NoneQueued(log, i, j)
  {
    if NoneQueued(log, i, j) {
      WatchAt(log, i);
      AskedStays(log, i + 1, j, log[i].id);
      WatchAt(log, j);
      assert false;
    }
  }

  predicate AskedOrOver(m: Monitor, id: int) {
    m.current == Some(id) ==> m.asked
  }

  lemma AskedStep(m: Monitor, e: Event, id: int)
    requires AskedOrOver(m, id) && Observe(m, e).Some? && !e.Queued?
    ensures AskedOrOver(Observe(m, e).value, id)
  {}

  lemma {:induction false} AskedStays(log: seq<Event>, i: nat, j: nat, id: int)
    requires Watch(log).Some? && i <= j <= |log| && NoneQueued(log, i - 1, j)
    requires Watch(log[..i]).Some? && AskedOrOver(Watch(log[..i]).value, id)
    ensures Watch(log[..j]).Some? && AskedOrOver(Watch(log[..j]).value, id)
    decreases j
  {
    if i < j {
      AskedStays(log, i, j - 1, id);
      WatchAt(log, j - 1);
      AskedStep(Watch(log[..j - 1]).value, log[j - 1], id);
    }
  }

  /** Ids are given out in increasing order, unless a request is refused. */
  lemma IdsIncrease(log: seq<Event>, i: nat, j: nat)
    requires Watch(log).Some? && i < j < |log| && log[i].Queued? && log[j].Queued?
    requires forall k :: i < k < j ==> !log[k].Refused?
    ensures log[i].id < log[j].id
  {
    WatchAt(log, i);
    WatchAt(log, j);
    LastGrows(log, i + 1, j);
  }

  lemma LastStep(m: Monitor, e: Event)
    requires Observe(m, e).Some? && !e.Refused?
    ensures m.last <= Observe(m, e).value.last
  {}

  lemma {:induction false} LastGrows(log: seq<Event>, i: nat, j: nat)
    requires Watch(log).Some? && i <= j <= |log| && forall k :: i <= k < j ==> !log[k].Refused?
    ensures Watch(log[..i]).Some? && Watch(log[..j]).Some? && Watch(log[..i]).value.last <= Watch(log[..j]).value.last
    decreases j
  {
    WatchPrefix(log, i);
    if i < j {
      LastGrows(log, i, j - 1);
      WatchAt(log, j - 1);
      LastStep(Watch(log[..j - 1]).value, log[j - 1]);
    }
  }

  /** In every such run a command's client is told exactly once, as soon as the
      command is not the running one any more. */
  lemma EveryClientIsToldOnce(steps: seq<Step>, q: nat)
    requires GuardedRun(steps)
    requires q < |Run(Initial(), steps).log| && Run(Initial(), steps).log[q].Queued?
    ensures var w := Run(Initial(), steps);
            && (Answered(w.log, q, |w.log|) <==> !(w.job.running && NoneQueued(w.log, q, |w.log|)))
            && forall e, f :: Answers(w.log, q, e) && Answers(w.log, q, f) ==> e == f
  {
    EveryRunIsSafe(steps);
    var w := Run(Initial(), steps);
    OnOrAnswered(w.log, q, |w.log|);
    assert w.log[..|w.log|] == w.log;
    if w.job.running && NoneQueued(w.log, q, |w.log|) { LastQueuedIsOn(w.log, q); }
    forall e, f | Answers(w.log, q, e) && Answers(w.log, q, f) ensures e == f {
      OneExitPerCommand(w.log, q, e, f);
    }
  }

  lemma LastQueuedIsOn(log: seq<Event>, q: nat)
    requires Watch(log).Some? && Watch(log).value.current.Some? && q < |log| && log[q].Queued? && NoneQueued(log, q, |log|)
    ensures IsOn(log, q, |log|)
  {
    var last := CurrentWasQueued(log);
    assert !(last < q) && !(q < last);
  }

  // ----- whether a command is told to stop -----

  /** The directory of id is there: it was made and not removed since. */
  predicate Stands(log: seq<Event>, id: int, c: int) {
    0 <= c < |log| && log[c] == GuestMade(id) && forall e :: c < e < |log| ==> !(log[e].Exited? && log[e].id == id)
  }

  ghost predicate HasDirectory(log: seq<Event>, id: int) {
    exists c :: Stands(log, id, c)
  }

  lemma {:induction false} DirectoriesAreLogged(log: seq<Event>, id: int)
    requires Watch(log).Some?
    ensures id in Watch(log).value.dirs <==> HasDirectory(log, id)
    decreases |log|
  {
    if |log| > 0 {
      var n := |log| - 1;
      assert log[..|log|] == log;
      WatchAt(log, n);
      DirectoriesAreLogged(log[..n], id);
      if HasDirectory(log[..n], id) && !(log[n].Exited? && log[n].id == id) {
        var c :| Stands(log[..n], id, c);
        StandsOn(log, id, c);
      }
      if HasDirectory(log, id) && log[n] != GuestMade(id) {
        var c :| Stands(log, id, c);
        StandsBefore(log, id, c);
      }
      if log[n] == GuestMade(id) { assert Stands(log, id, n); }
    }
  }

  lemma StandsOn(log: seq<Event>, id: int, c: int)
    requires log != [] && Stands(log[..|log| - 1], id, c) && !(log[|log| - 1].Exited? && log[|log| - 1].id == id)
    ensures Stands(log, id, c)
  {
    forall e | c < e < |log| ensures !(log[e].Exited? && log[e].id == id) {
      if e < |log| - 1 { assert log[e] == log[..|log| - 1][e]; }
    }
  }

  lemma StandsBefore(log: seq<Event>, id: int, c: int)
    requires log != [] && Stands(log, id, c) && log[|log| - 1] != GuestMade(id)
    ensures Stands(log[..|log| - 1], id, c)
  {}

  /** An attempt to stop a command gets through exactly when its directory is
      there: when the guest had begun to claim it. */
  lemma KillReachesExactly(log: seq<Event>, i: nat)
    requires Watch(log).Some? && i < |log| && (log[i].Killed? || log[i].KillLost?)
    ensures log[i].Killed? <==> HasDirectory(log[..i], log[i].id)
  {
    WatchAt(log, i);
    DirectoriesAreLogged(log[..i], log[i].id);
  }

  /** The attempt to stop the command that is on. */
  ghost predicate AskedAt(log: seq<Event>, id: int, i: int) {
    0 <= i < |log| && Asks(log[i], id) && NoneQueued(log, i, |log|)
  }

  lemma {:induction false} AskedIsLogged(log: seq<Event>) returns (i: nat)
    requires Watch(log).Some? && Watch(log).value.current.Some? && Watch(log).value.asked
    ensures AskedAt(log, Watch(log).value.current.value, i)
    ensures Watch(log).value.told <==> HasDirectory(log[..i], Watch(log).value.current.value)
    ensures log[i].Killed? <==> HasDirectory(log[..i], Watch(log).value.current.value)
    decreases |log|
  {
    var n := |log| - 1;
    var init, m := log[..n], Watch(log).value;
    assert log[..|log|] == log;
    WatchAt(log, n);
    if Asks(log[n], m.current.value) {
      i := n;
      ToldIsAsked(init);
    } else {
      i := AskedIsLogged(init);
      assert init[..i] == log[..i] && log[i] == init[i];
      forall k | i < k < |log| ensures !log[k].Queued? { if k < n { assert log[k] == init[k]; } }
    }
    KillReachesExactly(log, i);
  }

  lemma {:induction false} ToldIsAsked(log: seq<Event>)
    requires Watch(log).Some?
    ensures Watch(log).value.told ==> Watch(log).value.asked
    decreases |log|
  {
    if |log| > 0 {
      assert log[..|log|] == log;
      WatchAt(log, |log| - 1);
      ToldIsAsked(log[..|log| - 1]);
    }
  }

  // ----- that waiting ends -----

  /** The client has been told, from event n on. */
  ghost predicate Told(log: seq<Event>, n: nat, id: int) {
    exists e :: n <= e < |log| && log[e].Exited? && log[e].id == id
  }

  lemma ToldGrows(a: seq<Event>, b: seq<Event>, n: nat, id: int)
    requires Told(a, n, id) && a <= b
    ensures Told(b, n, id)
  {
    var e :| n <= e < |a| && a[e].Exited? && a[e].id == id;
    assert n <= e < |b| && b[e] == a[e];
  }

  /** The same command, as far as its clocks go. */
  predicate SameJob(a: Job, b: Job) {
    b.running && b.id == a.id && b.deadline == a.deadline && b.queuedAt == a.queuedAt
  }

  /** The command is done; or is past deadline and grace; or nobody has claimed it
      in time; or the kernel is gone. */
  predicate MustEnd(w: World, now: int, supervisorAlive: bool) {
    || IsDone(w)
    || (w.job.deadline > 0 && now > w.job.deadline + GRACE_MS)
    || (!w.job.claimed && w.job.directory !in w.channel.results && now > w.job.queuedAt + CLAIM_MS)
    || !supervisorAlive
  }

  lemma EndTells(w: World, status: int, why: Why, n: nat)
    requires w.job.client && n <= |w.log|
    ensures w.log <= Ended(w, status, why).log && Told(Ended(w, status, why).log, n, w.job.id)
  {
    var log := Ended(w, status, why).log;
    assert log[|w.log|].Exited? && log[|w.log|].id == w.job.id;
  }

  /** A poll leaves the command running exactly when nothing makes it end; else it
      tells its client. */
  lemma PollTells(w: World, now: int, supervisorAlive: bool, n: nat)
    requires w.job.running && w.job.client && n <= |w.log|
    ensures var p := Polled(w, now, supervisorAlive);
            w.log <= p.log && if p.job.running then SameJob(w.job, p.job) else Told(p.log, n, w.job.id)
    ensures Polled(w, now, supervisorAlive).job.running <==> !MustEnd(w, now, supervisorAlive)
  {
    var c := Claimed(w);
    if IsDone(c) {
      EndTells(c, StatusOf(c.channel.results[c.job.directory].status), Reported(c.channel.results[c.job.directory].status), n);
    } else {
      var k := KillIfLate(c, now);
      assert w.log <= k.log && SameJob(w.job, k.job) && k.job.client;
      EndTells(k, 125, GaveUp, n);
    }
  }

  lemma TurnTells(w: World, t: Tick, n: nat)
    requires Watched(w) && w.job.running && Stays(HostTurn(t)) && n <= |w.log|
    ensures var after := Turn(w, t);
            && w.log <= after.log
            && (Told(after.log, n, w.job.id) || SameJob(w.job, after.job))
            && (MustEnd(w, t.now, t.supervisorAlive) ==> Told(after.log, n, w.job.id))
  {
    var a := Attended(w, t);
    assert w.log <= a.log && SameJob(w.job, a.job);
    PollTells(a, t.now, t.supervisorAlive, n);
  }

  lemma StepTells(w: World, s: Step, n: nat)
    requires Watched(w) && w.job.running && Stays(s) && n <= |w.log|
    ensures var after := Do(w, s);
            w.log <= after.log && (Told(after.log, n, w.job.id) || SameJob(w.job, after.job))
  {
    if s.HostTurn? { TurnTells(w, s.tick, n); }
  }

  lemma LogGrows(w: World, s: Step)
    requires Watched(w) && Stays(s)
    ensures w.log <= Do(w, s).log
  {
    if w.job.running { StepTells(w, s, 0); }
  }

  /** What was a running command at one point has been answered by another, or
      goes on with its clocks as they were set. */
  ghost predicate GoesOn(w: World, v: World) {
    w.log <= v.log && (Told(v.log, |w.log|, w.job.id) || SameJob(w.job, v.job))
  }

  lemma GoesOnStep(w: World, v: World, s: Step)
    requires Watched(v) && Stays(s) && GoesOn(w, v)
    ensures GoesOn(w, Do(v, s))
  {
    LogGrows(v, s);
    if Told(v.log, |w.log|, w.job.id) {
      ToldGrows(v.log, Do(v, s).log, |w.log|, w.job.id);
    } else {
      StepTells(v, s, |w.log|);
    }
  }

  lemma {:induction false} GoesOnOrTold(steps: seq<Step>, k: nat, j: nat)
    requires GuardedRun(steps) && k <= j <= |steps| && Run(Initial(), steps[..k]).job.running
    ensures GoesOn(Run(Initial(), steps[..k]), Run(Initial(), steps[..j]))
    decreases j
  {
    if k < j {
      GoesOnOrTold(steps, k, j - 1);
      GoesOnTo(steps, Run(Initial(), steps[..k]), j - 1);
    }
  }

  lemma GoesOnTo(steps: seq<Step>, w: World, j: nat)
    requires GuardedRun(steps) && j < |steps| && GoesOn(w, Run(Initial(), steps[..j]))
    ensures GoesOn(w, Run(Initial(), steps[..j + 1]))
  {
    RunTo(steps, j);
    GoesOnStep(w, Run(Initial(), steps[..j]), steps[j]);
  }

  lemma RunTo(steps: seq<Step>, j: nat)
    requires GuardedRun(steps) && j < |steps|
    ensures Watched(Run(Initial(), steps[..j])) && Watched(Run(Initial(), steps[..j + 1])) && Stays(steps[j])
    ensures Run(Initial(), steps[..j + 1]) == Do(Run(Initial(), steps[..j]), steps[j])
  {
    assert steps[..j + 1][..|steps[..j + 1]| - 1] == steps[..j];
    GuardedPrefix(steps, j);
    GuardedPrefix(steps, j + 1);
    EveryRunIsSafe(steps[..j]);
    EveryRunIsSafe(steps[..j + 1]);
    assert Legal(steps, j);
  }

  /** Why the host's turn has to end a command that was queued with these clocks:
      the guest has published its end, it is past its deadline and grace, the
      guest still has not begun to claim it when it should have, or the kernel is
      gone. */
  predicate TimeIsUp(job: Job, c: Channel, t: Tick) {
    || (job.id in c.results && c.results[job.id].done)
    || (job.deadline > 0 && t.now > job.deadline + GRACE_MS)
    || (job.id !in c.results && t.now > job.queuedAt + CLAIM_MS)
    || !t.supervisorAlive
  }

  /** No client waits for ever: in every run, a turn of the host's loop with a
      reason to end the command leaves its client told, whatever happened before. */
  lemma WaitEndsFrom(steps: seq<Step>, k: nat, j: nat)
    requires GuardedRun(steps) && k <= j < |steps| && steps[j].HostTurn?
    requires Run(Initial(), steps[..k]).job.running
    requires TimeIsUp(Run(Initial(), steps[..k]).job, Run(Initial(), steps[..j]).channel, steps[j].tick)
    ensures var w := Run(Initial(), steps[..k]); Told(Run(Initial(), steps[..j + 1]).log, |w.log|, w.job.id)
  {
    var w, v := Run(Initial(), steps[..k]), Run(Initial(), steps[..j]);
    GoesOnOrTold(steps, k, j);
    RunTo(steps, j);
    LogGrows(v, steps[j]);
    if Told(v.log, |w.log|, w.job.id) {
      ToldGrows(v.log, Do(v, steps[j]).log, |w.log|, w.job.id);
    } else {
      TurnTells(v, steps[j].tick, |w.log|);
    }
  }

  /** At its deadline a command that is still on is to be stopped, by one attempt
      of which the kill file is what is left, exactly when the guest had begun to
      claim it by then; else it is never told. */
  lemma DeadlineKeptFrom(steps: seq<Step>, k: nat, j: nat) returns (i: nat)
    requires GuardedRun(steps) && k <= j < |steps| && steps[j].HostTurn?
    requires Run(Initial(), steps[..k]).job.running
    requires var job := Run(Initial(), steps[..k]).job; 0 < job.deadline <= steps[j].tick.now
    ensures var w, v := Run(Initial(), steps[..k]), Run(Initial(), steps[..j + 1]);
            || Told(v.log, |w.log|, w.job.id)
            || (AskedAt(v.log, w.job.id, i)
                && (v.log[i] == Killed(w.job.id) <==> HasDirectory(v.log[..i], w.job.id))
                && (w.job.id in v.channel.results && v.channel.results[w.job.id].kill <==> HasDirectory(v.log[..i], w.job.id)))
  {
    i := 0;
    var w, v := Run(Initial(), steps[..k]), Run(Initial(), steps[..j]);
    GoesOnOrTold(steps, k, j);
    RunTo(steps, j);
    LogGrows(v, steps[j]);
    if Told(v.log, |w.log|, w.job.id) {
      ToldGrows(v.log, Do(v, steps[j]).log, |w.log|, w.job.id);
    } else if !Told(Do(v, steps[j]).log, |w.log|, w.job.id) {
      i := LateTurnAsks(v, steps[j].tick, |w.log|);
    }
  }

  lemma LateTurnAsks(w: World, t: Tick, n: nat) returns (i: nat)
    requires Watched(w) && w.job.running && Stays(HostTurn(t)) && 0 < w.job.deadline <= t.now && n <= |w.log|
    requires Watched(Turn(w, t)) && !Told(Turn(w, t).log, n, w.job.id)
    ensures var v := Turn(w, t); var id := w.job.id;
            && AskedAt(v.log, id, i)
            && (v.log[i] == Killed(id) <==> HasDirectory(v.log[..i], id))
            && (id in v.channel.results && v.channel.results[id].kill <==> HasDirectory(v.log[..i], id))
  {
    TurnTells(w, t, n);
    assert Turn(w, t).job.killSent;
    i := AskedIsLogged(Turn(w, t).log);
  }

  // ----- what a turn adds to the log -----

  predicate Ends(e: Event) {
    e.Exited? || e.Unheard?
  }

  /** The deadline has come for a command that is not done and not yet stopped. */
  predicate IsLate(w: World, now: int) {
    !w.job.killSent && !IsDone(w) && w.job.deadline > 0 && now >= w.job.deadline
  }

  /** What an attempt to stop the running command leaves in the log. */
  function KillNews(w: World): Event {
    if w.job.directory in w.channel.results then Killed(w.job.directory) else KillLost(w.job.directory)
  }

  function LateNews(w: World, now: int): seq<Event> {
    if IsLate(w, now) then [KillNews(w)] else []
  }

  /** What a poll adds to the log: perhaps a kill, and then the end if it is one. */
  lemma PollNews(w: World, now: int, supervisorAlive: bool) returns (end: seq<Event>)
    requires w.job.running
    ensures Polled(w, now, supervisorAlive).log == w.log + LateNews(w, now) + end
    ensures if MustEnd(w, now, supervisorAlive) then |end| == 1 && Ends(end[0]) else end == []
  {
    var c := Claimed(w);
    assert IsDone(c) <==> IsDone(w);
    if IsDone(c) {
      end := EndNews(c, StatusOf(c.channel.results[c.job.directory].status), Reported(c.channel.results[c.job.directory].status));
      assert w.log + [] == w.log;
    } else {
      var k := KillIfLate(c, now);
      assert LateNews(w, now) == LateNews(c, now);
      assert k.log == w.log + LateNews(w, now);
      end := [];
      if Hopeless(k.job, now) || !supervisorAlive {
        end := EndNews(k, 125, GaveUp);
      }
    }
  }

  /** The same, behind what the turn has brought already. */
  lemma PollNewsBehind(log: seq<Event>, heard: seq<Event>, a: World, now: int, supervisorAlive: bool)
    returns (kill: seq<Event>, news: seq<Event>)
    requires a.job.running && a.log == log + heard
    ensures Polled(a, now, supervisorAlive).log == log + news
    ensures kill == heard + LateNews(a, now)
    ensures if MustEnd(a, now, supervisorAlive) then exists e :: Ends(e) && news == kill + [e] else news == kill
  {
    var end := PollNews(a, now, supervisorAlive);
    kill := heard + LateNews(a, now);
    news := kill + end;
    assert log + heard + LateNews(a, now) + end == log + news;
    if MustEnd(a, now, supervisorAlive) { assert Ends(end[0]) && news == kill + [end[0]]; }
  }

  lemma EndNews(w: World, status: int, why: Why) returns (news: seq<Event>)
    ensures |news| == 1 && Ends(news[0]) && Ended(w, status, why).log == w.log + news
    ensures w.job.client ==> news[0].Exited? && news[0].why == ExitReason(w.job, why)
  {
    news := [if w.job.client then Exited(w.job.id, ExitCode(w.job, status), ExitReason(w.job, why)) else Unheard(w.job.id)];
  }

  lemma StartNews(w: World, r: Exec, now: int) returns (e: Event)
    ensures Started(w, r.timeout, now, r.queueable).log == w.log + [e] && !Ends(e) && (e.Queued? <==> r.queueable)
  {
    e := if r.queueable then Queued(w.job.id + 1) else Refused;
  }

  /** A turn has reason to stop the running command: a signal, or the deadline. */
  predicate WantsStop(w: World, t: Tick) {
    (t.line.Some? && SignalIn(t.line.value) > 0) || IsLate(w, t.now)
  }

  /** Whether the turn that tries to stop a command reaches it depends on whether
      its directory is there in that turn. */
  lemma KillInTurn(w: World, t: Tick) returns (news: seq<Event>)
    requires w.job.running && w.job.client && !w.job.killSent
    ensures Turn(w, t).log == w.log + news
    ensures forall id :: Killed(id) in news <==> WantsStop(w, t) && id == w.job.directory && id in w.channel.results
    ensures forall id :: KillLost(id) in news <==> WantsStop(w, t) && id == w.job.directory && id !in w.channel.results
  {
    var a := Attended(w, t);
    var heard := HeardNews(w, t);
    var kill;
    kill, news := PollNewsBehind(w.log, heard, a, t.now, t.supervisorAlive);
    assert kill == if WantsStop(w, t) then [KillNews(w)] else [];
    assert forall e :: e in news ==> e in kill || Ends(e);
    assert forall e :: e in kill ==> e in news;
  }

  lemma HeardNews(w: World, t: Tick) returns (heard: seq<Event>)
    requires w.job.running && w.job.client && !w.job.killSent
    ensures heard == if t.line.Some? && SignalIn(t.line.value) > 0 then [KillNews(w)] else []
    ensures var a := Attended(w, t);
            && a.log == w.log + heard && a.job.running && IsDone(a) == IsDone(w)
            && a.job.deadline == w.job.deadline && a.job.killSent == (heard != [])
            && KillNews(a) == KillNews(w)
  {
    heard := if t.line.Some? && SignalIn(t.line.value) > 0 then [KillNews(w)] else [];
  }

  /** Something was queued, and nothing ended. */
  predicate QueuedBeside(news: seq<Event>) {
    (exists e :: e in news && e.Queued?) && forall e :: e in news ==> !Ends(e)
  }

  /** A second command starts beside a running one exactly when that one's client
      has left, nothing makes the command end, and a request comes in that can be
      queued. */
  lemma SecondCommandExactly(w: World, t: Tick) returns (news: seq<Event>)
    requires w.job.running && !w.job.client
    ensures Turn(w, t).log == w.log + news
    ensures QueuedBeside(news) <==>
            t.request.Some? && t.request.value.queueable && !MustEnd(w, t.now, t.supervisorAlive)
  {
    var kill, polled := PollNewsBehind(w.log, [], w, t.now, t.supervisorAlive);
    news := polled;
    if t.request.Some? && !Breaks(w, t) {
      var e := StartNews(Polled(w, t.now, t.supervisorAlive), t.request.value, t.now);
      news := polled + [e];
      assert (w.log + polled) + [e] == w.log + news;
      assert e in news && forall x :: x in news <==> x in polled || x == e;
    }
    assert MustEnd(w, t.now, t.supervisorAlive) <==> exists e :: e in polled && Ends(e);
  }

  /** While the client is there, nothing is queued beside its command. */
  lemma NoSecondCommandBesideAClient(w: World, t: Tick) returns (news: seq<Event>)
    requires w.job.running && w.job.client
    ensures Turn(w, t).log == w.log + news && forall e :: e in news ==> !e.Queued?
  {
    var a := Attended(w, t);
    var heard := if a.log == w.log then [] else [KillNews(w)];
    assert a.log == w.log + heard;
    var kill;
    kill, news := PollNewsBehind(w.log, heard, a, t.now, t.supervisorAlive);
  }
}

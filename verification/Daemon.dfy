/** The session daemon's job state machine (src/backend/um_session.c) facing a
    guest that owns the other end of a shared directory.  Every host step is a
    function on the whole world, which the daemon's methods are proved to
    compute; the guest's steps follow the channel contract at the head of that
    file: a result's status is written before it is marked done. */
module Daemon {
  import opened Wrappers
  import opened Framing

  const CLAIM_MS: int := 30000
  const GRACE_MS: int := 15000

  /** UmDaemon, less its sockets and paths.  Times are in milliseconds; a
      deadline of 0 is none.  directory is the id whose results are looked at, 0
      for none; a request that cannot be queued leaves its own there. */
  datatype Job = Job(running: bool, id: int, client: bool, timedOut: bool, killSent: bool,
    signalled: bool, signalNumber: int, deadline: int, claimed: bool, queuedAt: int, directory: int)

  /** results/<id>: what the guest fills in, and whether the host's kill is there. */
  datatype Answer = Answer(status: Option<string>, done: bool, kill: bool)

  /** queue/ and results/, and the command the guest's loop is running, one at a
      time. */
  datatype Channel = Channel(queue: set<int>, results: map<int, Answer>, busy: Option<int>)

  /** Why a client was told what it was told. */
  datatype Why = Timeout | Signalled(number: int) | Reported(status: Option<string>) | GaveUp

  /** What happened, on both sides of the channel.  KillLost: the command was to
      be stopped, but there was no directory to write that into. */
  datatype Event =
    | Queued(id: int)
    | Refused
    | Killed(id: int)
    | KillLost(id: int)
    | Exited(id: int, code: int, why: Why)
    | Unheard(id: int)
    | GuestMade(id: int)
    | GuestClaimed(id: int)
    | GuestWrote(id: int, status: string)
    | GuestFinished(id: int)

  datatype World = World(job: Job, channel: Channel, log: seq<Event>)

  function Idle(): Job {
    Job(false, 0, false, false, false, false, 0, 0, false, 0, 0)
  }

  function Initial(): World {
    World(Idle(), Channel({}, map[], None), [])
  }

  // ----- the host's steps -----

  /** The status file's first line, read as a status; 125 when it is none. */
  function StatusOf(text: Option<string>): (code: int)
    ensures 0 <= code <= 255
  {
    if text.None? || text.value == "" then 125
    else
      var p := Strtol(text.value);
      if p.inRange && p.end != 0 && p.end == |text.value| && 0 <= p.value <= 255 then p.value else 125
  }

  function ExitCode(job: Job, status: int): int {
    if job.timedOut then 124
    else if job.signalled && job.signalNumber > 0 then 128 + job.signalNumber
    else if status < 0 || status > 255 then 125
    else status
  }

  function ExitReason(job: Job, why: Why): Why {
    if job.timedOut then Timeout
    else if job.signalled && job.signalNumber > 0 then Signalled(job.signalNumber)
    else why
  }

  /** um_daemon_end_job: the client is told, the directory removed. */
  function Ended(w: World, status: int, why: Why): World {
    var event := if w.job.client then Exited(w.job.id, ExitCode(w.job, status), ExitReason(w.job, why)) else Unheard(w.job.id);
    World(w.job.(running := false, client := false, timedOut := false, killSent := false, signalled := false, signalNumber := 0, deadline := 0,
                  directory := 0),
          w.channel.(results := w.channel.results - {w.job.directory}), w.log + [event])
  }

  /** um_daemon_start_job */
  function Started(w: World, timeout: int, now: int, queueable: bool): World {
    var id := w.job.id + 1;
    if queueable then
      World(Job(true, id, true, false, false, false, 0, if timeout > 0 then now + timeout else 0, false, now, id),
            w.channel.(queue := w.channel.queue + {id}), w.log + [Queued(id)])
    else
      World(Job(w.job.running, 0, false, false, false, false, 0, if timeout > 0 then now + timeout else 0, false, now, id),
            w.channel, w.log + [Refused])
  }

  /** um_daemon_publish of a kill: without the directory nothing is written, but
      the kill counts as sent. */
  function Kill(w: World): World {
    var d := w.job.directory;
    if d in w.channel.results then
      World(w.job.(killSent := true), w.channel.(results := w.channel.results[d := w.channel.results[d].(kill := true)]),
            w.log + [Killed(d)])
    else
      w.(job := w.job.(killSent := true), log := w.log + [KillLost(d)])
  }

  /** The signal a client asks for; 0 for none. */
  function SignalIn(line: string): int {
    if StartsWith(line, "SIGNAL ") then
      var n := Strtol(line[7..]).value;
      if 0 < n < 128 then n else 0
    else 0
  }

  /** um_daemon_job_input */
  function Heard(w: World, line: string): World {
    var n := SignalIn(line);
    if n > 0 && !w.job.killSent then Kill(w.(job := w.job.(signalNumber := n, signalled := true))) else w
  }

  function Claimed(w: World): World {
    if w.job.directory in w.channel.results then w.(job := w.job.(claimed := true)) else w
  }

  function IsDone(w: World): bool {
    w.job.directory in w.channel.results && w.channel.results[w.job.directory].done
  }

  /** The kill a passed deadline brings. */
  function KillIfLate(w: World, now: int): World {
    if !w.job.killSent && w.job.deadline > 0 && now >= w.job.deadline then Kill(w.(job := w.job.(timedOut := true))) else w
  }

  predicate Hopeless(job: Job, now: int) {
    (!job.claimed && now > job.queuedAt + CLAIM_MS) || (job.killSent && job.deadline > 0 && now > job.deadline + GRACE_MS)
  }

  /** um_daemon_poll_job */
  function Polled(w: World, now: int, supervisorAlive: bool): World {
    if !w.job.running then w
    else
      var c := Claimed(w);
      if IsDone(c) then
        var text := c.channel.results[c.job.directory].status;
        Ended(c, StatusOf(text), Reported(text))
      else Waited(c, now, supervisorAlive)
  }

  function Waited(w: World, now: int, supervisorAlive: bool): World {
    var k := KillIfLate(w, now);
    if Hopeless(k.job, now) || !supervisorAlive then Ended(k, 125, GaveUp) else k
  }

  /** Whether um_daemon_poll_job ends the loop: the job is going on, but the
      supervisor is gone. */
  predicate Breaks(w: World, t: Tick) {
    var c := Claimed(w);
    w.job.running && !IsDone(c) && !Hopeless(KillIfLate(c, t.now).job, t.now) && !t.supervisorAlive
  }

  /** What poll and accept bring in one turn of the daemon's loop. */
  datatype Tick = Tick(now: int, line: Option<string>, hangup: bool, supervisorAlive: bool, request: Option<Exec>)

  /** A connection that asks for a command, and whether it can be queued. */
  datatype Exec = Exec(timeout: int, queueable: bool)

  /** The client of a running job has left. */
  function Leave(w: World): World {
    w.(job := w.job.(client := false))
  }

  /** What the client of a running job said, or that it has gone. */
  function Attended(w: World, t: Tick): World {
    var busy := w.job.running && w.job.client;
    var a := if busy && t.line.Some? then Heard(w, t.line.value) else w;
    if busy && t.hangup then Leave(a) else a
  }

  /** One turn of the loop; new connections are looked at only when no client
      waits for a job. */
  function Turn(w: World, t: Tick): World {
    var busy := w.job.running && w.job.client;
    var b := Attended(w, t);
    var c := Polled(b, t.now, t.supervisorAlive);
    if !busy && t.request.Some? && !Breaks(b, t) then Started(c, t.request.value.timeout, t.now, t.request.value.queueable) else c
  }

  // ----- the guest's steps -----

  datatype Step =
    | HostTurn(tick: Tick)
    | GuestMake(id: int)                   // makes results/<id> for a request it sees
    | GuestClaim(id: int)                  // moves queue/<id> into results/<id>
    | GuestWrite(id: int, status: string)  // writes results/<id>/status
    | GuestFinish(id: int)                 // publishes results/<id>/done

  /** A step of the run; what the guest may not do does not happen.  While it
      runs a command it looks at no other request, and where the host has removed
      the directory its writes go nowhere. */
  function Do(w: World, s: Step): World {
    match s
    case HostTurn(t) => Turn(w, t)
    case GuestMake(id) => Made(w, id)
    case GuestClaim(id) => Moved(w, id)
    case GuestWrite(id, status) => Published(w, id, status)
    case GuestFinish(id) => Completed(w, id)
  }

  function Made(w: World, id: int): World {
    var c := w.channel;
    if c.busy.None? && id in c.queue && id !in c.results then
      World(w.job, c.(results := c.results[id := Answer(None, false, false)]), w.log + [GuestMade(id)])
    else w
  }

  function Moved(w: World, id: int): World {
    var c := w.channel;
    if c.busy.None? && id in c.queue && id in c.results then
      World(w.job, c.(queue := c.queue - {id}, busy := Some(id)), w.log + [GuestClaimed(id)])
    else w
  }

  function Published(w: World, id: int, status: string): World {
    var c := w.channel;
    if c.busy == Some(id) && id in c.results then
      World(w.job, c.(results := c.results[id := c.results[id].(status := Some(status))]), w.log + [GuestWrote(id, status)])
    else w
  }

  function Completed(w: World, id: int): World {
    var c := w.channel;
    if c.busy != Some(id) then w
    else if id !in c.results then w.(channel := c.(busy := None))
    else if c.results[id].status.Some? then
      World(w.job, c.(results := c.results[id := c.results[id].(done := true)], busy := None), w.log + [GuestFinished(id)])
    else w
  }

  function Run(w: World, steps: seq<Step>): World
    decreases |steps|
  {
    if |steps| == 0 then w else Do(Run(w, steps[..|steps| - 1]), steps[|steps| - 1])
  }

  // ----- the code -----

  class UmDaemon {
    var job: Job
    var channel: Channel
    ghost var log: seq<Event>

    constructor ()
      ensures View() == Initial()
    {
      job, channel, log := Idle(), Channel({}, map[], None), [];
    }

    ghost function View(): World
      reads this
    {
      World(job, channel, log)
    }

    method EndJob(status: int, ghost why: Why)
      modifies this
      ensures View() == Ended(old(View()), status, why)
    {
      if job.client {
        var code;
        if job.timedOut {
          code := 124;
        } else if job.signalled && job.signalNumber > 0 {
          code := 128 + job.signalNumber;
        } else if status < 0 || status > 255 {
          code := 125;
        } else {
          code := status;
        }
        log := log + [Exited(job.id, code, ExitReason(job, why))];
        job := job.(client := false);
      } else {
        log := log + [Unheard(job.id)];
      }
      channel := channel.(results := channel.results - {job.directory});
      job := job.(timedOut := false, killSent := false, signalled := false, signalNumber := 0, deadline := 0, directory := 0,
                  running := false);
    }

    method StartJob(timeout: int, now: int, queueable: bool)
      modifies this
      ensures View() == Started(old(View()), timeout, now, queueable)
    {
      job := job.(client := true, id := job.id + 1, timedOut := false, killSent := false, signalled := false, signalNumber := 0,
                  deadline := if timeout > 0 then now + timeout else 0, claimed := false, queuedAt := now);
      job := job.(directory := job.id);
      if !queueable {
        job := job.(client := false, id := 0);
        log := log + [Refused];
        return;
      }
      channel := channel.(queue := channel.queue + {job.id});
      log := log + [Queued(job.id)];
      job := job.(running := true);
    }

    method PublishKill()
      modifies this
      ensures View() == Kill(old(View()))
    {
      job := job.(killSent := true);
      var d := job.directory;
      if d in channel.results {
        channel := channel.(results := channel.results[d := channel.results[d].(kill := true)]);
        log := log + [Killed(d)];
      } else {
        log := log + [KillLost(d)];
      }
    }

    method JobInput(line: string)
      modifies this
      ensures View() == Heard(old(View()), line)
    {
      if StartsWith(line, "SIGNAL ") {
        var number := Strtol(line[7..]).value;
        if number > 0 && number < 128 && !job.killSent {
          job := job.(signalNumber := number, signalled := true);
          PublishKill();
        }
      }
    }

    method JobDone() returns (done: bool, status: int)
      ensures done == IsDone(View())
      ensures done ==> status == StatusOf(channel.results[job.directory].status)
    {
      status := 125;
      done := job.directory in channel.results && channel.results[job.directory].done;
      if !done {
        return;
      }
      var value := channel.results[job.directory].status;
      if value.Some? && value.value != "" {
        var parsed := Strtol(value.value);
        if parsed.inRange && parsed.end != 0 && parsed.end == |value.value| && parsed.value >= 0 && parsed.value <= 255 {
          status := parsed.value;
        }
      }
    }

    /** -1, that is false, when the session must end. */
    method PollJob(now: int, supervisorAlive: bool) returns (goOn: bool)
      modifies this
      ensures View() == Polled(old(View()), now, supervisorAlive)
      ensures goOn == !Breaks(old(View()), Tick(now, None, false, supervisorAlive, None))
    {
      if !job.running {
        return true;
      }
      if job.directory in channel.results {
        job := job.(claimed := true);
      }
      var done, status := JobDone();
      if done {
        EndJob(status, Reported(channel.results[job.directory].status));
        return true;
      }
      goOn := StillWaiting(now, supervisorAlive);
    }

    /** The rest of um_daemon_poll_job, for a command that is not done. */
    method StillWaiting(now: int, supervisorAlive: bool) returns (goOn: bool)
      modifies this
      ensures View() == Waited(old(View()), now, supervisorAlive)
      ensures goOn == (Hopeless(KillIfLate(old(View()), now).job, now) || supervisorAlive)
    {
      if !job.killSent && job.deadline > 0 && now >= job.deadline {
        job := job.(timedOut := true);
        PublishKill();
      }
      if !job.claimed && now > job.queuedAt + CLAIM_MS {
        EndJob(125, GaveUp);
        return true;
      }
      if job.killSent && job.deadline > 0 && now > job.deadline + GRACE_MS {
        EndJob(125, GaveUp);
        return true;
      }
      if !supervisorAlive {
        EndJob(125, GaveUp);
        return false;
      }
      return true;
    }

    /** One turn of um_daemon_run's loop; false: the loop ends. */
    method TurnOnce(t: Tick) returns (goOn: bool)
      modifies this
      ensures View() == Turn(old(View()), t)
      ensures goOn == !Breaks(Attended(old(View()), t), t)
    {
      var busy := job.running && job.client;
      if busy && t.line.Some? {
        JobInput(t.line.value);
      }
      if busy && t.hangup {
        job := job.(client := false);
      }
      goOn := PollJob(t.now, t.supervisorAlive);
      if !goOn {
        return;
      }
      if !busy && t.request.Some? {
        StartJob(t.request.value.timeout, t.now, t.request.value.queueable);
      }
    }
  }
}

/** The lifecycle service, its queue provider and the grace-window worker, over shared mutable state. */
module SessionService {
  import opened Prelude
  import opened SessionModel
  import L = Lifecycle

  class Clock {
    var now: int

    constructor (now: int)
      ensures this.now == now
    {
      this.now := now;
    }
  }

  class SessionDb {
    var sessions: map<string, Session>
    var eventLog: seq<Event>

    constructor ()
      ensures sessions == map[] && eventLog == []
    {
      sessions, eventLog := map[], [];
    }

    method UpdateSession(id: string, row: Session)
      modifies this`sessions
      ensures sessions == old(sessions)[id := row]
    {
      sessions := sessions[id := row];
    }

    method AppendEvent(e: Event)
      modifies this`eventLog
      ensures eventLog == old(eventLog) + [e]
    {
      eventLog := eventLog + [e];
    }
  }

  datatype QueueError = UnknownQueue(name: string)

  class BullmqQueueProvider {
    const clock: Clock
    var graceWindow: map<string, Job>
    var heartbeatMonitor: map<string, Job>

    constructor (clock: Clock)
      ensures this.clock == clock && graceWindow == map[] && heartbeatMonitor == map[]
    {
      this.clock := clock;
      graceWindow, heartbeatMonitor := map[], map[];
    }

    /** Adds a delayed job to the named queue; a job id that is still pending makes the add a no-op. */
    method EnqueueDelayed(queueName: string, sessionId: string, delayMs: nat, jobId: string)
      returns (r: Result<(), QueueError>)
      modifies this
      ensures r.Ok? <==> queueName in {"heartbeat-monitor", "grace-window"}
      ensures graceWindow ==
              if queueName == "grace-window"
              then L.EnqueueDelayed(old(graceWindow), jobId, Job(sessionId, clock.now + delayMs))
              else old(graceWindow)
      ensures heartbeatMonitor ==
              if queueName == "heartbeat-monitor"
              then L.EnqueueDelayed(old(heartbeatMonitor), jobId, Job(sessionId, clock.now + delayMs))
              else old(heartbeatMonitor)
    {
      var job := Job(sessionId, clock.now + delayMs);
      if queueName == "heartbeat-monitor" {
        if jobId !in heartbeatMonitor {
          heartbeatMonitor := heartbeatMonitor[jobId := job];
        }
        r := Ok(());
      } else if queueName == "grace-window" {
        if jobId !in graceWindow {
          graceWindow := graceWindow[jobId := job];
        }
        r := Ok(());
      } else {
        r := Err(UnknownQueue(queueName));
      }
    }

    method RemoveCompleted(jobId: string)
      modifies this`graceWindow
      ensures graceWindow == old(graceWindow) - {jobId}
    {
      graceWindow := graceWindow - {jobId};
    }
  }

  class SessionService {
    const cfg: Config
    const clock: Clock
    const db: SessionDb
    const queue: BullmqQueueProvider

    constructor (cfg: Config, clock: Clock, db: SessionDb, queue: BullmqQueueProvider)
      requires queue.clock == clock
      ensures Valid()
      ensures this.cfg == cfg && this.clock == clock && this.db == db && this.queue == queue
    {
      this.cfg, this.clock, this.db, this.queue := cfg, clock, db, queue;
    }

    ghost predicate Valid() {
      queue.clock == clock
    }

    ghost function State(): World
      reads clock, db, queue
    {
      World(clock.now, db.sessions, db.eventLog, queue.graceWindow)
    }

    /** The row insertion at the end of startSession. */
    method CreateSession(id: string, roleDurationMinutes: int)
      requires Valid()
      requires id !in db.sessions
      modifies db
      ensures State() == L.Create(old(State()), id, roleDurationMinutes)
    {
      db.UpdateSession(id, Session(NotStarted, roleDurationMinutes, None, None, None, None, clock.now, 0, None, None));
    }

    method BeginSession(id: string, drive: Option<Drive>) returns (r: Result<Session, SessionError>)
      requires Valid()
      modifies db
      ensures (State(), r) == L.Begin(old(State()), id, drive)
    {
      if id !in db.sessions {
        return Err(SessionNotFound);
      }
      var session := db.sessions[id];
      if session.status != NotStarted {
        return Ok(session);
      }
      if drive.Some? && drive.value.scheduleStart.Some? {
        var cutoff := drive.value.scheduleStart.value + 20 * 60 * 1000;
        if clock.now > cutoff {
          return Err(InviteTokenExpired);
        }
      }
      var minutes := session.roleDurationMinutes;
      if drive.Some? && drive.value.modules.Some? {
        var total := TotalEnabledMinutes(drive.value.modules.value);
        if total > 0 {
          minutes := total;
        }
      }
      var now := clock.now;
      var updated := session.(status := InProgress, startedAt := Some(now),
                              deadlineAt := Some(now + minutes * 60 * 1000),
                              lastHeartbeatAt := Some(now), lastActivityAt := now);
      db.UpdateSession(id, updated);
      r := Ok(updated);
    }

    static method TotalEnabledMinutes(modules: seq<ModuleSlot>) returns (total: int)
      ensures total == L.EnabledMinutes(modules)
    {
      total := 0;
      for i := 0 to |modules|
        invariant total + L.EnabledMinutes(modules[i..]) == L.EnabledMinutes(modules)
      {
        assert modules[i..][1..] == modules[i + 1..];
        if modules[i].enabled {
          total := total + modules[i].durationMinutes;
        }
      }
    }

    method Heartbeat(id: string, tabId: string) returns (r: Result<Option<int>, SessionError>)
      requires Valid()
      modifies db
      ensures (State(), r) == L.Heartbeat(old(State()), id, tabId)
    {
      if id !in db.sessions {
        return Err(SessionNotFound);
      }
      var session := db.sessions[id];
      if session.status != InProgress {
        return Err(SessionNotInProgress);
      }
      match session.activeTabId {
        case Some(tab) =>
          if tab != "" && tab != tabId {
            return Err(SecondTabDetected);
          }
        case None =>
      }
      var now := clock.now;
      db.UpdateSession(id, session.(lastHeartbeatAt := Some(now), lastActivityAt := now, activeTabId := Some(tabId)));
      r := Ok(session.deadlineAt);
    }

    method ResumeSession(id: string, tabId: string) returns (r: Result<Session, SessionError>)
      requires Valid()
      modifies db
      ensures (State(), r) == L.Resume(cfg, old(State()), id, tabId)
    {
      if id !in db.sessions {
        return Err(SessionNotFound);
      }
      var session := db.sessions[id];
      if session.status != Disconnected {
        return Err(SessionNotDisconnected);
      }
      if session.disconnectCount >= cfg.maxDisconnectCount {
        return Err(MaxDisconnectsReached);
      }
      if session.disconnectedAt.None? {
        return Err(ResumeWindowExpired);
      }
      var graceCutoff := session.disconnectedAt.value + cfg.graceWindowMs;
      if clock.now > graceCutoff {
        return Err(ResumeWindowExpired);
      }
      var now := clock.now;
      var updated := session.(status := InProgress, activeTabId := Some(tabId), lastHeartbeatAt := Some(now),
                              lastActivityAt := now, disconnectedAt := None);
      db.UpdateSession(id, updated);
      db.AppendEvent(Event(id, ReconnectLogged(tabId), now));
      r := Ok(updated);
    }

    method CloseSession(id: string) returns (r: Result<int, SessionError>)
      requires Valid()
      modifies db
      ensures (State(), r) == L.Close(old(State()), id)
    {
      if id !in db.sessions {
        return Err(SessionNotFound);
      }
      var session := db.sessions[id];
      if session.status !in {InProgress, Disconnected} {
        if session.status == Submitted {
          return Ok(if session.submittedAt.Some? then session.submittedAt.value else clock.now);
        }
        return Err(SessionNotSubmittable);
      }
      var now := clock.now;
      if session.deadlineAt.Some? && now > session.deadlineAt.value {
        return Err(DeadlinePassed);
      }
      db.UpdateSession(id, session.(status := Submitted, submittedAt := Some(now), lastActivityAt := now));
      db.AppendEvent(Event(id, SubmitLogged, now));
      r := Ok(now);
    }

    method MarkDisconnected(id: string)
      requires Valid()
      modifies db, queue
      ensures State() == L.MarkDisconnected(cfg, old(State()), id)
    {
      if id !in db.sessions || db.sessions[id].status != InProgress {
        return;
      }
      var session := db.sessions[id];
      var now := clock.now;
      var newDisconnectCount := session.disconnectCount + 1;
      if newDisconnectCount >= cfg.maxDisconnectCount {
        db.UpdateSession(id, session.(status := AutoSubmitted, submittedAt := Some(now), lastActivityAt := now,
                                      disconnectCount := newDisconnectCount, disconnectedAt := Some(now)));
        db.AppendEvent(Event(id, MaxDisconnectsLogged(newDisconnectCount), now));
        return;
      }
      db.UpdateSession(id, session.(status := Disconnected, disconnectedAt := Some(now), lastActivityAt := now,
                                    disconnectCount := newDisconnectCount, activeTabId := None));
      db.AppendEvent(Event(id, DisconnectLogged(newDisconnectCount), now));
      var _ := queue.EnqueueDelayed("grace-window", id, cfg.graceWindowMs, JobId(id));
    }

    method AutoSubmit(id: string)
      requires Valid()
      modifies db
      ensures State() == L.AutoSubmit(old(State()), id)
    {
      if id !in db.sessions || db.sessions[id].status != Disconnected {
        return;
      }
      var now := clock.now;
      db.UpdateSession(id, db.sessions[id].(status := AutoSubmitted, submittedAt := Some(now), lastActivityAt := now));
      db.AppendEvent(Event(id, GraceExpiryLogged, now));
    }
  }

  class GraceWindowProcessor {
    const port: SessionService

    constructor (port: SessionService)
      ensures this.port == port
    {
      this.port := port;
    }

    /** Handles one delivery of a grace job. */
    method Process(job: Job)
      requires port.Valid()
      modifies port.db
      ensures port.State() == L.AutoSubmit(old(port.State()), job.sessionId)
    {
      port.AutoSubmit(job.sessionId);
    }

    /** A worker turn: a due job is processed and then removed from the queue. */
    method RunDueJob(jobId: string)
      requires port.Valid()
      requires L.Due(port.State(), jobId)
      modifies port.db, port.queue
      ensures port.State() == L.Fire(old(port.State()), jobId)
    {
      Process(port.queue.graceWindow[jobId]);
      port.queue.RemoveCompleted(jobId);
    }
  }
}

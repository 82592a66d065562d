/**
 * The lifecycle steps as functions on the world.  Each step reads a row and then updates the row,
 * the log and the job set as one atomic action.
 */
module Lifecycle {
  import opened Prelude
  import opened SessionModel

  const START_GRACE_MS := 20 * 60 * 1000
  const MS_PER_MINUTE := 60 * 1000

  function NewSession(now: int, roleDurationMinutes: int): Session {
    Session(NotStarted, roleDurationMinutes, None, None, None, None, now, 0, None, None)
  }

  function Create(w: World, id: string, roleDurationMinutes: int): World {
    if id in w.sessions then w
    else w.(sessions := w.sessions[id := NewSession(w.now, roleDurationMinutes)])
  }

  function EnabledMinutes(modules: seq<ModuleSlot>): int {
    if modules == [] then 0
    else (if modules[0].enabled then modules[0].durationMinutes else 0) + EnabledMinutes(modules[1..])
  }

  /** The drive's enabled module minutes when they are positive, else the role template's minutes. */
  function EffectiveMinutes(roleMinutes: int, drive: Option<Drive>): int {
    if drive.Some? && drive.value.modules.Some? && EnabledMinutes(drive.value.modules.value) > 0
    then EnabledMinutes(drive.value.modules.value)
    else roleMinutes
  }

  predicate StartWindowPassed(now: int, drive: Option<Drive>) {
    && drive.Some?
    && drive.value.scheduleStart.Some?
    && now > drive.value.scheduleStart.value + START_GRACE_MS
  }

  function Begin(w: World, id: string, drive: Option<Drive>): (World, Result<Session, SessionError>) {
    if id !in w.sessions then (w, Err(SessionNotFound))
    else
      var s := w.sessions[id];
      if s.status != NotStarted then (w, Ok(s))
      else if StartWindowPassed(w.now, drive) then (w, Err(InviteTokenExpired))
      else
        var deadline := w.now + EffectiveMinutes(s.roleDurationMinutes, drive) * MS_PER_MINUTE;
        var s' := s.(status := InProgress, startedAt := Some(w.now), deadlineAt := Some(deadline),
                     lastHeartbeatAt := Some(w.now), lastActivityAt := w.now);
        (w.(sessions := w.sessions[id := s']), Ok(s'))
  }

  /** A registered tab blocks every other tab; the empty id counts as "no tab". */
  predicate BlockedByTab(s: Session, tabId: string) {
    s.activeTabId.Some? && s.activeTabId.value != "" && s.activeTabId.value != tabId
  }

  function Heartbeat(w: World, id: string, tabId: string): (World, Result<Option<int>, SessionError>) {
    if id !in w.sessions then (w, Err(SessionNotFound))
    else
      var s := w.sessions[id];
      if s.status != InProgress then (w, Err(SessionNotInProgress))
      else if BlockedByTab(s, tabId) then (w, Err(SecondTabDetected))
      else
        var s' := s.(lastHeartbeatAt := Some(w.now), lastActivityAt := w.now, activeTabId := Some(tabId));
        (w.(sessions := w.sessions[id := s']), Ok(s.deadlineAt))
  }

  function Resume(cfg: Config, w: World, id: string, tabId: string): (World, Result<Session, SessionError>) {
    if id !in w.sessions then (w, Err(SessionNotFound))
    else
      var s := w.sessions[id];
      if s.status != Disconnected then (w, Err(SessionNotDisconnected))
      else if s.disconnectCount >= cfg.maxDisconnectCount then (w, Err(MaxDisconnectsReached))
      else if s.disconnectedAt.None? then (w, Err(ResumeWindowExpired))
      else if w.now > s.disconnectedAt.value + cfg.graceWindowMs then (w, Err(ResumeWindowExpired))
      else
        var s' := s.(status := InProgress, activeTabId := Some(tabId), lastHeartbeatAt := Some(w.now),
                     lastActivityAt := w.now, disconnectedAt := None);
        (w.(sessions := w.sessions[id := s'], log := w.log + [Event(id, ReconnectLogged(tabId), w.now)]), Ok(s'))
  }

  /** On success: the submission instant shown to the candidate. */
  function Close(w: World, id: string): (World, Result<int, SessionError>) {
    if id !in w.sessions then (w, Err(SessionNotFound))
    else
      var s := w.sessions[id];
      if s.status == Submitted then (w, Ok(if s.submittedAt.Some? then s.submittedAt.value else w.now))
      else if s.status != InProgress && s.status != Disconnected then (w, Err(SessionNotSubmittable))
      else if s.deadlineAt.Some? && w.now > s.deadlineAt.value then (w, Err(DeadlinePassed))
      else
        var s' := s.(status := Submitted, submittedAt := Some(w.now), lastActivityAt := w.now);
        (w.(sessions := w.sessions[id := s'], log := w.log + [Event(id, SubmitLogged, w.now)]), Ok(w.now))
  }

  /** What the heartbeat scan selects: IN_PROGRESS without a heartbeat since the cutoff. */
  predicate IsStale(s: Session, cutoff: int) {
    s.status == InProgress && (s.lastHeartbeatAt.None? || s.lastHeartbeatAt.value < cutoff)
  }

  /** An add under an id that is still pending is dropped. */
  function EnqueueDelayed(jobs: map<string, Job>, jobId: string, job: Job): map<string, Job> {
    if jobId in jobs then jobs else jobs[jobId := job]
  }

  function MarkDisconnected(cfg: Config, w: World, id: string): World {
    if id !in w.sessions || w.sessions[id].status != InProgress then w
    else
      var s := w.sessions[id];
      var n := s.disconnectCount + 1;
      if n >= cfg.maxDisconnectCount then
        var s' := s.(status := AutoSubmitted, submittedAt := Some(w.now), lastActivityAt := w.now,
                     disconnectCount := n, disconnectedAt := Some(w.now));
        w.(sessions := w.sessions[id := s'], log := w.log + [Event(id, MaxDisconnectsLogged(n), w.now)])
      else
        var s' := s.(status := Disconnected, disconnectedAt := Some(w.now), lastActivityAt := w.now,
                     disconnectCount := n, activeTabId := None);
        w.(sessions := w.sessions[id := s'],
           log := w.log + [Event(id, DisconnectLogged(n), w.now)],
           jobs := EnqueueDelayed(w.jobs, JobId(id), Job(id, w.now + cfg.graceWindowMs)))
  }

  function AutoSubmit(w: World, id: string): World {
    if id !in w.sessions || w.sessions[id].status != Disconnected then w
    else
      var s' := w.sessions[id].(status := AutoSubmitted, submittedAt := Some(w.now), lastActivityAt := w.now);
      w.(sessions := w.sessions[id := s'], log := w.log + [Event(id, GraceExpiryLogged, w.now)])
  }

  predicate Due(w: World, jobId: string) {
    jobId in w.jobs && w.jobs[jobId].dueAt <= w.now
  }

  /** A due job runs the grace-window worker once and is removed on completion. */
  function Fire(w: World, jobId: string): World {
    if !Due(w, jobId) then w
    else
      var w' := AutoSubmit(w, w.jobs[jobId].sessionId);
      w'.(jobs := w'.jobs - {jobId})
  }

  /** AutoSubmitStep is a direct call of the worker's target, for example a job delivered twice. */
  datatype Step =
    | CreateStep(id: string, roleDurationMinutes: int)
    | BeginStep(id: string, drive: Option<Drive>)
    | HeartbeatStep(id: string, tabId: string)
    | ResumeStep(id: string, tabId: string)
    | CloseStep(id: string)
    | MarkDisconnectedStep(id: string)
    | AutoSubmitStep(id: string)
    | FireStep(jobId: string)
    | TickStep(elapsed: nat)

  function Apply(cfg: Config, w: World, step: Step): World {
    match step
    case CreateStep(id, minutes) => Create(w, id, minutes)
    case BeginStep(id, drive) => Begin(w, id, drive).0
    case HeartbeatStep(id, tabId) => Heartbeat(w, id, tabId).0
    case ResumeStep(id, tabId) => Resume(cfg, w, id, tabId).0
    case CloseStep(id) => Close(w, id).0
    case MarkDisconnectedStep(id) => MarkDisconnected(cfg, w, id)
    case AutoSubmitStep(id) => AutoSubmit(w, id)
    case FireStep(jobId) => Fire(w, jobId)
    case TickStep(elapsed) => w.(now := w.now + elapsed)
  }

  function Run(cfg: Config, w: World, steps: seq<Step>): World
    decreases |steps|
  {
    if steps == [] then w else Run(cfg, Apply(cfg, w, steps[0]), steps[1..])
  }

  function EmptyWorld(now: int): World {
    World(now, map[], [], map[])
  }

  lemma {:induction false} RunAppend(cfg: Config, w: World, a: seq<Step>, b: seq<Step>)
    ensures Run(cfg, w, a + b) == Run(cfg, Run(cfg, w, a), b)
    decreases |a|
  {
    if a == [] {
      assert a + b == b;
    } else {
      assert (a + b)[0] == a[0] && (a + b)[1..] == a[1..] + b;
      RunAppend(cfg, Apply(cfg, w, a[0]), a[1..], b);
    }
  }
}

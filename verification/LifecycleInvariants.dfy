/** What every run of lifecycle steps keeps: row shape, log agreement and grace-job coverage. */
module LifecycleInvariants {
  import opened Prelude
  import opened SessionModel
  import opened Lifecycle

  /** The number of disconnects that ends a session: a limit below one acts like one. */
  function Cap(cfg: Config): nat {
    if cfg.maxDisconnectCount < 1 then 1 else cfg.maxDisconnectCount
  }

  predicate At(t: Option<int>, lo: int, hi: int) {
    t.Some? && lo <= t.value <= hi
  }

  /** Field agreement for one row at clock reading `now`. */
  predicate RowOk(cfg: Config, now: int, s: Session) {
    match s.status
    case NotStarted =>
      && s.startedAt.None? && s.deadlineAt.None? && s.submittedAt.None?
      && s.disconnectedAt.None? && s.activeTabId.None? && s.disconnectCount == 0
    case InProgress =>
      && s.startedAt.Some? && s.startedAt.value <= now && s.deadlineAt.Some?
      && s.disconnectedAt.None? && s.submittedAt.None? && s.lastHeartbeatAt.Some?
      && s.disconnectCount < Cap(cfg)
    case Disconnected =>
      && s.startedAt.Some? && s.deadlineAt.Some? && At(s.disconnectedAt, s.startedAt.value, now)
      && s.submittedAt.None? && s.activeTabId.None?
      && 1 <= s.disconnectCount < Cap(cfg)
    case Submitted =>
      && s.startedAt.Some? && s.deadlineAt.Some?
      && At(s.submittedAt, s.startedAt.value, now) && s.submittedAt.value <= s.deadlineAt.value
      && s.disconnectCount < Cap(cfg)
    case AutoSubmitted =>
      && s.startedAt.Some? && s.deadlineAt.Some?
      && At(s.submittedAt, s.startedAt.value, now)
      && At(s.disconnectedAt, s.startedAt.value, s.submittedAt.value)
      && 1 <= s.disconnectCount <= Cap(cfg)
    case Abandoned => false
    case Closed => false
  }

  /** A DISCONNECTED session has a pending grace job due no later than its resume cutoff. */
  predicate Covered(cfg: Config, w: World, id: string)
    requires id in w.sessions
  {
    var s := w.sessions[id];
    s.status == Disconnected ==>
      && s.disconnectedAt.Some?
      && JobId(id) in w.jobs
      && w.jobs[JobId(id)].dueAt <= s.disconnectedAt.value + cfg.graceWindowMs
  }

  predicate JobOk(cfg: Config, w: World, jobId: string)
    requires jobId in w.jobs
  {
    && jobId == JobId(w.jobs[jobId].sessionId)
    && w.jobs[jobId].sessionId in w.sessions
    && w.jobs[jobId].dueAt <= w.now + cfg.graceWindowMs
  }

  // ---- Replaying the log ----

  datatype Replayed = Replayed(status: Status, count: nat, disconnectedAt: Option<int>, submittedAt: Option<int>)

  /** One log row applied to a begun session; an event that does not fit gives None. */
  function ApplyEvent(r: Replayed, e: Event): Option<Replayed> {
    match e.kind
    case DisconnectLogged(n) =>
      if r.status == InProgress && n == r.count + 1
      then Some(Replayed(Disconnected, n, Some(e.occurredAt), r.submittedAt)) else None
    case ReconnectLogged(_) =>
      if r.status == Disconnected then Some(r.(status := InProgress, disconnectedAt := None)) else None
    case SubmitLogged =>
      if r.status in {InProgress, Disconnected}
      then Some(r.(status := Submitted, submittedAt := Some(e.occurredAt))) else None
    case MaxDisconnectsLogged(n) =>
      if r.status == InProgress && n == r.count + 1
      then Some(Replayed(AutoSubmitted, n, Some(e.occurredAt), Some(e.occurredAt))) else None
    case GraceExpiryLogged =>
      if r.status == Disconnected
      then Some(r.(status := AutoSubmitted, submittedAt := Some(e.occurredAt))) else None
  }

  /** Strict replay of one session's events from (IN_PROGRESS, 0). */
  function Replay(log: seq<Event>, id: string): Option<Replayed> {
    if log == [] then Some(Replayed(InProgress, 0, None, None))
    else
      var r := Replay(log[..|log| - 1], id);
      var e := log[|log| - 1];
      if r.None? || e.sessionId != id then r else ApplyEvent(r.value, e)
  }

  lemma ReplaySnoc(log: seq<Event>, e: Event, id: string)
    ensures Replay(log + [e], id) ==
            (var r := Replay(log, id); if r.None? || e.sessionId != id then r else ApplyEvent(r.value, e))
  {
    assert (log + [e])[..|log|] == log;
  }

  predicate SilentFor(log: seq<Event>, id: string) {
    forall i :: 0 <= i < |log| ==> log[i].sessionId != id
  }

  lemma {:induction false} ReplaySilent(log: seq<Event>, id: string)
    requires SilentFor(log, id)
    ensures Replay(log, id) == Some(Replayed(InProgress, 0, None, None))
  {
    if log != [] {
      ReplaySilent(log[..|log| - 1], id);
    }
  }

  /** Before begin a session has no events; afterwards replaying its events rebuilds the row. */
  predicate LogAgrees(w: World, id: string)
    requires id in w.sessions
  {
    var s := w.sessions[id];
    if s.status == NotStarted then SilentFor(w.log, id)
    else Replay(w.log, id) == Some(Replayed(s.status, s.disconnectCount, s.disconnectedAt, s.submittedAt))
  }

  predicate LogBelongs(w: World) {
    forall i :: 0 <= i < |w.log| ==> w.log[i].sessionId in w.sessions && w.log[i].occurredAt <= w.now
  }

  ghost predicate Inv(cfg: Config, w: World) {
    && (forall id :: id in w.sessions ==> RowOk(cfg, w.now, w.sessions[id]))
    && (forall id :: id in w.sessions ==> Covered(cfg, w, id))
    && (forall id :: id in w.sessions ==> LogAgrees(w, id))
    && (forall j :: j in w.jobs ==> JobOk(cfg, w, j))
    && LogBelongs(w)
  }

  lemma EmptyInv(cfg: Config, now: int)
    ensures Inv(cfg, EmptyWorld(now))
  {
  }

  lemma OthersLogAgrees(w: World, w': World, id: string, events: seq<Event>)
    requires forall k :: k in w.sessions ==> LogAgrees(w, k)
    requires forall k :: k in w.sessions && k != id ==> k in w'.sessions && w'.sessions[k] == w.sessions[k]
    requires w'.log == w.log + events
    requires |events| <= 1 && (|events| == 1 ==> events[0].sessionId == id)
    ensures forall k :: k in w.sessions && k != id ==> LogAgrees(w', k)
  {
    hide Replay;
    forall k | k in w.sessions && k != id
      ensures LogAgrees(w', k)
    {
      assert LogAgrees(w, k);
      if events == [] {
        assert w'.log == w.log;
      } else {
        ReplaySnoc(w.log, events[0], k);
        assert events == [events[0]];
      }
    }
  }

  /** A step that writes one row, logs at most one event and drops no job keeps the invariant. */
  lemma WriteKeepsInv(cfg: Config, w: World, w': World, id: string, row: Session, events: seq<Event>)
    requires Inv(cfg, w)
    requires w'.now == w.now && w'.sessions == w.sessions[id := row] && w'.log == w.log + events
    requires |events| <= 1 && (|events| == 1 ==> events[0].sessionId == id && events[0].occurredAt == w.now)
    requires RowOk(cfg, w.now, row) && Covered(cfg, w', id) && LogAgrees(w', id)
    requires forall j :: j in w.jobs ==> j in w'.jobs && w'.jobs[j] == w.jobs[j]
    requires forall j :: j in w'.jobs && j !in w.jobs ==> JobOk(cfg, w', j)
    ensures Inv(cfg, w')
  {
    hide RowOk, LogAgrees, Replay, SilentFor;
    OthersLogAgrees(w, w', id, events);
    forall k | k in w'.sessions && k != id
      ensures Covered(cfg, w', k)
    {
      assert Covered(cfg, w, k);
    }
    forall j | j in w'.jobs
      ensures JobOk(cfg, w', j)
    {
      if j in w.jobs {
        assert JobOk(cfg, w, j);
      }
    }
  }

  lemma CreateKeepsInv(cfg: Config, w: World, id: string, minutes: int)
    requires Inv(cfg, w)
    ensures Inv(cfg, Create(w, id, minutes))
  {
  }

  lemma BeginKeepsInv(cfg: Config, w: World, id: string, drive: Option<Drive>)
    requires Inv(cfg, w)
    ensures Inv(cfg, Begin(w, id, drive).0)
  {
    hide Replay, EffectiveMinutes, StartWindowPassed;
    var w' := Begin(w, id, drive).0;
    if w' != w {
      assert RowOk(cfg, w.now, w.sessions[id]) && LogAgrees(w, id);
      assert w'.log == w.log + [];
      ReplaySilent(w.log, id);
      WriteKeepsInv(cfg, w, w', id, w'.sessions[id], []);
    }
  }

  lemma HeartbeatKeepsInv(cfg: Config, w: World, id: string, tabId: string)
    requires Inv(cfg, w)
    ensures Inv(cfg, Heartbeat(w, id, tabId).0)
  {
  }

  lemma ResumeKeepsInv(cfg: Config, w: World, id: string, tabId: string)
    requires Inv(cfg, w)
    ensures Inv(cfg, Resume(cfg, w, id, tabId).0)
  {
    hide Replay;
    var w' := Resume(cfg, w, id, tabId).0;
    if w' != w {
      assert RowOk(cfg, w.now, w.sessions[id]) && LogAgrees(w, id);
      var e := Event(id, ReconnectLogged(tabId), w.now);
      ReplaySnoc(w.log, e, id);
      WriteKeepsInv(cfg, w, w', id, w'.sessions[id], [e]);
    }
  }

  lemma CloseKeepsInv(cfg: Config, w: World, id: string)
    requires Inv(cfg, w)
    ensures Inv(cfg, Close(w, id).0)
  {
    hide Replay;
    var w' := Close(w, id).0;
    if w' != w {
      assert RowOk(cfg, w.now, w.sessions[id]) && LogAgrees(w, id);
      var e := Event(id, SubmitLogged, w.now);
      ReplaySnoc(w.log, e, id);
      WriteKeepsInv(cfg, w, w', id, w'.sessions[id], [e]);
    }
  }

  lemma MarkDisconnectedKeepsInv(cfg: Config, w: World, id: string)
    requires Inv(cfg, w)
    ensures Inv(cfg, MarkDisconnected(cfg, w, id))
  {
    hide Replay;
    var w' := MarkDisconnected(cfg, w, id);
    if w' != w {
      assert RowOk(cfg, w.now, w.sessions[id]) && LogAgrees(w, id);
      var n := w.sessions[id].disconnectCount + 1;
      var kind := if n >= cfg.maxDisconnectCount then MaxDisconnectsLogged(n) else DisconnectLogged(n);
      var e := Event(id, kind, w.now);
      ReplaySnoc(w.log, e, id);
      if JobId(id) in w.jobs {
        assert JobOk(cfg, w, JobId(id));
      }
      WriteKeepsInv(cfg, w, w', id, w'.sessions[id], [e]);
    }
  }

  lemma AutoSubmitKeepsInv(cfg: Config, w: World, id: string)
    requires Inv(cfg, w)
    ensures Inv(cfg, AutoSubmit(w, id))
  {
    hide Replay;
    var w' := AutoSubmit(w, id);
    if w' != w {
      assert RowOk(cfg, w.now, w.sessions[id]) && LogAgrees(w, id);
      var e := Event(id, GraceExpiryLogged, w.now);
      ReplaySnoc(w.log, e, id);
      WriteKeepsInv(cfg, w, w', id, w'.sessions[id], [e]);
    }
  }

  lemma FireKeepsInv(cfg: Config, w: World, jobId: string)
    requires Inv(cfg, w)
    ensures Inv(cfg, Fire(w, jobId))
  {
    if Due(w, jobId) {
      var owner := w.jobs[jobId].sessionId;
      AutoSubmitKeepsInv(cfg, w, owner);
      assert JobOk(cfg, w, jobId);
      var mid := AutoSubmit(w, owner);
      var w' := Fire(w, jobId);
      assert w' == mid.(jobs := mid.jobs - {jobId});
      assert !HasDisconnected(mid, owner);
      DropJobKeepsInv(cfg, mid, jobId, owner);
    }
  }

  predicate HasDisconnected(w: World, id: string) {
    id in w.sessions && w.sessions[id].status == Disconnected
  }

  /** The grace job of a session that is not DISCONNECTED can go. */
  lemma DropJobKeepsInv(cfg: Config, w: World, jobId: string, owner: string)
    requires Inv(cfg, w) && jobId == JobId(owner) && !HasDisconnected(w, owner)
    ensures Inv(cfg, w.(jobs := w.jobs - {jobId}))
  {
    hide RowOk, Replay, SilentFor;
    var w' := w.(jobs := w.jobs - {jobId});
    forall k | k in w'.sessions
      ensures Covered(cfg, w', k) && LogAgrees(w', k)
    {
      assert Covered(cfg, w, k) && LogAgrees(w, k);
      if JobId(k) == jobId {
        JobIdInjective(k, owner);
      }
    }
    forall j | j in w'.jobs
      ensures JobOk(cfg, w', j)
    {
      assert JobOk(cfg, w, j);
    }
  }

  lemma TickKeepsInv(cfg: Config, w: World, elapsed: nat)
    requires Inv(cfg, w)
    ensures Inv(cfg, w.(now := w.now + elapsed))
  {
  }

  lemma StepKeepsInv(cfg: Config, w: World, step: Step)
    requires Inv(cfg, w)
    ensures Inv(cfg, Apply(cfg, w, step))
  {
    hide Inv, Create, Begin, Heartbeat, Resume, Close, MarkDisconnected, AutoSubmit, Fire;
    match step
    case CreateStep(id, minutes) => CreateKeepsInv(cfg, w, id, minutes);
    case BeginStep(id, drive) => BeginKeepsInv(cfg, w, id, drive);
    case HeartbeatStep(id, tabId) => HeartbeatKeepsInv(cfg, w, id, tabId);
    case ResumeStep(id, tabId) => ResumeKeepsInv(cfg, w, id, tabId);
    case CloseStep(id) => CloseKeepsInv(cfg, w, id);
    case MarkDisconnectedStep(id) => MarkDisconnectedKeepsInv(cfg, w, id);
    case AutoSubmitStep(id) => AutoSubmitKeepsInv(cfg, w, id);
    case FireStep(jobId) => FireKeepsInv(cfg, w, jobId);
    case TickStep(elapsed) => TickKeepsInv(cfg, w, elapsed);
  }

  lemma {:induction false} RunKeepsInv(cfg: Config, w: World, steps: seq<Step>)
    requires Inv(cfg, w)
    ensures Inv(cfg, Run(cfg, w, steps))
    decreases |steps|
  {
    hide Inv, Apply;
    if steps != [] {
      StepKeepsInv(cfg, w, steps[0]);
      RunKeepsInv(cfg, Apply(cfg, w, steps[0]), steps[1..]);
    }
  }
}

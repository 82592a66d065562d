/** Theorems about every run of lifecycle steps. */
module LifecycleTheorems {
  import opened Prelude
  import opened SessionModel
  import opened StateMachine
  import opened Lifecycle
  import opened LifecycleInvariants

  // ---- Reachable states ----

  /** In every world reached from an empty one, stored rows have the shape their status promises. */
  lemma ReachableRowShape(cfg: Config, start: int, steps: seq<Step>, id: string)
    requires id in Run(cfg, EmptyWorld(start), steps).sessions
    ensures var w := Run(cfg, EmptyWorld(start), steps);
            var s := w.sessions[id];
            && (s.status == InProgress ==>
                  s.startedAt.Some? && s.deadlineAt.Some? && s.disconnectedAt.None? && s.disconnectCount < Cap(cfg))
            && (s.status == Disconnected ==>
                  s.disconnectedAt.Some? && s.activeTabId.None? && 1 <= s.disconnectCount < Cap(cfg))
            && (s.status == Submitted ==>
                  && s.startedAt.Some? && s.submittedAt.Some? && s.deadlineAt.Some?
                  && s.startedAt.value <= s.submittedAt.value <= s.deadlineAt.value)
            && (s.status == AutoSubmitted ==> 1 <= s.disconnectCount <= Cap(cfg) && s.disconnectedAt.Some?)
            && s.status !in {Abandoned, Closed}
  {
    EmptyInv(cfg, start);
    RunKeepsInv(cfg, EmptyWorld(start), steps);
    assert RowOk(cfg, Run(cfg, EmptyWorld(start), steps).now, Run(cfg, EmptyWorld(start), steps).sessions[id]);
  }

  /** Replaying the log of a begun session gives its stored status, count and time stamps. */
  lemma ReachableLogRebuildsRow(cfg: Config, start: int, steps: seq<Step>, id: string)
    requires id in Run(cfg, EmptyWorld(start), steps).sessions
    requires Run(cfg, EmptyWorld(start), steps).sessions[id].status != NotStarted
    ensures var w := Run(cfg, EmptyWorld(start), steps);
            var s := w.sessions[id];
            Replay(w.log, id) == Some(Replayed(s.status, s.disconnectCount, s.disconnectedAt, s.submittedAt))
  {
    EmptyInv(cfg, start);
    RunKeepsInv(cfg, EmptyWorld(start), steps);
    assert LogAgrees(Run(cfg, EmptyWorld(start), steps), id);
  }

  /** Grace coverage, although adds under a pending job id are dropped. */
  lemma ReachableGraceCoverage(cfg: Config, start: int, steps: seq<Step>, id: string)
    requires id in Run(cfg, EmptyWorld(start), steps).sessions
    requires Run(cfg, EmptyWorld(start), steps).sessions[id].status == Disconnected
    ensures var w := Run(cfg, EmptyWorld(start), steps);
            var s := w.sessions[id];
            && s.disconnectedAt.Some?
            && JobId(id) in w.jobs
            && w.jobs[JobId(id)].sessionId == id
            && w.jobs[JobId(id)].dueAt <= s.disconnectedAt.value + cfg.graceWindowMs
  {
    EmptyInv(cfg, start);
    RunKeepsInv(cfg, EmptyWorld(start), steps);
    var w := Run(cfg, EmptyWorld(start), steps);
    assert Covered(cfg, w, id) && JobOk(cfg, w, JobId(id));
    JobIdInjective(id, w.jobs[JobId(id)].sessionId);
  }

  ghost predicate Settled(w: World) {
    forall j :: j in w.jobs ==> !Due(w, j)
  }

  /** Once every due job has run, each DISCONNECTED session is still before its cutoff and can be resumed. */
  lemma SettledMeansResumable(cfg: Config, w: World, id: string, tabId: string)
    requires Inv(cfg, w) && Settled(w)
    requires id in w.sessions && w.sessions[id].status == Disconnected
    ensures w.sessions[id].disconnectedAt.Some?
    ensures w.now < w.sessions[id].disconnectedAt.value + cfg.graceWindowMs
    ensures Resume(cfg, w, id, tabId).1.Ok?
  {
  }

  /** What running the due jobs makes of one row. */
  function Drained(w: World, id: string): Session
    requires id in w.sessions
  {
    var s := w.sessions[id];
    if s.status == Disconnected && Due(w, JobId(id))
    then s.(status := AutoSubmitted, submittedAt := Some(w.now), lastActivityAt := w.now)
    else s
  }

  ghost predicate DrainedInto(w: World, w': World) {
    && w'.sessions.Keys == w.sessions.Keys
    && (forall id :: id in w.sessions ==> w'.sessions[id] == Drained(w, id))
  }

  lemma FireThenDrain(cfg: Config, w: World, j: string, w': World)
    requires Inv(cfg, w) && Due(w, j) && DrainedInto(Fire(w, j), w')
    ensures DrainedInto(w, w')
  {
    hide RowOk, LogAgrees, Covered, LogBelongs;
    assert JobOk(cfg, w, j);
    assert Fire(w, j).sessions.Keys == w.sessions.Keys;
    forall id | id in w.sessions
      ensures w'.sessions[id] == Drained(w, id)
    {
      if JobId(id) == j {
        JobIdInjective(id, w.jobs[j].sessionId);
      }
      assert Drained(Fire(w, j), id) == Drained(w, id);
    }
  }

  lemma SettledIsDrained(w: World)
    requires Settled(w)
    ensures DrainedInto(w, w)
  {
  }

  /** The worker takes the listed jobs one after the other. */
  function FireAll(w: World, jobIds: seq<string>): World
    decreases |jobIds|
  {
    if jobIds == [] then w else FireAll(Fire(w, jobIds[0]), jobIds[1..])
  }

  /** Firing the due jobs settles the queue; it submits exactly the sessions whose job was due. */
  lemma {:induction false} DrainSettles(cfg: Config, w: World) returns (jobIds: seq<string>)
    requires Inv(cfg, w)
    ensures Settled(FireAll(w, jobIds)) && DrainedInto(w, FireAll(w, jobIds))
    decreases |w.jobs|
  {
    if Settled(w) {
      jobIds := [];
      SettledIsDrained(w);
    } else {
      var j :| j in w.jobs && Due(w, j);
      FireKeepsInv(cfg, w, j);
      FireRemoves(w, j);
      var rest := DrainSettles(cfg, Fire(w, j));
      jobIds := [j] + rest;
      assert jobIds[1..] == rest;
      FireThenDrain(cfg, w, j, FireAll(Fire(w, j), rest));
    }
  }

  /** Every order of deliveries that leaves no job due ends in the same rows. */
  lemma {:induction false} EveryOrderDrains(cfg: Config, w: World, jobIds: seq<string>)
    requires Inv(cfg, w) && Settled(FireAll(w, jobIds))
    ensures DrainedInto(w, FireAll(w, jobIds))
    decreases |jobIds|
  {
    hide Inv, DrainedInto, Due;
    if jobIds == [] {
      SettledIsDrained(w);
    } else {
      FireKeepsInv(cfg, w, jobIds[0]);
      EveryOrderDrains(cfg, Fire(w, jobIds[0]), jobIds[1..]);
      if Due(w, jobIds[0]) {
        FireThenDrain(cfg, w, jobIds[0], FireAll(w, jobIds));
      }
    }
  }

  lemma FireRemoves(w: World, j: string)
    requires Due(w, j)
    ensures |Fire(w, j).jobs| < |w.jobs|
  {
  }

  /** In reachable worlds resume succeeds exactly inside the grace window; the count check never acts. */
  lemma ResumeOutcome(cfg: Config, w: World, id: string, tabId: string)
    requires Inv(cfg, w)
    ensures var r := Resume(cfg, w, id, tabId).1;
            && r != Err(MaxDisconnectsReached)
            && (r == Err(SessionNotFound) <==> id !in w.sessions)
            && (r.Ok? <==> id in w.sessions && w.sessions[id].status == Disconnected
                           && w.sessions[id].disconnectedAt.Some?
                           && w.now <= w.sessions[id].disconnectedAt.value + cfg.graceWindowMs)
            && (r == Err(ResumeWindowExpired) ==>
                  w.sessions[id].disconnectedAt.Some?
                  && Due(w, JobId(id)))
  {
  }

  // ---- Effect of one step on one row ----

  predicate SameStamps(s: Session, s': Session) {
    s'.startedAt == s.startedAt && s'.deadlineAt == s.deadlineAt
  }

  /** The edges of the protocol, with the counter, the tab and the stamps each of them writes. */
  predicate RowStep(cfg: Config, now: int, s: Session, s': Session) {
    || s' == s
    || (&& s.status == NotStarted && s'.status == InProgress && s'.lastActivityAt == now
        && s'.startedAt == Some(now) && s'.deadlineAt.Some? && s'.lastHeartbeatAt == Some(now)
        && s'.submittedAt == s.submittedAt && s'.disconnectedAt == s.disconnectedAt
        && s'.activeTabId == s.activeTabId && s'.disconnectCount == s.disconnectCount)
    || (&& SameStamps(s, s') && s'.lastActivityAt == now
        && match (s.status, s'.status)
           case (InProgress, InProgress) =>
             && s'.disconnectCount == s.disconnectCount && s'.lastHeartbeatAt == Some(now) && s'.activeTabId.Some?
             && s'.disconnectedAt == s.disconnectedAt && s'.submittedAt == s.submittedAt
           case (InProgress, Disconnected) =>
             && s'.disconnectCount == s.disconnectCount + 1 < Cap(cfg) && s'.activeTabId.None?
             && s'.disconnectedAt == Some(now) && s'.submittedAt == s.submittedAt
           case (InProgress, AutoSubmitted) =>
             && s'.disconnectCount == s.disconnectCount + 1 >= Cap(cfg)
             && s'.disconnectedAt == Some(now) && s'.submittedAt == Some(now)
           case (Disconnected, InProgress) =>
             && s'.disconnectCount == s.disconnectCount && s'.activeTabId.Some? && s'.lastHeartbeatAt == Some(now)
             && s'.disconnectedAt.None? && s'.submittedAt == s.submittedAt
           case (from, to) =>
             && (from, to) in {(InProgress, Submitted), (Disconnected, Submitted), (Disconnected, AutoSubmitted)}
             && s'.disconnectCount == s.disconnectCount && s'.activeTabId == s.activeTabId
             && s'.disconnectedAt == s.disconnectedAt && s'.submittedAt == Some(now))
  }

  lemma StepIsRowStep(cfg: Config, w: World, step: Step, id: string)
    requires id in w.sessions
    ensures id in Apply(cfg, w, step).sessions
    ensures RowStep(cfg, w.now, w.sessions[id], Apply(cfg, w, step).sessions[id])
  {
  }

  /** The step delivers the session's due grace job, or is a direct call with the same effect. */
  predicate Expires(w: World, step: Step, id: string) {
    || step == AutoSubmitStep(id)
    || (step.FireStep? && Due(w, step.jobId) && w.jobs[step.jobId].sessionId == id)
  }

  predicate BeforeDeadline(w: World, s: Session) {
    s.deadlineAt.Some? ==> w.now <= s.deadlineAt.value
  }

  /** Exactly which step makes each status change of a row. */
  lemma StatusCauses(cfg: Config, w: World, step: Step, id: string)
    requires id in w.sessions
    ensures var from, to := w.sessions[id].status, Apply(cfg, w, step).sessions[id].status;
            var s := w.sessions[id];
            && (from == NotStarted != to <==>
                  from == NotStarted && step.BeginStep? && step.id == id && !StartWindowPassed(w.now, step.drive))
            && (from == InProgress && to == Disconnected <==>
                  from == InProgress && step == MarkDisconnectedStep(id) && s.disconnectCount + 1 < Cap(cfg))
            && (from == InProgress && to == AutoSubmitted <==>
                  from == InProgress && step == MarkDisconnectedStep(id) && s.disconnectCount + 1 >= Cap(cfg))
            && (from == Disconnected && to == AutoSubmitted <==> from == Disconnected && Expires(w, step, id))
            && (from in {InProgress, Disconnected} && to == Submitted <==>
                  from in {InProgress, Disconnected} && step == CloseStep(id) && BeforeDeadline(w, s))
            && (from == Disconnected && to == InProgress <==>
                  step.ResumeStep? && step.id == id && Resume(cfg, w, id, step.tabId).1.Ok?)
  {
  }

  /** Which steps can change a row's tab, and when a close or the clock can act. */
  lemma StepCauses(cfg: Config, w: World, step: Step, id: string)
    requires id in w.sessions
    ensures var s := w.sessions[id];
            var s' := Apply(cfg, w, step).sessions[id];
            && (s'.activeTabId != s.activeTabId ==>
                  || (step.HeartbeatStep? && step.id == id && s.status == InProgress && !BlockedByTab(s, step.tabId))
                  || (step.ResumeStep? && step.id == id && s.status == Disconnected)
                  || (step == MarkDisconnectedStep(id) && s.status == InProgress && s'.status == Disconnected))
            && (s.status == Disconnected && s'.status == InProgress ==> step.ResumeStep? && step.id == id)
            && (s.status == InProgress && s'.status == InProgress && BlockedByTab(s, "") ==>
                  s'.activeTabId == s.activeTabId)
            && (s.status != Submitted && s'.status == Submitted ==> step == CloseStep(id) && BeforeDeadline(w, s))
            && w.now <= Apply(cfg, w, step).now
  {
  }

  /** A status change leaves the reference table iff it is the close of a DISCONNECTED session not past its deadline. */
  lemma ChangesAreTableEdges(cfg: Config, w: World, step: Step, id: string)
    requires id in w.sessions
    ensures var s := w.sessions[id];
            var to := Apply(cfg, w, step).sessions[id].status;
            && (to != s.status && Transition(s.status, to) != Ok(to)
                <==> step == CloseStep(id) && s.status == Disconnected && BeforeDeadline(w, s))
            && (to != s.status && Transition(s.status, to) != Ok(to) ==> to == Submitted)
  {
  }

  /** The exception occurs: any DISCONNECTED session not past its deadline can be closed. */
  lemma DisconnectedCloseLeavesTable(w: World, id: string)
    requires id in w.sessions && w.sessions[id].status == Disconnected && BeforeDeadline(w, w.sessions[id])
    ensures Close(w, id).0.sessions[id].status == Submitted
    ensures Transition(Disconnected, Submitted) == Err(InvalidStateTransition(Disconnected, Submitted))
  {
  }

  // ---- The disconnect instant ----

  /** The architecture plan's reading of the column: null unless the status is DISCONNECTED. */
  predicate InstantOnlyWhenDisconnected(s: Session) {
    s.disconnectedAt.Some? ==> s.status == Disconnected
  }

  /** An expiry or an accepted close of a DISCONNECTED row, or the disconnect that reaches the limit. */
  predicate LeavesInstantSet(cfg: Config, w: World, step: Step, id: string)
    requires id in w.sessions
  {
    var s := w.sessions[id];
    || (s.status == Disconnected && Expires(w, step, id))
    || (s.status == Disconnected && step == CloseStep(id) && BeforeDeadline(w, s))
    || (s.status == InProgress && step == MarkDisconnectedStep(id) && s.disconnectCount + 1 >= Cap(cfg))
  }

  /** A row that follows the plan goes on doing so exactly under the steps that are none of these three. */
  lemma InstantKeptIff(cfg: Config, w: World, step: Step, id: string)
    requires Inv(cfg, w) && id in w.sessions && InstantOnlyWhenDisconnected(w.sessions[id])
    ensures id in Apply(cfg, w, step).sessions
    ensures InstantOnlyWhenDisconnected(Apply(cfg, w, step).sessions[id]) <==> !LeavesInstantSet(cfg, w, step, id)
  {
    hide Apply, Expires, BeforeDeadline, Resume;
    assert RowOk(cfg, w.now, w.sessions[id]);
    StepIsRowStep(cfg, w, step, id);
    StatusCauses(cfg, w, step, id);
  }

  lemma RunTwo(cfg: Config, w: World, a: Step, b: Step)
    ensures Run(cfg, w, [a, b]) == Apply(cfg, Apply(cfg, w, a), b)
  {
    hide Apply;
    assert [a, b][1..] == [b] && [b][1..] == [];
    assert Run(cfg, Apply(cfg, w, a), [b]) == Apply(cfg, Apply(cfg, w, a), b);
  }

  /** A session begun and then silent. */
  function Silent(start: int, id: string, silence: nat): World {
    After(Begin(Create(EmptyWorld(start), id, silence + 1), id, None).0, silence)
  }

  lemma SilentThenClosed(cfg: Config, start: int, id: string, silence: nat)
    requires cfg.maxDisconnectCount >= 2
    ensures var found := Silent(start, id, silence);
            var closed := Close(MarkDisconnected(cfg, found, id), id).0;
            && id in found.sessions && found.sessions[id].status == InProgress
            && found.sessions[id].lastHeartbeatAt == Some(found.now - silence)
            && id in closed.sessions && closed.now == found.now
            && closed.sessions[id].status == Submitted && closed.sessions[id].disconnectedAt == Some(found.now)
  {
  }

  /** A session the scan finds stale and the candidate then closes: the instant stays set on the SUBMITTED row. */
  lemma CloseLeavesInstantSet(cfg: Config, start: int, id: string) returns (steps: seq<Step>)
    requires cfg.maxDisconnectCount >= 2
    ensures |steps| == 5 && steps[3] == MarkDisconnectedStep(id) && steps[4] == CloseStep(id)
    ensures var found := WorldAt(cfg, EmptyWorld(start), steps, 3);
            id in found.sessions && IsStale(found.sessions[id], found.now - cfg.staleThresholdMs)
    ensures var w := WorldAt(cfg, EmptyWorld(start), steps, 5);
            id in w.sessions && w.sessions[id].status == Submitted && w.sessions[id].disconnectedAt == Some(w.now)
  {
    hide Create, Begin, MarkDisconnected, Close, Run;
    var silence: nat := if cfg.staleThresholdMs < 0 then 0 else cfg.staleThresholdMs + 1;
    SilentThenClosed(cfg, start, id, silence);
    var w0 := EmptyWorld(start);
    steps := [CreateStep(id, silence + 1), BeginStep(id, None), TickStep(silence), MarkDisconnectedStep(id),
              CloseStep(id)];
    WorldAtStart(cfg, w0, steps);
    WorldAtNext(cfg, w0, steps, 0);
    WorldAtNext(cfg, w0, steps, 1);
    WorldAtNext(cfg, w0, steps, 2);
    WorldAtNext(cfg, w0, steps, 3);
    WorldAtNext(cfg, w0, steps, 4);
  }

  lemma WorldAtStart(cfg: Config, w: World, steps: seq<Step>)
    ensures WorldAt(cfg, w, steps, 0) == w
  {
  }

  // ---- Absorption and the bound on status changes ----

  predicate Terminal(s: Status) {
    s in {Submitted, AutoSubmitted, Abandoned, Closed}
  }

  /** A finished row is never written again, by any later steps. */
  lemma {:induction false} TerminalAbsorbs(cfg: Config, w: World, steps: seq<Step>, id: string)
    requires id in w.sessions && Terminal(w.sessions[id].status)
    ensures id in Run(cfg, w, steps).sessions
    ensures Run(cfg, w, steps).sessions[id] == w.sessions[id]
    decreases |steps|
  {
    hide Apply;
    if steps != [] {
      StepIsRowStep(cfg, w, steps[0], id);
      TerminalAbsorbs(cfg, Apply(cfg, w, steps[0]), steps[1..], id);
    }
  }

  function ChangedBy(cfg: Config, w: World, step: Step, id: string): nat {
    var w' := Apply(cfg, w, step);
    if id in w.sessions && id in w'.sessions && w.sessions[id].status != w'.sessions[id].status then 1 else 0
  }

  function StatusChanges(cfg: Config, w: World, steps: seq<Step>, id: string): nat
    decreases |steps|
  {
    if steps == [] then 0
    else ChangedBy(cfg, w, steps[0], id) + StatusChanges(cfg, Apply(cfg, w, steps[0]), steps[1..], id)
  }

  /** Status changes a session can still make. */
  function Remaining(cfg: Config, w: World, id: string): int {
    if id !in w.sessions then 2 * Cap(cfg)
    else
      var s := w.sessions[id];
      match s.status
      case NotStarted => 2 * Cap(cfg)
      case InProgress => 2 * (Cap(cfg) - s.disconnectCount) - 1
      case Disconnected => 2 * (Cap(cfg) - s.disconnectCount)
      case _ => 0
  }

  lemma StepSpendsRemaining(cfg: Config, w: World, step: Step, id: string)
    requires Inv(cfg, w)
    ensures ChangedBy(cfg, w, step, id) + Remaining(cfg, Apply(cfg, w, step), id) <= Remaining(cfg, w, id)
  {
    hide Apply;
    if id in w.sessions {
      assert RowOk(cfg, w.now, w.sessions[id]);
      StepIsRowStep(cfg, w, step, id);
    }
  }

  lemma {:induction false} ChangesWithinRemaining(cfg: Config, w: World, steps: seq<Step>, id: string)
    requires Inv(cfg, w)
    ensures StatusChanges(cfg, w, steps, id) <= Remaining(cfg, w, id)
    decreases |steps|
  {
    if steps == [] {
      if id in w.sessions {
        assert RowOk(cfg, w.now, w.sessions[id]);
      }
    } else {
      StepSpendsRemaining(cfg, w, steps[0], id);
      StepKeepsInv(cfg, w, steps[0]);
      ChangesWithinRemaining(cfg, Apply(cfg, w, steps[0]), steps[1..], id);
    }
  }

  /** No run from an empty world changes one session's status more than 2 * Cap times. */
  lemma StatusChangesBounded(cfg: Config, start: int, steps: seq<Step>, id: string)
    ensures StatusChanges(cfg, EmptyWorld(start), steps, id) <= 2 * Cap(cfg)
  {
    EmptyInv(cfg, start);
    ChangesWithinRemaining(cfg, EmptyWorld(start), steps, id);
  }

  lemma StatusChangesCons(cfg: Config, w: World, step: Step, rest: seq<Step>, id: string)
    ensures StatusChanges(cfg, w, [step] + rest, id) ==
            ChangedBy(cfg, w, step, id) + StatusChanges(cfg, Apply(cfg, w, step), rest, id)
  {
  }

  /** One disconnect with time left on the counter, and the resume that answers it. */
  lemma OutageEffect(cfg: Config, w: World, id: string)
    requires HasStatus(w, id, InProgress)
    ensures var w1 := MarkDisconnected(cfg, w, id);
            && ChangedBy(cfg, w, MarkDisconnectedStep(id), id) == 1
            && (w.sessions[id].disconnectCount + 1 >= Cap(cfg) ==> HasStatus(w1, id, AutoSubmitted))
            && (w.sessions[id].disconnectCount + 1 < Cap(cfg) ==>
                  && ChangedBy(cfg, w1, ResumeStep(id, "tab"), id) == 1
                  && HasStatus(Resume(cfg, w1, id, "tab").0, id, InProgress)
                  && Resume(cfg, w1, id, "tab").0.sessions[id].disconnectCount == w.sessions[id].disconnectCount + 1)
  {
  }

  /** From an IN_PROGRESS row the whole remaining budget can be spent. */
  lemma {:induction false} RemainingIsReached(cfg: Config, w: World, id: string) returns (steps: seq<Step>)
    requires HasStatus(w, id, InProgress) && w.sessions[id].disconnectCount < Cap(cfg)
    ensures StatusChanges(cfg, w, steps, id) == 2 * (Cap(cfg) - w.sessions[id].disconnectCount) - 1
    decreases Cap(cfg) - w.sessions[id].disconnectCount
  {
    hide ChangedBy, MarkDisconnected, Resume;
    OutageEffect(cfg, w, id);
    var w1 := MarkDisconnected(cfg, w, id);
    var rest := [];
    if w.sessions[id].disconnectCount + 1 < Cap(cfg) {
      var more := RemainingIsReached(cfg, Resume(cfg, w1, id, "tab").0, id);
      rest := [ResumeStep(id, "tab")] + more;
      StatusChangesCons(cfg, w1, ResumeStep(id, "tab"), more, id);
    }
    steps := [MarkDisconnectedStep(id)] + rest;
    StatusChangesCons(cfg, w, MarkDisconnectedStep(id), rest, id);
  }

  /** The bound is exact for every limit. */
  lemma BoundIsReached(cfg: Config, start: int, id: string) returns (steps: seq<Step>)
    ensures StatusChanges(cfg, EmptyWorld(start), steps, id) == 2 * Cap(cfg)
  {
    var w0 := EmptyWorld(start);
    var w1 := Create(w0, id, 60);
    var w2 := Begin(w1, id, None).0;
    assert ChangedBy(cfg, w0, CreateStep(id, 60), id) == 0;
    assert ChangedBy(cfg, w1, BeginStep(id, None), id) == 1;
    assert HasStatus(w2, id, InProgress) && w2.sessions[id].disconnectCount == 0;
    hide ChangedBy, Create, Begin;
    var rest := RemainingIsReached(cfg, w2, id);
    StatusChangesCons(cfg, w1, BeginStep(id, None), rest, id);
    steps := [CreateStep(id, 60)] + ([BeginStep(id, None)] + rest);
    StatusChangesCons(cfg, w0, CreateStep(id, 60), [BeginStep(id, None)] + rest, id);
  }

  // ---- Deadlines ----

  /** Start and deadline are fixed once a session has begun. */
  lemma {:induction false} DeadlineFixed(cfg: Config, w: World, steps: seq<Step>, id: string)
    requires id in w.sessions && w.sessions[id].status != NotStarted
    ensures id in Run(cfg, w, steps).sessions
    ensures var s' := Run(cfg, w, steps).sessions[id];
            && s'.status != NotStarted
            && s'.startedAt == w.sessions[id].startedAt && s'.deadlineAt == w.sessions[id].deadlineAt
    decreases |steps|
  {
    hide Apply;
    if steps != [] {
      StepIsRowStep(cfg, w, steps[0], id);
      DeadlineFixed(cfg, Apply(cfg, w, steps[0]), steps[1..], id);
    }
  }

  lemma {:induction false} ClockNeverGoesBack(cfg: Config, w: World, steps: seq<Step>)
    ensures w.now <= Run(cfg, w, steps).now
    decreases |steps|
  {
    if steps != [] {
      ClockNeverGoesBack(cfg, Apply(cfg, w, steps[0]), steps[1..]);
    }
  }

  /** A begun session that is unfinished at its deadline can never become SUBMITTED afterwards. */
  lemma {:induction false} NoSubmissionAfterDeadline(cfg: Config, w: World, steps: seq<Step>, id: string)
    requires id in w.sessions && w.sessions[id].status in {InProgress, Disconnected}
    requires w.sessions[id].deadlineAt.Some? && w.now > w.sessions[id].deadlineAt.value
    ensures id in Run(cfg, w, steps).sessions
    ensures Run(cfg, w, steps).sessions[id].status != Submitted
    decreases |steps|
  {
    hide Apply;
    if steps != [] {
      var w' := Apply(cfg, w, steps[0]);
      StepIsRowStep(cfg, w, steps[0], id);
      StepCauses(cfg, w, steps[0], id);
      if Terminal(w'.sessions[id].status) {
        TerminalAbsorbs(cfg, w', steps[1..], id);
      } else {
        NoSubmissionAfterDeadline(cfg, w', steps[1..], id);
      }
    }
  }

  // ---- One active tab ----

  function WorldAt(cfg: Config, w: World, steps: seq<Step>, k: nat): World
    requires k <= |steps|
  {
    Run(cfg, w, steps[..k])
  }

  lemma WorldAtNext(cfg: Config, w: World, steps: seq<Step>, k: nat)
    requires k < |steps|
    ensures WorldAt(cfg, w, steps, k + 1) == Apply(cfg, WorldAt(cfg, w, steps, k), steps[k])
  {
    assert steps[..k + 1] == steps[..k] + [steps[k]];
    RunAppend(cfg, w, steps[..k], [steps[k]]);
    assert [steps[k]][1..] == [];
    assert Run(cfg, WorldAt(cfg, w, steps, k), [steps[k]]) == Apply(cfg, WorldAt(cfg, w, steps, k), steps[k]);
  }

  lemma TerminalStays(cfg: Config, w: World, steps: seq<Step>, id: string, k: nat, j: nat)
    requires k <= j <= |steps|
    requires id in WorldAt(cfg, w, steps, k).sessions && Terminal(WorldAt(cfg, w, steps, k).sessions[id].status)
    ensures id in WorldAt(cfg, w, steps, j).sessions
    ensures Terminal(WorldAt(cfg, w, steps, j).sessions[id].status)
  {
    assert steps[..j] == steps[..k] + steps[k..j];
    RunAppend(cfg, w, steps[..k], steps[k..j]);
    TerminalAbsorbs(cfg, WorldAt(cfg, w, steps, k), steps[k..j], id);
  }

  predicate HasStatus(w: World, id: string, status: Status) {
    id in w.sessions && w.sessions[id].status == status
  }

  predicate HeldBy(w: World, id: string, tabId: string) {
    HasStatus(w, id, InProgress) && w.sessions[id].activeTabId == Some(tabId)
  }

  /** A tab that holds a session until something else is seen at j loses it by a disconnect. */
  lemma FindDisconnect(cfg: Config, w: World, steps: seq<Step>, id: string, tabId: string, i: nat, j: nat)
    returns (d: nat)
    requires i < j < |steps| && tabId != ""
    requires HeldBy(WorldAt(cfg, w, steps, i), id, tabId)
    requires HasStatus(WorldAt(cfg, w, steps, j), id, InProgress)
    requires !HeldBy(WorldAt(cfg, w, steps, j), id, tabId)
    ensures i <= d < j
    ensures HasStatus(WorldAt(cfg, w, steps, d), id, InProgress)
    ensures HasStatus(WorldAt(cfg, w, steps, d + 1), id, Disconnected)
  {
    hide Apply, Run;
    d := i;
    while d + 1 < j && HeldBy(WorldAt(cfg, w, steps, d + 1), id, tabId)
      invariant i <= d < j
      invariant HeldBy(WorldAt(cfg, w, steps, d), id, tabId)
    {
      d := d + 1;
    }
    WorldAtNext(cfg, w, steps, d);
    StepIsRowStep(cfg, WorldAt(cfg, w, steps, d), steps[d], id);
    StepCauses(cfg, WorldAt(cfg, w, steps, d), steps[d], id);
    if Terminal(WorldAt(cfg, w, steps, d + 1).sessions[id].status) {
      TerminalStays(cfg, w, steps, id, d + 1, j);
    }
  }

  /** A DISCONNECTED session that is IN_PROGRESS later was resumed in between. */
  lemma FindResume(cfg: Config, w: World, steps: seq<Step>, id: string, d: nat, j: nat) returns (r: nat)
    requires d <= j < |steps|
    requires HasStatus(WorldAt(cfg, w, steps, d), id, Disconnected)
    requires HasStatus(WorldAt(cfg, w, steps, j), id, InProgress)
    ensures d <= r < j
    ensures steps[r].ResumeStep? && steps[r].id == id
    ensures HasStatus(WorldAt(cfg, w, steps, r), id, Disconnected)
    ensures HasStatus(WorldAt(cfg, w, steps, r + 1), id, InProgress)
  {
    hide Apply, Run;
    r := d;
    while r + 1 < j && HasStatus(WorldAt(cfg, w, steps, r + 1), id, Disconnected)
      invariant d <= r < j
      invariant HasStatus(WorldAt(cfg, w, steps, r), id, Disconnected)
    {
      r := r + 1;
    }
    WorldAtNext(cfg, w, steps, r);
    StepIsRowStep(cfg, WorldAt(cfg, w, steps, r), steps[r], id);
    StepCauses(cfg, WorldAt(cfg, w, steps, r), steps[r], id);
    if Terminal(WorldAt(cfg, w, steps, r + 1).sessions[id].status) {
      TerminalStays(cfg, w, steps, id, r + 1, j);
    }
  }

  /**
   * Two accepted heartbeats of one session from different tabs, the first with a non-empty id,
   * are separated by a disconnect and then a resume.
   */
  lemma TabChangeNeedsReconnect(cfg: Config, w: World, steps: seq<Step>, id: string,
                                t1: string, t2: string, i: nat, j: nat)
    returns (d: nat, r: nat)
    requires i < j < |steps| && t1 != "" && t1 != t2
    requires steps[i] == HeartbeatStep(id, t1) && Heartbeat(WorldAt(cfg, w, steps, i), id, t1).1.Ok?
    requires steps[j] == HeartbeatStep(id, t2) && Heartbeat(WorldAt(cfg, w, steps, j), id, t2).1.Ok?
    ensures i < d < r < j
    ensures HasStatus(WorldAt(cfg, w, steps, d), id, InProgress)
    ensures HasStatus(WorldAt(cfg, w, steps, d + 1), id, Disconnected)
    ensures steps[r].ResumeStep? && steps[r].id == id
    ensures HasStatus(WorldAt(cfg, w, steps, r), id, Disconnected)
    ensures HasStatus(WorldAt(cfg, w, steps, r + 1), id, InProgress)
  {
    hide Run;
    WorldAtNext(cfg, w, steps, i);
    assert HeldBy(WorldAt(cfg, w, steps, i + 1), id, t1);
    d := FindDisconnect(cfg, w, steps, id, t1, i + 1, j);
    r := FindResume(cfg, w, steps, id, d + 1, j);
  }

  // ---- The grace window and stale jobs ----

  /** A disconnect during which a grace job of an earlier disconnect is still pending. */
  predicate StaleJobPending(cfg: Config, w: World, id: string) {
    JobId(id) in w.jobs && w.jobs[JobId(id)].dueAt < w.now + cfg.graceWindowMs
  }

  function After(w: World, elapsed: nat): World {
    w.(now := w.now + elapsed)
  }

  /** No close, resume or direct autoSubmit of the session. */
  predicate Undisturbed(steps: seq<Step>, id: string) {
    forall i :: 0 <= i < |steps| ==>
      steps[i] != CloseStep(id) && steps[i] != AutoSubmitStep(id) && !(steps[i].ResumeStep? && steps[i].id == id)
  }

  /** If the steps fit before the instant, the session is DISCONNECTED after them. */
  ghost predicate SurvivesUntil(cfg: Config, w: World, id: string, steps: seq<Step>, instant: int) {
    Undisturbed(steps, id) && Run(cfg, w, steps).now < instant ==> HasStatus(Run(cfg, w, steps), id, Disconnected)
  }

  ghost predicate SurvivesAllUntil(cfg: Config, w: World, id: string, instant: int) {
    forall steps: seq<Step> :: SurvivesUntil(cfg, w, id, steps, instant)
  }

  /** DISCONNECTED, with a grace job due at the instant or later. */
  predicate Waiting(w: World, id: string, instant: int) {
    HasStatus(w, id, Disconnected) && JobId(id) in w.jobs && w.jobs[JobId(id)].dueAt >= instant
  }

  lemma StepKeepsWaiting(cfg: Config, w: World, step: Step, id: string, instant: int)
    requires Inv(cfg, w) && Waiting(w, id, instant) && w.now < instant && Undisturbed([step], id)
    ensures Waiting(Apply(cfg, w, step), id, instant)
  {
    hide RowOk, LogAgrees, Covered, LogBelongs;
    assert [step][0] == step;
    if step.FireStep? && Due(w, step.jobId) {
      assert JobOk(cfg, w, step.jobId);
    }
  }

  lemma {:induction false} WaitingSurvives(cfg: Config, w: World, id: string, steps: seq<Step>, instant: int)
    requires Inv(cfg, w) && Waiting(w, id, instant)
    ensures SurvivesUntil(cfg, w, id, steps, instant)
    decreases |steps|
  {
    hide Inv, Apply, Waiting;
    if steps == [] {
      assert HasStatus(w, id, Disconnected) by { WaitingIsDisconnected(w, id, instant); }
    } else if Undisturbed(steps, id) && Run(cfg, w, steps).now < instant {
      ClockNeverGoesBack(cfg, w, steps);
      StepKeepsWaiting(cfg, w, steps[0], id, instant);
      StepKeepsInv(cfg, w, steps[0]);
      WaitingSurvives(cfg, Apply(cfg, w, steps[0]), id, steps[1..], instant);
      assert Undisturbed(steps[1..], id);
    }
  }

  lemma WaitingIsDisconnected(w: World, id: string, instant: int)
    requires Waiting(w, id, instant)
    ensures HasStatus(w, id, Disconnected)
  {
  }

  /** Waiting for the job and then delivering it. */
  lemma StaleDelivery(cfg: Config, w: World, id: string, t: nat)
    requires HasStatus(w, id, Disconnected) && JobId(id) in w.jobs && w.jobs[JobId(id)].sessionId == id
    requires w.jobs[JobId(id)].dueAt <= w.now + t
    ensures var steps := [TickStep(t), FireStep(JobId(id))];
            && Undisturbed(steps, id) && Run(cfg, w, steps).now == w.now + t
            && HasStatus(Run(cfg, w, steps), id, AutoSubmitted)
  {
    RunTwo(cfg, w, TickStep(t), FireStep(JobId(id)));
  }

  /**
   * A newly disconnected session outlasts every run inside its resume window that does not close, resume
   * or auto-submit it directly, exactly when no grace job of an earlier disconnect was pending.
   */
  lemma FullWindowIff(cfg: Config, w: World, id: string)
    requires Inv(cfg, w) && HasStatus(w, id, InProgress)
    requires w.sessions[id].disconnectCount + 1 < cfg.maxDisconnectCount
    ensures SurvivesAllUntil(cfg, MarkDisconnected(cfg, w, id), id, w.now + cfg.graceWindowMs)
            <==> cfg.graceWindowMs == 0 || !StaleJobPending(cfg, w, id)
  {
    hide SurvivesUntil, Run, RowOk, LogAgrees, LogBelongs;
    var w1, cutoff := MarkDisconnected(cfg, w, id), w.now + cfg.graceWindowMs;
    var due := w1.jobs[JobId(id)].dueAt;
    MarkDisconnectedKeepsInv(cfg, w, id);
    assert JobOk(cfg, w1, JobId(id));
    JobIdInjective(id, w1.jobs[JobId(id)].sessionId);
    if !StaleJobPending(cfg, w, id) {
      forall steps: seq<Step>
        ensures SurvivesUntil(cfg, w1, id, steps, cutoff)
      {
        WaitingSurvives(cfg, w1, id, steps, cutoff);
      }
    } else if cfg.graceWindowMs == 0 {
      forall steps: seq<Step>
        ensures SurvivesUntil(cfg, w1, id, steps, cutoff)
      {
        NothingFits(cfg, w1, id, steps, cutoff);
      }
    } else {
      var t: nat := if due <= w.now then 0 else due - w.now;
      StaleDelivery(cfg, w1, id, t);
      CutShort(cfg, w1, id, [TickStep(t), FireStep(JobId(id))], cutoff);
    }
  }

  lemma NothingFits(cfg: Config, w: World, id: string, steps: seq<Step>, instant: int)
    requires instant <= w.now
    ensures SurvivesUntil(cfg, w, id, steps, instant)
  {
    ClockNeverGoesBack(cfg, w, steps);
  }

  lemma CutShort(cfg: Config, w: World, id: string, steps: seq<Step>, instant: int)
    requires Undisturbed(steps, id) && Run(cfg, w, steps).now < instant
    requires HasStatus(Run(cfg, w, steps), id, AutoSubmitted)
    ensures !SurvivesUntil(cfg, w, id, steps, instant)
  {
  }

  /** n heartbeats of the session's tab, 41.5 seconds apart. */
  function Beating(w: World, n: nat): World {
    if n == 0 then w else Heartbeat(After(Beating(w, n - 1), 41500), "s", "t").0
  }

  lemma {:induction false} BeatingEffect(w: World, n: nat)
    requires HeldBy(w, "s", "t")
    ensures HeldBy(Beating(w, n), "s", "t")
    ensures Beating(w, n).now == w.now + n * 41500 && Beating(w, n).jobs == w.jobs
    ensures Beating(w, n).sessions["s"].disconnectCount == w.sessions["s"].disconnectCount
    ensures n > 0 ==> Beating(w, n).sessions["s"].lastHeartbeatAt == Some(w.now + n * 41500)
  {
    if n > 0 {
      BeatingEffect(w, n - 1);
    }
  }

  /** Begin, and fall silent for 46 seconds. */
  function FirstSilence(): World {
    After(Begin(Create(EmptyWorld(0), "s", 60), "s", None).0, 46000)
  }

  /** The scan marks the session; it is resumed after four seconds, beats for 249 and falls silent for 46 again. */
  function SecondSilence(cfg: Config): World {
    var resumed := Resume(cfg, After(MarkDisconnected(cfg, FirstSilence(), "s"), 4000), "s", "t").0;
    After(Beating(resumed, 6), 46000)
  }

  /** The scan marks it a second time, and one second passes. */
  function OutageRun(cfg: Config): World {
    After(MarkDisconnected(cfg, SecondSilence(cfg), "s"), 1000)
  }

  /** A concrete run, both disconnects of stale rows: one second offline ends a session with a five-minute window. */
  lemma StaleJobCutsWindow()
    ensures var cfg := Config(300000, 3, 45000);
            && "s" in FirstSilence().sessions
            && IsStale(FirstSilence().sessions["s"], FirstSilence().now - cfg.staleThresholdMs)
    ensures var cfg := Config(300000, 3, 45000);
            && "s" in SecondSilence(cfg).sessions
            && IsStale(SecondSilence(cfg).sessions["s"], SecondSilence(cfg).now - cfg.staleThresholdMs)
    ensures var cfg := Config(300000, 3, 45000);
            var w := OutageRun(cfg);
            && HasStatus(w, "s", Disconnected)
            && w.sessions["s"].disconnectedAt == Some(w.now - 1000)
            && Resume(cfg, w, "s", "t").1.Ok?
            && HasStatus(Fire(w, JobId("s")), "s", AutoSubmitted)
  {
    hide Beating;
    var cfg := Config(300000, 3, 45000);
    var resumed := Resume(cfg, After(MarkDisconnected(cfg, FirstSilence(), "s"), 4000), "s", "t").0;
    assert HeldBy(resumed, "s", "t") && resumed.now == 50000 && resumed.sessions["s"].disconnectCount == 1;
    assert JobId("s") in resumed.jobs && resumed.jobs[JobId("s")] == Job("s", 346000);
    BeatingEffect(resumed, 6);
  }

  // ---- No automatic submission before one full window after some disconnect ----

  ghost predicate DisconnectedBy(cfg: Config, log: seq<Event>, id: string, instant: int) {
    exists i :: 0 <= i < |log| && log[i].sessionId == id && log[i].kind.DisconnectLogged?
                && log[i].occurredAt + cfg.graceWindowMs <= instant
  }

  /** Every pending job and every logged expiry follows some disconnect by at least the window. */
  ghost predicate NeverEarly(cfg: Config, w: World) {
    && (forall j :: j in w.jobs ==> DisconnectedBy(cfg, w.log, w.jobs[j].sessionId, w.jobs[j].dueAt))
    && (forall k :: 0 <= k < |w.log| && w.log[k].kind == GraceExpiryLogged ==>
          DisconnectedBy(cfg, w.log[..k], w.log[k].sessionId, w.log[k].occurredAt))
  }

  lemma DisconnectedByGrows(cfg: Config, log: seq<Event>, more: seq<Event>, id: string, t: int, t': int)
    requires DisconnectedBy(cfg, log, id, t) && t <= t'
    ensures DisconnectedBy(cfg, log + more, id, t')
  {
    var i :| 0 <= i < |log| && log[i].sessionId == id && log[i].kind.DisconnectLogged?
             && log[i].occurredAt + cfg.graceWindowMs <= t;
    assert (log + more)[i] == log[i];
  }

  /** A step logs at most one event; a new job comes with the disconnect it is for, an expiry from a due job. */
  lemma StepLog(cfg: Config, w: World, step: Step) returns (more: seq<Event>)
    requires !step.AutoSubmitStep?
    ensures var w' := Apply(cfg, w, step);
            && w'.log == w.log + more && |more| <= 1
            && (forall j :: j in w'.jobs ==>
                  if j in w.jobs then w'.jobs[j] == w.jobs[j]
                  else DisconnectedBy(cfg, w'.log, w'.jobs[j].sessionId, w'.jobs[j].dueAt))
            && (more != [] && more[0].kind == GraceExpiryLogged ==>
                  exists j :: j in w.jobs && w.jobs[j].sessionId == more[0].sessionId
                              && w.jobs[j].dueAt <= more[0].occurredAt)
  {
    var w' := Apply(cfg, w, step);
    more := w'.log[|w.log|..];
    forall j | j in w'.jobs && j !in w.jobs
      ensures DisconnectedBy(cfg, w'.log, w'.jobs[j].sessionId, w'.jobs[j].dueAt)
    {
      assert w'.log[|w.log|].kind.DisconnectLogged?;
    }
  }

  lemma StepNeverEarly(cfg: Config, w: World, step: Step)
    requires NeverEarly(cfg, w) && !step.AutoSubmitStep?
    ensures NeverEarly(cfg, Apply(cfg, w, step))
  {
    hide Apply, DisconnectedBy;
    var w' := Apply(cfg, w, step);
    var more := StepLog(cfg, w, step);
    forall j | j in w'.jobs && j in w.jobs
      ensures DisconnectedBy(cfg, w'.log, w'.jobs[j].sessionId, w'.jobs[j].dueAt)
    {
      DisconnectedByGrows(cfg, w.log, more, w.jobs[j].sessionId, w.jobs[j].dueAt, w.jobs[j].dueAt);
    }
    forall k | 0 <= k < |w'.log| && w'.log[k].kind == GraceExpiryLogged
      ensures DisconnectedBy(cfg, w'.log[..k], w'.log[k].sessionId, w'.log[k].occurredAt)
    {
      if k < |w.log| {
        assert w'.log[..k] == w.log[..k];
      } else {
        assert w'.log[..k] == w.log + [] && w'.log[k] == more[0];
        var j :| j in w.jobs && w.jobs[j].sessionId == more[0].sessionId && w.jobs[j].dueAt <= more[0].occurredAt;
        DisconnectedByGrows(cfg, w.log, [], w.jobs[j].sessionId, w.jobs[j].dueAt, more[0].occurredAt);
      }
    }
  }

  /** While only the worker calls autoSubmit, each expiry comes a full window after a logged disconnect. */
  lemma {:induction false} ExpiryNeverEarly(cfg: Config, w: World, steps: seq<Step>)
    requires NeverEarly(cfg, w)
    requires forall i :: 0 <= i < |steps| ==> !steps[i].AutoSubmitStep?
    ensures NeverEarly(cfg, Run(cfg, w, steps))
    decreases |steps|
  {
    if steps != [] {
      StepNeverEarly(cfg, w, steps[0]);
      ExpiryNeverEarly(cfg, Apply(cfg, w, steps[0]), steps[1..]);
    }
  }
}

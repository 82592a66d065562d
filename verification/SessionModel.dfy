/** The stored session row, the append-only event log, the pending grace jobs and the clock. */
module SessionModel {
  import opened Prelude

  datatype Status =
    NotStarted | InProgress | Disconnected | Submitted | AutoSubmitted | Abandoned | Closed

  /** One row of the session table. Times are milliseconds since the epoch. */
  datatype Session = Session(
    status: Status,
    roleDurationMinutes: int,
    startedAt: Option<int>,
    deadlineAt: Option<int>,
    submittedAt: Option<int>,
    lastHeartbeatAt: Option<int>,
    lastActivityAt: int,
    disconnectCount: nat,
    disconnectedAt: Option<int>,
    activeTabId: Option<string>)

  datatype EventKind =
    | DisconnectLogged(count: nat)
    | ReconnectLogged(tabId: string)
    | SubmitLogged
    | MaxDisconnectsLogged(count: nat)
    | GraceExpiryLogged

  datatype Event = Event(sessionId: string, kind: EventKind, occurredAt: int)

  /** A delayed "auto-submit" job: its payload and the instant it becomes due. */
  datatype Job = Job(sessionId: string, dueAt: int)

  datatype World = World(
    now: int,
    sessions: map<string, Session>,
    log: seq<Event>,
    jobs: map<string, Job>)

  datatype Config = Config(graceWindowMs: nat, maxDisconnectCount: int, staleThresholdMs: int)

  datatype ModuleSlot = ModuleSlot(enabled: bool, durationMinutes: int)

  /** What the begin step reads of the drive a session belongs to. */
  datatype Drive = Drive(scheduleStart: Option<int>, modules: Option<seq<ModuleSlot>>)

  datatype SessionError =
    | SessionNotFound
    | SessionNotInProgress
    | SecondTabDetected
    | SessionNotDisconnected
    | MaxDisconnectsReached
    | ResumeWindowExpired
    | SessionNotSubmittable
    | DeadlinePassed
    | InviteTokenExpired

  /** The deterministic id `grace-<session>` under which a grace job is enqueued. */
  function JobId(sessionId: string): string {
    "grace-" + sessionId
  }

  lemma JobIdShape(sessionId: string)
    ensures |JobId(sessionId)| == 6 + |sessionId|
    ensures JobId(sessionId)[..6] == "grace-" && JobId(sessionId)[6..] == sessionId
  {
  }

  lemma JobIdInjective(a: string, b: string)
    requires JobId(a) == JobId(b)
    ensures a == b
  {
    assert a == JobId(a)[6..] && b == JobId(b)[6..];
  }
}

/** The reference transition table of session-state-machine.ts. */
module StateMachine {
  import opened Prelude
  import opened SessionModel

  datatype TransitionError = InvalidStateTransition(from: Status, to: Status)

  function ValidTargets(current: Status): set<Status> {
    match current
    case NotStarted => {InProgress, Closed}
    case InProgress => {Disconnected, Submitted, AutoSubmitted, Closed}
    case Disconnected => {InProgress, AutoSubmitted, Closed}
    case Submitted => {Closed}
    case AutoSubmitted => {Closed}
    case Abandoned => {Closed}
    case Closed => {}
  }

  function Transition(current: Status, target: Status): Result<Status, TransitionError> {
    if target in ValidTargets(current) then Ok(target) else Err(InvalidStateTransition(current, target))
  }
}

/** What a begin, a heartbeat and a repeated close come to, in row fields and plain numbers. */
module LifecycleLaws {
  import opened Prelude
  import opened SessionModel
  import opened StateMachine
  import opened Lifecycle

  // ---- The minutes of a drive ----

  /** The durations at the enabled positions below n, added up. */
  function MinutesBelow(modules: seq<ModuleSlot>, n: nat): int
    requires n <= |modules|
  {
    if n == 0 then 0
    else MinutesBelow(modules, n - 1) + if modules[n - 1].enabled then modules[n - 1].durationMinutes else 0
  }

  /** A disabled slot counts nothing, an enabled one its own minutes. */
  lemma OneSlotMinutes(slot: ModuleSlot)
    ensures EnabledMinutes([slot]) == if slot.enabled then slot.durationMinutes else 0
  {
    assert [slot][1..] == [];
  }

  /** Minutes add up over concatenation. */
  lemma {:induction false} MinutesAdd(a: seq<ModuleSlot>, b: seq<ModuleSlot>)
    ensures EnabledMinutes(a + b) == EnabledMinutes(a) + EnabledMinutes(b)
  {
    if a == [] {
      assert a + b == b;
    } else {
      assert (a + b)[1..] == a[1..] + b;
      MinutesAdd(a[1..], b);
    }
  }

  lemma {:induction false} EnabledMinutesBelow(modules: seq<ModuleSlot>, n: nat)
    requires n <= |modules|
    ensures EnabledMinutes(modules[..n]) == MinutesBelow(modules, n)
  {
    hide EnabledMinutes;
    if n == 0 {
      assert EnabledMinutes([]) == 0 by { NoSlots(); }
      assert modules[..n] == [];
    } else {
      EnabledMinutesBelow(modules, n - 1);
      assert modules[..n] == modules[..n - 1] + [modules[n - 1]];
      MinutesAdd(modules[..n - 1], [modules[n - 1]]);
      OneSlotMinutes(modules[n - 1]);
    }
  }

  lemma NoSlots()
    ensures EnabledMinutes([]) == 0
  {
  }

  /** The enabled minutes are those of the enabled positions and no others. */
  lemma EnabledMinutesAre(modules: seq<ModuleSlot>)
    ensures EnabledMinutes(modules) == MinutesBelow(modules, |modules|)
  {
    EnabledMinutesBelow(modules, |modules|);
    assert modules[..|modules|] == modules;
  }

  // ---- Create ----

  /** A new session has its role's minutes and nothing else yet; no other row, event or job changes. */
  lemma CreateOutcome(w: World, id: string, minutes: int)
    requires id !in w.sessions
    ensures var w' := Create(w, id, minutes);
            && w'.sessions.Keys == w.sessions.Keys + {id}
            && (forall other :: other in w.sessions ==> w'.sessions[other] == w.sessions[other])
            && w'.log == w.log && w'.jobs == w.jobs && w'.now == w.now
            && var s := w'.sessions[id];
               && s.status == NotStarted && s.roleDurationMinutes == minutes && s.disconnectCount == 0
               && s.startedAt.None? && s.deadlineAt.None? && s.submittedAt.None? && s.disconnectedAt.None?
               && s.lastHeartbeatAt.None? && s.activeTabId.None? && s.lastActivityAt == w.now
  {
  }

  // ---- Begin ----

  /** The drive's own minutes; none without a drive or its module configuration. */
  function DriveMinutes(drive: Option<Drive>): int {
    if drive.Some? && drive.value.modules.Some?
    then MinutesBelow(drive.value.modules.value, |drive.value.modules.value|) else 0
  }

  /** More than twenty minutes after the scheduled start. */
  predicate TooLate(now: int, drive: Option<Drive>) {
    drive.Some? && drive.value.scheduleStart.Some? && now > drive.value.scheduleStart.value + 1200000
  }

  /** A session is given the drive's minutes if they are positive, its role's otherwise; too late, it is refused. */
  lemma BeginOutcome(w: World, id: string, drive: Option<Drive>)
    requires id in w.sessions && w.sessions[id].status == NotStarted
    ensures var (w', r) := Begin(w, id, drive);
            var s := w.sessions[id];
            var minutes := if DriveMinutes(drive) > 0 then DriveMinutes(drive) else s.roleDurationMinutes;
            && (r == Err(InviteTokenExpired) <==> TooLate(w.now, drive))
            && (r.Err? ==> TooLate(w.now, drive) && w' == w)
            && (r.Ok? ==>
                  && w'.sessions.Keys == w.sessions.Keys && w'.sessions[id] == r.value
                  && r.value.status == InProgress && r.value.startedAt == Some(w.now)
                  && r.value.deadlineAt == Some(w.now + 60000 * minutes)
                  && r.value.lastHeartbeatAt == Some(w.now) && r.value.activeTabId == s.activeTabId
                  && (forall other :: other in w.sessions && other != id ==> w'.sessions[other] == w.sessions[other])
                  && w'.log == w.log && w'.jobs == w.jobs && w'.now == w.now)
  {
    hide EnabledMinutes, MinutesBelow;
    if drive.Some? && drive.value.modules.Some? {
      EnabledMinutesAre(drive.value.modules.value);
    }
  }

  /** A begun session, or a missing one, is answered without a change. */
  lemma BeginAgain(w: World, id: string, drive: Option<Drive>)
    requires id in w.sessions ==> w.sessions[id].status != NotStarted
    ensures Begin(w, id, drive) == (w, if id in w.sessions then Ok(w.sessions[id]) else Err(SessionNotFound))
  {
  }

  /** Sixty enabled and thirty disabled minutes in a role of ninety: one hour. */
  lemma DeadlineExample(id: string)
    ensures var drive := Some(Drive(None, Some([ModuleSlot(true, 60), ModuleSlot(false, 30)])));
            var w := Begin(Create(EmptyWorld(0), id, 90), id, drive).0;
            id in w.sessions && w.sessions[id].deadlineAt == Some(3600000)
  {
    hide EnabledMinutes;
    var slots := [ModuleSlot(true, 60), ModuleSlot(false, 30)];
    var w := Create(EmptyWorld(0), id, 90);
    assert MinutesBelow(slots, 1) == 60 && MinutesBelow(slots, 2) == 60;
    BeginOutcome(w, id, Some(Drive(None, Some(slots))));
  }

  // ---- Heartbeats and repeated closes ----

  /** A beat is taken iff the session runs and no other tab holds it; it writes the two instants and the tab. */
  lemma HeartbeatOutcome(w: World, id: string, tabId: string)
    requires id in w.sessions
    ensures var (w', r) := Heartbeat(w, id, tabId);
            var s := w.sessions[id];
            var free := s.activeTabId.None? || s.activeTabId.value == "" || s.activeTabId.value == tabId;
            && (r.Ok? <==> s.status == InProgress && free)
            && (r == Err(SecondTabDetected) <==> s.status == InProgress && !free)
            && (r == Err(SessionNotInProgress) <==> s.status != InProgress)
            && (r.Err? ==> w' == w)
            && (r.Ok? ==>
                  && r.value == s.deadlineAt
                  && var row := s.(lastHeartbeatAt := Some(w.now), lastActivityAt := w.now, activeTabId := Some(tabId));
                     w' == w.(sessions := w.sessions[id := row]))
  {
  }

  /** Closing again, however much later, answers with the first submission's instant and changes nothing. */
  lemma RepeatedClose(w: World, id: string, elapsed: nat)
    requires id in w.sessions && w.sessions[id].status != Submitted && Close(w, id).1.Ok?
    ensures Close(w, id).1 == Ok(w.now)
    ensures var later := Close(w, id).0.(now := w.now + elapsed);
            Close(later, id) == (later, Ok(w.now))
  {
  }

  // ---- The log ----

  /** What a step adds to the log: nothing, or the one event that tells what it did to its session. */
  lemma LoggedEvent(cfg: Config, w: World, id: string, tabId: string)
    ensures Heartbeat(w, id, tabId).0.log == w.log
    ensures Resume(cfg, w, id, tabId).0.log
            == w.log + if Resume(cfg, w, id, tabId).1.Ok? then [Event(id, ReconnectLogged(tabId), w.now)] else []
    ensures Close(w, id).0.log
            == w.log + if Close(w, id).0 != w then [Event(id, SubmitLogged, w.now)] else []
    ensures AutoSubmit(w, id).log
            == w.log + if AutoSubmit(w, id) != w then [Event(id, GraceExpiryLogged, w.now)] else []
  {
    assert forall e: Event :: w.log + [e] != w.log;
  }

  /** A disconnect tells its number, and whether it was the last. */
  lemma LoggedDisconnect(cfg: Config, w: World, id: string)
    requires id in w.sessions && w.sessions[id].status == InProgress
    ensures var n := w.sessions[id].disconnectCount + 1;
            MarkDisconnected(cfg, w, id).log
            == w.log + [Event(id, if n < cfg.maxDisconnectCount then DisconnectLogged(n) else MaxDisconnectsLogged(n),
                              w.now)]
  {
  }

  // ---- The transition table ----

  /** Every state but CLOSED can be closed for good; nothing returns to NOT_STARTED or enters ABANDONED. */
  lemma TableShape(from: Status, to: Status)
    ensures Transition(from, Closed).Ok? <==> from != Closed
    ensures Transition(Closed, to).Err? && Transition(from, NotStarted).Err? && Transition(from, Abandoned).Err?
    ensures Transition(from, from).Err?
    ensures Transition(from, InProgress).Ok? <==> from == NotStarted || from == Disconnected
    ensures Transition(from, Disconnected).Ok? <==> from == InProgress
    ensures Transition(from, Submitted).Ok? <==> from == InProgress
    ensures Transition(from, AutoSubmitted).Ok? <==> from == InProgress || from == Disconnected
    ensures Transition(from, to).Ok? ==> Transition(from, to).value == to
  {
  }
}

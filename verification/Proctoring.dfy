/** Stored proctoring events and the cooldown between them. */
module Proctoring {
  import opened Prelude
  import opened SessionModel

  datatype UploadStatus = Pending | Uploaded | Failed

  /** timestamp is in milliseconds; an empty clipUrl counts as none. */
  datatype StoredEvent = StoredEvent(
    id: string,
    sessionId: string,
    eventType: string,
    severity: string,
    timestamp: int,
    clipUrl: Option<string>,
    modelVersion: Option<string>,
    uploadStatus: UploadStatus)

  datatype EventDto = EventDto(
    id: Option<string>,
    eventType: string,
    severity: string,
    timestamp: int,
    clipUrl: Option<string>,
    modelVersion: Option<string>,
    uploadStatus: Option<UploadStatus>)

  /** The session a raw id, invite token or invite id resolves to. */
  datatype SessionRef = SessionRef(id: string, status: Status)

  datatype ProctoringError = SessionMissing | SessionInactive(status: Status) | IdTaken(id: string)

  /** Milliseconds two events of one type must be apart; an unknown type has none. */
  function Cooldown(eventType: string): nat {
    if eventType in {"PHONE_DETECTED", "HEADPHONES_DETECTED", "BOOK_DETECTED",
                     "SECOND_VOICE_SUSPECTED", "IDENTITY_MISMATCH"} then 30000
    else if eventType in {"FACE_MISSING", "LOOKING_AWAY", "EXCESSIVE_MOVEMENT", "SPEECH_DETECTED"} then 15000
    else if eventType in {"TAB_SWITCH", "FULLSCREEN_EXIT"} then 10000
    else if eventType == "PASTE" then 5000
    else 0
  }

  function Distance(a: int, b: int): nat {
    if a < b then b - a else a - b
  }

  predicate HasClip(clipUrl: Option<string>) {
    clipUrl.Some? && clipUrl.value != ""
  }

  /** Same session and type, less than the cooldown apart. */
  predicate Clashes(e: StoredEvent, sessionId: string, eventType: string, timestamp: int) {
    e.sessionId == sessionId && e.eventType == eventType && Distance(timestamp, e.timestamp) < Cooldown(eventType)
  }

  predicate NoClash(events: seq<StoredEvent>, sessionId: string, eventType: string, timestamp: int) {
    forall i :: 0 <= i < |events| ==> !Clashes(events[i], sessionId, eventType, timestamp)
  }

  /** The first stored event, in storage order, that a submission clashes with. */
  function FirstClash(events: seq<StoredEvent>, sessionId: string, eventType: string, timestamp: int): (k: Option<nat>)
    ensures k.None? <==> NoClash(events, sessionId, eventType, timestamp)
    ensures k.Some? ==> k.value < |events| && Clashes(events[k.value], sessionId, eventType, timestamp)
                        && NoClash(events[..k.value], sessionId, eventType, timestamp)
  {
    if events == [] then None
    else
      var n := |events| - 1;
      var before := FirstClash(events[..n], sessionId, eventType, timestamp);
      if before.Some? then
        assert events[..before.value] == events[..n][..before.value];
        before
      else if Clashes(events[n], sessionId, eventType, timestamp) then Some(n)
      else
        assert forall i :: 0 <= i < n ==> events[i] == events[..n][i];
        None
  }

  predicate IdFree(events: seq<StoredEvent>, id: string) {
    forall i :: 0 <= i < |events| ==> events[i].id != id
  }

  function NewEvent(sessionId: string, dto: EventDto, id: string): StoredEvent {
    StoredEvent(id, sessionId, dto.eventType, dto.severity, dto.timestamp, dto.clipUrl, dto.modelVersion,
                if dto.uploadStatus.Some? then dto.uploadStatus.value
                else if HasClip(dto.clipUrl) then Uploaded else Failed)
  }

  function WithClip(e: StoredEvent, dto: EventDto): StoredEvent {
    if HasClip(dto.clipUrl) then e.(clipUrl := dto.clipUrl, uploadStatus := Uploaded) else e
  }

  /** Equal but for clip and upload status. */
  predicate SameSighting(a: StoredEvent, b: StoredEvent) {
    a == b.(clipUrl := a.clipUrl, uploadStatus := a.uploadStatus)
  }

  /** Stored events of one session and type with a cooldown are at least that far apart. */
  ghost predicate Spaced(events: seq<StoredEvent>) {
    forall i, j :: 0 <= i < j < |events| ==>
      !Clashes(events[i], events[j].sessionId, events[j].eventType, events[j].timestamp)
  }

  ghost predicate UniqueIds(events: seq<StoredEvent>) {
    forall i, j :: 0 <= i < j < |events| ==> events[i].id != events[j].id
  }

  /** The row has the submission's session and type, and its time or one within the cooldown of it. */
  predicate Covers(e: StoredEvent, sessionId: string, dto: EventDto) {
    && e.sessionId == sessionId && e.eventType == dto.eventType
    && (e.timestamp == dto.timestamp || Distance(dto.timestamp, e.timestamp) < Cooldown(dto.eventType))
  }

  // ---- One submission ----

  /** freshId stands for the id the database generates when the submission carries none. */
  datatype Submission = Submission(session: Option<SessionRef>, dto: EventDto, freshId: string)

  function ChosenId(sub: Submission): string {
    if sub.dto.id.Some? then sub.dto.id.value else sub.freshId
  }

  /** What createEvent answers: the updated or the inserted row, or the refusal. */
  function Answer(events: seq<StoredEvent>, sub: Submission): Result<StoredEvent, ProctoringError> {
    if sub.session.None? then Err(SessionMissing)
    else if sub.session.value.status == Abandoned then Err(SessionInactive(Abandoned))
    else
      var sid := sub.session.value.id;
      match FirstClash(events, sid, sub.dto.eventType, sub.dto.timestamp)
      case Some(k) => Ok(WithClip(events[k], sub.dto))
      case None =>
        if IdFree(events, ChosenId(sub)) then Ok(NewEvent(sid, sub.dto, ChosenId(sub)))
        else Err(IdTaken(ChosenId(sub)))
  }

  /** The stored rows afterwards. */
  function Record(events: seq<StoredEvent>, sub: Submission): seq<StoredEvent> {
    var answer := Answer(events, sub);
    if answer.Err? then events
    else
      match FirstClash(events, sub.session.value.id, sub.dto.eventType, sub.dto.timestamp)
      case Some(k) => events[k := answer.value]
      case None => events + [answer.value]
  }

  class ProctoringService {
    var events: seq<StoredEvent>

    constructor ()
      ensures events == []
    {
      events := [];
    }

    /** The position of the first stored event inside the cooldown of a new one. */
    method FindRecentDuplicateEvent(sessionId: string, eventType: string, timestamp: int) returns (found: Option<nat>)
      ensures found == FirstClash(events, sessionId, eventType, timestamp)
    {
      hide Cooldown;
      var cooldown := Cooldown(eventType);
      if cooldown <= 0 {
        return None;
      }
      for i := 0 to |events|
        invariant NoClash(events[..i], sessionId, eventType, timestamp)
      {
        if events[i].sessionId == sessionId && events[i].eventType == eventType {
          if Distance(timestamp, events[i].timestamp) < cooldown {
            FirstClashIs(events, i, sessionId, eventType, timestamp);
            return Some(i);
          }
        }
      }
      assert events[..|events|] == events;
      found := None;
    }

    method CreateEvent(sub: Submission) returns (r: Result<StoredEvent, ProctoringError>)
      modifies this
      ensures r == Answer(old(events), sub)
      ensures events == Record(old(events), sub)
    {
      hide Cooldown, FirstClash;
      var dto := sub.dto;
      if sub.session.None? {
        return Err(SessionMissing);
      }
      var targetSessionId := sub.session.value.id;
      if sub.session.value.status !in {InProgress, NotStarted, Disconnected, Submitted, AutoSubmitted, Closed} {
        return Err(SessionInactive(sub.session.value.status));
      }
      var existing := FindRecentDuplicateEvent(targetSessionId, dto.eventType, dto.timestamp);
      match existing {
        case Some(k) =>
          if HasClip(dto.clipUrl) {
            events := events[k := events[k].(clipUrl := dto.clipUrl, uploadStatus := Uploaded)];
          }
          r := Ok(events[k]);
        case None =>
          var id := if dto.id.Some? then dto.id.value else sub.freshId;
          if exists i :: 0 <= i < |events| && events[i].id == id {
            return Err(IdTaken(id));
          }
          var row := NewEvent(targetSessionId, dto, id);
          events := events + [row];
          r := Ok(row);
      }
    }
  }

  lemma FirstClashIs(events: seq<StoredEvent>, k: nat, sessionId: string, eventType: string, timestamp: int)
    requires k < |events| && Clashes(events[k], sessionId, eventType, timestamp)
    requires NoClash(events[..k], sessionId, eventType, timestamp)
    ensures FirstClash(events, sessionId, eventType, timestamp) == Some(k)
  {
  }

  /** The rows after a list of submissions. */
  function Run(events: seq<StoredEvent>, subs: seq<Submission>): seq<StoredEvent> {
    if subs == [] then events else Record(Run(events, subs[..|subs| - 1]), subs[|subs| - 1])
  }

  lemma RecordKeepsValid(events: seq<StoredEvent>, sub: Submission)
    requires Spaced(events) && UniqueIds(events)
    ensures Spaced(Record(events, sub)) && UniqueIds(Record(events, sub))
  {
  }

  /** After any submissions, rows of one session and type are at least the cooldown apart. */
  lemma {:induction false} ReachableSpaced(subs: seq<Submission>)
    ensures Spaced(Run([], subs)) && UniqueIds(Run([], subs))
  {
    if subs != [] {
      ReachableSpaced(subs[..|subs| - 1]);
      RecordKeepsValid(Run([], subs[..|subs| - 1]), subs[|subs| - 1]);
    }
  }

  /** No row ever leaves, moves or changes more than its clip and upload status. */
  lemma {:induction false} RowsStay(events: seq<StoredEvent>, subs: seq<Submission>)
    ensures |events| <= |Run(events, subs)|
    ensures forall i :: 0 <= i < |events| ==> SameSighting(Run(events, subs)[i], events[i])
  {
    hide Cooldown, FirstClash, Clashes;
    if subs != [] {
      RowsStay(events, subs[..|subs| - 1]);
    }
  }

  lemma {:induction false} RunAppend(events: seq<StoredEvent>, a: seq<Submission>, b: seq<Submission>)
    ensures Run(events, a + b) == Run(Run(events, a), b)
  {
    if b == [] {
      assert a + b == a;
    } else {
      var n := |b| - 1;
      RunAppend(events, a, b[..n]);
      assert (a + b)[..|a| + n] == a + b[..n];
    }
  }

  predicate CoveredIn(events: seq<StoredEvent>, sub: Submission) {
    sub.session.Some? && exists k :: 0 <= k < |events| && Covers(events[k], sub.session.value.id, sub.dto)
  }

  lemma RecordCovers(events: seq<StoredEvent>, sub: Submission)
    requires Answer(events, sub).Ok?
    ensures CoveredIn(Record(events, sub), sub)
  {
    hide Cooldown, FirstClash;
    var sid := sub.session.value.id;
    match FirstClash(events, sid, sub.dto.eventType, sub.dto.timestamp) {
      case Some(k) => assert Covers(Record(events, sub)[k], sid, sub.dto);
      case None => assert Covers(Record(events, sub)[|events|], sid, sub.dto);
    }
  }

  lemma CoverStays(events: seq<StoredEvent>, sub: Submission, later: seq<Submission>)
    requires CoveredIn(events, sub)
    ensures CoveredIn(Run(events, later), sub)
  {
    hide Cooldown, Run;
    RowsStay(events, later);
    var k :| 0 <= k < |events| && Covers(events[k], sub.session.value.id, sub.dto);
    assert SameSighting(Run(events, later)[k], events[k]);
    assert Covers(Run(events, later)[k], sub.session.value.id, sub.dto);
  }

  lemma RunSnoc(events: seq<StoredEvent>, subs: seq<Submission>, sub: Submission)
    ensures Run(events, subs + [sub]) == Record(Run(events, subs), sub)
  {
  }

  /** Whatever follows, an accepted submission keeps a stored row of its session and type within the cooldown. */
  lemma AcceptedStaysCovered(subs: seq<Submission>, i: nat)
    requires i < |subs| && Answer(Run([], subs[..i]), subs[i]).Ok?
    ensures CoveredIn(Run([], subs), subs[i])
  {
    hide Answer, Record, Run, CoveredIn;
    RecordCovers(Run([], subs[..i]), subs[i]);
    RunSnoc([], subs[..i], subs[i]);
    CoverStays(Record(Run([], subs[..i]), subs[i]), subs[i], subs[i + 1..]);
    RunAppend([], subs[..i] + [subs[i]], subs[i + 1..]);
    assert subs == subs[..i] + [subs[i]] + subs[i + 1..];
  }

  /** A submission clashes with at most two stored rows, one on each side. */
  lemma AtMostTwoClashes(events: seq<StoredEvent>, i: nat, j: nat, k: nat, sessionId: string, eventType: string, t: int)
    requires Spaced(events) && i < j < k < |events|
    ensures !(Clashes(events[i], sessionId, eventType, t) && Clashes(events[j], sessionId, eventType, t)
              && Clashes(events[k], sessionId, eventType, t))
  {
  }

  /** The table of cooldowns, in milliseconds; no other value occurs. */
  lemma CooldownTable(t: string)
    ensures Cooldown(t) == 30000 <==>
            t in ["PHONE_DETECTED", "HEADPHONES_DETECTED", "BOOK_DETECTED",
                  "SECOND_VOICE_SUSPECTED", "IDENTITY_MISMATCH"]
    ensures Cooldown(t) == 15000 <==> t in ["FACE_MISSING", "LOOKING_AWAY", "EXCESSIVE_MOVEMENT", "SPEECH_DETECTED"]
    ensures Cooldown(t) == 10000 <==> t in ["TAB_SWITCH", "FULLSCREEN_EXIT"]
    ensures Cooldown(t) == 5000 <==> t == "PASTE"
    ensures Cooldown(t) in {0, 5000, 10000, 15000, 30000}
    ensures Cooldown("MULTIPLE_FACES") == Cooldown("SEAT_EXIT") == 0
  {
  }

  /** Submissions are refused without a session and for an abandoned one, and otherwise only for a taken id. */
  lemma RefusedIff(events: seq<StoredEvent>, sub: Submission)
    ensures Answer(events, sub) == Err(SessionMissing) <==> sub.session.None?
    ensures Answer(events, sub) == Err(SessionInactive(Abandoned))
            <==> sub.session.Some? && sub.session.value.status == Abandoned
    ensures Answer(events, sub).Err? ==>
              || sub.session.None? || sub.session.value.status == Abandoned
              || exists i :: 0 <= i < |events| && events[i].id == ChosenId(sub)
    ensures Answer(events, sub).Err? ==> Record(events, sub) == events
  {
    hide Cooldown, FirstClash;
  }

  /** Less than c milliseconds apart, in either direction. */
  predicate Near(a: int, b: int, c: int) {
    -c < a - b < c
  }

  /** Whether a submission is merged: some stored event of its session and type lies nearer than the cooldown. */
  lemma MergedIff(events: seq<StoredEvent>, sub: Submission)
    requires sub.session.Some? && sub.session.value.status != Abandoned
    ensures |Record(events, sub)| == |events| + (if Answer(events, sub).Ok? && !Merges(events, sub) then 1 else 0)
    ensures Answer(events, sub).Err? <==> !Merges(events, sub) && !IdFree(events, ChosenId(sub))
    ensures Merges(events, sub) <==>
            exists i :: 0 <= i < |events| && events[i].sessionId == sub.session.value.id
                        && events[i].eventType == sub.dto.eventType
                        && Near(events[i].timestamp, sub.dto.timestamp, Cooldown(sub.dto.eventType))
  {
    hide Cooldown, FirstClash;
    var sid, dto := sub.session.value.id, sub.dto;
    forall i | 0 <= i < |events|
      ensures Clashes(events[i], sid, dto.eventType, dto.timestamp) <==>
              events[i].sessionId == sid && events[i].eventType == dto.eventType
              && Near(events[i].timestamp, dto.timestamp, Cooldown(dto.eventType))
    {
    }
  }

  predicate Merges(events: seq<StoredEvent>, sub: Submission)
    requires sub.session.Some?
  {
    FirstClash(events, sub.session.value.id, sub.dto.eventType, sub.dto.timestamp).Some?
  }

  /** A new row says what was submitted; without a status it is uploaded when it has a clip and failed when not. */
  lemma NewRowSays(events: seq<StoredEvent>, sub: Submission)
    requires sub.session.Some? && !Merges(events, sub) && Answer(events, sub).Ok?
    ensures var row, dto := Answer(events, sub).value, sub.dto;
            && row.sessionId == sub.session.value.id && row.eventType == dto.eventType
            && row.timestamp == dto.timestamp && row.severity == dto.severity
            && row.clipUrl == dto.clipUrl && row.modelVersion == dto.modelVersion
            && row.id == (match dto.id case Some(id) => id case None => sub.freshId)
            && row.uploadStatus == (match dto.uploadStatus
                                    case Some(u) => u
                                    case None => if dto.clipUrl in {None, Some("")} then Failed else Uploaded)
            && Record(events, sub) == events + [row]
  {
    hide Cooldown, FirstClash;
  }

  /** A merged submission with a clip stores it, as uploaded; one without changes nothing. */
  lemma LateClip(events: seq<StoredEvent>, sub: Submission)
    requires sub.session.Some? && sub.session.value.status != Abandoned && Merges(events, sub)
    ensures sub.dto.clipUrl in {None, Some("")} ==> Record(events, sub) == events
    ensures sub.dto.clipUrl !in {None, Some("")} ==>
              exists k :: 0 <= k < |events|
                && Clashes(events[k], sub.session.value.id, sub.dto.eventType, sub.dto.timestamp)
                && Record(events, sub)
                   == events[k := events[k].(clipUrl := sub.dto.clipUrl, uploadStatus := Uploaded)]
  {
    hide Cooldown, FirstClash, Clashes;
    var k := FirstClash(events, sub.session.value.id, sub.dto.eventType, sub.dto.timestamp).value;
    assert events[k := events[k]] == events;
  }

  // ---- How many events fit in a window ----

  /** Positions of the stored events of one session and type with from <= timestamp <= from + length. */
  ghost function InWindow(events: seq<StoredEvent>, sessionId: string, eventType: string, from: int, length: nat)
    : set<nat>
  {
    set i: nat | i < |events| && events[i].sessionId == sessionId && events[i].eventType == eventType
                 && from <= events[i].timestamp <= from + length
  }

  /** Positions with pairwise different slots below n number at most n. */
  lemma {:induction false} SlotBound(s: set<nat>, slot: nat -> nat, n: nat)
    requires forall x :: x in s ==> slot(x) < n
    requires forall x, y :: x in s && y in s && slot(x) == slot(y) ==> x == y
    ensures |s| <= n
    decreases n
  {
    if n > 0 {
      if x :| x in s && slot(x) == n - 1 {
        SlotBound(s - {x}, slot, n - 1);
      } else {
        SlotBound(s, slot, n - 1);
      }
    } else {
      assert s == {};
    }
  }

  function Slot(events: seq<StoredEvent>, from: int, c: nat): nat -> nat
    requires c > 0
  {
    (i: nat) => if i < |events| && events[i].timestamp >= from then (events[i].timestamp - from) / c else 0
  }

  /** Two positions of one window in the same slot would clash. */
  lemma SlotsDiffer(events: seq<StoredEvent>, sessionId: string, eventType: string, from: int, length: nat,
                    i: nat, j: nat)
    requires Spaced(events) && Cooldown(eventType) > 0
    requires i in InWindow(events, sessionId, eventType, from, length)
    requires j in InWindow(events, sessionId, eventType, from, length)
    requires i < j
    ensures Slot(events, from, Cooldown(eventType))(i) != Slot(events, from, Cooldown(eventType))(j)
  {
  }

  /** Any window of length L holds at most L / cooldown + 1 stored events of a type with a cooldown. */
  lemma WindowBound(events: seq<StoredEvent>, sessionId: string, eventType: string, from: int, length: nat)
    requires Spaced(events) && Cooldown(eventType) > 0
    ensures |InWindow(events, sessionId, eventType, from, length)| <= length / Cooldown(eventType) + 1
  {
    hide Cooldown, Spaced;
    var c := Cooldown(eventType);
    var s := InWindow(events, sessionId, eventType, from, length);
    forall i | i in s
      ensures Slot(events, from, c)(i) < length / c + 1
    {
      QuotientMonotone(events[i].timestamp - from, length, c);
    }
    forall i, j | i in s && j in s && Slot(events, from, c)(i) == Slot(events, from, c)(j)
      ensures i == j
    {
      if i < j {
        SlotsDiffer(events, sessionId, eventType, from, length, i, j);
      } else if j < i {
        SlotsDiffer(events, sessionId, eventType, from, length, j, i);
      }
    }
    SlotBound(s, Slot(events, from, c), length / c + 1);
  }

  lemma ProductAtLeast(d: int, c: nat)
    ensures d > 0 ==> d * c >= c
  {
  }

  lemma QuotientMonotone(a: nat, b: nat, c: nat)
    requires a <= b && c > 0
    ensures a / c <= b / c
  {
    ProductAtLeast(a / c - b / c, c);
    assert (a / c - b / c) * c == (a / c) * c - (b / c) * c;
    assert a == (a / c) * c + a % c && b == (b / c) * c + b % c;
  }

  /** The two together: at most L / cooldown + 1 rows of a type in any window, after any submissions. */
  lemma ReachableWindowBound(subs: seq<Submission>, sessionId: string, eventType: string, from: int, length: nat)
    requires Cooldown(eventType) > 0
    ensures |InWindow(Run([], subs), sessionId, eventType, from, length)| <= length / Cooldown(eventType) + 1
  {
    ReachableSpaced(subs);
    WindowBound(Run([], subs), sessionId, eventType, from, length);
  }
}

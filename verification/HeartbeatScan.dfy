/** The fleet-wide heartbeat scan. */
module HeartbeatScan {
  import opened Prelude
  import opened SessionModel
  import I = LifecycleInvariants
  import L = Lifecycle
  import S = SessionService

  predicate StaleIn(w: World, id: string, cutoff: int) {
    id in w.sessions && L.IsStale(w.sessions[id], cutoff)
  }

  predicate Distinct(ids: seq<string>) {
    forall i, j :: 0 <= i < j < |ids| ==> ids[i] != ids[j]
  }

  /** A query answer: every stale session once, in any order. */
  ghost predicate ListsStale(w: World, cutoff: int, ids: seq<string>) {
    Distinct(ids) && (forall id :: id in ids <==> StaleIn(w, id, cutoff))
  }

  /** markDisconnected applied to the listed sessions one after the other. */
  function MarkAll(cfg: Config, w: World, ids: seq<string>): World
    decreases |ids|
  {
    if ids == [] then w else MarkAll(cfg, L.MarkDisconnected(cfg, w, ids[0]), ids[1..])
  }

  lemma {:induction false} MarkAllSnoc(cfg: Config, w: World, ids: seq<string>, id: string)
    ensures MarkAll(cfg, w, ids + [id]) == L.MarkDisconnected(cfg, MarkAll(cfg, w, ids), id)
    decreases |ids|
  {
    if ids == [] {
      assert ([] + [id])[1..] == [];
      assert MarkAll(cfg, w, [id]) == MarkAll(cfg, L.MarkDisconnected(cfg, w, id), []);
    } else {
      assert (ids + [id])[1..] == ids[1..] + [id];
      MarkAllSnoc(cfg, L.MarkDisconnected(cfg, w, ids[0]), ids[1..], id);
    }
  }

  predicate SameJob(a: map<string, Job>, b: map<string, Job>, jobId: string) {
    (jobId in a <==> jobId in b) && (jobId in a ==> a[jobId] == b[jobId])
  }

  /** Each listed session's row ends as if it alone had been marked; the other rows are untouched. */
  ghost predicate RowsMarked(cfg: Config, w: World, ids: seq<string>, w': World) {
    && w'.sessions.Keys == w.sessions.Keys && w'.now == w.now
    && (forall id :: id in w.sessions ==>
          w'.sessions[id] == if id in ids then L.MarkDisconnected(cfg, w, id).sessions[id] else w.sessions[id])
  }

  /** The grace job of a listed session is as if it alone had been marked; the other jobs are untouched. */
  ghost predicate JobsMarked(cfg: Config, w: World, ids: seq<string>, w': World) {
    && (forall id :: id in ids ==> SameJob(w'.jobs, L.MarkDisconnected(cfg, w, id).jobs, JobId(id)))
    && (forall j :: (forall id :: id in ids ==> JobId(id) != j) ==> SameJob(w'.jobs, w.jobs, j))
  }

  lemma RowsMarkedStep(cfg: Config, w: World, ids: seq<string>, w': World)
    requires ids != [] && Distinct(ids)
    requires RowsMarked(cfg, L.MarkDisconnected(cfg, w, ids[0]), ids[1..], w')
    ensures RowsMarked(cfg, w, ids, w')
  {
    var w1 := L.MarkDisconnected(cfg, w, ids[0]);
    assert w1.sessions.Keys == w.sessions.Keys;
    assert ids[0] !in ids[1..];
    forall id | id in w.sessions
      ensures w'.sessions[id] == if id in ids then L.MarkDisconnected(cfg, w, id).sessions[id] else w.sessions[id]
    {
      if id == ids[0] {
        assert w'.sessions[id] == w1.sessions[id];
      } else {
        assert id in ids <==> id in ids[1..];
        assert w1.sessions[id] == w.sessions[id];
        assert L.MarkDisconnected(cfg, w1, id).sessions[id] == L.MarkDisconnected(cfg, w, id).sessions[id];
      }
    }
  }

  /** Marking one session leaves another's grace job, and the effect of marking it, as they were. */
  lemma MarkIndependent(cfg: Config, w: World, a: string, b: string)
    requires a != b
    ensures var w1 := L.MarkDisconnected(cfg, w, a);
            && SameJob(w1.jobs, w.jobs, JobId(b))
            && SameJob(L.MarkDisconnected(cfg, w1, b).jobs, L.MarkDisconnected(cfg, w, b).jobs, JobId(b))
  {
    if JobId(a) == JobId(b) {
      JobIdInjective(a, b);
    }
  }

  lemma JobsMarkedListed(cfg: Config, w: World, ids: seq<string>, w': World, id: string)
    requires ids != [] && Distinct(ids) && id in ids
    requires JobsMarked(cfg, L.MarkDisconnected(cfg, w, ids[0]), ids[1..], w')
    ensures SameJob(w'.jobs, L.MarkDisconnected(cfg, w, id).jobs, JobId(id))
  {
    if id == ids[0] {
      forall k | k in ids[1..]
        ensures JobId(k) != JobId(id)
      {
        if JobId(k) == JobId(id) {
          JobIdInjective(k, id);
        }
      }
    } else {
      assert id in ids[1..];
      MarkIndependent(cfg, w, ids[0], id);
    }
  }

  lemma JobsMarkedStep(cfg: Config, w: World, ids: seq<string>, w': World)
    requires ids != [] && Distinct(ids)
    requires JobsMarked(cfg, L.MarkDisconnected(cfg, w, ids[0]), ids[1..], w')
    ensures JobsMarked(cfg, w, ids, w')
  {
    forall id | id in ids
      ensures SameJob(w'.jobs, L.MarkDisconnected(cfg, w, id).jobs, JobId(id))
    {
      JobsMarkedListed(cfg, w, ids, w', id);
    }
    var w1 := L.MarkDisconnected(cfg, w, ids[0]);
    forall j | forall id :: id in ids ==> JobId(id) != j
      ensures SameJob(w'.jobs, w.jobs, j)
    {
      assert ids[0] in ids;
      assert forall id :: id in ids[1..] ==> id in ids;
      assert SameJob(w'.jobs, w1.jobs, j) && SameJob(w1.jobs, w.jobs, j);
    }
  }

  lemma {:induction false} MarkAllEffect(cfg: Config, w: World, ids: seq<string>)
    requires Distinct(ids)
    ensures RowsMarked(cfg, w, ids, MarkAll(cfg, w, ids)) && JobsMarked(cfg, w, ids, MarkAll(cfg, w, ids))
    decreases |ids|
  {
    if ids != [] {
      MarkAllEffect(cfg, L.MarkDisconnected(cfg, w, ids[0]), ids[1..]);
      RowsMarkedStep(cfg, w, ids, MarkAll(cfg, w, ids));
      JobsMarkedStep(cfg, w, ids, MarkAll(cfg, w, ids));
    }
  }

  ghost predicate NoneStale(w: World, cutoff: int) {
    forall id :: !StaleIn(w, id, cutoff)
  }

  lemma {:induction false} MarkAllIdle(cfg: Config, w: World, ids: seq<string>)
    requires forall id :: id in ids ==> id !in w.sessions || w.sessions[id].status != InProgress
    ensures MarkAll(cfg, w, ids) == w
    decreases |ids|
  {
    if ids != [] {
      assert ids[0] in ids;
      MarkAllIdle(cfg, w, ids[1..]);
    }
  }

  /**
   * After a scan nothing is stale; each stale row went to DISCONNECTED, or to AUTO_SUBMITTED at the
   * limit, with its count up by one; every other row is unchanged; a second scan changes nothing.
   */
  lemma ScanEffect(cfg: Config, w: World, cutoff: int, ids: seq<string>)
    requires ListsStale(w, cutoff, ids)
    ensures var w' := MarkAll(cfg, w, ids);
            && w'.sessions.Keys == w.sessions.Keys
            && NoneStale(w', cutoff)
            && (forall id :: id in w.sessions && StaleIn(w, id, cutoff) ==>
                  && w'.sessions[id].disconnectCount == w.sessions[id].disconnectCount + 1
                  && w'.sessions[id].status ==
                     if w.sessions[id].disconnectCount + 1 >= cfg.maxDisconnectCount
                     then AutoSubmitted else Disconnected)
            && (forall id :: id in w.sessions && !StaleIn(w, id, cutoff) ==> w'.sessions[id] == w.sessions[id])
            && (forall again :: ListsStale(w', cutoff, again) ==> MarkAll(cfg, w', again) == w')
  {
    MarkAllEffect(cfg, w, ids);
    var w' := MarkAll(cfg, w, ids);
    forall again | ListsStale(w', cutoff, again)
      ensures MarkAll(cfg, w', again) == w'
    {
      MarkAllIdle(cfg, w', again);
    }
  }

  /**
   * In row fields: a row that is not IN_PROGRESS, or whose heartbeat is no older than the cutoff, is spared;
   * a running row without a heartbeat, or with an older one, is counted once more and runs no longer.
   */
  lemma ScanInFields(cfg: Config, w: World, cutoff: int, ids: seq<string>, id: string)
    requires ListsStale(w, cutoff, ids) && id in w.sessions
    ensures id in MarkAll(cfg, w, ids).sessions
    ensures var s, s' := w.sessions[id], MarkAll(cfg, w, ids).sessions[id];
            && (s.status != InProgress || (s.lastHeartbeatAt.Some? && s.lastHeartbeatAt.value >= cutoff) ==> s' == s)
            && (s.status == InProgress && (s.lastHeartbeatAt.None? || s.lastHeartbeatAt.value < cutoff) ==>
                  && s'.disconnectCount == s.disconnectCount + 1
                  && s'.status == (if s.disconnectCount + 1 < cfg.maxDisconnectCount
                                   then Disconnected else AutoSubmitted)
                  && s'.disconnectedAt == Some(w.now) && s'.lastHeartbeatAt == s.lastHeartbeatAt)
  {
    hide MarkAll;
    MarkAllEffect(cfg, w, ids);
    assert id in ids <==> StaleIn(w, id, cutoff);
  }

  /** The query in row fields: running rows without a heartbeat or with one before the cutoff, and no others. */
  lemma QueryInFields(w: World, cutoff: int, ids: seq<string>, id: string)
    requires ListsStale(w, cutoff, ids)
    ensures id in ids <==>
            && id in w.sessions && w.sessions[id].status == InProgress
            && (w.sessions[id].lastHeartbeatAt == None
                || exists t :: t < cutoff && w.sessions[id].lastHeartbeatAt == Some(t))
  {
    assert id in ids <==> StaleIn(w, id, cutoff);
    if StaleIn(w, id, cutoff) && w.sessions[id].lastHeartbeatAt.Some? {
      var t := w.sessions[id].lastHeartbeatAt.value;
      assert t < cutoff && w.sessions[id].lastHeartbeatAt == Some(t);
    }
  }

  /** The rows and pending jobs after a scan do not depend on the order of the query answer. */
  lemma ScanOrderIrrelevant(cfg: Config, w: World, cutoff: int, a: seq<string>, b: seq<string>)
    requires ListsStale(w, cutoff, a) && ListsStale(w, cutoff, b)
    ensures MarkAll(cfg, w, a).sessions == MarkAll(cfg, w, b).sessions
    ensures MarkAll(cfg, w, a).jobs == MarkAll(cfg, w, b).jobs
  {
    hide L.MarkDisconnected, MarkAll;
    MarkAllEffect(cfg, w, a);
    MarkAllEffect(cfg, w, b);
    var ja, jb := MarkAll(cfg, w, a).jobs, MarkAll(cfg, w, b).jobs;
    assert forall id :: id in a <==> id in b;
    forall j
      ensures SameJob(ja, jb, j)
    {
      if id :| id in a && JobId(id) == j {
        assert SameJob(ja, L.MarkDisconnected(cfg, w, id).jobs, JobId(id));
        assert SameJob(jb, L.MarkDisconnected(cfg, w, id).jobs, JobId(id));
      } else {
        assert SameJob(ja, w.jobs, j) && SameJob(jb, w.jobs, j);
      }
    }
    assert forall j :: j in ja ==> SameJob(ja, jb, j);
    assert forall j :: j in jb ==> SameJob(ja, jb, j);
  }

  /** A scan as lifecycle steps. */
  function MarkSteps(ids: seq<string>): seq<L.Step> {
    if ids == [] then [] else [L.MarkDisconnectedStep(ids[0])] + MarkSteps(ids[1..])
  }

  /** Marking the listed sessions is a run of lifecycle steps. */
  lemma {:induction false} MarkAllIsRun(cfg: Config, w: World, ids: seq<string>)
    ensures MarkAll(cfg, w, ids) == L.Run(cfg, w, MarkSteps(ids))
    decreases |ids|
  {
    if ids != [] {
      assert MarkSteps(ids)[1..] == MarkSteps(ids[1..]);
      MarkAllIsRun(cfg, L.MarkDisconnected(cfg, w, ids[0]), ids[1..]);
    }
  }

  /** A scan keeps the lifecycle invariant, whatever it lists. */
  lemma ScanKeepsInv(cfg: Config, w: World, ids: seq<string>)
    requires I.Inv(cfg, w)
    ensures I.Inv(cfg, MarkAll(cfg, w, ids))
  {
    hide I.Inv, MarkAll;
    MarkAllIsRun(cfg, w, ids);
    I.RunKeepsInv(cfg, w, MarkSteps(ids));
  }

  class HeartbeatService {
    const staleThresholdMs: int
    const port: S.SessionService

    constructor (port: S.SessionService)
      ensures this.port == port && staleThresholdMs == port.cfg.staleThresholdMs
    {
      this.port := port;
      this.staleThresholdMs := port.cfg.staleThresholdMs;
    }

    /** The query of the scan, in whatever order the rows come back. */
    method FindStale(cutoff: int) returns (ids: seq<string>)
      ensures ListsStale(port.State(), cutoff, ids)
    {
      ids := [];
      var keys := port.db.sessions.Keys;
      var todo := keys;
      while todo != {}
        invariant todo <= keys
        invariant Distinct(ids)
        invariant forall id :: id in ids <==> id in keys - todo && StaleIn(port.State(), id, cutoff)
        decreases todo
      {
        var id :| id in todo;
        todo := todo - {id};
        if L.IsStale(port.db.sessions[id], cutoff) {
          assert id !in ids;
          ids := ids + [id];
        }
      }
    }

    method ScanAndMarkStale() returns (ghost ids: seq<string>)
      requires port.Valid()
      modifies port.db, port.queue
      ensures ListsStale(old(port.State()), port.clock.now - staleThresholdMs, ids)
      ensures port.State() == MarkAll(port.cfg, old(port.State()), ids)
      ensures NoneStale(port.State(), port.clock.now - staleThresholdMs)
    {
      var cutoff := port.clock.now - staleThresholdMs;
      var stale := FindStale(cutoff);
      ids := stale;
      ghost var w := port.State();
      if |stale| == 0 {
        ScanEffect(port.cfg, w, cutoff, ids);
        return;
      }
      for i := 0 to |stale|
        invariant port.State() == MarkAll(port.cfg, w, stale[..i])
      {
        assert stale[..i + 1] == stale[..i] + [stale[i]];
        MarkAllSnoc(port.cfg, w, stale[..i], stale[i]);
        port.MarkDisconnected(stale[i]);
      }
      assert stale[..|stale|] == stale;
      ScanEffect(port.cfg, w, cutoff, ids);
    }
  }
}

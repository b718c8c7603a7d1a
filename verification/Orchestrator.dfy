// The orchestrator over a provider and a store: provisioning, teardown and reaping as they update them.
module Orchestrator {
  import opened Prelude
  import opened State
  import opened Provider
  import opened Provisioning
  import opened Teardown

  /** Only the record of `id` may differ. */
  ghost predicate OthersKept(now: map<string, Cluster>, before: map<string, Cluster>, id: string) {
    now - {id} == before - {id}
  }

  /** The variables the goroutines of one cluster provisioning share. */
  class Provision {
    const job: Job
    const p: Mock
    const s: Store
    var cluster: Cluster
    var saveWarned: bool
    var pcs: seq<Pc>
    var fates: seq<Fate> // what each goroutine's create call in flight has decided
    var held: nat
    var cancelled: bool
    var firstErr: Option<nat>

    /** The shared state as the step relation sees it. */
    ghost function View(): Run
      reads this, p, s
    {
      Run(cluster, if job.id in s.records then Some(s.records[job.id]) else None, !saveWarned, pcs, held, cancelled,
          firstErr, p.View())
    }

    ghost predicate Valid()
      reads this, p, s
    {
      s.Valid() && Inv(job, View()) && |fates| == |pcs|
    }

    /** Plans every node and journals the plan. */
    constructor (p: Mock, s: Store, id: string, provider: string, names: seq<string>, maxConc: int, cancelled: bool,
                 now: int, writable: bool)
      requires p.View().Valid() && p.curConcurrent == 0 && s.Valid()
      modifies s
      ensures job == Job(id, provider, names, maxConc, old(p.View())) && this.p == p && this.s == s
      ensures Valid() && View() ==
        Start(job, if id in old(s.records) then Some(old(s.records[id])) else None, cancelled, now, writable)
      ensures OthersKept(s.records, old(s.records), id)
    {
      job := Job(id, provider, names, maxConc, p.View());
      this.p, this.s, this.cancelled, saveWarned, held, firstErr := p, s, cancelled, false, 0, None;
      pcs := seq(|names|, i => Waiting);
      fates := seq(|names|, i => Fate(false, false));
      cluster := Planning(Job(id, provider, names, maxConc, p.View()));
      new;
      StartInv(job, if id in s.records then Some(s.records[id]) else None, cancelled, now, writable);
      SaveRecord(now, writable);
    }

    /** Stamps the record and writes it, remembering that a write has failed. */
    method SaveRecord(now: int, writable: bool)
      requires s.Valid() && cluster.id == job.id
      modifies this`cluster, this`saveWarned, s
      ensures s.Valid() && View() == old(View()).Journaled(now, writable)
      ensures OthersKept(s.records, old(s.records), job.id)
    {
      var c, ok := s.Save(cluster, now, writable);
      cluster := c;
      if !ok && !saveWarned {
        saveWarned := true;
      }
    }

    method SetNode(i: nat, n: Node)
      requires i < |cluster.nodes|
      modifies this`cluster
      ensures cluster == old(cluster).(nodes := old(cluster).nodes[i := n])
    {
      cluster := cluster.(nodes := cluster.nodes[i := n]);
    }

    /** One action of a goroutine's `createWithRetry`: call the provider, take its answer, or relaunch. */
    method CreateStep(i: nat, contextFirst: bool) returns (ghost m: Move)
      requires |fates| == |pcs| == |cluster.nodes| == |job.names| && i < |pcs|
      requires pcs[i].Ready? || pcs[i].InFlight? || pcs[i].Backoff?
      requires pcs[i].InFlight? ==> 0 < p.curConcurrent
      requires pcs[i].Backoff? ==> pcs[i].attempt < MAX_PROVISION_ATTEMPTS
      modifies this`pcs, this`fates, p
      ensures |fates| == |pcs| && !m.Cancel? && Enabled(job, old(View()), m) && View() == Apply(job, old(View()), m)
    {
      ghost var before := View();
      var pc := pcs[i];
      if pc.Ready? {
        m := Issue(i);
        var fate := p.BeginCreate(job.names[i]);
        fates := fates[i := fate];
        pc := InFlight(pc.attempt);
      } else if pc.InFlight? {
        var offered: bool := *;
        var srv := p.EndCreate(job.names[i], job.id, fates[i], offered);
        m := Complete(i, if srv.Some? then Success else if fates[i].transient then Transient(false)
          else if fates[i].fail then Fatal(false) else Unoffered);
        if srv.Some? {
          pc := Created(srv.value);
        } else if fates[i].transient && pc.attempt < MAX_PROVISION_ATTEMPTS {
          pc := Backoff(pc.attempt);
        } else {
          pc := CreateFailed;
        }
      } else if cancelled && contextFirst {
        m := GiveUp(i);
        pc := CreateFailed;
      } else {
        m := Relaunch(i);
        pc := Ready(pc.attempt + 1);
      }
      assert pc == NextPc(job, before, m) && p.View() == NextCloud(job, before, m);
      CreateApplies(job, before, m);
      pcs := pcs[i := pc];
    }

    /** One action of a goroutine that takes or returns its permit, or whose result the group collects. */
    method GroupStep(i: nat, contextFirst: bool) returns (ghost m: Move)
      requires |pcs| == |cluster.nodes| == |job.names| && i < |pcs|
      requires pcs[i].Waiting? || pcs[i].Saved? || pcs[i].Released? || pcs[i].Refused?
      requires pcs[i].Waiting? ==> held < job.Limit() || cancelled
      requires pcs[i].Saved? ==> 0 < held
      modifies this`pcs, this`held, this`firstErr, this`cancelled
      ensures |pcs| == old(|pcs|) && !m.Cancel? && Enabled(job, old(View()), m) && View() == Apply(job, old(View()), m)
    {
      match pcs[i] {
        case Waiting =>
          if cancelled && (contextFirst || job.Limit() <= held) {
            m := Refuse(i);
            pcs := pcs[i := Refused];
          } else {
            m := Acquire(i);
            held := held + 1;
            pcs := pcs[i := Acquired];
          }
        case Saved(ok) =>
          m := Release(i);
          held := held - 1;
          pcs := pcs[i := Released(ok)];
        case Released(ok) =>
          m := Finish(i);
          Return(i, ok);
        case Refused =>
          m := Finish(i);
          Return(i, false);
      }
      assert cluster == cluster.(nodes := cluster.nodes[i := cluster.nodes[i]]);
    }

    /** One action of a goroutine on the shared record: change its node, or save. */
    method RecordStep(i: nat, now: int, writable: bool) returns (ghost m: Move)
      requires s.Valid() && cluster.id == job.id && |pcs| == |cluster.nodes| == |job.names| && i < |pcs|
      requires pcs[i].Acquired? || pcs[i].Marked? || pcs[i].Created? || pcs[i].CreateFailed? || pcs[i].Recorded?
        || pcs[i].FailMarked?
      modifies this`cluster, this`saveWarned, this`pcs, s
      ensures s.Valid() && |pcs| == old(|pcs|)
      ensures !m.Cancel? && Enabled(job, old(View()), m) && View() == Apply(job, old(View()), m)
      ensures OthersKept(s.records, old(s.records), job.id)
    {
      assert cluster == cluster.(nodes := cluster.nodes[i := cluster.nodes[i]]);
      var pc := pcs[i];
      if pc.Acquired? {
        m := MarkProvisioning(i);
        SetNode(i, cluster.nodes[i].(phase := State.Provisioning));
        pcs := pcs[i := Marked];
      } else if pc.Created? {
        m := Record(i);
        SetNode(i, cluster.nodes[i].(serverId := pc.server.id, ip := pc.server.ip, phase := State.Running));
        pcs := pcs[i := Recorded];
      } else if pc.CreateFailed? {
        m := MarkFailed(i);
        SetNode(i, cluster.nodes[i].(phase := State.Failed));
        pcs := pcs[i := FailMarked];
      } else {
        m := Move.Save(i, now, writable);
        SaveRecord(now, writable);
        pcs := pcs[i := if pc.Marked? then Ready(1) else Saved(pc.Recorded?)];
      }
    }

    /** The next action of goroutine `i`, which is not blocked. */
    method Advance(i: nat, now: int, writable: bool, contextFirst: bool) returns (ghost m: Move)
      requires Valid() && i < |pcs| && !pcs[i].Finished?
      requires pcs[i].Waiting? ==> held < job.Limit() || cancelled
      modifies this, p, s
      ensures Valid() && !m.Cancel? && Enabled(job, old(View()), m) && View() == Apply(job, old(View()), m)
      ensures OthersKept(s.records, old(s.records), job.id)
    {
      ghost var before := View();
      if !pcs[i].Waiting? {
        NextMoveEnabled(job, before, i);
      }
      if pcs[i].Ready? || pcs[i].InFlight? || pcs[i].Backoff? {
        m := CreateStep(i, contextFirst);
      } else if pcs[i].Waiting? || pcs[i].Saved? || pcs[i].Released? || pcs[i].Refused? {
        m := GroupStep(i, contextFirst);
      } else {
        m := RecordStep(i, now, writable);
      }
      StepKeepsInv(job, before, m);
    }

    /** One turn of the scheduler: the caller's context is cancelled, or a goroutine that is not blocked acts. */
    method Turn() returns (ghost m: Move)
      requires Valid() && !View().Returned()
      modifies this, p, s
      ensures Valid() && Enabled(job, old(View()), m) && View() == Apply(job, old(View()), m)
      ensures OthersKept(s.records, old(s.records), job.id)
    {
      ghost var before := View();
      var cancel: bool := *;
      if cancel && !cancelled {
        m := Cancel;
        cancelled := true;
        StepKeepsInv(job, before, Cancel);
      } else {
        ghost var some := Progress(job, before);
        var i :| 0 <= i < |pcs| && !pcs[i].Finished? && (pcs[i].Waiting? ==> held < job.Limit() || cancelled);
        var now: int, writable: bool, contextFirst: bool := *, *, *;
        m := Advance(i, now, writable, contextFirst);
      }
    }

    /** The group keeps the first error and cancels the others with it. */
    method Return(i: nat, ok: bool)
      requires i < |pcs|
      modifies this`pcs, this`firstErr, this`cancelled
      ensures pcs == old(pcs)[i := Finished(ok)] && cancelled == (old(cancelled) || !ok)
      ensures firstErr == if !ok && old(firstErr).None? then Some(i) else old(firstErr)
    {
      if !ok {
        firstErr := if firstErr.None? then Some(i) else firstErr;
        cancelled := true;
      }
      pcs := pcs[i := Finished(ok)];
    }
  }

  /** What the world answers while a teardown runs. */
  datatype Weather = Weather(firstList: bool, secondList: bool, hasAuxReaper: bool, writable: bool, removable: bool,
                             cancelled: bool, now: int)

  /** The teardown intent: every node of the record is being torn down. */
  function MarkedDown(c: Cluster): Cluster {
    c.(nodes := seq(|c.nodes|, i requires 0 <= i < |c.nodes| => c.nodes[i].(phase := State.TearingDown)))
  }

  /** At most one server was made, with the next id. */
  lemma OneCreate(job: Job, cloud: Cloud, srv: Option<Server>)
    requires job.before.Valid() && cloud.Valid() && job.before.lastId <= cloud.lastId
    requires srv.None? ==> cloud.servers == job.before.servers
    requires srv.Some? ==> srv.value.id == cloud.lastId == job.before.lastId + 1 && srv.value.cluster == job.id
    requires srv.Some? ==> cloud.servers == job.before.servers[cloud.lastId := srv.value]
    ensures CloudOk(job, cloud)
  {
  }

  lemma OneRunning(job: Job, cloud: Cloud, srv: Server, c: Cluster)
    requires |job.names| == 1 && srv == Server(srv.id, job.names[0], job.id, srv.ip) && job.before.lastId < srv.id
    requires srv.id in cloud.servers && cloud.servers[srv.id] == srv
    requires c.nodes == [Node(job.names[0], srv.id, srv.ip, State.Running)]
    ensures AllRunning(job, c, cloud)
  {
  }

  class Orchestrator {
    const p: Mock
    const s: Store

    constructor (p: Mock, s: Store)
      ensures this.p == p && this.s == s
    {
      this.p, this.s := p, s;
    }

    /** The run's outcome as the caller sees it: the record, the group's error and whether every save worked. */
    ghost predicate Shows(t: Run, id: string, c: Cluster, err: Option<nat>, journaled: bool)
      reads p, s
    {
      && t.cluster == c && t.firstErr == err && t.journaled == journaled && t.cloud == p.View()
      && t.disk == if id in s.records then Some(s.records[id]) else None
    }

    /**
      * Provisions every node under any interleaving and returns once all goroutines have: what it leaves is what some
      * schedule of the step relation leads to.
      */
    method UpCluster(id: string, provider: string, names: seq<string>, maxConc: int, cancelled: bool)
      returns (c: Cluster, err: Option<nat>, journaled: bool, ghost start: Run, ghost moves: seq<Move>)
      requires p.View().Valid() && p.curConcurrent == 0 && s.Valid()
      modifies p, s
      ensures s.Valid() && p.View().Valid() && OthersKept(s.records, old(s.records), id)
      ensures IsStart(Job(id, provider, names, maxConc, old(p.View())),
                      if id in old(s.records) then Some(old(s.records[id])) else None, cancelled, start)
      ensures var job := Job(id, provider, names, maxConc, old(p.View()));
        && Inv(job, start) && Schedule(job, start, moves) && After(job, start, moves).Returned()
        && Shows(After(job, start, moves), id, c, err, journaled)
      ensures var job := Job(id, provider, names, maxConc, old(p.View()));
        && CloudOk(job, p.View())
        && p.curConcurrent == 0 && p.maxConcurrent <= Max(old(p.maxConcurrent), job.Limit())
        && (err.None? <==> AllRunning(job, c, p.View()))
      ensures journaled ==> id in s.records && s.records[id] == c
    {
      var now: int, writable: bool := *, *;
      var run := new Provision(p, s, id, provider, names, maxConc, cancelled, now, writable);
      start, moves := run.View(), [];
      while exists pc :: pc in run.pcs && !pc.Finished?
        invariant run.Valid() && fresh(run) && run.p == p && run.s == s
        invariant run.job == Job(id, provider, names, maxConc, old(p.View()))
        invariant Schedule(run.job, start, moves) && After(run.job, start, moves) == run.View()
        invariant OthersKept(s.records, old(s.records), id)
        decreases Fuel(run.View())
      {
        ghost var before := run.View();
        ghost var m := run.Turn();
        StepBurnsFuel(run.job, before, m);
        ScheduleSnoc(run.job, start, moves, m);
        moves := moves + [m];
      }
      InvBarrier(run.job, run.View());
      c, err, journaled := run.cluster, run.firstErr, !run.saveWarned;
    }

    /** How many boots of a node will still die. */
    function Dying(name: string): nat
      reads p
    {
      if name in p.transientBootFor then Max(p.transientBootFor[name], 0) else 0
    }

    /** Launches a server, relaunching after a transient boot failure; any other failure is final. */
    method CreateWithRetry(name: string, id: string, offered: bool, cancelled: bool) returns (srv: Option<Server>)
      requires p.View().Valid() && p.curConcurrent == 0
      modifies p`servers, p`lastId, p`curConcurrent, p`maxConcurrent, p`transientBootFor
      ensures p.curConcurrent == 0 && p.View().Valid()
      ensures srv.Some? ==> old(Dying(name)) < MAX_PROVISION_ATTEMPTS && name !in p.failCreateFor && offered
      ensures !cancelled && old(Dying(name)) < MAX_PROVISION_ATTEMPTS && name !in p.failCreateFor && offered ==>
        srv.Some?
      ensures !cancelled ==> Dying(name) == Max(old(Dying(name)) - MAX_PROVISION_ATTEMPTS, 0)
      ensures srv.None? ==> p.servers == old(p.servers) && old(p.lastId) <= p.lastId
      ensures srv.None? && (offered || name in p.failCreateFor) ==> p.lastId == old(p.lastId)
      ensures srv.Some? ==>
        && p.lastId == old(p.lastId) + 1 && srv.value == Server(p.lastId, name, id, p.lastId)
        && p.servers == old(p.servers)[p.lastId := srv.value]
    {
      for attempt := 1 to MAX_PROVISION_ATTEMPTS + 1
        invariant p.curConcurrent == 0 && p.servers == old(p.servers) && p.lastId == old(p.lastId)
        invariant Dying(name) == Max(old(Dying(name)) - (attempt - 1), 0) && attempt - 1 <= old(Dying(name))
      {
        var fate := p.BeginCreate(name);
        srv := p.EndCreate(name, id, fate, offered);
        if srv.Some? || !fate.transient {
          return srv;
        }
        var contextFirst: bool := *;
        if cancelled && contextFirst && attempt < MAX_PROVISION_ATTEMPTS {
          return None;
        }
      }
      srv := None;
    }

    /** Provisions a single node. Unlike the cluster path it gives up when the journal cannot be written. */
    method UpSpec(id: string, provider: string, name: string, offered: bool, cancelled: bool, now: int,
        writable: seq<bool>)
      returns (c: Option<Cluster>, ok: bool)
      requires p.View().Valid() && p.curConcurrent == 0 && s.Valid() && |writable| == 3
      modifies p, s
      ensures s.Valid() && p.View().Valid() && OthersKept(s.records, old(s.records), id)
      ensures ok ==> c.Some? && id in s.records && s.records[id] == c.value
      ensures ok ==> AllRunning(Job(id, provider, [name], 1, old(p.View())), c.value, p.View())
      ensures !writable[0] || !writable[1] ==> p.servers == old(p.servers) && c.None?
      ensures p.servers != old(p.servers) ==>
        && id in s.records && |s.records[id].nodes| == 1
        && (s.records[id].nodes[0].phase == State.Provisioning || s.records[id].nodes[0].phase == State.Running)
      ensures !ok && c.Some? ==> p.servers == old(p.servers)
      ensures !ok && c.Some? ==> |c.value.nodes| == 1 && c.value.nodes[0].phase == State.Failed
      ensures CloudOk(Job(id, provider, [name], 1, old(p.View())), p.View())
    {
      ghost var job := Job(id, provider, [name], 1, old(p.View()));
      var r := Cluster(0, id, provider, [Node(name, 0, 0, State.Planned)], 0);
      var saved: bool;
      r, saved := s.Save(r, now, writable[0]);
      assert OthersKept(s.records, old(s.records), id);
      if !saved {
        return None, false;
      }
      r, saved := s.Save(r.(nodes := [r.nodes[0].(phase := State.Provisioning)]), now, writable[1]);
      assert OthersKept(s.records, old(s.records), id) && (saved ==> s.records[id] == r);
      if !saved {
        return None, false;
      }
      var srv := CreateWithRetry(name, id, offered, cancelled);
      OneCreate(job, p.View(), srv);
      assert s.records[id] == r && r.nodes[0].phase == State.Provisioning;
      if srv.None? {
        r, saved := s.Save(r.(nodes := [r.nodes[0].(phase := State.Failed)]), now, writable[2]);
        return Some(r), false;
      }
      r, saved := s.Save(r.(nodes := [Node(name, srv.value.id, srv.value.ip, State.Running)]), now, writable[2]);
      if !saved {
        return None, false;
      }
      OneRunning(job, p.View(), srv.value, r);
      c, ok := Some(r), true;
    }

    /** Destroys one server, trying up to three times; a failure reports every attempt that was made. */
    method DestroyWithRetry(id: nat, cancelled: bool) returns (ok: bool, errs: seq<nat>)
      modifies p`servers, p`failDestroyOnce, p`failDestroyN
      ensures p.servers == if ok then old(p.servers) - {id} else old(p.servers)
      ensures ok ==> old(p.Failures()) < DESTROY_ATTEMPTS && p.Failures() == 0
      ensures !cancelled ==> (ok <==> old(p.Failures()) < DESTROY_ATTEMPTS)
      ensures !ok ==> p.Failures() == old(p.Failures()) - |errs| && (!cancelled ==> |errs| == DESTROY_ATTEMPTS)
      ensures forall k | 0 <= k < |errs| :: errs[k] == k + 1
    {
      errs := [];
      for i := 0 to DESTROY_ATTEMPTS
        invariant |errs| == i <= old(p.Failures()) && p.servers == old(p.servers)
        invariant p.Failures() == old(p.Failures()) - i
        invariant forall k | 0 <= k < i :: errs[k] == k + 1
      {
        ok := p.DestroyServer(id);
        if ok {
          return;
        }
        errs := errs + [i + 1];
        var contextFirst: bool := *;
        if i < DESTROY_ATTEMPTS - 1 && cancelled && contextFirst {
          return;
        }
      }
      ok := false;
    }

    /** The counts after `n` servers, of which some failed, when nothing was cut short. */
    ghost predicate Tally(n: nat, f: nat, kept: nat, cancelled: bool)
      reads p
    {
      !cancelled ==> kept == Kept(n, f) && p.Failures() == FailuresLeft(n, f)
    }

    /** Destroys the first server of what is left of the list, or leaves it among those that stay. */
    method DestroyNext(rest: seq<Server>, cancelled: bool, ghost before: map<nat, Server>, ghost id: string,
                       ghost todo: set<nat>, ghost kept: set<nat>, ghost n: nat, ghost f: nat) returns (ok: bool)
      requires rest != [] && Destroying(p.servers, before, id, rest, todo, kept) && Tally(n, f, |kept|, cancelled)
      modifies p`servers, p`failDestroyOnce, p`failDestroyN
      ensures Destroying(p.servers, before, id, rest[1..], todo - {rest[0].id},
        if ok then kept else kept + {rest[0].id})
      ensures |todo - {rest[0].id}| == |todo| - 1
      ensures var kept' := if ok then kept else kept + {rest[0].id};
        |kept'| == |kept| + (if ok then 0 else 1) && Tally(n + 1, f, |kept'|, cancelled)
    {
      ghost var now, left := p.servers, p.Failures();
      var errs;
      ok, errs := DestroyWithRetry(rest[0].id, cancelled);
      DestroyStep(now, before, id, rest, todo, kept, ok);
      if !cancelled {
        KeptNext(n, f, left, p.Failures(), |kept|, ok);
      }
    }

    /** Destroys every listed server, going on after a failure; what could not be destroyed is still there. */
    method DestroyAll(list: seq<Server>, id: string, cancelled: bool) returns (failed: bool)
      requires Lists(list, Tagged(p.servers, id))
      modifies p`servers, p`failDestroyOnce, p`failDestroyN
      ensures OnlyRemoved(p.servers, old(p.servers), id)
      ensures failed <==> Tagged(p.servers, id) != {}
      ensures !cancelled ==>
        && |Tagged(p.servers, id)| == Kept(old(|Tagged(p.servers, id)|), old(p.Failures()))
        && p.Failures() == FailuresLeft(old(|Tagged(p.servers, id)|), old(p.Failures()))
    {
      failed := false;
      ghost var todo, kept := Tagged(p.servers, id), {};
      ghost var k, f := |todo|, p.Failures();
      assert list[0..] == list;
      for n := 0 to |list|
        invariant Destroying(p.servers, old(p.servers), id, list[n..], todo, kept) && |todo| == k - n
        invariant (failed <==> |kept| > 0) && Tally(n, f, |kept|, cancelled)
      {
        assert list[n..][1..] == list[n + 1..];
        var ok := DestroyNext(list[n..], cancelled, old(p.servers), id, todo, kept, n, f);
        failed := failed || !ok;
        kept := if ok then kept else kept + {list[n].id};
        todo := todo - {list[n].id};
      }
      assert todo == {} && kept + {} == kept;
    }

    /** Lists, journals the intent when there is a record, and destroys what was listed. */
    method DestroyListed(id: string, w: Weather) returns (failed: bool)
      requires p.View().Valid() && s.Valid()
      modifies p`servers, p`failDestroyOnce, p`failDestroyN, s
      ensures s.Valid() && OnlyRemoved(p.servers, old(p.servers), id)
      ensures s.records == if w.writable && id in old(s.records)
        then old(s.records)[id := Stamped(MarkedDown(old(s.records)[id]), w.now)] else old(s.records)
      ensures failed <==> Tagged(p.servers, id) != {}
      ensures !w.cancelled ==>
        && |Tagged(p.servers, id)| == Kept(old(|Tagged(p.servers, id)|), old(p.Failures()))
        && p.Failures() == FailuresLeft(old(|Tagged(p.servers, id)|), old(p.Failures()))
    {
      var list := p.ListByTag(id);
      var c := s.Load(id);
      if c.Some? {
        var r, written := s.Save(MarkedDown(c.value), w.now, w.writable);
      }
      failed := DestroyAll(list, id, w.cancelled);
    }

    /** Lists again, reaps what is not a server, and removes the record. */
    method VerifyAndClose(id: string, w: Weather) returns (ok: bool)
      requires p.View().Valid() && s.Valid()
      modifies p`reapAuxCalls, s
      ensures s.Valid() && s.records == if ok then old(s.records) - {id} else old(s.records)
      ensures ok && w.hasAuxReaper ==> p.reapAuxCalls == old(p.reapAuxCalls) + 1
      ensures ok <==>
        && w.secondList && Tagged(p.servers, id) == {} && (w.hasAuxReaper ==> !p.failReapAux)
        && (w.removable || id !in old(s.records))
    {
      if !w.secondList {
        return false;
      }
      var left := p.ListByTag(id);
      if left != [] {
        return false;
      }
      if w.hasAuxReaper {
        var reaped := p.ReapAux();
        if !reaped {
          return false;
        }
      }
      ok := s.Close(id, w.removable);
    }

    /** Reconciles a cluster to empty from what the provider lists, and only then forgets its record. */
    method Down(id: string, w: Weather) returns (ok: bool)
      requires p.View().Valid() && s.Valid()
      modifies p`servers, p`failDestroyOnce, p`failDestroyN, p`reapAuxCalls, s
      ensures s.Valid() && p.View().Valid()
      ensures OnlyRemoved(p.servers, old(p.servers), id) && OthersKept(s.records, old(s.records), id)
      // success leaves nothing of the cluster behind
      ensures ok ==>
        && Tagged(p.servers, id) == {} && id !in s.records
        && (w.hasAuxReaper ==> p.reapAuxCalls == old(p.reapAuxCalls) + 1)
      // failure keeps the record, marked as being torn down when that could be written
      ensures !ok ==> (id in s.records <==> id in old(s.records))
      ensures !ok && id in s.records ==>
        s.records[id] ==
          if w.firstList && w.writable then Stamped(MarkedDown(old(s.records)[id]), w.now) else old(s.records)[id]
      // exactly when it succeeds, and how far it gets
      ensures !w.firstList ==> !ok && p.servers == old(p.servers)
      ensures w.firstList && !w.cancelled ==>
        && |Tagged(p.servers, id)| == Kept(old(|Tagged(p.servers, id)|), old(p.Failures()))
        && p.Failures() == FailuresLeft(old(|Tagged(p.servers, id)|), old(p.Failures()))
      ensures w.firstList && w.secondList && (w.removable || id !in old(s.records)) ==>
        (w.hasAuxReaper ==> !p.failReapAux) ==> (ok <==> Tagged(p.servers, id) == {})
    {
      ok := false;
      if w.firstList {
        var failed := DestroyListed(id, w);
        if !failed {
          ok := VerifyAndClose(id, w);
        }
      }
    }

    /** What is left alone when the candidates are torn down. */
    ghost predicate Spared(candidates: seq<string>, servers: map<nat, Server>, records: map<string, Cluster>)
      reads p, s
    {
      && (forall id <- records :: id !in candidates ==> id in s.records && s.records[id] == records[id])
      && (forall sid <- servers :: servers[sid].cluster !in candidates ==>
        sid in p.servers && p.servers[sid] == servers[sid])
    }

    /** The clusters torn down so far are gone. */
    ghost predicate Gone(candidates: seq<string>, oks: seq<bool>)
      requires |oks| <= |candidates|
      reads p, s
    {
      forall k | 0 <= k < |oks| && oks[k] :: Tagged(p.servers, candidates[k]) == {} && candidates[k] !in s.records
    }

    /** Tears every candidate down, going on after a failure; counts the successes and keeps the first error. */
    method Reap(candidates: seq<string>, w: seq<Weather>) returns (n: nat, firstErr: Option<string>,
        ghost oks: seq<bool>)
      requires p.View().Valid() && s.Valid() && |w| == |candidates|
      modifies p`servers, p`failDestroyOnce, p`failDestroyN, p`reapAuxCalls, s
      ensures s.Valid() && p.View().Valid()
      ensures |oks| == |candidates| && Gone(candidates, oks) && Spared(candidates, old(p.servers), old(s.records))
      ensures n == Sum((ok: bool) => if ok then 1 else 0, oks) && (firstErr.None? <==> n == |candidates|)
      ensures firstErr.Some? ==> exists k | 0 <= k < |oks| :: IsFirstFailure(oks, k) && candidates[k] == firstErr.value
    {
      n, firstErr, oks := 0, None, [];
      for k := 0 to |candidates|
        invariant s.Valid() && p.View().Valid() && n <= k && (firstErr.None? <==> n == k)
        invariant |oks| == k && Gone(candidates, oks) && Spared(candidates, old(p.servers), old(s.records))
        invariant n == Sum((ok: bool) => if ok then 1 else 0, oks)
        invariant (firstErr.None? ==> forall j | 0 <= j < k :: oks[j])
        invariant firstErr.Some? ==> exists j | 0 <= j < k :: IsFirstFailure(oks, j) && candidates[j] == firstErr.value
      {
        var ok := ReapOne(candidates, candidates[k], w[k], old(p.servers), old(s.records), oks);
        SumSnoc((ok: bool) => if ok then 1 else 0, oks, ok);
        ghost var before := oks;
        oks := oks + [ok];
        if ok {
          n := n + 1;
        } else if firstErr.None? {
          firstErr := Some(candidates[k]);
          assert IsFirstFailure(oks, k);
        }
        assert forall j | 0 <= j < k && IsFirstFailure(before, j) :: IsFirstFailure(oks, j);
      }
    }

    /** One candidate of a reap: what was gone stays gone, and what was spared stays spared. */
    method ReapOne(candidates: seq<string>, id: string, w: Weather, ghost servers: map<nat, Server>,
                   ghost records: map<string, Cluster>, ghost oks: seq<bool>) returns (ok: bool)
      requires p.View().Valid() && s.Valid() && |oks| < |candidates| && candidates[|oks|] == id
      requires Gone(candidates, oks) && Spared(candidates, servers, records)
      modifies p`servers, p`failDestroyOnce, p`failDestroyN, p`reapAuxCalls, s
      ensures s.Valid() && p.View().Valid() && Gone(candidates, oks + [ok]) && Spared(candidates, servers, records)
    {
      ghost var wereRecorded := s.records;
      ok := Down(id, w);
      assert forall j | j != id :: j in s.records <==> j in s.records - {id};
      assert forall j | j != id :: j in wereRecorded <==> j in wereRecorded - {id};
    }

    /** The operator runs the teardown again and again, with working lists, no cancellation and a reaper that works. */
    method DownRepeatedly(id: string, runs: nat, now: int) returns (failures: nat)
      requires p.View().Valid() && s.Valid() && !p.failReapAux
      modifies p`servers, p`failDestroyOnce, p`failDestroyN, p`reapAuxCalls, s
      ensures s.Valid() && p.View().Valid() && OnlyRemoved(p.servers, old(p.servers), id)
      ensures failures <= old(p.Failures()) / DESTROY_ATTEMPTS
      ensures old(p.Failures()) / DESTROY_ATTEMPTS < runs ==> Tagged(p.servers, id) == {} && id !in s.records
    {
      failures := 0;
      ghost var k, f := |Tagged(p.servers, id)|, p.Failures();
      var n := 0;
      while n < runs
        invariant n <= runs && s.Valid() && p.View().Valid() && OnlyRemoved(p.servers, old(p.servers), id)
        invariant failures + FailedRuns(|Tagged(p.servers, id)|, p.Failures(), runs - n) == FailedRuns(k, f, runs)
        invariant KeptAfter(|Tagged(p.servers, id)|, p.Failures(), runs - n) == KeptAfter(k, f, runs)
        invariant 0 < n && Tagged(p.servers, id) == {} ==> id !in s.records
      {
        var ok := Down(id, Weather(true, true, true, true, true, false, now));
        if !ok {
          failures := failures + 1;
        }
        n := n + 1;
      }
      Converges(k, f, runs);
    }

    /** What the command does with a topology: provision it, and tear down what there is when that fails. */
    method UpOrRollBack(id: string, provider: string, names: seq<string>, w: Weather)
      returns (c: Cluster, up: bool, rolledBack: bool)
      requires p.View().Valid() && p.curConcurrent == 0 && s.Valid()
      modifies p, s
      ensures s.Valid() && p.View().Valid() && OthersKept(s.records, old(s.records), id)
      ensures up ==> AllRunning(Job(id, provider, names, DEFAULT_MAX_CONCURRENCY, old(p.View())), c, p.View())
      ensures !up && rolledBack ==>
        p.servers == old(p.servers) - Tagged(old(p.servers), id) && id !in s.records
    {
      ghost var job := Job(id, provider, names, DEFAULT_MAX_CONCURRENCY, p.View());
      var err: Option<nat>, journaled: bool;
      ghost var start, moves;
      c, err, journaled, start, moves := UpCluster(id, provider, names, DEFAULT_MAX_CONCURRENCY, false);
      up, rolledBack := err.None?, false;
      if !up {
        ghost var made := p.View();
        rolledBack := Down(id, w);
        if rolledBack {
          EmptiedIsRestored(job, made, p.servers);
        }
      }
    }
  }

  /** The attempt that failed first. */
  predicate IsFirstFailure(oks: seq<bool>, k: nat)
    requires k < |oks|
  {
    !oks[k] && forall j | 0 <= j < k :: oks[j]
  }

  /** Emptying the cluster after any provisioning restores the provider, less what the cluster had before. */
  lemma EmptiedIsRestored(job: Job, made: Cloud, after: map<nat, Server>)
    requires CloudOk(job, made) && OnlyRemoved(after, made.servers, job.id) && Tagged(after, job.id) == {}
    ensures after == job.before.servers - Tagged(job.before.servers, job.id)
  {
    forall id <- after
      ensures id in job.before.servers - Tagged(job.before.servers, job.id) && after[id] == job.before.servers[id]
    {
      assert id !in Tagged(after, job.id);
    }
    forall id <- job.before.servers | job.before.servers[id].cluster != job.id
      ensures id in after
    {
    }
  }

  /** A teardown that succeeds after any schedule leaves nothing, even when failed creates left servers behind. */
  lemma RollbackLeavesNothing(job: Job, disk: Option<Cluster>, cancelled: bool, now: int, writable: bool,
                              moves: seq<Move>, after: map<nat, Server>)
    requires GoodStart(job)
    requires Schedule(job, Start(job, disk, cancelled, now, writable), moves)
    requires OnlyRemoved(after, After(job, Start(job, disk, cancelled, now, writable), moves).cloud.servers, job.id)
    requires Tagged(after, job.id) == {}
    ensures after == job.before.servers - Tagged(job.before.servers, job.id)
  {
    StartInv(job, disk, cancelled, now, writable);
    ScheduleInv(job, Start(job, disk, cancelled, now, writable), moves);
    EmptiedIsRestored(job, After(job, Start(job, disk, cancelled, now, writable), moves).cloud, after);
  }
}

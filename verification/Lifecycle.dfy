// Any number of `up`, `down` and `reap` processes at one provider, serialized by per-cluster advisory locks.
//
// Each process runs one command. An `Event` is one action of one process: a lock attempt, a provider
// call, or its end. A process may end anywhere, which is how it refuses, returns and crashes; the
// system releases its locks then.
module Lifecycle {
  import opened Prelude

  /** A server's cluster tag and the process whose `up` created it. */
  datatype Tag = Tag(id: string, run: nat)

  datatype Command = Up(id: string) | Down(id: string) | Reap

  datatype Stage =
    | Idle
    | Locking(next: nat)                          // taking the lock of ids[next]
    | Preflight                                   // an `up` about to look for an existing cluster
    | Creating
    | Tearing(rest: seq<string>, todo: set<nat>)  // clusters still to list, listed servers still to destroy
    | Exited

  /** `ids` are the clusters the command works on: its own, or the plan a reap has read. */
  datatype Proc = Proc(cmd: Command, ids: seq<string>, stage: Stage)

  datatype World = World(servers: map<nat, Tag>, next: nat, locks: map<string, nat>, procs: seq<Proc>)

  /** Whether lock files can be opened, and whether listing a cluster works. */
  datatype Env = Env(locksUsable: bool, listsWork: bool)

  datatype Event =
    | Begin(p: nat, plan: seq<string>)
    | TryLock(p: nat, usable: bool)
    | Look(p: nat, listed: bool)
    | Create(p: nat)
    | RollBack(p: nat)
    | List(p: nat)
    | Destroy(p: nat, server: nat)
    | End(p: nat)

  function Tagged(servers: map<nat, Tag>, id: string): set<nat> {
    set s <- servers | servers[s].id == id
  }

  predicate NoRepeat(ids: seq<string>) {
    forall i, j | 0 <= i < j < |ids| :: ids[i] != ids[j]
  }

  predicate Enabled(env: Env, w: World, e: Event) {
    && e.p < |w.procs|
    && var q := w.procs[e.p];
      match e
      case Begin(_, plan) =>
        && q.stage.Idle?
        && (if q.cmd.Reap? then plan != [] && NoRepeat(plan) && (forall id <- plan :: Tagged(w.servers, id) != {})
            else plan == [q.cmd.id])
      case TryLock(_, usable) => q.stage.Locking? && q.stage.next < |q.ids| && (env.locksUsable ==> usable)
      case Look(_, listed) => q.stage.Preflight? && q.cmd.Up? && (env.listsWork ==> listed)
      case Create(_) => q.stage.Creating? && q.cmd.Up?
      case RollBack(_) => q.stage.Creating? && q.cmd.Up?
      case List(_) => q.stage.Tearing? && q.stage.rest != []
      case Destroy(_, s) => q.stage.Tearing? && s in q.stage.todo
      case End(_) => !q.stage.Exited?
  }

  function At(w: World, p: nat, stage: Stage): World
    requires p < |w.procs|
  {
    w.(procs := w.procs[p := w.procs[p].(stage := stage)])
  }

  function Leave(w: World, p: nat): World
    requires p < |w.procs|
  {
    At(w.(locks := map id <- w.locks | w.locks[id] != p :: w.locks[id]), p, Exited)
  }

  /** Every lock is taken before anything else is done. */
  function Locked(w: World, p: nat): World
    requires p < |w.procs| && w.procs[p].stage.Locking?
  {
    var q := w.procs[p];
    var n := q.stage.next + 1;
    At(w, p, if n < |q.ids| then Locking(n) else if q.cmd.Up? then Preflight else Tearing(q.ids, {}))
  }

  function Apply(env: Env, w: World, e: Event): World
    requires Enabled(env, w, e)
  {
    var q := w.procs[e.p];
    match e
    case Begin(p, plan) => w.(procs := w.procs[p := Proc(q.cmd, plan, Locking(0))])
    case TryLock(p, usable) =>
      var id := q.ids[q.stage.next];
      if !usable then Locked(w, p)                       // a warning; the command goes on unlocked
      else if id in w.locks then Leave(w, p)             // busy: refuse, nothing changed
      else Locked(w.(locks := w.locks[id := p]), p)
    case Look(p, listed) =>
      if listed && Tagged(w.servers, q.cmd.id) != {} then Leave(w, p) else At(w, p, Creating)
    case Create(p) => w.(servers := w.servers[w.next := Tag(q.cmd.id, p)], next := w.next + 1)
    case RollBack(p) => At(w, p, Tearing([q.cmd.id], {}))
    case List(p) => At(w, p, Tearing(q.stage.rest[1..], Tagged(w.servers, q.stage.rest[0])))
    case Destroy(p, s) => At(w.(servers := w.servers - {s}), p, q.stage.(todo := q.stage.todo - {s}))
    case End(p) => Leave(w, p)
  }

  predicate History(env: Env, w: World, events: seq<Event>)
    decreases |events|
  {
    events != [] ==> Enabled(env, w, events[0]) && History(env, Apply(env, w, events[0]), events[1..])
  }

  function After(env: Env, w: World, events: seq<Event>): World
    requires History(env, w, events)
    decreases |events|
  {
    if events == [] then w else After(env, Apply(env, w, events[0]), events[1..])
  }

  /** An empty provider and any commands, none begun. */
  function Start(cmds: seq<Command>): World {
    World(map[], 0, map[], seq(|cmds|, i requires 0 <= i < |cmds| => Proc(cmds[i], [], Idle)))
  }

  // ---------------------------------------------------------------- what is to hold

  /** All servers with a tag were created by one `up` process. */
  ghost predicate OneGeneration(w: World) {
    forall s, t | s in w.servers && t in w.servers && w.servers[s].id == w.servers[t].id ::
      w.servers[s].run == w.servers[t].run
  }

  /** A process past its locks and not yet ended works on these clusters. */
  predicate Inside(q: Proc, id: string) {
    (q.stage.Preflight? || q.stage.Creating? || q.stage.Tearing?) && id in q.ids
  }

  ghost predicate Exclusive(w: World) {
    forall p, q, id | 0 <= p < |w.procs| && 0 <= q < |w.procs| && Inside(w.procs[p], id) && Inside(w.procs[q], id) ::
      p == q
  }

  // ---------------------------------------------------------------- the invariant

  ghost predicate HoldsLocks(w: World, p: nat, n: nat)
    requires p < |w.procs| && n <= |w.procs[p].ids|
  {
    forall i | 0 <= i < n :: var id := w.procs[p].ids[i]; id in w.locks && w.locks[id] == p
  }

  /** A process holds the locks it has got to, all of them once it is past them. */
  ghost predicate LocksOk(w: World, p: nat)
    requires p < |w.procs|
  {
    var q := w.procs[p];
    && (q.cmd.Up? && !q.stage.Idle? && !q.stage.Exited? ==> q.ids == [q.cmd.id])
    && (q.stage.Locking? ==> q.stage.next < |q.ids| && HoldsLocks(w, p, q.stage.next))
    && (q.stage.Preflight? || q.stage.Creating? || q.stage.Tearing? ==> HoldsLocks(w, p, |q.ids|))
    && (q.stage.Preflight? || q.stage.Creating? ==> q.cmd.Up?)
    && (q.stage.Tearing? ==>
        && (forall id <- q.stage.rest :: id in q.ids)
        && (forall s <- q.stage.todo :: s < w.next && (s in w.servers ==> w.servers[s].id in q.ids)))
  }

  /** While an `up` creates, the cluster's servers are its own. */
  ghost predicate AloneOk(w: World, p: nat)
    requires p < |w.procs|
  {
    var q := w.procs[p];
    q.stage.Creating? && q.cmd.Up? ==> forall s <- Tagged(w.servers, q.cmd.id) :: w.servers[s].run == p
  }

  ghost predicate ServerOk(w: World, s: nat)
    requires s in w.servers
  {
    var t := w.servers[s];
    && s < w.next && t.run < |w.procs|
    && var q := w.procs[t.run];
       q.cmd == Up(t.id) && (q.stage.Creating? || q.stage.Tearing? || q.stage.Exited?)
  }

  /** What locks alone bring about. */
  ghost predicate LockInv(w: World) {
    && (forall p | 0 <= p < |w.procs| :: LocksOk(w, p))
    && (forall s <- w.servers :: ServerOk(w, s))
  }

  ghost predicate Inv(w: World) {
    LockInv(w) && (forall p | 0 <= p < |w.procs| :: AloneOk(w, p)) && OneGeneration(w)
  }

  lemma InvExclusive(w: World)
    requires LockInv(w)
    ensures Exclusive(w)
  {
    forall p, q, id | 0 <= p < |w.procs| && 0 <= q < |w.procs| && Inside(w.procs[p], id) && Inside(w.procs[q], id)
      ensures p == q
    {
      assert LocksOk(w, p) && LocksOk(w, q);
      var i :| 0 <= i < |w.procs[p].ids| && w.procs[p].ids[i] == id;
      var j :| 0 <= j < |w.procs[q].ids| && w.procs[q].ids[j] == id;
      assert w.locks[id] == p;
    }
  }

  /** A process that does not act keeps its locks. */
  lemma OtherLocksOk(env: Env, w: World, e: Event, p: nat)
    requires env.locksUsable && LockInv(w) && Enabled(env, w, e) && p < |w.procs| && p != e.p
    ensures var v := Apply(env, w, e); |v.procs| == |w.procs| && LocksOk(v, p)
  {
    var v := Apply(env, w, e);
    assert LocksOk(w, p) && LocksOk(w, e.p);
    assert v.procs[p] == w.procs[p];
    assert forall id <- w.locks :: w.locks[id] == p ==> id in v.locks && v.locks[id] == p;
  }

  lemma ActingLocksOk(env: Env, w: World, e: Event)
    requires env.locksUsable && LockInv(w) && Enabled(env, w, e)
    ensures var v := Apply(env, w, e); |v.procs| == |w.procs| && LocksOk(v, e.p)
  {
    assert LocksOk(w, e.p);
  }

  lemma ServersOk(env: Env, w: World, e: Event)
    requires LockInv(w) && Enabled(env, w, e)
    ensures forall s <- Apply(env, w, e).servers :: ServerOk(Apply(env, w, e), s)
  {
    var v := Apply(env, w, e);
    assert LocksOk(w, e.p);
    forall s <- v.servers
      ensures ServerOk(v, s)
    {
      assert s in w.servers ==> ServerOk(w, s);
    }
  }

  lemma StepKeepsLocks(env: Env, w: World, e: Event)
    requires env.locksUsable && LockInv(w) && Enabled(env, w, e)
    ensures LockInv(Apply(env, w, e))
  {
    var v := Apply(env, w, e);
    forall p | 0 <= p < |v.procs|
      ensures LocksOk(v, p)
    {
      if p == e.p {
        ActingLocksOk(env, w, e);
      } else {
        OtherLocksOk(env, w, e, p);
      }
    }
    ServersOk(env, w, e);
  }

  /** Nobody else touches a creating process's servers but to remove some. */
  lemma OtherAlone(env: Env, w: World, e: Event, p: nat)
    requires Inv(w) && Enabled(env, w, e) && p < |w.procs| && p != e.p
    ensures var v := Apply(env, w, e); |v.procs| == |w.procs| && AloneOk(v, p)
  {
    assert AloneOk(w, p) && LocksOk(w, p) && LocksOk(w, e.p);
    assert Apply(env, w, e).procs[p] == w.procs[p];
    if e.Create? && w.procs[p].stage.Creating? {
      InvExclusive(w);
      assert w.procs[p].ids[0] == w.procs[p].cmd.id && w.procs[e.p].ids[0] == w.procs[e.p].cmd.id;
      assert Inside(w.procs[p], w.procs[p].cmd.id) && Inside(w.procs[e.p], w.procs[e.p].cmd.id);
    }
  }

  lemma ActingAlone(env: Env, w: World, e: Event)
    requires env.listsWork && Inv(w) && Enabled(env, w, e)
    ensures var v := Apply(env, w, e); |v.procs| == |w.procs| && AloneOk(v, e.p)
  {
    assert AloneOk(w, e.p);
  }

  lemma GenerationStep(env: Env, w: World, e: Event)
    requires Inv(w) && Enabled(env, w, e)
    ensures OneGeneration(Apply(env, w, e))
  {
    assert LocksOk(w, e.p) && AloneOk(w, e.p);
    if e.Create? {
      assert forall s <- w.servers ::
        w.servers[s].id == w.procs[e.p].cmd.id ==> s in Tagged(w.servers, w.procs[e.p].cmd.id);
    }
  }

  lemma StepKeepsInv(env: Env, w: World, e: Event)
    requires env.locksUsable && env.listsWork && Inv(w) && Enabled(env, w, e)
    ensures Inv(Apply(env, w, e))
  {
    var v := Apply(env, w, e);
    StepKeepsLocks(env, w, e);
    forall p | 0 <= p < |v.procs|
      ensures AloneOk(v, p)
    {
      if p == e.p {
        ActingAlone(env, w, e);
      } else {
        OtherAlone(env, w, e, p);
      }
    }
    GenerationStep(env, w, e);
  }

  lemma {:induction false} HistoryLocks(env: Env, w: World, events: seq<Event>)
    requires env.locksUsable && LockInv(w) && History(env, w, events)
    ensures LockInv(After(env, w, events))
    decreases |events|
  {
    if events != [] {
      StepKeepsLocks(env, w, events[0]);
      HistoryLocks(env, Apply(env, w, events[0]), events[1..]);
    }
  }

  lemma {:induction false} HistoryInv(env: Env, w: World, events: seq<Event>)
    requires env.locksUsable && env.listsWork && Inv(w) && History(env, w, events)
    ensures Inv(After(env, w, events))
    decreases |events|
  {
    if events != [] {
      StepKeepsInv(env, w, events[0]);
      HistoryInv(env, Apply(env, w, events[0]), events[1..]);
    }
  }

  // ---------------------------------------------------------------- the theorems

  /** One more event at the end of a history. */
  lemma {:induction false} Extend(env: Env, w: World, events: seq<Event>, e: Event)
    requires History(env, w, events) && Enabled(env, After(env, w, events), e)
    ensures History(env, w, events + [e]) && After(env, w, events + [e]) == Apply(env, After(env, w, events), e)
    decreases |events|
  {
    if events == [] {
      assert events + [e] == [e] && [e][1..] == [];
    } else {
      assert (events + [e])[1..] == events[1..] + [e];
      Extend(env, Apply(env, w, events[0]), events[1..], e);
    }
  }

  /** In every history at most one process works on a cluster, and it is the one that holds its lock. */
  lemma MutualExclusion(env: Env, cmds: seq<Command>, events: seq<Event>)
    requires env.locksUsable && History(env, Start(cmds), events)
    ensures var w := After(env, Start(cmds), events);
      && Exclusive(w)
      && forall p, id | 0 <= p < |w.procs| && Inside(w.procs[p], id) :: id in w.locks && w.locks[id] == p
  {
    HistoryLocks(env, Start(cmds), events);
    var w := After(env, Start(cmds), events);
    InvExclusive(w);
    forall p, id | 0 <= p < |w.procs| && Inside(w.procs[p], id)
      ensures id in w.locks && w.locks[id] == p
    {
      assert LocksOk(w, p);
      var i :| 0 <= i < |w.procs[p].ids| && w.procs[p].ids[i] == id;
    }
  }

  /** No two processes work on one cluster, in any history. */
  ghost predicate AlwaysExclusive(env: Env) {
    forall cmds: seq<Command>, events: seq<Event> ::
      History(env, Start(cmds), events) ==> Exclusive(After(env, Start(cmds), events))
  }

  /** That is so exactly when locks can be taken, whether or not lists work. */
  lemma ExclusiveWithLocks(env: Env)
    ensures AlwaysExclusive(env) <==> env.locksUsable
  {
    if env.locksUsable {
      forall cmds: seq<Command>, events: seq<Event> | History(env, Start(cmds), events)
        ensures Exclusive(After(env, Start(cmds), events))
      {
        MutualExclusion(env, cmds, events);
      }
    } else {
      var cmds := [Up("x"), Up("x")];
      var w0 := Start(cmds);
      var e := [Begin(0, ["x"])];
      Extend(env, w0, [], e[0]);
      assert [] + [e[0]] == e;
      Extend(env, w0, e, TryLock(0, false));
      e := e + [TryLock(0, false)];
      Extend(env, w0, e, Begin(1, ["x"]));
      e := e + [Begin(1, ["x"])];
      Extend(env, w0, e, TryLock(1, false));
      e := e + [TryLock(1, false)];
      var w := After(env, w0, e);
      assert "x" in ["x"] && Inside(w.procs[0], "x") && Inside(w.procs[1], "x");
      assert !Exclusive(w);
    }
  }

  /** A server is destroyed only by the process that made it or after that process has ended. */
  lemma DestroysOnlyItsOwnOrAbandoned(env: Env, cmds: seq<Command>, events: seq<Event>, p: nat, s: nat)
    requires env.locksUsable && History(env, Start(cmds), events)
    requires var w := After(env, Start(cmds), events); Enabled(env, w, Destroy(p, s)) && s in w.servers
    ensures var w := After(env, Start(cmds), events);
      var maker := w.servers[s].run;
      maker < |w.procs| && (maker == p || w.procs[maker].stage.Exited?)
  {
    HistoryLocks(env, Start(cmds), events);
    var w := After(env, Start(cmds), events);
    var maker := w.servers[s].run;
    assert ServerOk(w, s) && LocksOk(w, p) && LocksOk(w, maker);
    if !w.procs[maker].stage.Exited? {
      InvExclusive(w);
      assert w.procs[maker].ids[0] == w.servers[s].id;
      assert Inside(w.procs[maker], w.servers[s].id) && Inside(w.procs[p], w.servers[s].id);
    }
  }

  /** Every history keeps one generation per cluster. */
  ghost predicate Safe(env: Env) {
    forall cmds: seq<Command>, events: seq<Event> ::
      History(env, Start(cmds), events) ==> OneGeneration(After(env, Start(cmds), events))
  }

  lemma TwoGenerations(env: Env, cmds: seq<Command>, events: seq<Event>, id: string)
    requires History(env, Start(cmds), events)
    requires var w := After(env, Start(cmds), events); w.servers == map[0 := Tag(id, 0), 1 := Tag(id, 1)]
    ensures !Safe(env)
  {
    var w := After(env, Start(cmds), events);
    assert 0 in w.servers && 1 in w.servers && w.servers[0].id == w.servers[1].id;
    assert !OneGeneration(w);
  }

  /** Two `up`s of one id that both go on unlocked see an empty cluster each and create a server each. */
  lemma UnusableLocksBreakIt(listsWork: bool)
    ensures !Safe(Env(false, listsWork))
  {
    var env, cmds := Env(false, listsWork), [Up("x"), Up("x")];
    var w0 := Start(cmds);
    var e := [Begin(0, ["x"])];
    Extend(env, w0, [], e[0]);
    assert [] + [e[0]] == e;
    Extend(env, w0, e, TryLock(0, false));
    e := e + [TryLock(0, false)];
    Extend(env, w0, e, Begin(1, ["x"]));
    e := e + [Begin(1, ["x"])];
    Extend(env, w0, e, TryLock(1, false));
    e := e + [TryLock(1, false)];
    Extend(env, w0, e, Look(0, true));
    e := e + [Look(0, true)];
    Extend(env, w0, e, Look(1, true));
    e := e + [Look(1, true)];
    Extend(env, w0, e, Create(0));
    e := e + [Create(0)];
    Extend(env, w0, e, Create(1));
    e := e + [Create(1)];
    TwoGenerations(env, cmds, e, "x");
  }

  /** An `up` whose look fails goes ahead over the cluster that an earlier `up` has left running. */
  lemma FailingListsBreakIt(locksUsable: bool)
    ensures !Safe(Env(locksUsable, false))
  {
    var env, cmds := Env(locksUsable, false), [Up("x"), Up("x")];
    var w0 := Start(cmds);
    var e := [Begin(0, ["x"])];
    Extend(env, w0, [], e[0]);
    assert [] + [e[0]] == e;
    Extend(env, w0, e, TryLock(0, true));
    e := e + [TryLock(0, true)];
    Extend(env, w0, e, Look(0, true));
    e := e + [Look(0, true)];
    Extend(env, w0, e, Create(0));
    e := e + [Create(0)];
    Extend(env, w0, e, End(0));
    e := e + [End(0)];
    assert After(env, w0, e).locks == map[];
    Extend(env, w0, e, Begin(1, ["x"]));
    e := e + [Begin(1, ["x"])];
    Extend(env, w0, e, TryLock(1, true));
    e := e + [TryLock(1, true)];
    Extend(env, w0, e, Look(1, false));
    e := e + [Look(1, false)];
    Extend(env, w0, e, Create(1));
    e := e + [Create(1)];
    TwoGenerations(env, cmds, e, "x");
  }

  /** One generation per cluster holds in every history exactly when locks can be taken and lists do not fail. */
  lemma OneGenerationPerCluster(env: Env)
    ensures Safe(env) <==> env.locksUsable && env.listsWork
  {
    if !env.locksUsable {
      UnusableLocksBreakIt(env.listsWork);
    } else if !env.listsWork {
      FailingListsBreakIt(env.locksUsable);
    } else {
      forall cmds: seq<Command>, events: seq<Event> | History(env, Start(cmds), events)
        ensures OneGeneration(After(env, Start(cmds), events))
      {
        HistoryInv(env, Start(cmds), events);
      }
    }
  }
}

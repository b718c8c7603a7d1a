// Concurrent provisioning: one goroutine per node under a weighted semaphore and an error group.
//
// The shared state is the in-memory record, the journal, the provider and the semaphore. Every
// `Move` is one atomic action of one goroutine (a critical section, a provider call begun or
// answered, a permit taken or returned) or the cancellation of the caller's context. A schedule is
// a sequence of moves, each enabled where it is taken, so what is proved for every schedule holds
// for every interleaving.
module Provisioning {
  import opened Prelude
  import opened State
  import opened Provider

  const MAX_PROVISION_ATTEMPTS := 3
  const DEFAULT_MAX_CONCURRENCY := 5

  type Attempt = k: nat | 1 <= k <= MAX_PROVISION_ATTEMPTS witness 1

  /** Where a goroutine is. */
  datatype Pc =
    | Waiting                   // blocked on the semaphore
    | Acquired
    | Marked                    // PROVISIONING in memory, save pending
    | Ready(attempt: Attempt)   // about to call CreateServer
    | InFlight(attempt: Attempt)
    | Backoff(attempt: Attempt) // transient failure, waiting to relaunch
    | Created(server: Server)
    | Recorded                  // RUNNING in memory, save pending
    | CreateFailed
    | FailMarked                // FAILED in memory, save pending
    | Saved(ok: bool)           // last save done, permit still held
    | Refused                   // the semaphore returned the context's error
    | Released(ok: bool)        // permit returned, result not yet seen by the group
    | Finished(ok: bool)

  /** How a create call ends. A failed one may leave a tagged server behind, or use up an id. */
  datatype Outcome = Success | Transient(leaves: bool) | Fatal(leaves: bool) | Unoffered

  datatype Move =
    | Cancel
    | Acquire(i: nat)
    | Refuse(i: nat)
    | MarkProvisioning(i: nat)
    | Save(i: nat, now: int, writable: bool)
    | Issue(i: nat)
    | Complete(i: nat, outcome: Outcome)
    | Relaunch(i: nat)
    | GiveUp(i: nat)
    | Record(i: nat)
    | MarkFailed(i: nat)
    | Release(i: nat)
    | Finish(i: nat)

  /** The call's arguments and the provider it starts from. */
  datatype Job = Job(id: string, provider: string, names: seq<string>, maxConc: int, before: Cloud) {
    function Limit(): nat { if maxConc <= 0 then DEFAULT_MAX_CONCURRENCY else maxConc }
  }

  /** `journaled` says that no save of this run has failed so far. */
  datatype Run = Run(cluster: Cluster, disk: Option<Cluster>, journaled: bool, pcs: seq<Pc>, held: nat,
                     cancelled: bool, firstErr: Option<nat>, cloud: Cloud) {
    /** The group's wait is over once every goroutine has returned. */
    predicate Returned() {
      forall pc <- pcs :: pc.Finished?
    }

    /** The in-memory record is stamped even when it cannot be written. */
    function Journaled(now: int, writable: bool): Run {
      var c := Stamped(cluster, now);
      this.(cluster := c, disk := if writable then Some(c) else disk, journaled := journaled && writable)
    }
  }

  function Planning(job: Job): Cluster {
    Cluster(0, job.id, job.provider,
      seq(|job.names|, i requires 0 <= i < |job.names| => Node(job.names[i], 0, 0, Planned)), 0)
  }

  /** The first save, with every goroutine still waiting. */
  function Start(job: Job, disk: Option<Cluster>, cancelled: bool, now: int, writable: bool): Run {
    Run(Planning(job), disk, true, seq(|job.names|, i => Waiting), 0, cancelled, None, job.before)
      .Journaled(now, writable)
  }

  /** A start over what was on disk, whether or not the first save worked. */
  ghost predicate IsStart(job: Job, disk: Option<Cluster>, cancelled: bool, s: Run) {
    exists now, writable :: s == Start(job, disk, cancelled, now, writable)
  }

  predicate Enabled(job: Job, s: Run, m: Move) {
    if m.Cancel? then !s.cancelled else
    && m.i < |s.pcs| == |s.cluster.nodes| == |job.names|
    && var pc := s.pcs[m.i];
      match m
      case Acquire(_) => pc.Waiting? && s.held < job.Limit()
      case Refuse(_) => pc.Waiting? && s.cancelled
      case MarkProvisioning(_) => pc.Acquired?
      case Save(_, _, _) => pc.Marked? || pc.Recorded? || pc.FailMarked?
      case Issue(_) => pc.Ready?
      case Complete(_, _) => pc.InFlight? && 0 < s.cloud.inFlight
      case Relaunch(_) => pc.Backoff? && pc.attempt < MAX_PROVISION_ATTEMPTS
      case GiveUp(_) => pc.Backoff? && s.cancelled
      case Record(_) => pc.Created?
      case MarkFailed(_) => pc.CreateFailed?
      case Release(_) => pc.Saved? && 0 < s.held
      case Finish(_) => pc.Released? || pc.Refused?
  }

  /** Where the move leaves its goroutine. */
  function NextPc(job: Job, s: Run, m: Move): Pc
    requires Enabled(job, s, m) && !m.Cancel?
  {
    var pc := s.pcs[m.i];
    match m
    case Acquire(_) => Acquired
    case Refuse(_) => Refused
    case MarkProvisioning(_) => Marked
    case Save(_, _, _) => if pc.Marked? then Ready(1) else Saved(pc.Recorded?)
    case Issue(_) => InFlight(pc.attempt)
    case Complete(i, Success) => Created(Server(s.cloud.lastId + 1, job.names[i], job.id, s.cloud.lastId + 1))
    case Complete(_, Transient(_)) => if pc.attempt < MAX_PROVISION_ATTEMPTS then Backoff(pc.attempt) else CreateFailed
    case Complete(_, Fatal(_)) => CreateFailed
    case Complete(_, Unoffered) => CreateFailed
    case Relaunch(_) => Ready(pc.attempt + 1)
    case GiveUp(_) => CreateFailed
    case Record(_) => Recorded
    case MarkFailed(_) => FailMarked
    case Release(_) => Released(pc.ok)
    case Finish(_) => Finished(pc.Released? && pc.ok)
  }

  /** What the move makes of its node's in-memory entry. */
  function NextNode(job: Job, s: Run, m: Move): Node
    requires Enabled(job, s, m) && !m.Cancel?
  {
    var n := s.cluster.nodes[m.i];
    match m
    case MarkProvisioning(_) => n.(phase := State.Provisioning)
    case Record(i) => n.(serverId := s.pcs[i].server.id, ip := s.pcs[i].server.ip, phase := State.Running)
    case MarkFailed(_) => n.(phase := State.Failed)
    case _ => n
  }

  /** What the move does at the provider. */
  function NextCloud(job: Job, s: Run, m: Move): Cloud
    requires Enabled(job, s, m) && !m.Cancel?
  {
    match m
    case Issue(_) =>
      var n := s.cloud.inFlight + 1;
      s.cloud.(inFlight := n, peak := Max(s.cloud.peak, n))
    case Complete(i, outcome) =>
      (if outcome.Unoffered? then s.cloud.Skipped()
       else if outcome.Success? || outcome.leaves then s.cloud.Grown(job.names[i], job.id)
       else s.cloud).(inFlight := s.cloud.inFlight - 1)
    case _ => s.cloud
  }

  function NextHeld(job: Job, s: Run, m: Move): nat
    requires Enabled(job, s, m) && !m.Cancel?
  {
    match m case Acquire(_) => s.held + 1 case Release(_) => s.held - 1 case _ => s.held
  }

  /** The move's effect; a goroutine that finishes with an error makes it the group's and cancels the others. */
  function Apply(job: Job, s: Run, m: Move): Run
    requires Enabled(job, s, m)
  {
    if m.Cancel? then s.(cancelled := true) else
      var pc := NextPc(job, s, m);
      var failed := pc == Finished(false);
      var c := s.cluster.(nodes := s.cluster.nodes[m.i := NextNode(job, s, m)]);
      var t := Run(c, s.disk, s.journaled, s.pcs[m.i := pc], NextHeld(job, s, m), s.cancelled || failed,
                   if failed && s.firstErr.None? then Some(m.i) else s.firstErr, NextCloud(job, s, m));
      if m.Save? then t.Journaled(m.now, m.writable) else t
  }

  /** Moves that do not touch the record. */
  lemma CreateApplies(job: Job, s: Run, m: Move)
    requires Enabled(job, s, m) && (m.Issue? || m.Complete? || m.Relaunch? || m.GiveUp?)
    ensures Apply(job, s, m) == s.(pcs := s.pcs[m.i := NextPc(job, s, m)], cloud := NextCloud(job, s, m))
  {
    assert s.cluster.nodes[m.i := s.cluster.nodes[m.i]] == s.cluster.nodes;
  }

  predicate Schedule(job: Job, s: Run, moves: seq<Move>)
    decreases |moves|
  {
    moves != [] ==> Enabled(job, s, moves[0]) && Schedule(job, Apply(job, s, moves[0]), moves[1..])
  }

  function After(job: Job, s: Run, moves: seq<Move>): Run
    requires Schedule(job, s, moves)
    decreases |moves|
  {
    if moves == [] then s else After(job, Apply(job, s, moves[0]), moves[1..])
  }

  // ---------------------------------------------------------------- the invariant

  /** 1 while a goroutine holds a permit. */
  function Holds(pc: Pc): nat {
    if pc.Waiting? || pc.Refused? || pc.Released? || pc.Finished? then 0 else 1
  }

  /** 1 while a goroutine's create call is unanswered. */
  function Flying(pc: Pc): nat { if pc.InFlight? then 1 else 0 }

  /** The server a goroutine has obtained for its node; 0 when it has none. */
  function Owned(pc: Pc, n: Node): nat {
    if pc.Created? then pc.server.id else n.serverId
  }

  predicate Succeeded(pc: Pc) {
    pc.Recorded? || ((pc.Saved? || pc.Released? || pc.Finished?) && pc.ok)
  }

  /** A node is RUNNING on a live server that carries its name and the cluster's tag. */
  predicate RunsOn(job: Job, cloud: Cloud, name: string, n: Node) {
    && n.phase == State.Running && n.serverId in cloud.servers && job.before.lastId < n.serverId
    && cloud.servers[n.serverId] == Server(n.serverId, name, job.id, n.ip)
  }

  /** What the record says of a node, by where its goroutine is. */
  predicate NodeOk(job: Job, cloud: Cloud, name: string, pc: Pc, n: Node) {
    && n.name == name
    && (Succeeded(pc) ==> RunsOn(job, cloud, name, n))
    && (!Succeeded(pc) ==>
        n.serverId == n.ip == 0 &&
        match pc
        case Waiting => n.phase == State.Planned
        case Acquired => n.phase == State.Planned
        case Refused => n.phase == State.Planned
        case FailMarked => n.phase == State.Failed
        case Saved(_) => n.phase == State.Failed
        case Released(_) => n.phase == State.Failed
        case Finished(_) => n.phase == State.Planned || n.phase == State.Failed
        case Backoff(k) => n.phase == State.Provisioning && k < MAX_PROVISION_ATTEMPTS
        case Created(srv) =>
          && n.phase == State.Provisioning
          && RunsOn(job, cloud, name, n.(serverId := srv.id, ip := srv.ip, phase := State.Running))
        case _ => n.phase == State.Provisioning)
  }

  /** The journaled node is the one in memory, or the one before the change whose save is pending. */
  predicate JournalOk(pc: Pc, n: Node, d: Node) {
    || d == n
    || (pc.Marked? && d == n.(phase := State.Planned))
    || ((pc.Recorded? || pc.FailMarked?) && d == Node(n.name, 0, 0, State.Provisioning))
  }

  ghost predicate Shape(job: Job, s: Run) {
    |s.pcs| == |s.cluster.nodes| == |job.names| && s.cluster.id == job.id && s.cluster.provider == job.provider
  }

  /** The run has only added servers, all with this cluster's tag. */
  ghost predicate CloudOk(job: Job, cloud: Cloud) {
    && cloud.Valid() && job.before.lastId <= cloud.lastId
    && (forall id <- job.before.servers :: id in cloud.servers && cloud.servers[id] == job.before.servers[id])
    && (forall id <- cloud.servers :: id !in job.before.servers ==>
          job.before.lastId < id && cloud.servers[id].cluster == job.id)
  }

  ghost predicate CountsOk(job: Job, s: Run) {
    && s.held == Sum(Holds, s.pcs) <= job.Limit()
    && s.cloud.inFlight == Sum(Flying, s.pcs) <= s.held
    && s.cloud.peak <= Max(job.before.peak, job.Limit())
  }

  ghost predicate NodesOk(job: Job, s: Run)
    requires Shape(job, s)
  {
    forall i | 0 <= i < |job.names| :: NodeOk(job, s.cloud, job.names[i], s.pcs[i], s.cluster.nodes[i])
  }

  ghost predicate Distinct(s: Run)
    requires |s.pcs| == |s.cluster.nodes|
  {
    forall i, j | 0 <= i < j < |s.pcs| :: Owned(s.pcs[i], s.cluster.nodes[i]) == 0
      || Owned(s.pcs[i], s.cluster.nodes[i]) != Owned(s.pcs[j], s.cluster.nodes[j])
  }

  ghost predicate DiskOk(s: Run)
    requires |s.pcs| == |s.cluster.nodes|
  {
    s.journaled ==>
      && s.disk.Some? && s.disk.value == s.cluster.(nodes := s.disk.value.nodes)
      && |s.disk.value.nodes| == |s.pcs|
      && forall i | 0 <= i < |s.pcs| :: JournalOk(s.pcs[i], s.cluster.nodes[i], s.disk.value.nodes[i])
  }

  ghost predicate GroupOk(s: Run) {
    && (s.firstErr.Some? <==> Pc.Finished(false) in s.pcs)
    && (s.firstErr.Some? ==> s.cancelled)
  }

  ghost predicate Inv(job: Job, s: Run) {
    && Shape(job, s) && CloudOk(job, s.cloud) && CountsOk(job, s) && NodesOk(job, s)
    && Distinct(s) && DiskOk(s) && GroupOk(s)
  }

  // ---------------------------------------------------------------- every move keeps it

  /** A move touches one goroutine. */
  lemma {:induction false} Frame(job: Job, s: Run, m: Move)
    requires Shape(job, s) && Enabled(job, s, m)
    ensures var t := Apply(job, s, m);
      && Shape(job, t)
      && forall j | 0 <= j < |s.pcs| && (m.Cancel? || j != m.i) ::
           t.pcs[j] == s.pcs[j] && t.cluster.nodes[j] == s.cluster.nodes[j]
  {
  }

  /** Permits and calls in flight move together with the goroutine that takes or returns them. */
  lemma CountsMove(job: Job, s: Run, m: Move)
    requires !m.Cancel? && Enabled(job, s, m)
    ensures NextHeld(job, s, m) + Holds(s.pcs[m.i]) == s.held + Holds(NextPc(job, s, m))
    ensures NextCloud(job, s, m).inFlight + Flying(s.pcs[m.i]) == s.cloud.inFlight + Flying(NextPc(job, s, m))
  {
  }

  lemma CountsStep(job: Job, s: Run, m: Move)
    requires Shape(job, s) && CountsOk(job, s) && Enabled(job, s, m)
    ensures CountsOk(job, Apply(job, s, m))
  {
    if !m.Cancel? {
      var t := Apply(job, s, m);
      var pc := NextPc(job, s, m);
      CountsMove(job, s, m);
      assert t.pcs == s.pcs[m.i := pc];
      SumUpdate(Holds, s.pcs, m.i, pc);
      SumUpdate(Flying, s.pcs, m.i, pc);
      SumMonotone(Flying, Holds, t.pcs);
    }
  }

  lemma CloudStep(job: Job, s: Run, m: Move)
    requires CloudOk(job, s.cloud) && Enabled(job, s, m)
    ensures var t := Apply(job, s, m).cloud;
      CloudOk(job, t) && forall id <- s.cloud.servers :: id in t.servers && t.servers[id] == s.cloud.servers[id]
  {
  }

  /** What holds of a node survives the provider gaining servers. */
  lemma NodeOkGrows(job: Job, cloud: Cloud, cloud': Cloud, name: string, pc: Pc, n: Node)
    requires forall id <- cloud.servers :: id in cloud'.servers && cloud'.servers[id] == cloud.servers[id]
    requires NodeOk(job, cloud, name, pc, n)
    ensures NodeOk(job, cloud', name, pc, n)
  {
  }

  lemma MovedNodeOk(job: Job, s: Run, m: Move)
    requires Shape(job, s) && CloudOk(job, s.cloud) && !m.Cancel? && Enabled(job, s, m)
    requires NodeOk(job, s.cloud, job.names[m.i], s.pcs[m.i], s.cluster.nodes[m.i])
    ensures var t := Apply(job, s, m);
      Shape(job, t) && NodeOk(job, t.cloud, job.names[m.i], t.pcs[m.i], t.cluster.nodes[m.i])
  {
  }

  lemma NodesStep(job: Job, s: Run, m: Move)
    requires Inv(job, s) && Enabled(job, s, m)
    ensures Shape(job, Apply(job, s, m)) && NodesOk(job, Apply(job, s, m))
  {
    var t := Apply(job, s, m);
    Frame(job, s, m);
    CloudStep(job, s, m);
    forall j | 0 <= j < |job.names|
      ensures NodeOk(job, t.cloud, job.names[j], t.pcs[j], t.cluster.nodes[j])
    {
      if !m.Cancel? && j == m.i {
        MovedNodeOk(job, s, m);
      } else {
        NodeOkGrows(job, s.cloud, t.cloud, job.names[j], s.pcs[j], s.cluster.nodes[j]);
      }
    }
  }

  lemma OwnedStep(job: Job, s: Run, m: Move, j: nat)
    requires Inv(job, s) && Enabled(job, s, m) && j < |s.pcs|
    ensures Shape(job, Apply(job, s, m))
    ensures var t := Apply(job, s, m);
      && Owned(s.pcs[j], s.cluster.nodes[j]) <= s.cloud.lastId
      && (Owned(t.pcs[j], t.cluster.nodes[j]) == Owned(s.pcs[j], s.cluster.nodes[j])
        || (!m.Cancel? && j == m.i && Owned(t.pcs[j], t.cluster.nodes[j]) == s.cloud.lastId + 1))
  {
    Frame(job, s, m);
    assert NodeOk(job, s.cloud, job.names[j], s.pcs[j], s.cluster.nodes[j]);
  }

  lemma DistinctStep(job: Job, s: Run, m: Move)
    requires Inv(job, s) && Enabled(job, s, m)
    ensures Shape(job, Apply(job, s, m)) && Distinct(Apply(job, s, m))
  {
    var t := Apply(job, s, m);
    Frame(job, s, m);
    forall j | 0 <= j < |s.pcs|
      ensures Owned(s.pcs[j], s.cluster.nodes[j]) <= s.cloud.lastId
      ensures Owned(t.pcs[j], t.cluster.nodes[j]) == Owned(s.pcs[j], s.cluster.nodes[j])
        || (!m.Cancel? && j == m.i && Owned(t.pcs[j], t.cluster.nodes[j]) == s.cloud.lastId + 1)
    {
      OwnedStep(job, s, m, j);
    }
  }

  lemma DiskStep(job: Job, s: Run, m: Move)
    requires Inv(job, s) && Enabled(job, s, m)
    ensures Shape(job, Apply(job, s, m)) && DiskOk(Apply(job, s, m))
  {
    var t := Apply(job, s, m);
    Frame(job, s, m);
    if t.journaled && !m.Save? {
      forall j | 0 <= j < |s.pcs|
        ensures JournalOk(t.pcs[j], t.cluster.nodes[j], t.disk.value.nodes[j])
      {
        assert NodeOk(job, s.cloud, job.names[j], s.pcs[j], s.cluster.nodes[j]);
        assert JournalOk(s.pcs[j], s.cluster.nodes[j], s.disk.value.nodes[j]);
      }
    }
  }

  lemma GroupStep(job: Job, s: Run, m: Move)
    requires Shape(job, s) && GroupOk(s) && Enabled(job, s, m)
    ensures GroupOk(Apply(job, s, m))
  {
    var t := Apply(job, s, m);
    if !m.Cancel? {
      Frame(job, s, m);
      assert t.pcs[m.i] in t.pcs;
      if Pc.Finished(false) in s.pcs {
        var j :| 0 <= j < |s.pcs| && s.pcs[j] == Pc.Finished(false);
        assert t.pcs[j] == Pc.Finished(false);
      }
    }
  }

  lemma StepKeepsInv(job: Job, s: Run, m: Move)
    requires Inv(job, s) && Enabled(job, s, m)
    ensures Inv(job, Apply(job, s, m))
  {
    CountsStep(job, s, m);
    CloudStep(job, s, m);
    NodesStep(job, s, m);
    DistinctStep(job, s, m);
    DiskStep(job, s, m);
    GroupStep(job, s, m);
  }

  ghost predicate GoodStart(job: Job) {
    job.before.Valid() && job.before.inFlight == 0
  }

  lemma StartInv(job: Job, disk: Option<Cluster>, cancelled: bool, now: int, writable: bool)
    requires GoodStart(job)
    ensures Inv(job, Start(job, disk, cancelled, now, writable))
  {
    var s := Start(job, disk, cancelled, now, writable);
    SumZero(Holds, s.pcs);
    SumZero(Flying, s.pcs);
  }

  lemma {:induction false} ScheduleInv(job: Job, s: Run, moves: seq<Move>)
    requires Inv(job, s) && Schedule(job, s, moves)
    ensures Inv(job, After(job, s, moves))
    decreases |moves|
  {
    if moves != [] {
      StepKeepsInv(job, s, moves[0]);
      ScheduleInv(job, Apply(job, s, moves[0]), moves[1..]);
    }
  }

  // ---------------------------------------------------------------- write-ahead journal

  lemma {:induction false} Split(job: Job, s: Run, a: seq<Move>, b: seq<Move>)
    requires Schedule(job, s, a + b)
    ensures Schedule(job, s, a) && Schedule(job, After(job, s, a), b)
    ensures After(job, s, a + b) == After(job, After(job, s, a), b)
    decreases |a|
  {
    if a == [] {
      assert a + b == b;
    } else {
      assert (a + b)[1..] == a[1..] + b;
      Split(job, Apply(job, s, a[0]), a[1..], b);
    }
  }

  /** One more move at the end of a schedule. */
  lemma {:induction false} ScheduleSnoc(job: Job, s: Run, moves: seq<Move>, m: Move)
    requires Schedule(job, s, moves) && Enabled(job, After(job, s, moves), m)
    ensures Schedule(job, s, moves + [m]) && After(job, s, moves + [m]) == Apply(job, After(job, s, moves), m)
    decreases |moves|
  {
    if moves == [] {
      assert moves + [m] == [m] && [m][1..] == [];
    } else {
      assert (moves + [m])[1..] == moves[1..] + [m];
      ScheduleSnoc(job, Apply(job, s, moves[0]), moves[1..], m);
    }
  }

  function Rank(p: Phase): nat {
    match p case Planned => 0 case Provisioning => 1 case _ => 2
  }

  /** PLANNED, then PROVISIONING, then one of RUNNING and FAILED for good. */
  predicate Forward(p: Phase, q: Phase) {
    p == q || Rank(p) < Rank(q)
  }

  /** The same node, no further. */
  predicate Earlier(n: Node, m: Node) { n.name == m.name && Forward(n.phase, m.phase) }

  /** There is a record of these nodes, and it is not ahead of memory. */
  ghost predicate Behind(s: Run) {
    && s.disk.Some? && |s.disk.value.nodes| == |s.cluster.nodes|
    && forall i | 0 <= i < |s.cluster.nodes| :: Earlier(s.disk.value.nodes[i], s.cluster.nodes[i])
  }

  /** Nothing journaled moves backwards between two records of the same nodes. */
  ghost predicate JournalForward(s: Run, t: Run) {
    && s.disk.Some? && t.disk.Some? && |s.disk.value.nodes| == |t.disk.value.nodes|
    && forall i | 0 <= i < |s.disk.value.nodes| :: Earlier(s.disk.value.nodes[i], t.disk.value.nodes[i])
  }

  /** While every save has worked the record is not ahead. */
  lemma JournaledIsBehind(job: Job, s: Run)
    requires Inv(job, s) && s.journaled
    ensures Behind(s)
  {
    forall i | 0 <= i < |s.pcs|
      ensures Earlier(s.disk.value.nodes[i], s.cluster.nodes[i])
    {
      assert JournalOk(s.pcs[i], s.cluster.nodes[i], s.disk.value.nodes[i]);
      assert NodeOk(job, s.cloud, job.names[i], s.pcs[i], s.cluster.nodes[i]);
    }
  }

  /** When the first save fails it depends on what an earlier run has left. */
  lemma StartBehind(job: Job, disk: Option<Cluster>, cancelled: bool, now: int, writable: bool)
    ensures Behind(Start(job, disk, cancelled, now, writable)) <==>
      writable || (disk.Some? && AllPlanned(disk.value.nodes, job.names))
  {
    var s := Start(job, disk, cancelled, now, writable);
    assert forall i | 0 <= i < |job.names| :: s.cluster.nodes[i] == Node(job.names[i], 0, 0, Planned);
  }

  /** Nodes of these names, none of which has been started. */
  predicate AllPlanned(nodes: seq<Node>, names: seq<string>) {
    |nodes| == |names| && forall i | 0 <= i < |names| :: nodes[i].name == names[i] && nodes[i].phase == Planned
  }

  lemma NodeForward(job: Job, s: Run, m: Move)
    requires Enabled(job, s, m) && !m.Cancel?
    requires NodeOk(job, s.cloud, job.names[m.i], s.pcs[m.i], s.cluster.nodes[m.i])
    ensures Earlier(s.cluster.nodes[m.i], NextNode(job, s, m))
  {
  }

  lemma MemoryForward(job: Job, s: Run, m: Move)
    requires Shape(job, s) && NodesOk(job, s) && Enabled(job, s, m)
    ensures var t := Apply(job, s, m);
      |t.cluster.nodes| == |s.cluster.nodes|
      && forall i | 0 <= i < |s.cluster.nodes| :: Earlier(s.cluster.nodes[i], t.cluster.nodes[i])
  {
    Frame(job, s, m);
    if !m.Cancel? {
      NodeForward(job, s, m);
    }
  }

  lemma StepForward(job: Job, s: Run, m: Move)
    requires Shape(job, s) && NodesOk(job, s) && Enabled(job, s, m) && Behind(s)
    ensures Behind(Apply(job, s, m)) && JournalForward(s, Apply(job, s, m))
  {
    MemoryForward(job, s, m);
  }

  /** In every schedule, whichever saves fail, no journaled phase ever moves backwards. */
  lemma {:induction false} JournalNeverMovesBack(job: Job, s: Run, moves: seq<Move>)
    requires Inv(job, s) && Schedule(job, s, moves) && Behind(s)
    ensures Behind(After(job, s, moves)) && JournalForward(s, After(job, s, moves))
    decreases |moves|
  {
    if moves != [] {
      var mid := Apply(job, s, moves[0]);
      StepKeepsInv(job, s, moves[0]);
      StepForward(job, s, moves[0]);
      JournalNeverMovesBack(job, mid, moves[1..]);
    }
  }

  /** The node is on disk, past PLANNED. */
  ghost predicate PastPlanned(s: Run, i: nat) {
    s.disk.Some? && i < |s.disk.value.nodes| && s.disk.value.nodes[i].phase != State.Planned
  }

  /**
    * A create call is made only once its node is journaled past PLANNED, and the journal never says PLANNED again,
    * also when later saves fail.
    */
  lemma WriteAhead(job: Job, s: Run, before: seq<Move>, i: nat, later: seq<Move>)
    requires Inv(job, s) && Schedule(job, s, before + ([Issue(i)] + later))
    ensures Schedule(job, s, before) && i < |job.names|
    ensures After(job, s, before).journaled ==>
      PastPlanned(After(job, s, before), i) && PastPlanned(After(job, s, before + ([Issue(i)] + later)), i)
  {
    Split(job, s, before, [Issue(i)] + later);
    var at := After(job, s, before);
    ScheduleInv(job, s, before);
    assert ([Issue(i)] + later)[0] == Issue(i);
    assert Enabled(job, at, Issue(i));
    assert NodeOk(job, at.cloud, job.names[i], at.pcs[i], at.cluster.nodes[i]);
    if at.journaled {
      assert JournalOk(at.pcs[i], at.cluster.nodes[i], at.disk.value.nodes[i]);
      JournaledIsBehind(job, at);
      JournalNeverMovesBack(job, at, [Issue(i)] + later);
    }
  }

  /** However the goroutines interleave, at most the limit of create calls are ever in flight. */
  lemma BoundedConcurrency(job: Job, disk: Option<Cluster>, cancelled: bool, now: int, writable: bool, moves: seq<Move>)
    requires GoodStart(job)
    requires Schedule(job, Start(job, disk, cancelled, now, writable), moves)
    ensures var t := After(job, Start(job, disk, cancelled, now, writable), moves);
      && t.cloud.inFlight == Sum(Flying, t.pcs) <= (if job.maxConc <= 0 then 5 else job.maxConc)
      && t.cloud.peak <= Max(job.before.peak, if job.maxConc <= 0 then 5 else job.maxConc)
  {
    StartInv(job, disk, cancelled, now, writable);
    ScheduleInv(job, Start(job, disk, cancelled, now, writable), moves);
  }

  /** Every node is RUNNING on its own live server, made by this run, named after it and tagged with the cluster. */
  ghost predicate AllRunning(job: Job, c: Cluster, cloud: Cloud) {
    && |c.nodes| == |job.names|
    && (forall i | 0 <= i < |job.names| ::
          c.nodes[i].name == job.names[i] && RunsOn(job, cloud, job.names[i], c.nodes[i]))
    && (forall i, j | 0 <= i < j < |job.names| :: c.nodes[i].serverId != c.nodes[j].serverId)
  }

  /** What holds when the call returns, in every schedule. */
  ghost predicate BarrierHolds(job: Job, t: Run) {
    && (t.firstErr.None? <==> AllRunning(job, t.cluster, t.cloud))
    && t.cloud.inFlight == 0 && t.held == 0
    && (t.journaled ==> t.disk == Some(t.cluster))
  }

  lemma ReturnedJournal(job: Job, t: Run)
    requires Inv(job, t) && t.Returned()
    ensures t.journaled ==> t.disk == Some(t.cluster)
  {
    forall i | 0 <= i < |job.names| && t.journaled
      ensures t.disk.value.nodes[i] == t.cluster.nodes[i]
    {
      assert t.pcs[i] in t.pcs;
      assert JournalOk(t.pcs[i], t.cluster.nodes[i], t.disk.value.nodes[i]);
    }
    if t.journaled {
      assert t.disk.value.nodes == t.cluster.nodes;
    }
  }

  lemma InvBarrier(job: Job, t: Run)
    requires Inv(job, t) && t.Returned()
    ensures BarrierHolds(job, t)
  {
    ReturnedJournal(job, t);
    SumZero(Holds, t.pcs);
    SumZero(Flying, t.pcs);
    forall i | 0 <= i < |job.names|
      ensures NodeOk(job, t.cloud, job.names[i], t.pcs[i], t.cluster.nodes[i])
      ensures t.pcs[i].ok <==> t.cluster.nodes[i].phase == State.Running
    {
      assert t.pcs[i] in t.pcs;
    }
    if t.firstErr.None? {
      forall i | 0 <= i < |job.names|
        ensures t.pcs[i].ok
      {
        assert t.pcs[i] in t.pcs;
        assert t.pcs[i] == Pc.Finished(t.pcs[i].ok);
      }
    } else {
      var i :| 0 <= i < |t.pcs| && t.pcs[i] == Pc.Finished(false);
      assert t.cluster.nodes[i].phase != State.Running;
    }
  }

  /** No error is returned exactly when every node is up; nothing is in flight then, and the journal is the record. */
  lemma Barrier(job: Job, disk: Option<Cluster>, cancelled: bool, now: int, writable: bool, moves: seq<Move>)
    requires GoodStart(job)
    requires Schedule(job, Start(job, disk, cancelled, now, writable), moves)
    requires After(job, Start(job, disk, cancelled, now, writable), moves).Returned()
    ensures BarrierHolds(job, After(job, Start(job, disk, cancelled, now, writable), moves))
  {
    StartInv(job, disk, cancelled, now, writable);
    ScheduleInv(job, Start(job, disk, cancelled, now, writable), moves);
    InvBarrier(job, After(job, Start(job, disk, cancelled, now, writable), moves));
  }

  /** Provisioning only adds servers of its own cluster, failed creates included. */
  lemma OthersUntouched(job: Job, disk: Option<Cluster>, cancelled: bool, now: int, writable: bool, moves: seq<Move>)
    requires GoodStart(job)
    requires Schedule(job, Start(job, disk, cancelled, now, writable), moves)
    ensures var t := After(job, Start(job, disk, cancelled, now, writable), moves).cloud;
      forall id :: (id in t.servers && t.servers[id].cluster != job.id) ==>
        id in job.before.servers && job.before.servers[id] == t.servers[id]
    ensures var t := After(job, Start(job, disk, cancelled, now, writable), moves).cloud;
      forall id <- job.before.servers :: id in t.servers && t.servers[id] == job.before.servers[id]
  {
    StartInv(job, disk, cancelled, now, writable);
    ScheduleInv(job, Start(job, disk, cancelled, now, writable), moves);
  }

  // ---------------------------------------------------------------- the call returns

  /** An upper bound on the moves a goroutine has left. */
  function Left(pc: Pc): nat {
    match pc
    case Waiting => 16
    case Acquired => 15
    case Marked => 14
    case Ready(k) => 7 + 3 * (MAX_PROVISION_ATTEMPTS - k)
    case InFlight(k) => 6 + 3 * (MAX_PROVISION_ATTEMPTS - k)
    case Backoff(k) => 5 + 3 * (MAX_PROVISION_ATTEMPTS - k)
    case Created(_) => 4
    case CreateFailed => 4
    case Recorded => 3
    case FailMarked => 3
    case Saved(_) => 2
    case Released(_) => 1
    case Refused => 1
    case Finished(_) => 0
  }

  function Fuel(s: Run): nat { Sum(Left, s.pcs) + if s.cancelled then 0 else 1 }

  lemma MoveShortens(job: Job, s: Run, m: Move)
    requires !m.Cancel? && Enabled(job, s, m)
    ensures Left(NextPc(job, s, m)) < Left(s.pcs[m.i])
  {
  }

  lemma StepBurnsFuel(job: Job, s: Run, m: Move)
    requires Shape(job, s) && Enabled(job, s, m)
    ensures Fuel(Apply(job, s, m)) < Fuel(s)
  {
    if !m.Cancel? {
      MoveShortens(job, s, m);
      SumUpdate(Left, s.pcs, m.i, NextPc(job, s, m));
    }
  }

  function NextMove(i: nat, pc: Pc): Move {
    match pc
    case Acquired => MarkProvisioning(i)
    case Ready(_) => Issue(i)
    case InFlight(_) => Complete(i, Success)
    case Backoff(_) => Relaunch(i)
    case Created(_) => Record(i)
    case CreateFailed => MarkFailed(i)
    case Saved(_) => Release(i)
    case Released(_) => Finish(i)
    case Refused => Finish(i)
    case _ => Save(i, 0, true)
  }

  lemma NextMoveEnabled(job: Job, s: Run, i: nat)
    requires Shape(job, s) && CountsOk(job, s) && i < |s.pcs| && !s.pcs[i].Waiting? && !s.pcs[i].Finished?
    requires NodeOk(job, s.cloud, job.names[i], s.pcs[i], s.cluster.nodes[i])
    ensures Enabled(job, s, NextMove(i, s.pcs[i]))
  {
    SumZero(Holds, s.pcs);
    SumZero(Flying, s.pcs);
    assert s.pcs[i] in s.pcs;
  }

  /** Until all goroutines have returned some move other than a cancellation is enabled: there is no deadlock. */
  lemma Progress(job: Job, s: Run) returns (m: Move)
    requires Inv(job, s) && !s.Returned()
    ensures !m.Cancel? && Enabled(job, s, m)
  {
    var i :| 0 <= i < |s.pcs| && !s.pcs[i].Finished?;
    if s.pcs[i].Waiting? && s.held < job.Limit() {
      return Acquire(i);
    }
    if s.pcs[i].Waiting? {
      SumZero(Holds, s.pcs);
      i :| 0 <= i < |s.pcs| && Holds(s.pcs[i]) != 0;
    }
    NextMoveEnabled(job, s, i);
    m := NextMove(i, s.pcs[i]);
  }

  /** Every schedule has at most 16 moves a node and one cancellation, and one that cannot be extended has returned. */
  lemma {:induction false} ScheduleEnds(job: Job, s: Run, moves: seq<Move>)
    requires Inv(job, s) && Schedule(job, s, moves)
    ensures |moves| + Fuel(After(job, s, moves)) <= Fuel(s) <= 16 * |s.pcs| + 1
    ensures (forall m :: !Enabled(job, After(job, s, moves), m)) ==> After(job, s, moves).Returned()
    decreases |moves|
  {
    FuelBound(s.pcs);
    if moves == [] {
      if !s.Returned() {
        var m := Progress(job, s);
      }
    } else {
      StepKeepsInv(job, s, moves[0]);
      StepBurnsFuel(job, s, moves[0]);
      ScheduleEnds(job, Apply(job, s, moves[0]), moves[1..]);
    }
  }

  lemma {:induction false} FuelBound(pcs: seq<Pc>)
    ensures Sum(Left, pcs) <= 16 * |pcs|
  {
    if pcs != [] {
      FuelBound(pcs[1..]);
    }
  }
}

// The provider seam and its in-memory implementation with injected failures.
module Provider {
  import opened Prelude

  /** A provisioned host; the provider numbers its servers, and a number is never reused. */
  datatype Server = Server(id: nat, name: string, cluster: string, ip: nat)

  /** The provider: live servers by id, the last id handed out, create calls in flight and their peak. */
  datatype Cloud = Cloud(servers: map<nat, Server>, lastId: nat, inFlight: nat, peak: nat) {
    ghost predicate Valid() {
      forall id <- servers :: 0 < id <= lastId && servers[id].id == id
    }

    /** The provider after it has made the next server, which takes the next id and address. */
    function Grown(name: string, cluster: string): (c: Cloud)
      ensures c.lastId == lastId + 1
    {
      var id := lastId + 1;
      this.(servers := servers[id := Server(id, name, cluster, id)], lastId := id)
    }

    /** The provider after a request has used up an id without making a server. */
    function Skipped(): Cloud { this.(lastId := lastId + 1) }
  }

  /** The ids of a cluster's live servers. */
  function Tagged(servers: map<nat, Server>, cluster: string): set<nat> {
    set id <- servers | servers[id].cluster == cluster
  }

  /** `out` has one server for each of the ids and no other. */
  ghost predicate Lists(out: seq<Server>, ids: set<nat>) {
    if out == [] then ids == {} else out[0].id in ids && Lists(out[1..], ids - {out[0].id})
  }

  lemma TaggedPick(servers: map<nat, Server>, cluster: string, rest: set<nat>, id: nat)
    requires id in rest && rest <= servers.Keys
    ensures Tagged(servers, cluster) - (rest - {id}) ==
      (Tagged(servers, cluster) - rest) + (if servers[id].cluster == cluster then {id} else {})
    ensures id !in Tagged(servers, cluster) - rest
  {
  }

  /** No server was added, and only servers of `cluster` were removed. */
  ghost predicate OnlyRemoved(now: map<nat, Server>, before: map<nat, Server>, cluster: string) {
    && (forall id <- now :: id in before && now[id] == before[id])
    && (forall id <- before :: id in now || before[id].cluster == cluster)
  }

  /** Half-way through a list: what is still to do, and what could not be destroyed. */
  ghost predicate Destroying(now: map<nat, Server>, before: map<nat, Server>, cluster: string, rest: seq<Server>,
      todo: set<nat>, kept: set<nat>) {
    Lists(rest, todo) && todo !! kept && OnlyRemoved(now, before, cluster) && Tagged(now, cluster) == kept + todo
  }

  /** One destroy call in a teardown: the server is gone, or it joins those that stay. */
  lemma DestroyStep(now: map<nat, Server>, before: map<nat, Server>, cluster: string, rest: seq<Server>, todo: set<nat>,
                    kept: set<nat>, ok: bool)
    requires Destroying(now, before, cluster, rest, todo, kept) && rest != []
    ensures var id := rest[0].id;
      && Destroying(if ok then now - {id} else now, before, cluster, rest[1..], todo - {id},
        if ok then kept else kept + {id})
      && |if ok then kept else kept + {id}| == |kept| + (if ok then 0 else 1) && |todo - {id}| == |todo| - 1
  {
    var id := rest[0].id;
    if ok {
      assert Tagged(now - {id}, cluster) == Tagged(now, cluster) - {id};
    }
  }

  /** What a create call decides when it is made: whether the boot will die, and whether the call will fail. */
  datatype Fate = Fate(transient: bool, fail: bool)

  class Mock {
    var servers: map<nat, Server>
    var lastId: nat
    var curConcurrent: nat
    var maxConcurrent: nat
    var failDestroyOnce: bool
    var failDestroyN: int
    var failReapAux: bool
    var reapAuxCalls: nat
    var failCreateFor: set<string>
    var transientBootFor: map<string, int>

    function View(): Cloud
      reads this
    {
      Cloud(servers, lastId, curConcurrent, maxConcurrent)
    }

    /** How many destroy calls will fail before one works. */
    function Failures(): nat
      reads this
    {
      (if failDestroyOnce then 1 else 0) + Max(failDestroyN, 0)
    }

    constructor ()
      ensures View() == Cloud(map[], 0, 0, 0) && View().Valid() && Failures() == 0 && !failReapAux && reapAuxCalls == 0
    {
      servers, lastId, curConcurrent, maxConcurrent := map[], 0, 0, 0;
      failDestroyOnce, failDestroyN, failReapAux, reapAuxCalls := false, 0, false, 0;
      failCreateFor, transientBootFor := {}, map[];
    }

    /** First critical section of a create call: it is in flight from here on. */
    method BeginCreate(name: string) returns (fate: Fate)
      modifies this`curConcurrent, this`maxConcurrent, this`transientBootFor
      ensures View() == old(View()).(inFlight := old(curConcurrent) + 1,
        peak := Max(old(maxConcurrent), old(curConcurrent) + 1))
      ensures fate.fail <==> name in failCreateFor
      ensures fate.transient <==> name in old(transientBootFor) && 0 < old(transientBootFor)[name]
      ensures transientBootFor ==
        if fate.transient then old(transientBootFor)[name := old(transientBootFor)[name] - 1] else old(transientBootFor)
    {
      curConcurrent := curConcurrent + 1;
      if curConcurrent > maxConcurrent {
        maxConcurrent := curConcurrent;
      }
      var transient := name in transientBootFor && 0 < transientBootFor[name];
      if transient {
        transientBootFor := transientBootFor[name := transientBootFor[name] - 1];
      }
      fate := Fate(transient, name in failCreateFor);
    }

    /**
      * Second critical section: the call is answered. A transient boot failure is reported before any other; a
      * request for a GPU that is not offered fails last, after it has taken an id.
      */
    method EndCreate(name: string, cluster: string, fate: Fate, offered: bool) returns (srv: Option<Server>)
      requires 0 < curConcurrent
      modifies this`servers, this`lastId, this`curConcurrent
      ensures srv.Some? <==> !fate.transient && !fate.fail && offered
      ensures var cloud := if srv.Some? then old(View()).Grown(name, cluster)
          else if fate.transient || fate.fail then old(View()) else old(View()).Skipped();
        View() == cloud.(inFlight := old(curConcurrent) - 1)
      ensures srv.Some? ==> srv.value == Server(lastId, name, cluster, lastId)
    {
      curConcurrent := curConcurrent - 1;
      if fate.transient || fate.fail {
        return None;
      }
      lastId := lastId + 1;
      if !offered {
        return None;
      }
      var s := Server(lastId, name, cluster, lastId);
      servers := servers[s.id := s];
      srv := Some(s);
    }

    /** Deleting an absent server is success. */
    method DestroyServer(id: nat) returns (ok: bool)
      modifies this`servers, this`failDestroyOnce, this`failDestroyN
      ensures ok <==> old(Failures()) == 0
      ensures Failures() == if ok then 0 else old(Failures()) - 1
      ensures servers == if ok then old(servers) - {id} else old(servers)
    {
      if failDestroyOnce {
        failDestroyOnce := false;
        return false;
      }
      if failDestroyN > 0 {
        failDestroyN := failDestroyN - 1;
        return false;
      }
      servers := servers - {id};
      ok := true;
    }

    /** A cluster's servers, each once, in no particular order. */
    method ListByTag(cluster: string) returns (out: seq<Server>)
      requires View().Valid()
      ensures Lists(out, Tagged(servers, cluster))
      ensures forall s <- out :: s.id in servers && servers[s.id] == s
    {
      out := [];
      var all := servers;
      var rest := all.Keys;
      ghost var done := {};
      while rest != {}
        invariant rest <= all.Keys && done == Tagged(all, cluster) - rest
        invariant Lists(out, done)
        invariant forall s <- out :: s.id in all && all[s.id] == s
        decreases |rest|
      {
        var id :| id in rest;
        TaggedPick(all, cluster, rest, id);
        rest := rest - {id};
        if all[id].cluster == cluster {
          assert done + {id} - {id} == done && ([all[id]] + out)[1..] == out;
          out := [all[id]] + out;
          done := done + {id};
        }
      }
      assert done == Tagged(all, cluster);
    }

    method ReapAux() returns (ok: bool)
      modifies this`reapAuxCalls
      ensures reapAuxCalls == old(reapAuxCalls) + 1 && (ok <==> !failReapAux)
    {
      reapAuxCalls := reapAuxCalls + 1;
      ok := !failReapAux;
    }
  }
}

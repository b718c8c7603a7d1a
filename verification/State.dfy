// The journaled cluster record and the store that keeps one record per cluster.
module State {
  import opened Prelude

  datatype Phase = Planned | Provisioning | Running | TearingDown | Destroyed | Failed

  /** One host. A server id or address of 0 stands for the empty string of the record. */
  datatype Node = Node(name: string, serverId: nat, ip: nat, phase: Phase)

  datatype Cluster = Cluster(version: nat, id: string, provider: string, nodes: seq<Node>, updated: int)

  const SCHEMA_VERSION := 1

  /** What a save writes: the record with its schema version and time filled in. */
  function Stamped(c: Cluster, now: int): (r: Cluster)
    ensures r.id == c.id && r.nodes == c.nodes
  {
    c.(version := SCHEMA_VERSION, updated := now)
  }

  /** The store directory: a record is replaced by a rename, so it changes in one step. */
  class Store {
    var records: map<string, Cluster>

    /** Every record is filed under its own id, so saving one never overwrites another. */
    ghost predicate Valid()
      reads this
    {
      forall id <- records :: records[id].id == id
    }

    constructor ()
      ensures Valid() && records == map[]
    {
      records := map[];
    }

    /** `writable` is false when the directory cannot be written. The caller's record is stamped either way. */
    method Save(c: Cluster, now: int, writable: bool) returns (stamped: Cluster, ok: bool)
      requires Valid()
      modifies this
      ensures Valid()
      ensures stamped == Stamped(c, now) && ok == writable
      ensures records == if ok then old(records)[c.id := stamped] else old(records)
    {
      stamped, ok := Stamped(c, now), writable;
      if ok {
        records := records[c.id := stamped];
      }
    }

    method Load(id: string) returns (c: Option<Cluster>)
      requires Valid()
      ensures c.Some? <==> id in records
      ensures c.Some? ==> c.value == records[id] && c.value.id == id
    {
      c := if id in records then Some(records[id]) else None;
    }

    /** Removes a record; an absent record is success. */
    method Close(id: string, removable: bool) returns (ok: bool)
      requires Valid()
      modifies this
      ensures Valid()
      ensures ok <==> id !in old(records) || removable
      ensures records == if ok then old(records) - {id} else old(records)
    {
      ok := id !in records || removable;
      if ok {
        records := records - {id};
      }
    }
  }
}

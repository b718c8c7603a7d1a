// Cluster membership written into instance names, for a provider without labels.
module NameCodec {

  // ---------------------------------------------------------------- names

  /** Lower-casing, character by character: fixed on ASCII, anything beyond it. */
  ghost predicate IsLowering(lower: char -> char) {
    forall c: char {:trigger lower(c)} | c < '\U{80}' ::
      lower(c) == if 'A' <= c <= 'Z' then (c as int + 32) as char else c
  }

  predicate Kept(c: char) { 'a' <= c <= 'z' || '0' <= c <= '9' }

  /** How many characters at the front are not kept. */
  function RunLength(s: string): (n: nat)
    ensures n <= |s|
    ensures n < |s| ==> Kept(s[n])
  {
    if s == "" || Kept(s[0]) then 0 else 1 + RunLength(s[1..])
  }

  /** Each run of other characters replaced by one hyphen. */
  function Collapse(s: string): string
    decreases |s|
  {
    if s == "" then ""
    else if Kept(s[0]) then [s[0]] + Collapse(s[1..])
    else "-" + Collapse(s[RunLength(s)..])
  }

  function TrimLeft(s: string): string { if s != "" && s[0] == '-' then TrimLeft(s[1..]) else s }

  function TrimRight(s: string): string {
    if s != "" && s[|s| - 1] == '-' then TrimRight(s[..|s| - 1]) else s
  }

  function Lowered(s: string, lower: char -> char): string { seq(|s|, i requires 0 <= i < |s| => lower(s[i])) }

  function Sanitize(s: string, lower: char -> char): string { TrimRight(TrimLeft(Collapse(Lowered(s, lower)))) }

  predicate StartsWith(s: string, start: string) { start <= s }

  /** Where `--` first occurs, or -1. */
  function IndexSep(s: string): (i: int)
    ensures i == -1 || 0 <= i <= |s| - 2
  {
    if |s| < 2 then -1
    else if s[0] == '-' && s[1] == '-' then 0
    else
      var later := IndexSep(s[1..]);
      if later == -1 then -1 else later + 1
  }

  const PREFIX := "pandion-"

  function ServerName(cluster: string, node: string, lower: char -> char): string {
    PREFIX + Sanitize(cluster, lower) + "--" + Sanitize(node, lower)
  }

  /** What stands between the prefix and the separator; nothing for a name that is not one of these. */
  function ClusterOf(name: string): string {
    if !StartsWith(name, PREFIX) then ""
    else
      var rest := name[|PREFIX|..];
      var i := IndexSep(rest);
      if i == -1 then "" else rest[..i]
  }

  // ---------------------------------------------------------------- what sanitizing gives

  /** Kept characters and single hyphens. */
  predicate Single(s: string) {
    && (forall i | 0 <= i < |s| :: Kept(s[i]) || s[i] == '-')
    && (forall i | 0 <= i < |s| - 1 :: Kept(s[i]) || Kept(s[i + 1]))
  }

  /** No hyphen at an edge either. */
  predicate Clean(s: string) { Single(s) && (s == "" || (Kept(s[0]) && Kept(s[|s| - 1]))) }

  lemma {:induction false} CollapseSingle(s: string)
    ensures Single(Collapse(s)) && (s == "" <==> Collapse(s) == "")
    ensures s != "" && Kept(s[0]) ==> Kept(Collapse(s)[0])
    decreases |s|
  {
    if s != "" {
      if Kept(s[0]) {
        CollapseSingle(s[1..]);
      } else {
        CollapseSingle(s[RunLength(s)..]);
      }
    }
  }

  lemma {:induction false} TrimLeftSingle(s: string)
    requires Single(s)
    ensures var t := TrimLeft(s); Single(t) && (t != "" ==> Kept(t[0]))
  {
    if s != "" && s[0] == '-' {
      TrimLeftSingle(s[1..]);
    }
  }

  lemma {:induction false} TrimRightClean(s: string)
    requires Single(s) && (s != "" ==> Kept(s[0]))
    ensures Clean(TrimRight(s))
  {
    if s != "" && s[|s| - 1] == '-' {
      TrimRightClean(s[..|s| - 1]);
    }
  }

  lemma SanitizeClean(s: string, lower: char -> char)
    ensures Clean(Sanitize(s, lower))
  {
    CollapseSingle(Lowered(s, lower));
    TrimLeftSingle(Collapse(Lowered(s, lower)));
    TrimRightClean(TrimLeft(Collapse(Lowered(s, lower))));
  }

  lemma {:induction false} CollapseNothing(s: string)
    requires Single(s)
    ensures Collapse(s) == s
    decreases |s|
  {
    if s != "" {
      CollapseNothing(s[1..]);
      assert s == [s[0]] + s[1..];
      if !Kept(s[0]) {
        assert RunLength(s) == 1;
      }
    }
  }

  /** Sanitized strings are exactly the clean ones, and sanitizing leaves those alone: it is idempotent. */
  lemma SanitizeFixes(s: string, lower: char -> char)
    requires IsLowering(lower)
    ensures Sanitize(s, lower) == s <==> Clean(s)
    ensures Sanitize(Sanitize(s, lower), lower) == Sanitize(s, lower)
  {
    SanitizeClean(s, lower);
    CleanStays(Sanitize(s, lower), lower);
    if Clean(s) {
      CleanStays(s, lower);
    }
  }

  lemma CleanStays(s: string, lower: char -> char)
    requires IsLowering(lower) && Clean(s)
    ensures Sanitize(s, lower) == s
  {
    assert Lowered(s, lower) == s;
    CollapseNothing(s);
  }

  /** A clean string ends where the separator begins. */
  lemma {:induction false} SepAfterClean(s: string, rest: string)
    requires Single(s) && (s != "" ==> Kept(s[|s| - 1]))
    ensures IndexSep(s + "--" + rest) == |s|
  {
    if s == "" {
      assert s + "--" + rest == "--" + rest;
    } else {
      assert (s + "--" + rest)[1..] == s[1..] + "--" + rest;
      SepAfterClean(s[1..], rest);
      assert (s + "--" + rest)[1] == if |s| > 1 then s[1] else '-';
    }
  }

  /** The cluster is read back from the name, as sanitized, for every cluster and node. */
  lemma NameRoundTrip(cluster: string, node: string, lower: char -> char)
    ensures ClusterOf(ServerName(cluster, node, lower)) == Sanitize(cluster, lower)
  {
    SanitizeClean(cluster, lower);
    CutName(Sanitize(cluster, lower), Sanitize(node, lower));
  }

  lemma CutName(cluster: string, node: string)
    requires Clean(cluster)
    ensures ClusterOf(PREFIX + cluster + "--" + node) == cluster
  {
    var prefix, rest := PREFIX, cluster + "--" + node;
    assert PREFIX + cluster + "--" + node == prefix + rest;
    assert (prefix + rest)[|prefix|..] == rest;
    SepAfterClean(cluster, node);
    assert rest[..|cluster|] == cluster;
  }

  // ---------------------------------------------------------------- lists

  datatype Instance = Instance(id: string, name: string, terminating: bool)

  datatype Server = Server(id: string, name: string, cluster: string)

  function Live(insts: seq<Instance>): seq<Instance> {
    if insts == [] then []
    else
      var last := insts[|insts| - 1];
      Live(insts[..|insts| - 1]) + if last.terminating then [] else [last]
  }

  /** Drops instances on their way out, in the slice itself. */
  method FilterLive(a: array<Instance>) returns (n: nat)
    modifies a
    ensures n <= a.Length && a[..n] == Live(old(a[..]))
  {
    n := 0;
    ghost var was := a[..];
    for i := 0 to a.Length
      invariant n <= i && a[..n] == Live(was[..i]) && a[i..] == was[i..]
    {
      assert was[..i + 1][..i] == was[..i];
      var inst := a[i];
      assert inst == a[i..][0] == was[i];
      if inst.terminating {
        assert a[i + 1..] == a[i..][1..] == was[i + 1..];
        continue;
      }
      ghost var rest := a[i + 1..];
      assert rest == a[i..][1..] == was[i + 1..];
      a[n] := inst;
      n := n + 1;
      assert a[..n] == a[..n - 1] + [inst] && a[i + 1..] == rest;
    }
    assert was[..a.Length] == was;
  }

  predicate Belongs(inst: Instance, id: string, lower: char -> char) { ClusterOf(inst.name) == Sanitize(id, lower) }

  function Tagged(insts: seq<Instance>, id: string, lower: char -> char): seq<Server> {
    if insts == [] then []
    else
      var last := insts[|insts| - 1];
      Tagged(insts[..|insts| - 1], id, lower) +
        if Belongs(last, id, lower) then [Server(last.id, last.name, id)] else []
  }

  function AllTagged(insts: seq<Instance>): seq<Server> {
    if insts == [] then []
    else
      var last := insts[|insts| - 1];
      var cluster := ClusterOf(last.name);
      AllTagged(insts[..|insts| - 1]) + if cluster != "" then [Server(last.id, last.name, cluster)] else []
  }

  method ListByTag(insts: seq<Instance>, id: string, lower: char -> char) returns (out: seq<Server>)
    ensures out == Tagged(insts, id, lower)
  {
    out := [];
    for i := 0 to |insts|
      invariant out == Tagged(insts[..i], id, lower)
    {
      assert insts[..i + 1][..i] == insts[..i];
      if ClusterOf(insts[i].name) == Sanitize(id, lower) {
        out := out + [Server(insts[i].id, insts[i].name, id)];
      }
    }
    assert insts[..|insts|] == insts;
  }

  method ListAllTagged(insts: seq<Instance>) returns (out: seq<Server>)
    ensures out == AllTagged(insts)
  {
    out := [];
    for i := 0 to |insts|
      invariant out == AllTagged(insts[..i])
    {
      assert insts[..i + 1][..i] == insts[..i];
      var cluster := ClusterOf(insts[i].name);
      if cluster != "" {
        out := out + [Server(insts[i].id, insts[i].name, cluster)];
      }
    }
    assert insts[..|insts|] == insts;
  }

  /** Every name either is not one of these or was written with a sanitized cluster. */
  predicate WellNamed(insts: seq<Instance>) { forall i | 0 <= i < |insts| :: Clean(ClusterOf(insts[i].name)) }

  /** Distinct ids, each non-empty and sanitized. */
  predicate DistinctIds(ids: seq<string>) {
    && (forall i | 0 <= i < |ids| :: ids[i] != "" && Clean(ids[i]))
    && (forall i, j | 0 <= i < j < |ids| :: ids[i] != ids[j])
  }

  /** What the lists of the clusters hold together. */
  function Gathered(insts: seq<Instance>, ids: seq<string>, lower: char -> char): multiset<Server> {
    if ids == [] then multiset{} else multiset(Tagged(insts, ids[0], lower)) + Gathered(insts, ids[1..], lower)
  }

  lemma TaggedMore(insts: seq<Instance>, inst: Instance, id: string, lower: char -> char)
    ensures Tagged(insts + [inst], id, lower) ==
      Tagged(insts, id, lower) + if Belongs(inst, id, lower) then [Server(inst.id, inst.name, id)] else []
  {
    assert (insts + [inst])[..|insts|] == insts;
  }

  lemma CountedMore(servers: seq<Server>, server: Server, more: bool)
    ensures multiset(servers + if more then [server] else []) ==
      multiset(servers) + if more then multiset{server} else multiset{}
  {
    if !more {
      assert servers + [] == servers;
    }
  }

  lemma {:induction false} GatheredMore(insts: seq<Instance>, inst: Instance, ids: seq<string>, lower: char -> char)
    requires IsLowering(lower) && DistinctIds(ids)
    ensures var cluster := ClusterOf(inst.name);
      Gathered(insts + [inst], ids, lower) ==
        Gathered(insts, ids, lower) +
          if cluster in ids then multiset{Server(inst.id, inst.name, cluster)} else multiset{}
  {
    if ids != [] {
      var id := ids[0];
      GatheredMore(insts, inst, ids[1..], lower);
      CleanStays(id, lower);
      TaggedMore(insts, inst, id, lower);
      CountedMore(Tagged(insts, id, lower), Server(inst.id, inst.name, id), Belongs(inst, id, lower));
    }
  }

  lemma AllTaggedMore(insts: seq<Instance>, inst: Instance)
    ensures var cluster := ClusterOf(inst.name);
      multiset(AllTagged(insts + [inst])) ==
        multiset(AllTagged(insts)) +
          if cluster != "" then multiset{Server(inst.id, inst.name, cluster)} else multiset{}
  {
    var cluster := ClusterOf(inst.name);
    assert (insts + [inst])[..|insts|] == insts;
    CountedMore(AllTagged(insts), Server(inst.id, inst.name, cluster), cluster != "");
  }

  /** All clusters that occur are among the ids. */
  predicate Covered(insts: seq<Instance>, ids: seq<string>) {
    forall i | 0 <= i < |insts| && ClusterOf(insts[i].name) != "" :: ClusterOf(insts[i].name) in ids
  }

  lemma UnionMore(insts: seq<Instance>, inst: Instance, ids: seq<string>, lower: char -> char)
    requires IsLowering(lower) && DistinctIds(ids) && (ClusterOf(inst.name) != "" <==> ClusterOf(inst.name) in ids)
    requires Gathered(insts, ids, lower) == multiset(AllTagged(insts))
    ensures Gathered(insts + [inst], ids, lower) == multiset(AllTagged(insts + [inst]))
  {
    GatheredMore(insts, inst, ids, lower);
    AllTaggedMore(insts, inst);
  }

  /** The lists of distinct clusters are disjoint parts of the list of all, and make it up. */
  lemma {:induction false} AllIsUnion(insts: seq<Instance>, ids: seq<string>, lower: char -> char)
    requires IsLowering(lower) && DistinctIds(ids) && Covered(insts, ids)
    ensures Gathered(insts, ids, lower) == multiset(AllTagged(insts))
    decreases |insts|
  {
    if insts == [] {
      GatheredNone(ids, lower);
    } else {
      var before, last := insts[..|insts| - 1], insts[|insts| - 1];
      assert before + [last] == insts;
      AllIsUnion(before, ids, lower);
      UnionMore(before, last, ids, lower);
    }
  }

  lemma {:induction false} GatheredNone(ids: seq<string>, lower: char -> char)
    ensures Gathered([], ids, lower) == multiset{}
  {
    if ids != [] {
      GatheredNone(ids[1..], lower);
    }
  }

  /** The clusters that occur, each once. */
  function Clusters(insts: seq<Instance>): seq<string> {
    if insts == [] then []
    else
      var before, cluster := Clusters(insts[..|insts| - 1]), ClusterOf(insts[|insts| - 1].name);
      if cluster == "" || cluster in before then before else before + [cluster]
  }

  lemma {:induction false} ClustersCover(insts: seq<Instance>)
    requires WellNamed(insts)
    ensures DistinctIds(Clusters(insts)) && Covered(insts, Clusters(insts))
  {
    if insts != [] {
      ClustersCover(insts[..|insts| - 1]);
    }
  }

  /** With names written by `ServerName` or by somebody else altogether no server is missed or listed twice. */
  lemma ClustersMakeUpAll(insts: seq<Instance>, lower: char -> char)
    requires IsLowering(lower)
    requires forall i | 0 <= i < |insts| ::
      ClusterOf(insts[i].name) == "" || exists cluster, node :: insts[i].name == ServerName(cluster, node, lower)
    ensures DistinctIds(Clusters(insts))
    ensures Gathered(insts, Clusters(insts), lower) == multiset(AllTagged(insts))
  {
    forall i | 0 <= i < |insts|
      ensures Clean(ClusterOf(insts[i].name))
    {
      if ClusterOf(insts[i].name) != "" {
        var cluster, node :| insts[i].name == ServerName(cluster, node, lower);
        NameRoundTrip(cluster, node, lower);
        SanitizeClean(cluster, lower);
      }
    }
    ClustersCover(insts);
    AllIsUnion(insts, Clusters(insts), lower);
  }

  /** A reported instance is found again under the cluster it is reported with exactly when that is sanitized. */
  lemma FoundAgain(inst: Instance, lower: char -> char)
    requires IsLowering(lower)
    ensures Belongs(inst, ClusterOf(inst.name), lower) <==> Clean(ClusterOf(inst.name))
  {
    SanitizeFixes(ClusterOf(inst.name), lower);
  }

  /** An id with nothing left to sanitize selects exactly the instances that are of no cluster at all. */
  lemma {:induction false} BlankIdTakesTheRest(insts: seq<Instance>, id: string, lower: char -> char)
    requires Sanitize(id, lower) == ""
    ensures |Tagged(insts, id, lower)| + |AllTagged(insts)| == |insts|
    ensures forall s <- Tagged(insts, id, lower) :: ClusterOf(s.name) == ""
  {
    if insts != [] {
      BlankIdTakesTheRest(insts[..|insts| - 1], id, lower);
    }
  }

  /** Any other id selects only instances that are reported among all. */
  lemma {:induction false} IdTakesItsOwn(insts: seq<Instance>, id: string, lower: char -> char)
    requires Sanitize(id, lower) != ""
    ensures forall s <- Tagged(insts, id, lower) ::
      s.cluster == id && s.(cluster := Sanitize(id, lower)) in AllTagged(insts)
  {
    if insts != [] {
      IdTakesItsOwn(insts[..|insts| - 1], id, lower);
    }
  }

  // ---------------------------------------------------------------- ids that sanitize alike

  /** A server made for one cluster is listed for every id that sanitizes alike, and for no other. */
  lemma ListedForAlike(made: string, node: string, asked: string, id: string, terminating: bool, lower: char -> char)
    ensures Belongs(Instance(id, ServerName(made, node, lower), terminating), asked, lower) <==>
      Sanitize(made, lower) == Sanitize(asked, lower)
  {
    NameRoundTrip(made, node, lower);
  }

  /** What a server was made for. */
  datatype Made = Made(id: string, cluster: string, node: string) {
    function Name(lower: char -> char): string { ServerName(cluster, node, lower) }
  }

  function Instances(made: seq<Made>, lower: char -> char): seq<Instance> {
    seq(|made|, i requires 0 <= i < |made| => Instance(made[i].id, made[i].Name(lower), false))
  }

  /** The servers that were made for the cluster. */
  function MadeFor(made: seq<Made>, cluster: string, lower: char -> char): seq<Server> {
    if made == [] then []
    else
      var last := made[|made| - 1];
      MadeFor(made[..|made| - 1], cluster, lower) +
        if last.cluster == cluster then [Server(last.id, last.Name(lower), cluster)] else []
  }

  /** No other id that sanitizes alike has a server. */
  predicate AloneIn(made: seq<Made>, id: string, lower: char -> char) {
    forall m <- made :: Sanitize(m.cluster, lower) == Sanitize(id, lower) ==> m.cluster == id
  }

  lemma InstancesMore(made: seq<Made>, lower: char -> char)
    requires made != []
    ensures var n := |made| - 1;
      Instances(made, lower) ==
        Instances(made[..n], lower) + [Instance(made[n].id, made[n].Name(lower), false)]
  {
  }

  lemma AloneMore(made: seq<Made>, id: string, lower: char -> char)
    requires made != []
    ensures var n := |made| - 1;
      var alike := Sanitize(made[n].cluster, lower) == Sanitize(id, lower);
      AloneIn(made, id, lower) <==> AloneIn(made[..n], id, lower) && (alike ==> made[n].cluster == id)
  {
    var n := |made| - 1;
    assert forall m :: m in made <==> m in made[..n] || m == made[n];
  }

  /** The list is as long as the cluster exactly when it is the cluster. */
  lemma {:induction false} ListedAtLeast(made: seq<Made>, id: string, lower: char -> char)
    ensures |MadeFor(made, id, lower)| <= |Tagged(Instances(made, lower), id, lower)|
    ensures |MadeFor(made, id, lower)| == |Tagged(Instances(made, lower), id, lower)| <==> AloneIn(made, id, lower)
    ensures AloneIn(made, id, lower) ==> Tagged(Instances(made, lower), id, lower) == MadeFor(made, id, lower)
  {
    if made != [] {
      var n := |made| - 1;
      var inst := Instance(made[n].id, made[n].Name(lower), false);
      ListedAtLeast(made[..n], id, lower);
      InstancesMore(made, lower);
      TaggedMore(Instances(made[..n], lower), inst, id, lower);
      AloneMore(made, id, lower);
      ListedForAlike(made[n].cluster, made[n].node, id, made[n].id, false, lower);
    }
  }

  /** Listing returns the servers of the cluster exactly when none was made for another id that sanitizes alike. */
  lemma ListsItsOwn(made: seq<Made>, id: string, lower: char -> char)
    ensures Tagged(Instances(made, lower), id, lower) == MadeFor(made, id, lower) <==> AloneIn(made, id, lower)
  {
    ListedAtLeast(made, id, lower);
  }

  /** So it does for clean ids. */
  lemma CleanListsItsOwn(made: seq<Made>, id: string, lower: char -> char)
    requires IsLowering(lower) && Clean(id) && forall m <- made :: Clean(m.cluster)
    ensures Tagged(Instances(made, lower), id, lower) == MadeFor(made, id, lower)
  {
    CleanStays(id, lower);
    forall m | m in made
      ensures Sanitize(m.cluster, lower) == m.cluster
    {
      CleanStays(m.cluster, lower);
    }
    ListsItsOwn(made, id, lower);
  }

  /** Asked for `a_b`, it returns what was made for `a-b`, with `a_b` as its cluster. */
  lemma OtherClusterListed(id: string, node: string, lower: char -> char)
    requires IsLowering(lower)
    ensures Sanitize("a_b", lower) == Sanitize("a-b", lower) == "a-b"
    ensures Tagged([Instance(id, ServerName("a-b", node, lower), false)], "a_b", lower) ==
      [Server(id, ServerName("a-b", node, lower), "a_b")]
  {
    CleanStays("a-b", lower);
    assert Lowered("a_b", lower) == "a_b";
    assert RunLength("_b") == 1 && "_b"[1..] == "b" && Collapse("b") == "b";
    assert "a_b"[1..] == "_b" && Collapse("_b") == "-b" && Collapse("a_b") == "a-b";
    ListedForAlike("a-b", node, "a_b", id, false, lower);
  }
}

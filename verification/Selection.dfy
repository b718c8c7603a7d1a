// Choosing a server type, the order of locations, and the search for a pair that can be had.
module Selection {
  import opened Prelude
  import Sorting

  // ---------------------------------------------------------------- lists

  predicate AllDistinct<T(==)>(s: seq<T>) { forall i, j | 0 <= i < j < |s| :: s[i] != s[j] }

  /** First occurrences, in order. */
  function Distinct(s: seq<string>): seq<string> {
    if s == [] then []
    else
      var before := Distinct(s[..|s| - 1]);
      if s[|s| - 1] in before then before else before + [s[|s| - 1]]
  }

  lemma {:induction false} DistinctOnce(s: seq<string>)
    ensures AllDistinct(Distinct(s)) && forall x :: x in Distinct(s) <==> x in s
  {
    if s != [] {
      DistinctOnce(s[..|s| - 1]);
      assert s == s[..|s| - 1] + [s[|s| - 1]];
    }
  }

  lemma {:induction false} DistinctExtends(a: seq<string>, b: seq<string>)
    ensures Distinct(a) <= Distinct(a + b)
  {
    if b == [] {
      assert a + b == a;
    } else {
      assert (a + b)[..|a + b| - 1] == a + b[..|b| - 1];
      DistinctExtends(a, b[..|b| - 1]);
    }
  }

  lemma {:induction false} DistinctSame(s: seq<string>)
    requires AllDistinct(s)
    ensures Distinct(s) == s
  {
    if s != [] {
      DistinctSame(s[..|s| - 1]);
    }
  }

  // ---------------------------------------------------------------- types by specification

  datatype TypeInfo = TypeInfo(name: string, cores: int, memGB: real, arch: string, deprecated: bool)

  datatype Need = Need(cores: int, ramGB: int, arch: string) {
    predicate Meets(t: TypeInfo) {
      t.arch == arch && !t.deprecated && t.cores >= cores && t.memGB >= ramGB as real
    }
  }

  /** Fewer cores first, then less memory, then by name. */
  predicate CheaperType(a: TypeInfo, b: TypeInfo) {
    a.cores < b.cores
    || (a.cores == b.cores && (a.memGB < b.memGB || (a.memGB == b.memGB && Sorting.StringLe(a.name, b.name))))
  }

  /** The types that meet the need. */
  function Meeting(types: seq<TypeInfo>, need: Need): seq<TypeInfo> {
    if types == [] then []
    else
      var last := types[|types| - 1];
      Meeting(types[..|types| - 1], need) + if need.Meets(last) then [last] else []
  }

  lemma {:induction false} MeetingCounts(types: seq<TypeInfo>, need: Need, t: TypeInfo)
    ensures multiset(Meeting(types, need))[t] == if need.Meets(t) then multiset(types)[t] else 0
  {
    if types != [] {
      MeetingCounts(types[..|types| - 1], need, t);
      assert types == types[..|types| - 1] + [types[|types| - 1]];
    }
  }

  lemma MeetingAlike(types: seq<TypeInfo>, others: seq<TypeInfo>, need: Need)
    requires multiset(types) == multiset(others)
    ensures multiset(Meeting(types, need)) == multiset(Meeting(others, need))
  {
    forall t: TypeInfo
      ensures multiset(Meeting(types, need))[t] == multiset(Meeting(others, need))[t]
    {
      MeetingCounts(types, need, t);
      MeetingCounts(others, need, t);
    }
  }

  /** The types that meet the need, cheapest first. */
  ghost predicate IsSelection(types: seq<TypeInfo>, need: Need, r: seq<TypeInfo>) {
    multiset(r) == multiset(Meeting(types, need)) && Sorting.IsSorted(CheaperType, r)
  }

  function Names(ts: seq<TypeInfo>): seq<string> { seq(|ts|, i requires 0 <= i < |ts| => ts[i].name) }

  /** Types that meet the same need differ in what they are compared by, so equal rank means equal types. */
  lemma TypesOrdered(types: seq<TypeInfo>, need: Need)
    ensures Sorting.Orders(CheaperType, multiset(Meeting(types, need)))
  {
    var all := multiset(Meeting(types, need));
    forall x, y | x in all && y in all
      ensures (CheaperType(x, y) || CheaperType(y, x)) && (CheaperType(x, y) && CheaperType(y, x) ==> x == y)
    {
      MeetingCounts(types, need, x);
      MeetingCounts(types, need, y);
      Sorting.StringTotal(x.name, y.name);
    }
    forall x, y, z | x in all && y in all && z in all && CheaperType(x, y) && CheaperType(y, z)
      ensures CheaperType(x, z)
    {
      if x.cores == y.cores == z.cores && x.memGB == y.memGB == z.memGB {
        Sorting.StringTransitive(x.name, y.name, z.name);
      }
    }
  }

  method FittingTypes(types: seq<TypeInfo>, need: Need) returns (fits: seq<TypeInfo>)
    ensures fits == Meeting(types, need)
  {
    fits := [];
    for i := 0 to |types|
      invariant fits == Meeting(types[..i], need)
    {
      assert types[..i + 1][..i] == types[..i];
      var t := types[i];
      if t.arch != need.arch || t.deprecated {
        continue;
      }
      if t.cores < need.cores || t.memGB < need.ramGB as real {
        continue;
      }
      fits := fits + [t];
    }
    assert types[..|types|] == types;
  }

  method NamesOf(ts: seq<TypeInfo>) returns (names: seq<string>)
    ensures names == Names(ts)
  {
    names := [];
    for i := 0 to |ts|
      invariant names == Names(ts[..i])
    {
      assert Names(ts[..i + 1]) == Names(ts[..i]) + [ts[i].name];
      names := names + [ts[i].name];
    }
    assert ts[..|ts|] == ts;
  }

  method SelectCandidates(types: seq<TypeInfo>, need: Need) returns (names: seq<string>)
    ensures exists chosen :: IsSelection(types, need, chosen) && names == Names(chosen)
  {
    var fits := FittingTypes(types, need);
    TypesOrdered(types, need);
    fits := Sorting.Sort(fits, CheaperType);
    names := NamesOf(fits);
    assert IsSelection(types, need, fits);
  }

  /** The catalog's order does not show in the selection, with no condition on its names. */
  lemma SelectionIgnoresOrder(types: seq<TypeInfo>, others: seq<TypeInfo>, need: Need, r: seq<TypeInfo>,
      q: seq<TypeInfo>)
    requires multiset(types) == multiset(others) && IsSelection(types, need, r) && IsSelection(others, need, q)
    ensures r == q
  {
    MeetingAlike(types, others, need);
    TypesOrdered(types, need);
    Sorting.SortedIsUnique(CheaperType, r, q);
  }

  // ---------------------------------------------------------------- locations

  /** The preferred locations that exist. */
  function Existing(preferred: seq<string>, all: seq<string>): seq<string> {
    if preferred == [] then []
    else
      var last := preferred[|preferred| - 1];
      Existing(preferred[..|preferred| - 1], all) + if last in all then [last] else []
  }

  lemma {:induction false} InExisting(preferred: seq<string>, all: seq<string>, x: string)
    ensures x in Existing(preferred, all) <==> x in preferred && x in all
  {
    if preferred != [] {
      InExisting(preferred[..|preferred| - 1], all, x);
      assert preferred == preferred[..|preferred| - 1] + [preferred[|preferred| - 1]];
    }
  }

  function Ordered(all: seq<string>, preferred: seq<string>, strict: bool): seq<string> {
    Distinct(Existing(preferred, all) + if strict then [] else all)
  }

  lemma ExistingMore(preferred: seq<string>, all: seq<string>, i: nat)
    requires i < |preferred|
    ensures Existing(preferred[..i + 1], all) ==
      Existing(preferred[..i], all) + if preferred[i] in all then [preferred[i]] else []
  {
    assert preferred[..i + 1][..i] == preferred[..i];
  }

  method PutPreferred(all: seq<string>, preferred: seq<string>) returns (out: seq<string>, seen: set<string>)
    ensures out == Distinct(Existing(preferred, all)) && forall x :: x in seen <==> x in out
  {
    var existing: set<string> := set a | a in all;
    seen, out := {}, [];
    for i := 0 to |preferred|
      invariant out == Distinct(Existing(preferred[..i], all)) && forall x :: x in seen <==> x in out
    {
      var p := preferred[i];
      ExistingMore(preferred, all, i);
      assert p !in all ==> Existing(preferred[..i], all) + [] == Existing(preferred[..i], all);
      if p in existing && p !in seen {
        out := out + [p];
        seen := seen + {p};
      }
    }
    assert preferred[..|preferred|] == preferred;
  }

  method OrderLocations(all: seq<string>, preferred: seq<string>, strict: bool) returns (out: seq<string>)
    ensures out == Ordered(all, preferred, strict)
  {
    var seen;
    out, seen := PutPreferred(all, preferred);
    ghost var wanted := Existing(preferred, all);
    assert wanted + [] == wanted;
    if strict {
      return;
    }
    for i := 0 to |all|
      invariant out == Distinct(wanted + all[..i]) && forall x :: x in seen <==> x in out
    {
      assert wanted + all[..i + 1] == wanted + all[..i] + [all[i]];
      if all[i] !in seen {
        out := out + [all[i]];
        seen := seen + {all[i]};
      }
    }
    assert all[..|all|] == all;
  }

  lemma {:induction false} AllExisting(preferred: seq<string>, all: seq<string>)
    requires forall i | 0 <= i < |preferred| :: preferred[i] in all
    ensures Existing(preferred, all) == preferred
  {
    if preferred != [] {
      AllExisting(preferred[..|preferred| - 1], all);
    }
  }

  /** Strict: the preferred locations that exist, each once. */
  lemma StrictLocations(all: seq<string>, preferred: seq<string>)
    ensures var out := Ordered(all, preferred, true);
      AllDistinct(out) && forall x :: x in out <==> x in preferred && x in all
    ensures AllDistinct(preferred) && (forall p <- preferred :: p in all) ==> Ordered(all, preferred, true) == preferred
  {
    var wanted := Existing(preferred, all);
    assert wanted + [] == wanted;
    DistinctOnce(wanted);
    forall x ensures x in wanted <==> x in preferred && x in all {
      InExisting(preferred, all, x);
    }
    if AllDistinct(preferred) && forall p <- preferred :: p in all {
      AllExisting(preferred, all);
      DistinctSame(preferred);
    }
  }

  /** Otherwise those come first, and every location comes once. */
  lemma AllLocations(all: seq<string>, preferred: seq<string>)
    ensures var out := Ordered(all, preferred, false);
      && Ordered(all, preferred, true) <= out
      && AllDistinct(out) && forall x :: x in out <==> x in all
    ensures AllDistinct(all) ==> multiset(Ordered(all, preferred, false)) == multiset(all)
  {
    var wanted := Existing(preferred, all);
    assert wanted + [] == wanted;
    DistinctExtends(wanted, all);
    DistinctOnce(wanted + all);
    forall x ensures x in wanted + all <==> x in all {
      InExisting(preferred, all, x);
    }
    if AllDistinct(all) {
      forall x
        ensures multiset(Ordered(all, preferred, false))[x] == multiset(all)[x]
      {
        OnceCounts(Ordered(all, preferred, false), x);
        OnceCounts(all, x);
      }
    }
  }

  lemma {:induction false} OnceCounts(s: seq<string>, x: string)
    requires AllDistinct(s)
    ensures multiset(s)[x] == if x in s then 1 else 0
  {
    if s != [] {
      OnceCounts(s[..|s| - 1], x);
      assert s == s[..|s| - 1] + [s[|s| - 1]];
    }
  }

  // ---------------------------------------------------------------- the search

  datatype Mode = RegionFirst | CheapestType

  type Pair = (string, string)

  /** One location with each type, or one type with each location. */
  function Row(mode: Mode, outer: string, inner: seq<string>): seq<Pair> {
    seq(|inner|, i requires 0 <= i < |inner| => if mode.RegionFirst? then (inner[i], outer) else (outer, inner[i]))
  }

  function Rows(mode: Mode, outers: seq<string>, inner: seq<string>): seq<Pair> {
    if outers == [] then [] else Rows(mode, outers[..|outers| - 1], inner) + Row(mode, outers[|outers| - 1], inner)
  }

  function Plan(types: seq<string>, locs: seq<string>, mode: Mode): seq<Pair> {
    if mode.RegionFirst? then Rows(mode, locs, types) else Rows(mode, types, locs)
  }

  method PlanRows(mode: Mode, outers: seq<string>, inner: seq<string>) returns (plan: seq<Pair>)
    ensures plan == Rows(mode, outers, inner)
  {
    plan := [];
    for i := 0 to |outers|
      invariant plan == Rows(mode, outers[..i], inner)
    {
      assert outers[..i + 1][..i] == outers[..i];
      ghost var before := plan;
      for j := 0 to |inner|
        invariant plan == before + Row(mode, outers[i], inner)[..j]
      {
        plan := plan + [if mode.RegionFirst? then (inner[j], outers[i]) else (outers[i], inner[j])];
      }
    }
    assert outers[..|outers|] == outers;
  }

  method SearchPlan(types: seq<string>, locs: seq<string>, mode: Mode) returns (plan: seq<Pair>)
    ensures plan == Plan(types, locs, mode)
  {
    if mode.CheapestType? {
      plan := PlanRows(mode, types, locs);
      return;
    }
    plan := PlanRows(mode, locs, types);
  }

  function PairOf(mode: Mode, outer: string, inner: string): Pair {
    if mode.RegionFirst? then (inner, outer) else (outer, inner)
  }

  /** Everything planned before a pair: all of the earlier rows, and what stands before it in its own. */
  lemma {:induction false} PlannedBefore(mode: Mode, outers: seq<string>, inner: seq<string>, k: nat)
    returns (i: nat, j: nat)
    requires k < |Rows(mode, outers, inner)|
    ensures i < |outers| && j < |inner| && Rows(mode, outers, inner)[k] == PairOf(mode, outers[i], inner[j])
    ensures forall a, b | 0 <= a < |outers| && 0 <= b < |inner| && (a < i || (a == i && b < j)) ::
      PairOf(mode, outers[a], inner[b]) in Rows(mode, outers, inner)[..k]
  {
    var last := |outers| - 1;
    var before, row := Rows(mode, outers[..last], inner), Row(mode, outers[last], inner);
    assert Rows(mode, outers, inner) == before + row;
    if k < |before| {
      i, j := PlannedBefore(mode, outers[..last], inner, k);
      assert (before + row)[..k] == before[..k];
    } else {
      i, j := last, k - |before|;
      assert (before + row)[..k] == before + row[..j];
      forall a, b | 0 <= a < |outers| && 0 <= b < |inner| && (a < i || (a == i && b < j))
        ensures PairOf(mode, outers[a], inner[b]) in Rows(mode, outers, inner)[..k]
      {
        if a < i {
          InRows(mode, outers[..last], inner, a, b);
        } else {
          assert row[..j][b] == PairOf(mode, outers[a], inner[b]);
        }
      }
    }
  }

  lemma {:induction false} InRows(mode: Mode, outers: seq<string>, inner: seq<string>, a: nat, b: nat)
    requires a < |outers| && b < |inner|
    ensures PairOf(mode, outers[a], inner[b]) in Rows(mode, outers, inner)
  {
    var last := |outers| - 1;
    if a < last {
      InRows(mode, outers[..last], inner, a, b);
    } else {
      assert Row(mode, outers[last], inner)[b] == PairOf(mode, outers[a], inner[b]);
    }
  }

  lemma {:induction false} RowsCount(mode: Mode, outers: seq<string>, inner: seq<string>, p: Pair)
    requires AllDistinct(outers) && AllDistinct(inner)
    ensures var (t, l) := p; var (o, i) := if mode.RegionFirst? then (l, t) else (t, l);
      multiset(Rows(mode, outers, inner))[p] == if o in outers && i in inner then 1 else 0
  {
    if outers != [] {
      var last := |outers| - 1;
      RowsCount(mode, outers[..last], inner, p);
      RowCount(mode, outers[last], inner, p);
      assert outers == outers[..last] + [outers[last]];
    }
  }

  lemma {:induction false} RowCount(mode: Mode, outer: string, inner: seq<string>, p: Pair)
    requires AllDistinct(inner)
    ensures var (t, l) := p; var (o, i) := if mode.RegionFirst? then (l, t) else (t, l);
      multiset(Row(mode, outer, inner))[p] == if o == outer && i in inner then 1 else 0
  {
    if inner != [] {
      var last := |inner| - 1;
      RowCount(mode, outer, inner[..last], p);
      assert Row(mode, outer, inner) == Row(mode, outer, inner[..last]) + [PairOf(mode, outer, inner[last])];
      assert inner == inner[..last] + [inner[last]];
    }
  }

  /** Each type is planned with each location exactly once. */
  lemma PlanIsProduct(types: seq<string>, locs: seq<string>, mode: Mode, p: Pair)
    requires AllDistinct(types) && AllDistinct(locs)
    ensures multiset(Plan(types, locs, mode))[p] == if p.0 in types && p.1 in locs then 1 else 0
  {
    if mode.RegionFirst? {
      RowsCount(mode, locs, types, p);
    } else {
      RowsCount(mode, types, locs, p);
    }
  }

  /** What an attempt to create a server gives. */
  datatype Attempt = Created | NoCapacity | Broken

  datatype Landing = Placed(at: Pair) | Gave(at: Pair) | Exhausted

  /** The pair in row `i`, place `j`, when all earlier rows and all earlier places of its row lack capacity. */
  ghost predicate IsFirstHad(mode: Mode, outers: seq<string>, inner: seq<string>, attempt: Pair -> Attempt, i: nat,
      j: nat, p: Pair)
    requires i < |outers| && j < |inner|
  {
    && p == PairOf(mode, outers[i], inner[j])
    && (forall a, b | 0 <= a < i && 0 <= b < |inner| :: attempt(PairOf(mode, outers[a], inner[b])).NoCapacity?)
    && (forall b | 0 <= b < j :: attempt(PairOf(mode, outers[i], inner[b])).NoCapacity?)
  }

  /** Where a search ends: at the first pair that does not lack capacity, row by row, or nowhere when all pairs do. */
  ghost predicate IsLanding(r: Landing, types: seq<string>, locs: seq<string>, mode: Mode, attempt: Pair -> Attempt) {
    if r.Exhausted? then forall t, l | t in types && l in locs :: attempt((t, l)).NoCapacity?
    else
      && (if r.Placed? then attempt(r.at).Created? else attempt(r.at).Broken?) && r.at.0 in types && r.at.1 in locs
      && var outers, inner := if mode.RegionFirst? then locs else types, if mode.RegionFirst? then types else locs;
        exists i, j | 0 <= i < |outers| && 0 <= j < |inner| :: IsFirstHad(mode, outers, inner, attempt, i, j, r.at)
  }

  /** Tries the plan in order; only a lack of capacity goes on to the next pair. */
  method Search(types: seq<string>, locs: seq<string>, mode: Mode, attempt: Pair -> Attempt) returns (r: Landing)
    ensures IsLanding(r, types, locs, mode, attempt)
  {
    var plan := SearchPlan(types, locs, mode);
    ghost var outers, inner := if mode.RegionFirst? then locs else types, if mode.RegionFirst? then types else locs;
    for k := 0 to |plan|
      invariant forall p <- plan[..k] :: attempt(p).NoCapacity?
    {
      var a := attempt(plan[k]);
      if a.NoCapacity? {
        assert plan[..k + 1] == plan[..k] + [plan[k]];
        continue;
      }
      ghost var i, j := PlannedBefore(mode, outers, inner, k);
      assert IsFirstHad(mode, outers, inner, attempt, i, j, plan[k]);
      assert plan[k] in plan;
      PlanWithin(types, locs, mode, plan[k]);
      if a.Broken? {
        return Gave(plan[k]);
      }
      return Placed(plan[k]);
    }
    assert plan[..|plan|] == plan;
    forall t, l | t in types && l in locs
      ensures (t, l) in plan
    {
      InPlan(types, locs, mode, t, l);
    }
    return Exhausted;
  }

  lemma InPlan(types: seq<string>, locs: seq<string>, mode: Mode, t: string, l: string)
    requires t in types && l in locs
    ensures (t, l) in Plan(types, locs, mode)
  {
    var i :| 0 <= i < |types| && types[i] == t;
    var j :| 0 <= j < |locs| && locs[j] == l;
    if mode.RegionFirst? {
      InRows(mode, locs, types, j, i);
    } else {
      InRows(mode, types, locs, i, j);
    }
  }

  lemma {:induction false} RowsWithin(mode: Mode, outers: seq<string>, inner: seq<string>, p: Pair)
    requires p in Rows(mode, outers, inner)
    ensures exists o, i | o in outers && i in inner :: p == PairOf(mode, o, i)
  {
    var last := |outers| - 1;
    if p in Rows(mode, outers[..last], inner) {
      RowsWithin(mode, outers[..last], inner, p);
    } else {
      var j :| 0 <= j < |inner| && Row(mode, outers[last], inner)[j] == p;
      assert outers[last] in outers && inner[j] in inner;
    }
  }

  /** Only given types and locations are planned. */
  lemma PlanWithin(types: seq<string>, locs: seq<string>, mode: Mode, p: Pair)
    requires p in Plan(types, locs, mode)
    ensures p.0 in types && p.1 in locs
  {
    if mode.RegionFirst? {
      RowsWithin(mode, locs, types, p);
    } else {
      RowsWithin(mode, types, locs, p);
    }
  }

  /** What is asked for: a type by name or by need, and regions if they were named. */
  datatype Wanted = Wanted(typeName: string, cores: int, ramGB: int, regions: seq<string>)

  datatype Outcome = UnknownType | NoTypeFits | Landed(landing: Landing)

  function NeedOf(w: Wanted, arch: string): Need {
    Need(if w.cores == 0 then 2 else w.cores, if w.ramGB == 0 then 2 else w.ramGB, arch)
  }

  /** The candidates: the named type alone, or all that meet the need. */
  ghost predicate AreCandidates(types: seq<TypeInfo>, w: Wanted, arch: string, candidates: seq<string>) {
    if w.typeName != "" then candidates == [w.typeName] && exists t <- types :: t.name == w.typeName
    else exists chosen :: IsSelection(types, NeedOf(w, arch), chosen) && candidates == Names(chosen) && chosen != []
  }

  /** The locations in order: only those named if any were, else the default ones and then the rest. */
  function LocationsFor(all: seq<string>, w: Wanted, defaults: seq<string>): seq<string> {
    if w.regions != [] then Ordered(all, w.regions, true) else Ordered(all, defaults, false)
  }

  /** Chooses candidates and locations and searches their pairs. */
  method CreateServer(types: seq<TypeInfo>, all: seq<string>, w: Wanted, arch: string, defaults: seq<string>,
      mode: Mode,
                      attempt: Pair -> Attempt) returns (r: Outcome, ghost candidates: seq<string>)
    ensures r.UnknownType? <==> w.typeName != "" && forall t <- types :: t.name != w.typeName
    ensures r.NoTypeFits? <==> w.typeName == "" && forall t <- types :: !NeedOf(w, arch).Meets(t)
    ensures r.Landed? ==> AreCandidates(types, w, arch, candidates)
    ensures r.Landed? ==> IsLanding(r.landing, candidates, LocationsFor(all, w, defaults), mode, attempt)
    ensures r.Landed? && !r.landing.Exhausted? ==> r.landing.at.1 in all
    ensures r.Landed? && !r.landing.Exhausted? && w.regions != [] ==> r.landing.at.1 in w.regions
  {
    candidates := [];
    var names: seq<string>;
    if w.typeName != "" {
      if w.typeName !in (set t | t in types :: t.name) {
        return UnknownType, [];
      }
      names := [w.typeName];
    } else {
      names := SelectCandidates(types, NeedOf(w, arch));
      ghost var chosen :| IsSelection(types, NeedOf(w, arch), chosen) && names == Names(chosen);
      NoneMeets(types, NeedOf(w, arch), chosen);
      if |names| == 0 {
        return NoTypeFits, [];
      }
    }
    candidates := names;
    var strict := |w.regions| > 0;
    var ordered := OrderLocations(all, if strict then w.regions else defaults, strict);
    var landing := Search(names, ordered, mode, attempt);
    StrictLocations(all, w.regions);
    AllLocations(all, defaults);
    r := Landed(landing);
  }

  lemma NoneMeets(types: seq<TypeInfo>, need: Need, chosen: seq<TypeInfo>)
    requires IsSelection(types, need, chosen)
    ensures chosen == [] <==> forall t <- types :: !need.Meets(t)
  {
    if chosen == [] {
      forall t | t in types
        ensures !need.Meets(t)
      {
        MeetingCounts(types, need, t);
        assert multiset(chosen)[t] == 0 && t in multiset(types);
      }
    } else {
      MeetingCounts(types, need, chosen[0]);
      assert chosen[0] in multiset(chosen);
      assert chosen[0] in multiset(types);
    }
  }

  // ---------------------------------------------------------------- GPU offerings

  datatype Gpu = Gpu(model: string, count: int, vram: int)

  /** A catalog entry; `gpu` is what its name and description say, if they say anything. */
  datatype Entry = Entry(name: string, gpus: int, gpu: Option<Gpu>, cents: int, regions: seq<string>)

  datatype Offering = Offering(name: string, gpu: Gpu, regions: seq<string>, hourly: real)

  datatype GpuReq = GpuReq(model: string, count: int, minVram: int)

  predicate Offered(e: Entry) { e.gpus > 0 && e.gpu.Some? }

  predicate Cheaper(a: Offering, b: Offering) {
    a.hourly < b.hourly || (a.hourly == b.hourly && Sorting.StringLe(a.name, b.name))
  }

  predicate Satisfies(o: Offering, req: GpuReq, sameModel: (string, string) -> bool) {
    && (req.model == "" || sameModel(req.model, o.gpu.model))
    && (req.minVram <= 0 || o.gpu.vram >= req.minVram)
    && (req.count <= 0 || o.gpu.count == req.count)
  }

  /** The first preferred region that is available, else the first available one. */
  function ChosenRegion(avail: seq<string>, pref: seq<string>): string {
    if pref == [] then if avail == [] then "" else avail[0]
    else if pref[0] in avail then pref[0]
    else ChosenRegion(avail, pref[1..])
  }

  /** It is available when anything is, and no region preferred to it is. */
  lemma {:induction false} RegionIsPreferred(avail: seq<string>, pref: seq<string>)
    ensures avail == [] && pref == [] ==> ChosenRegion(avail, pref) == ""
    ensures avail != [] ==> ChosenRegion(avail, pref) in avail
    ensures forall i | 0 <= i < |pref| && pref[i] in avail && (forall j | 0 <= j < i :: pref[j] !in avail) ::
      ChosenRegion(avail, pref) == pref[i]
    ensures (forall p <- pref :: p !in avail) ==> ChosenRegion(avail, pref) == if avail == [] then "" else avail[0]
  {
    if pref != [] {
      RegionIsPreferred(avail, pref[1..]);
      if pref[0] !in avail {
        forall i | 0 <= i < |pref| && pref[i] in avail && forall j | 0 <= j < i :: pref[j] !in avail
          ensures ChosenRegion(avail, pref) == pref[i]
        {
          assert pref[1..][i - 1] == pref[i];
        }
      }
    }
  }

  method PickRegion(avail: seq<string>, pref: seq<string>) returns (r: string)
    ensures r == ChosenRegion(avail, pref)
  {
    for i := 0 to |pref|
      invariant ChosenRegion(avail, pref) == ChosenRegion(avail, pref[i..])
    {
      assert pref[i..][1..] == pref[i + 1..];
      for j := 0 to |avail|
        invariant pref[i] !in avail[..j]
      {
        if avail[j] == pref[i] {
          return avail[j];
        }
      }
      assert avail[..|avail|] == avail;
    }
    r := if |avail| > 0 then avail[0] else "";
  }

  /** Cents in the currency; nothing below zero. */
  function Amount(cents: int): real { if cents <= 0 then 0.0 else cents as real / 100.0 }

  /** What an entry is offered as, its regions sorted. */
  function OfferingOf(e: Entry): Offering
    requires Offered(e)
  {
    Offering(e.name, e.gpu.value, Sorting.SortedStrings(e.regions), Amount(e.cents))
  }

  function Offers(catalog: seq<Entry>): seq<Offering> {
    if catalog == [] then []
    else
      var last := catalog[|catalog| - 1];
      Offers(catalog[..|catalog| - 1]) + if Offered(last) then [OfferingOf(last)] else []
  }

  predicate IsOffer(o: Offering, e: Entry) { Offered(e) && o == OfferingOf(e) }

  lemma {:induction false} InOffers(catalog: seq<Entry>, o: Offering)
    ensures o in Offers(catalog) <==> exists e <- catalog :: IsOffer(o, e)
  {
    if catalog != [] {
      var before, last := catalog[..|catalog| - 1], catalog[|catalog| - 1];
      InOffers(before, o);
      assert catalog == before + [last];
      assert o in Offers(catalog) <==> o in Offers(before) || IsOffer(o, last);
      assert forall e | e in catalog :: e in before || e == last;
      assert forall e | e in before :: e in catalog;
      assert last in catalog;
    }
  }

  predicate NamesDistinct(catalog: seq<Entry>) {
    forall i, j | 0 <= i < j < |catalog| :: catalog[i].name != catalog[j].name
  }

  lemma SameNameSameOffer(x: Offering, y: Offering, catalog: seq<Entry>)
    requires NamesDistinct(catalog) && x in Offers(catalog) && y in Offers(catalog) && x.name == y.name
    ensures x == y
  {
    InOffers(catalog, x);
    InOffers(catalog, y);
    var i :| 0 <= i < |catalog| && IsOffer(x, catalog[i]);
    var j :| 0 <= j < |catalog| && IsOffer(y, catalog[j]);
    assert i == j;
  }

  lemma OffersRanked(all: multiset<Offering>)
    ensures Sorting.Ranks(Cheaper, all)
    ensures forall x, y | x in all && y in all && Cheaper(x, y) && Cheaper(y, x) ::
      x.name == y.name && x.hourly == y.hourly
  {
    forall x, y | x in all && y in all
      ensures (Cheaper(x, y) || Cheaper(y, x)) && (Cheaper(x, y) && Cheaper(y, x) ==> x.name == y.name)
    {
      Sorting.StringTotal(x.name, y.name);
    }
    forall x, y, z | x in all && y in all && z in all && Cheaper(x, y) && Cheaper(y, z)
      ensures Cheaper(x, z)
    {
      if x.hourly == y.hourly == z.hourly {
        Sorting.StringTransitive(x.name, y.name, z.name);
      }
    }
  }

  method GpuOfferings(catalog: seq<Entry>) returns (offers: seq<Offering>)
    ensures multiset(offers) == multiset(Offers(catalog)) && Sorting.IsSorted(Cheaper, offers)
  {
    offers := [];
    for i := 0 to |catalog|
      invariant offers == Offers(catalog[..i])
    {
      assert catalog[..i + 1][..i] == catalog[..i];
      var e := catalog[i];
      if e.gpus <= 0 || e.gpu.None? {
        continue;
      }
      var regions := Sorting.SortStrings(e.regions);
      offers := offers + [Offering(e.name, e.gpu.value, regions, Amount(e.cents))];
    }
    assert catalog[..|catalog|] == catalog;
    OffersRanked(multiset(offers));
    offers := Sorting.Sort(offers, Cheaper);
  }

  /** The offering could serve the request. */
  predicate Acceptable(o: Offering, req: GpuReq, pref: seq<string>, sameModel: (string, string) -> bool) {
    Satisfies(o, req, sameModel) && ChosenRegion(o.regions, pref) != ""
  }

  /** The cheapest acceptable offering, or none when there is none. */
  ghost predicate IsResolved(best: Option<Offering>, offers: multiset<Offering>, req: GpuReq, pref: seq<string>,
      sameModel: (string, string) -> bool) {
    && (best.Some? ==> best.value in offers && Acceptable(best.value, req, pref, sameModel))
    && forall o | o in offers && Acceptable(o, req, pref, sameModel) :: best.Some? && Cheaper(best.value, o)
  }

  /** The type and region of the offering, if there is one. */
  predicate Says(best: Option<Offering>, found: bool, name: string, region: string, pref: seq<string>) {
    found == best.Some? && (found ==> name == best.value.name && region == ChosenRegion(best.value.regions, pref))
  }

  method ResolveGpuType(catalog: seq<Entry>, req: GpuReq, pref: seq<string>, sameModel: (string, string) -> bool)
    returns (found: bool, name: string, region: string)
    ensures exists best ::
      IsResolved(best, multiset(Offers(catalog)), req, pref, sameModel) && Says(best, found, name, region, pref)
  {
    var offers := GpuOfferings(catalog);
    for i := 0 to |offers|
      invariant forall k | 0 <= k < i :: !Acceptable(offers[k], req, pref, sameModel)
    {
      var o := offers[i];
      if !Satisfies(o, req, sameModel) {
        continue;
      }
      var r := PickRegion(o.regions, pref);
      if r != "" {
        FirstIsBest(offers, i, req, pref, sameModel);
        return true, o.name, r;
      }
    }
    NoneAcceptable(offers, req, pref, sameModel);
    return false, "", "";
  }

  lemma NoneAcceptable(offers: seq<Offering>, req: GpuReq, pref: seq<string>, sameModel: (string, string) -> bool)
    requires forall k | 0 <= k < |offers| :: !Acceptable(offers[k], req, pref, sameModel)
    ensures IsResolved(None, multiset(offers), req, pref, sameModel)
  {
    forall o | o in multiset(offers)
      ensures !Acceptable(o, req, pref, sameModel)
    {
      var k :| 0 <= k < |offers| && offers[k] == o;
    }
  }

  lemma FirstIsBest(offers: seq<Offering>, i: nat, req: GpuReq, pref: seq<string>, sameModel: (string, string) -> bool)
    requires Sorting.IsSorted(Cheaper, offers) && i < |offers|
    requires Acceptable(offers[i], req, pref, sameModel)
    requires forall k | 0 <= k < i :: !Acceptable(offers[k], req, pref, sameModel)
    ensures IsResolved(Some(offers[i]), multiset(offers), req, pref, sameModel)
  {
    forall o | o in multiset(offers) && Acceptable(o, req, pref, sameModel)
      ensures Cheaper(offers[i], o)
    {
      var k :| 0 <= k < |offers| && offers[k] == o;
      Sorting.StringTotal(o.name, o.name);
    }
  }

  lemma {:induction false} OffersAlike(catalog: seq<Entry>, others: seq<Entry>, o: Offering)
    requires multiset(catalog) == multiset(others) && o in Offers(catalog)
    ensures o in Offers(others)
  {
    InOffers(catalog, o);
    InOffers(others, o);
    var e :| e in catalog && IsOffer(o, e);
    assert e in multiset(catalog) && e in multiset(others);
  }

  /**
    * Whatever order the catalog comes in, the same type is found at the same price; and it is the same offer when
    * no two entries share a name.
    */
  lemma ResolveIgnoresOrder(catalog: seq<Entry>, others: seq<Entry>, req: GpuReq, pref: seq<string>,
      sameModel: (string, string) -> bool, best: Option<Offering>, other: Option<Offering>)
    requires multiset(catalog) == multiset(others)
    requires IsResolved(best, multiset(Offers(catalog)), req, pref, sameModel)
    requires IsResolved(other, multiset(Offers(others)), req, pref, sameModel)
    ensures best.Some? <==> other.Some?
    ensures best.Some? ==> best.value.name == other.value.name && best.value.hourly == other.value.hourly
    ensures NamesDistinct(catalog) ==> best == other
  {
    if best.Some? {
      OffersAlike(catalog, others, best.value);
    }
    if other.Some? {
      OffersAlike(others, catalog, other.value);
    }
    if best.Some? {
      OffersRanked(multiset(Offers(catalog)));
      if NamesDistinct(catalog) {
        SameNameSameOffer(best.value, other.value, catalog);
      }
    }
  }

  /** Nor does the order of an entry's regions show. */
  lemma RegionsIgnoreOrder(e: Entry, regions: seq<string>)
    requires Offered(e) && multiset(regions) == multiset(e.regions)
    ensures OfferingOf(e.(regions := regions)) == OfferingOf(e)
  {
    Sorting.SortedStringsSorted(regions);
    Sorting.SortedStringsSorted(e.regions);
    Sorting.StringsOrdered(multiset(regions));
    Sorting.SortedIsUnique(Sorting.StringLe, Sorting.SortedStrings(regions), Sorting.SortedStrings(e.regions));
  }
}

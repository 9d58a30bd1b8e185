/** Reviewed retention of recovery points: which deployments may go, and a restartable job that lets them go.

    The job deletes system generations, reinstalls the boot menu and selects the running system in it, releases
    garbage-collection roots, marks the deployments retired and collects garbage. A journal names the phase; every step
    may fail or be cut short.
 */
module StorageCleanup {
  import opened BootMenu
  import opened Effects
  import opened Wrappers

  type Id = nat
  type StorePath = string

  // ---------------------------------------------------------------------------------------------------------------
  // Selection
  // ---------------------------------------------------------------------------------------------------------------

  // A deployment record. An incomplete stage has no systems and is not good.
  datatype Record = Record(id: Id, createdAt: int, system: Option<StorePath>, previous: Option<StorePath>, good: bool,
                           failed: bool, retired: bool, roots: map<string, StorePath>)

  // What one look at the machine sees. `selected` are the deployments whose configuration is deployed or being edited.
  datatype Inventory = Inventory(records: seq<Record>, pins: set<Id>, current: StorePath, booted: StorePath,
                                 keepConfirmed: nat, cutoff: int, selected: set<Id>, links: map<nat, StorePath>)

  datatype RootName = RootName(id: Id, name: string)

  datatype Plan = Plan(candidates: set<Id>, roots: map<RootName, StorePath>, generations: map<nat, StorePath>)

  predicate Newer(a: Record, b: Record) {
    a.createdAt > b.createdAt || (a.createdAt == b.createdAt && a.id > b.id)
  }

  predicate IsConfirmed(r: Record) {
    r.good && !r.retired
  }

  function Insert(r: Record, sorted: seq<Record>): seq<Record> {
    if sorted == [] || !Newer(sorted[0], r) then [r] + sorted else [sorted[0]] + Insert(r, sorted[1..])
  }

  // The confirmed deployments, newest first.
  function Confirmed(records: seq<Record>): seq<Record> {
    if records == [] then []
    else if IsConfirmed(records[0]) then Insert(records[0], Confirmed(records[1..]))
    else Confirmed(records[1..])
  }

  // The confirmed deployment of the running system.
  function ActiveFrom(confirmed: seq<Record>, current: StorePath): Option<Record> {
    if confirmed == [] then None
    else if confirmed[0].system == Some(current) then Some(confirmed[0])
    else ActiveFrom(confirmed[1..], current)
  }

  function Active(v: Inventory): Option<Record> {
    ActiveFrom(Confirmed(v.records), v.current)
  }

  function KeptByCount(v: Inventory): seq<Record> {
    var confirmed := Confirmed(v.records);
    if |confirmed| <= v.keepConfirmed then confirmed else confirmed[..v.keepConfirmed]
  }

  predicate KeepsId(v: Inventory, id: Id) {
    || Active(v).None?
    || (exists r :: r in KeptByCount(v) && r.id == id)
    || id in v.pins
    || id == Active(v).value.id
  }

  predicate Eligible(v: Inventory, r: Record) {
    && !KeepsId(v, r.id)
    && r.createdAt < v.cutoff
    && r.good && !r.failed && !r.retired
    && r.id !in v.selected
    && r.system != Some(v.current) && r.system != Some(v.booted) && r.previous != Some(v.current)
  }

  // Systems that a kept deployment, or the running one, still needs.
  predicate Protected(v: Inventory, p: StorePath) {
    || p == v.current || p == v.booted
    || (Active(v).Some? && Active(v).value.previous == Some(p))
    || exists r :: r in v.records && !Eligible(v, r) && !r.retired && p in r.roots.Values
  }

  predicate Disposable(v: Inventory, p: StorePath) {
    !Protected(v, p) && exists r :: r in v.records && Eligible(v, r) && (r.system == Some(p) || r.previous == Some(p))
  }

  predicate DistinctIds(records: seq<Record>) {
    forall i, j :: 0 <= i < j < |records| ==> records[i].id != records[j].id
  }

  function CandidateIds(v: Inventory): set<Id> {
    set r | r in v.records && Eligible(v, r) :: r.id
  }

  // The roots of the chosen deployments.
  ghost predicate RootsOf(records: seq<Record>, chosen: set<Id>, roots: map<RootName, StorePath>) {
    && (forall n :: n in roots ==> n.id in chosen && exists r :: r in records && n.name in r.roots && n == RootName(r.id, n.name))
    && (forall r, name :: r in records && r.id in chosen && name in r.roots ==>
          RootName(r.id, name) in roots && roots[RootName(r.id, name)] == r.roots[name])
  }

  // The plan names the eligible deployments, their roots, and the generations of systems only they need.
  ghost predicate IsPlan(v: Inventory, plan: Plan) {
    && plan.candidates == CandidateIds(v)
    && RootsOf(v.records, plan.candidates, plan.roots)
    && plan.generations == map g | g in v.links && Disposable(v, v.links[g]) :: v.links[g]
  }

  function Named(r: Record): map<RootName, StorePath> {
    map name | name in r.roots :: RootName(r.id, name) := r.roots[name]
  }

  lemma AddRoots(records: seq<Record>, r: Record, chosen: set<Id>, roots: map<RootName, StorePath>)
    requires RootsOf(records, chosen, roots) && r.id !in chosen
    requires forall s :: s in records ==> s.id != r.id
    ensures RootsOf(records + [r], chosen + {r.id}, roots + Named(r))
  {
    var all, more := records + [r], roots + Named(r);
    assert r in all && forall s :: s in all <==> s in records || s == r;
    forall n | n in more
      ensures n.id in chosen + {r.id} && exists s :: s in all && n.name in s.roots && n == RootName(s.id, n.name)
    {
      if n !in Named(r) {
        var s :| s in records && n.name in s.roots && n == RootName(s.id, n.name);
        assert s in all;
      }
    }
    forall s, name | s in all && s.id in chosen + {r.id} && name in s.roots
      ensures RootName(s.id, name) in more && more[RootName(s.id, name)] == s.roots[name]
    {
      NamedIs(r, RootName(s.id, name));
    }
  }

  lemma NamedIs(r: Record, n: RootName)
    ensures n in Named(r) <==> n.id == r.id && n.name in r.roots
    ensures n in Named(r) ==> Named(r)[n] == r.roots[n.name]
  {
  }

  lemma SkipRoots(records: seq<Record>, r: Record, chosen: set<Id>, roots: map<RootName, StorePath>)
    requires RootsOf(records, chosen, roots) && r.id !in chosen
    ensures RootsOf(records + [r], chosen, roots)
  {
    assert forall s :: s in records + [r] <==> s in records || s == r;
  }

  lemma FreshId(records: seq<Record>, k: nat)
    requires DistinctIds(records) && k < |records|
    ensures forall s :: s in records[..k] ==> s.id != records[k].id
  {
  }

  method Snapshot(v: Inventory) returns (plan: Plan)
    requires DistinctIds(v.records)
    ensures IsPlan(v, plan)
  {
    var candidates: set<Id>, roots: map<RootName, StorePath> := {}, map[];
    for k := 0 to |v.records|
      invariant forall id :: id in candidates <==> exists i :: 0 <= i < k && v.records[i].id == id && Eligible(v, v.records[i])
      invariant RootsOf(v.records[..k], candidates, roots)
    {
      var r := v.records[k];
      FreshId(v.records, k);
      assert v.records[..k + 1] == v.records[..k] + [r];
      if Eligible(v, r) {
        AddRoots(v.records[..k], r, candidates, roots);
        candidates := candidates + {r.id};
        roots := roots + Named(r);
      } else {
        SkipRoots(v.records[..k], r, candidates, roots);
      }
    }
    assert v.records[..|v.records|] == v.records;
    assert candidates == CandidateIds(v);
    var generations := map g | g in v.links && Disposable(v, v.links[g]) :: v.links[g];
    plan := Plan(candidates, roots, generations);
  }

  ghost predicate NewestFirst(sorted: seq<Record>) {
    forall i, j :: 0 <= i < j < |sorted| ==> !Newer(sorted[j], sorted[i])
  }

  lemma NewestFirstCons(r: Record, rest: seq<Record>)
    requires NewestFirst(rest) && (rest == [] || !Newer(rest[0], r))
    ensures NewestFirst([r] + rest)
  {
  }

  lemma {:induction false} InsertIs(r: Record, sorted: seq<Record>)
    requires NewestFirst(sorted)
    ensures forall s :: s in Insert(r, sorted) <==> s == r || s in sorted
    ensures NewestFirst(Insert(r, sorted)) && Insert(r, sorted)[0] in {r} + (set s | s in sorted)
    ensures sorted != [] && Newer(sorted[0], r) ==> Insert(r, sorted)[0] == sorted[0]
  {
    if sorted != [] && Newer(sorted[0], r) {
      var rest := Insert(r, sorted[1..]);
      InsertIs(r, sorted[1..]);
      assert forall s :: s in sorted <==> s == sorted[0] || s in sorted[1..];
      NewestFirstCons(sorted[0], rest);
    } else {
      NewestFirstCons(r, sorted);
    }
  }

  lemma {:induction false} InsertKeepsDistinct(r: Record, sorted: seq<Record>)
    requires DistinctIds(sorted) && forall s :: s in sorted ==> s.id != r.id
    ensures DistinctIds(Insert(r, sorted)) && forall s :: s in Insert(r, sorted) ==> s == r || s in sorted
  {
    if sorted != [] && Newer(sorted[0], r) {
      var head, rest := sorted[0], sorted[1..];
      assert forall s :: s in rest ==> s in sorted;
      assert forall i :: 0 <= i < |rest| ==> rest[i] == sorted[i + 1];
      InsertKeepsDistinct(r, rest);
      DistinctCons(head, Insert(r, rest));
    } else {
      DistinctCons(r, sorted);
    }
  }

  lemma DistinctCons(r: Record, rest: seq<Record>)
    requires DistinctIds(rest) && forall s :: s in rest ==> s.id != r.id
    ensures DistinctIds([r] + rest)
  {
  }

  lemma {:induction false} ConfirmedIsDistinct(records: seq<Record>)
    requires DistinctIds(records)
    ensures DistinctIds(Confirmed(records))
  {
    if records != [] {
      var rest := records[1..];
      assert forall i :: 0 <= i < |rest| ==> rest[i] == records[i + 1];
      ConfirmedIsDistinct(rest);
      ConfirmedIs(rest);
      if IsConfirmed(records[0]) {
        InsertKeepsDistinct(records[0], Confirmed(rest));
      }
    }
  }

  lemma {:induction false} ConfirmedIs(records: seq<Record>)
    ensures NewestFirst(Confirmed(records))
    ensures forall r :: r in Confirmed(records) <==> r in records && IsConfirmed(r)
  {
    if records != [] {
      ConfirmedIs(records[1..]);
      if IsConfirmed(records[0]) {
        InsertIs(records[0], Confirmed(records[1..]));
      }
      assert forall r :: r in records <==> r == records[0] || r in records[1..];
    }
  }

  /** A candidate is a confirmed deployment with at least `keepConfirmed` newer confirmed deployments, none of which is
      a candidate. It is older than the cutoff, not pinned, not failed, not selected, and not the running system or its
      fallback. */
  lemma CandidatesAreOld(v: Inventory, plan: Plan, r: Record)
    requires IsPlan(v, plan) && DistinctIds(v.records) && r in v.records && r.id in plan.candidates
    ensures var kept := KeptByCount(v);
      && |kept| == v.keepConfirmed && DistinctIds(kept)
      && (forall i :: 0 <= i < |kept| ==> IsConfirmed(kept[i]) && !Newer(r, kept[i]) && kept[i].id !in plan.candidates)
    ensures IsConfirmed(r) && !r.failed && r.createdAt < v.cutoff && r.id !in v.pins && r.id !in v.selected
    ensures Active(v).Some? && r.id != Active(v).value.id
    ensures r.system != Some(v.current) && r.system != Some(v.booted) && r.previous != Some(v.current)
  {
    CandidateIsEligible(v, plan, r);
    KeptAreNewer(v, r);
    ConfirmedIsDistinct(v.records);
    forall i | 0 <= i < |KeptByCount(v)|
      ensures KeptByCount(v)[i].id !in plan.candidates
    {
      var kept := KeptByCount(v)[i];
      assert kept in KeptByCount(v) && KeepsId(v, kept.id);
      ConfirmedIs(v.records);
      assert kept in Confirmed(v.records);
      if kept.id in plan.candidates {
        CandidateIsEligible(v, plan, kept);
      }
    }
  }

  // The confirmed deployments that are newer than `r`: staged later, or at the same time with a greater identity.
  function NewerConfirmed(records: seq<Record>, r: Record): set<Id> {
    set n | n in records && n.good && !n.retired
      && (n.createdAt > r.createdAt || (n.createdAt == r.createdAt && n.id > r.id)) :: n.id
  }

  function IdsOf(records: seq<Record>): set<Id> {
    set r | r in records :: r.id
  }

  lemma {:induction false} DistinctCount(records: seq<Record>)
    requires DistinctIds(records)
    ensures |IdsOf(records)| == |records|
  {
    if records != [] {
      var front, last := records[..|records| - 1], records[|records| - 1];
      DistinctCount(front);
      assert records == front + [last];
      assert IdsOf(records) == IdsOf(front) + {last.id};
    }
  }

  // In the list of confirmed deployments, as many as are newer stand before each of them.
  lemma NewerStandBefore(v: Inventory, at: nat)
    requires DistinctIds(v.records) && at < |Confirmed(v.records)|
    ensures |NewerConfirmed(v.records, Confirmed(v.records)[at])| == at
  {
    var confirmed := Confirmed(v.records);
    var r, before := confirmed[at], confirmed[..at];
    ConfirmedIs(v.records);
    ConfirmedIsDistinct(v.records);
    assert DistinctIds(before);
    DistinctCount(before);
    forall n | n in v.records && IsConfirmed(n)
      ensures Newer(n, r) <==> n in before
    {
      var i :| 0 <= i < |confirmed| && confirmed[i] == n;
      if i < at {
        assert before[i] == n && !Newer(r, n);
      }
    }
    assert forall n :: n in before ==> n in confirmed;
    assert NewerConfirmed(v.records, r) == IdsOf(before);
  }

  lemma KeptByCountIff(v: Inventory, r: Record)
    requires DistinctIds(v.records) && r in v.records && IsConfirmed(r)
    ensures (exists k :: k in KeptByCount(v) && k.id == r.id) <==> |NewerConfirmed(v.records, r)| < v.keepConfirmed
  {
    var confirmed, kept := Confirmed(v.records), KeptByCount(v);
    ConfirmedIs(v.records);
    ConfirmedIsDistinct(v.records);
    var at :| 0 <= at < |confirmed| && confirmed[at] == r;
    NewerStandBefore(v, at);
    if at < |kept| {
      assert kept[at] == r && r in kept;
    }
    if k :| k in kept && k.id == r.id {
      var i :| 0 <= i < |kept| && kept[i] == k;
      assert confirmed[i] == k;
      assert i == at;
    }
  }

  lemma {:induction false} ActiveFromIs(confirmed: seq<Record>, current: StorePath)
    requires NewestFirst(confirmed) && DistinctIds(confirmed)
    ensures ActiveFrom(confirmed, current).None? <==> forall r :: r in confirmed ==> r.system != Some(current)
    ensures ActiveFrom(confirmed, current).Some? ==>
      var a := ActiveFrom(confirmed, current).value;
      && a in confirmed && a.system == Some(current)
      && forall r :: r in confirmed && r.system == Some(current) ==> r == a || Newer(a, r)
  {
    if confirmed != [] && confirmed[0].system != Some(current) {
      var rest := confirmed[1..];
      assert forall i :: 0 <= i < |rest| ==> rest[i] == confirmed[i + 1];
      ActiveFromIs(rest, current);
      assert forall r :: r in confirmed <==> r == confirmed[0] || r in rest;
    }
  }

  /** The active deployment is the newest confirmed one of the running system. */
  lemma ActiveIs(v: Inventory, a: Record)
    requires DistinctIds(v.records)
    ensures Active(v) == Some(a) <==>
      && a in v.records && a.good && !a.retired && a.system == Some(v.current)
      && forall r :: r in v.records && r.good && !r.retired && r.system == Some(v.current) ==>
           r == a || a.createdAt > r.createdAt || (a.createdAt == r.createdAt && a.id > r.id)
  {
    ConfirmedIs(v.records);
    ConfirmedIsDistinct(v.records);
    ActiveFromIs(Confirmed(v.records), v.current);
    assert forall r :: r in Confirmed(v.records) <==> r in v.records && r.good && !r.retired;
  }

  /** Exactly which deployments are candidates: with a confirmed deployment of the running system there, those that were
      confirmed and not rolled back, have at least `keepConfirmed` newer confirmed ones, are older than the cutoff, not
      pinned or selected, and refer neither to the running nor to the booted system. */
  lemma CandidatesAre(v: Inventory, plan: Plan, r: Record)
    requires IsPlan(v, plan) && DistinctIds(v.records) && r in v.records
    ensures r.id in plan.candidates <==>
      && (exists a :: a in v.records && a.good && !a.retired && a.system == Some(v.current))
      && r.good && !r.failed && !r.retired
      && |NewerConfirmed(v.records, r)| >= v.keepConfirmed
      && r.createdAt < v.cutoff && r.id !in v.pins && r.id !in v.selected
      && r.system != Some(v.current) && r.system != Some(v.booted) && r.previous != Some(v.current)
  {
    ConfirmedIs(v.records);
    ConfirmedIsDistinct(v.records);
    ActiveFromIs(Confirmed(v.records), v.current);
    if r.id in plan.candidates {
      CandidateIsEligible(v, plan, r);
      var a := Active(v).value;
      assert a in v.records && a.good && !a.retired && a.system == Some(v.current);
      KeptByCountIff(v, r);
    } else if IsConfirmed(r) {
      assert !Eligible(v, r);
      KeptByCountIff(v, r);
      if Active(v).Some? && r.id == Active(v).value.id {
        SameRecord(v.records, r, Active(v).value);
      }
    }
  }

  lemma SameRecord(records: seq<Record>, r: Record, s: Record)
    requires DistinctIds(records) && r in records && s in records && r.id == s.id
    ensures r == s
  {
    var i :| 0 <= i < |records| && records[i] == r;
    var j :| 0 <= j < |records| && records[j] == s;
    assert i == j;
  }

  /** Exactly which generations are planned: those of a system that a candidate refers to, but that is not running or
      booted, not the fallback of the active deployment, and no reference of a deployment that stays. */
  lemma GenerationsAre(v: Inventory, plan: Plan, g: nat)
    requires IsPlan(v, plan) && DistinctIds(v.records)
    ensures g in plan.generations ==> g in v.links && plan.generations[g] == v.links[g]
    ensures g in v.links ==>
      var p := v.links[g];
      g in plan.generations <==>
        && (exists r :: r in v.records && r.id in plan.candidates && (r.system == Some(p) || r.previous == Some(p)))
        && p != v.current && p != v.booted
        && (forall a :: a in v.records && a.good && !a.retired && a.system == Some(v.current)
              && (forall r :: r in v.records && r.good && !r.retired && r.system == Some(v.current) ==>
                    r == a || a.createdAt > r.createdAt || (a.createdAt == r.createdAt && a.id > r.id))
              ==> a.previous != Some(p))
        && (forall r :: r in v.records && r.id !in plan.candidates && !r.retired ==> p !in r.roots.Values)
  {
    if g in v.links {
      var p := v.links[g];
      forall r | r in v.records
        ensures Eligible(v, r) <==> r.id in plan.candidates
      {
        if r.id in plan.candidates {
          CandidateIsEligible(v, plan, r);
        }
      }
      forall a
        ensures Active(v) == Some(a) <==>
          && a in v.records && a.good && !a.retired && a.system == Some(v.current)
          && forall r :: r in v.records && r.good && !r.retired && r.system == Some(v.current) ==>
               r == a || a.createdAt > r.createdAt || (a.createdAt == r.createdAt && a.id > r.id)
      {
        ActiveIs(v, a);
      }
      assert g in plan.generations <==> Disposable(v, p);
    }
  }

  lemma KeptAreNewer(v: Inventory, r: Record)
    requires r in v.records && IsConfirmed(r) && r !in KeptByCount(v)
    ensures var kept := KeptByCount(v);
      |kept| == v.keepConfirmed && forall i :: 0 <= i < |kept| ==> IsConfirmed(kept[i]) && !Newer(r, kept[i])
  {
    ConfirmedIs(v.records);
    var confirmed, kept := Confirmed(v.records), KeptByCount(v);
    var at :| 0 <= at < |confirmed| && confirmed[at] == r;
    assert forall i :: 0 <= i < |kept| ==> kept[i] == confirmed[i] && kept[i] in kept && confirmed[i] in confirmed;
  }

  lemma CandidateIsEligible(v: Inventory, plan: Plan, r: Record)
    requires IsPlan(v, plan) && DistinctIds(v.records) && r in v.records && r.id in plan.candidates
    ensures Eligible(v, r)
  {
    var s :| s in v.records && s.id == r.id && Eligible(v, s);
    var i :| 0 <= i < |v.records| && v.records[i] == r;
    var j :| 0 <= j < |v.records| && v.records[j] == s;
    assert i == j;
  }

  /** No root of a deployment that is not a candidate is in the plan, and no generation of a system that such a
      deployment or the running system needs. */
  lemma PlanSparesKept(v: Inventory, plan: Plan, r: Record)
    requires IsPlan(v, plan) && DistinctIds(v.records) && r in v.records && r.id !in plan.candidates && !r.retired
    ensures forall name :: RootName(r.id, name) !in plan.roots
    ensures forall g :: g in plan.generations ==>
      plan.generations[g] !in r.roots.Values && plan.generations[g] != v.current && plan.generations[g] != v.booted
  {
    forall g | g in plan.generations
      ensures plan.generations[g] !in r.roots.Values
    {
      assert !Protected(v, plan.generations[g]);
      assert !Eligible(v, r);
    }
  }

  // What a review and the later request must have in common: everything the selection read except the clock.
  datatype Material = Material(records: seq<Record>, pins: set<Id>, keepConfirmed: nat, selected: set<Id>,
                               current: StorePath, booted: StorePath, candidates: set<Id>,
                               generations: map<nat, StorePath>)

  function MaterialOf(v: Inventory, plan: Plan): Material {
    Material(v.records, v.pins, v.keepConfirmed, v.selected, v.current, v.booted, plan.candidates, plan.generations)
  }

  ghost predicate Within<K(!new), V>(a: map<K, V>, b: map<K, V>) {
    forall k :: k in a ==> k in b && b[k] == a[k]
  }

  lemma WithinBoth<K(!new), V>(a: map<K, V>, b: map<K, V>)
    requires Within(a, b) && Within(b, a)
    ensures a == b
  {
    assert a.Keys == b.Keys;
  }

  lemma RootsWithin(records: seq<Record>, chosen: set<Id>, a: map<RootName, StorePath>, b: map<RootName, StorePath>)
    requires RootsOf(records, chosen, a) && RootsOf(records, chosen, b)
    ensures Within(a, b)
  {
    forall n | n in a
      ensures n in b && b[n] == a[n]
    {
      var r :| r in records && n.name in r.roots && n == RootName(r.id, n.name);
    }
  }

  lemma SameRoots(records: seq<Record>, chosen: set<Id>, a: map<RootName, StorePath>, b: map<RootName, StorePath>)
    requires RootsOf(records, chosen, a) && RootsOf(records, chosen, b)
    ensures a == b
  {
    RootsWithin(records, chosen, a, b);
    RootsWithin(records, chosen, b, a);
    WithinBoth(a, b);
  }

  // An automatic cleanup needs a confirmed deployment of the running system, another one a review that is not stale.
  predicate Accepted(v: Inventory, plan: Plan, reviewed: Option<(Inventory, Plan)>) {
    if reviewed.None? then Active(v).Some?
    else MaterialOf(reviewed.value.0, reviewed.value.1) == MaterialOf(v, plan)
  }

  /** A review that is not stale describes exactly the plan that is carried out. */
  lemma ReviewedIsCarriedOut(v: Inventory, plan: Plan, w: Inventory, reviewed: Plan)
    requires IsPlan(v, plan) && IsPlan(w, reviewed) && MaterialOf(v, plan) == MaterialOf(w, reviewed)
    ensures reviewed == plan
  {
    SameRoots(v.records, plan.candidates, plan.roots, reviewed.roots);
  }

  // ---------------------------------------------------------------------------------------------------------------
  // References
  // ---------------------------------------------------------------------------------------------------------------

  type References = map<StorePath, set<StorePath>>

  ghost predicate IsChain(refs: References, chain: seq<StorePath>) {
    chain != [] && forall i :: 0 <= i < |chain| - 1 ==> chain[i] in refs && chain[i + 1] in refs[chain[i]]
  }

  ghost predicate Reaches(refs: References, p: StorePath, q: StorePath) {
    exists chain :: IsChain(refs, chain) && chain[0] == p && chain[|chain| - 1] == q
  }

  // A path with everything it refers to, directly or not.
  ghost predicate Complete(refs: References, store: set<StorePath>, p: StorePath) {
    forall q :: Reaches(refs, p, q) ==> q in store
  }

  predicate IsClosed(refs: References, kept: set<StorePath>) {
    forall p :: p in kept && p in refs ==> refs[p] <= kept
  }

  /** A collector that keeps a closed set keeps everything its members refer to. */
  lemma ClosedKeepsReached(refs: References, kept: set<StorePath>, p: StorePath)
    requires IsClosed(refs, kept) && p in kept
    ensures Complete(refs, kept, p)
  {
    forall q | Reaches(refs, p, q)
      ensures q in kept
    {
      var chain :| IsChain(refs, chain) && chain[0] == p && chain[|chain| - 1] == q;
      ChainStays(refs, kept, chain);
    }
  }

  lemma {:induction false} ChainStays(refs: References, kept: set<StorePath>, chain: seq<StorePath>)
    requires IsClosed(refs, kept) && IsChain(refs, chain) && chain[0] in kept
    ensures chain[|chain| - 1] in kept
  {
    if |chain| > 1 {
      assert chain[1] in refs[chain[0]];
      assert IsChain(refs, chain[1..]) by {
        assert forall i :: 0 <= i < |chain| - 1 ==> chain[1..][i] == chain[i + 1];
      }
      ChainStays(refs, kept, chain[1..]);
    }
  }

  // ---------------------------------------------------------------------------------------------------------------
  // The restartable job
  // ---------------------------------------------------------------------------------------------------------------

  datatype Phase = Profiles | Roots | Gc

  datatype Job = Job(phase: Phase, plan: Plan, current: StorePath)

  // Durable state and the running system. `links` are the generations of the system profile, `roots` the references
  // of the deployments, and `held` all other garbage-collection roots. The boot menu lists systems, and `selected` is
  // the default one.
  datatype Machine = Machine(links: map<nat, StorePath>, roots: map<RootName, StorePath>, held: set<StorePath>,
                             retired: set<Id>, menu: set<StorePath>, selected: StorePath, store: set<StorePath>,
                             running: StorePath, booted: StorePath, journal: Option<Job>)

  // The systems of the generations with the highest numbers. Only those can be selected.
  function Listed(links: map<nat, StorePath>): set<StorePath> {
    set g | g in links && |Above(links, g)| < MENU_LIMIT :: links[g]
  }

  function Above(links: map<nat, StorePath>, g: nat): set<nat> {
    set h | h in links && h > g
  }

  /** A system is listed exactly if it has a generation that fewer than ten others follow. */
  lemma ListedIs(links: map<nat, StorePath>, p: StorePath)
    ensures p in Listed(links) <==>
      exists g, later :: g in links && links[g] == p && |later| < MENU_LIMIT && IsAbove(links, g, later)
  {
    forall g, later | g in links && IsAbove(links, g, later)
      ensures later == Above(links, g)
    {
    }
    if p in Listed(links) {
      var g :| g in links && links[g] == p && |Above(links, g)| < MENU_LIMIT;
      assert IsAbove(links, g, Above(links, g));
    }
  }

  ghost predicate IsAbove(links: map<nat, StorePath>, g: nat, later: set<nat>) {
    forall h :: h in later <==> h in links && h > g
  }

  /** A menu with room for all generations lists all of them, and any menu lists the newest one. */
  lemma SmallMenuListsAll(links: map<nat, StorePath>)
    ensures |links| <= MENU_LIMIT ==> Listed(links) == links.Values
    ensures forall g :: g in links && (forall h :: h in links ==> h <= g) ==> links[g] in Listed(links)
  {
    forall g | g in links
      ensures |links| <= MENU_LIMIT || (forall h :: h in links ==> h <= g) ==> links[g] in Listed(links)
    {
      if |links| <= MENU_LIMIT {
        SubsetIsSmaller(Above(links, g), links.Keys - {g});
      } else if forall h :: h in links ==> h <= g {
        assert Above(links, g) == {};
      }
    }
  }

  lemma {:induction false} SubsetIsSmaller(a: set<nat>, b: set<nat>)
    requires a <= b
    ensures |a| <= |b|
  {
    if a != {} {
      var x :| x in a;
      SubsetIsSmaller(a - {x}, b - {x});
    }
  }

  // What is left of the plan has the targets it was planned with.
  predicate Unchanged<K>(planned: map<K, StorePath>, now: map<K, StorePath>) {
    forall k :: k in planned && k in now ==> now[k] == planned[k]
  }

  // The first phase can end: the planned generations have their targets, and the newest others list the current system.
  predicate Droppable(m: Machine)
    requires m.journal.Some?
  {
    var job := m.journal.value;
    Unchanged(job.plan.generations, m.links) && job.current in Listed(m.links - job.plan.generations.Keys)
  }

  // A journaled cleanup finishes from the system that started it, once the generations are dropped only if that is
  // still one of the newest, and while nothing that it is to delete was changed.
  predicate CanFinish(m: Machine)
    requires m.journal.Some?
  {
    var job := m.journal.value;
    && m.running == m.booted == job.current
    && (job.phase == Profiles ==> Droppable(m))
    && (job.phase != Gc ==> Unchanged(job.plan.roots, m.roots))
  }

  function Anchors(m: Machine): set<StorePath> {
    m.links.Values + m.roots.Values + m.held + {m.running, m.booted}
  }

  // Finished phases are not repeated.
  predicate PhasesDone(job: Job, m: Machine) {
    && (job.phase != Profiles ==> m.links.Keys !! job.plan.generations.Keys && m.menu <= m.links.Values)
    && (job.phase == Gc ==> m.roots.Keys !! job.plan.roots.Keys && job.plan.candidates <= m.retired)
  }

  /** Whatever is anchored, and whatever the boot menu lists, is complete in the store. The system that started a
      cleanup stays a generation, so that the machine can return to it. */
  ghost predicate Inv(refs: References, m: Machine) {
    && (forall p :: p in Anchors(m) || p in m.menu ==> Complete(refs, m.store, p))
    && m.running == m.booted
    && (m.journal.None? ==> m.menu <= m.links.Values && m.running in m.menu)
    && (m.journal.Some? ==>
          var job := m.journal.value;
          && job.current in m.links.Values && job.current in m.menu && job.current !in job.plan.generations.Values
          && PhasesDone(job, m))
  }

  // What is left of the state after an uninterrupted cleanup.
  datatype Outcome = Outcome(links: map<nat, StorePath>, roots: map<RootName, StorePath>, retired: set<Id>)

  function Now(m: Machine): Outcome {
    Outcome(m.links, m.roots, m.retired)
  }

  function Goal(m: Machine, plan: Plan): Outcome {
    Outcome(m.links - plan.generations.Keys, m.roots - plan.roots.Keys, m.retired + plan.candidates)
  }

  ghost predicate Trimmed<K(!new)>(planned: map<K, StorePath>, before: map<K, StorePath>, after: map<K, StorePath>) {
    && Within(after, before)
    && (forall k :: k in before && k !in after ==> k in planned && planned[k] == before[k])
  }

  /** Only what the plan names, with the target it names, is gone. */
  ghost predicate Reduced(plan: Plan, m: Machine, n: Machine) {
    && Trimmed(plan.generations, m.links, n.links)
    && Trimmed(plan.roots, m.roots, n.roots)
    && m.retired <= n.retired <= m.retired + plan.candidates
    && n.held == m.held && n.store <= m.store
  }

  lemma ReducedTrans(plan: Plan, m: Machine, n: Machine, o: Machine)
    requires Reduced(plan, m, n) && Reduced(plan, n, o)
    ensures Reduced(plan, m, o)
  {
  }

  /** Progress does not move the goal. */
  lemma ReducedKeepsGoal(plan: Plan, m: Machine, n: Machine)
    requires Reduced(plan, m, n)
    ensures Goal(n, plan) == Goal(m, plan)
  {
    assert Goal(n, plan).links == Goal(m, plan).links;
    assert Goal(n, plan).roots == Goal(m, plan).roots;
  }

  // What any attempts leave of a journaled cleanup.
  ghost predicate Left(m: Machine, n: Machine)
    requires m.journal.Some?
  {
    var job := m.journal.value;
    && SameJob(m, n) && Reduced(job.plan, m, n) && Selects(m, n)
    && (n.journal.None? ==> Now(n) == Goal(m, job.plan))
    && (job.phase == Profiles && !Droppable(m) ==> n.journal == m.journal)
  }

  // Whether the first phase can end does not depend on how far it got.
  lemma DroppableStays(m: Machine, n: Machine)
    requires m.journal.Some? && n.journal == m.journal && Reduced(m.journal.value.plan, m, n)
    ensures Droppable(n) ==> Droppable(m)
  {
    var planned := m.journal.value.plan.generations;
    ReducedKeepsGoal(m.journal.value.plan, m, n);
    if Unchanged(planned, n.links) {
      forall g | g in planned && g in m.links
        ensures m.links[g] == planned[g]
      {
        assert g in n.links ==> n.links[g] == m.links[g];
      }
    }
  }

  lemma DoneIsGoal(job: Job, m: Machine)
    requires PhasesDone(job, m) && job.phase == Gc
    ensures Now(m) == Goal(m, job.plan)
  {
    assert m.links - job.plan.generations.Keys == m.links;
    assert m.roots - job.plan.roots.Keys == m.roots;
  }

  // The same job, perhaps in a later phase, or no job.
  predicate SameJob(m: Machine, n: Machine) {
    n.journal.Some? ==> m.journal.Some? && n.journal.value.(phase := m.journal.value.phase) == m.journal.value
  }

  // The first phase ends with the current system selected; nothing else selects one.
  predicate Selects(m: Machine, n: Machine)
    requires m.journal.Some?
  {
    var job := m.journal.value;
    && n.selected in {m.selected, job.current}
    && (job.phase != Profiles ==> n.selected == m.selected && (n.journal.Some? ==> n.journal.value.phase != Profiles))
    && (job.phase == Profiles && (n.journal.Some? ==> n.journal.value.phase != Profiles) ==>
          n.selected == job.current && job.current in Listed(m.links - job.plan.generations.Keys))
  }

  ghost predicate Advanced(m: Machine, n: Machine) {
    && m.journal.Some? && SameJob(m, n)
    && Reduced(m.journal.value.plan, m, n)
    && n.running == m.running && n.booted == m.booted
    && (n.journal.None? ==> Now(n) == Goal(m, m.journal.value.plan))
    && Selects(m, n)
  }

  lemma SelectsTrans(m: Machine, n: Machine, o: Machine)
    requires m.journal.Some? && SameJob(m, n) && Reduced(m.journal.value.plan, m, n) && Selects(m, n)
    requires if n.journal.None? then o.journal.None? && o.selected == n.selected else SameJob(n, o) && Selects(n, o)
    ensures Selects(m, o)
  {
    ReducedKeepsGoal(m.journal.value.plan, m, n);
  }

  lemma AdvancedTrans(m: Machine, n: Machine, o: Machine)
    requires Advanced(m, n) && Advanced(n, o)
    ensures Advanced(m, o)
  {
    ReducedTrans(m.journal.value.plan, m, n, o);
    ReducedKeepsGoal(m.journal.value.plan, m, n);
  }

  // The machine matches what the selection saw.
  predicate Seen(v: Inventory, m: Machine) {
    && v.links == m.links && v.current == m.running && v.booted == m.booted
    && (forall r, name :: r in v.records && name in r.roots ==>
          RootName(r.id, name) in m.roots && m.roots[RootName(r.id, name)] == r.roots[name])
  }

  // The references of a deployment and the generations of its systems and of the running one are in place, and
  // complete in the store.
  ghost predicate Survives(refs: References, v: Inventory, r: Record, n: Machine) {
    && (forall name :: name in r.roots ==>
          && RootName(r.id, name) in n.roots && n.roots[RootName(r.id, name)] == r.roots[name]
          && Complete(refs, n.store, r.roots[name]))
    && (forall g :: g in v.links && (v.links[g] in r.roots.Values || v.links[g] == v.current) ==>
          g in n.links && n.links[g] == v.links[g] && Complete(refs, n.store, v.links[g]))
  }

  /** However far a cleanup got, everything a retained deployment refers to is still in the store, its references are
      still in place, and so are the generations of its systems and of the running one. */
  lemma RetainedSurvives(refs: References, v: Inventory, plan: Plan, m: Machine, n: Machine, r: Record)
    requires IsPlan(v, plan) && DistinctIds(v.records) && Seen(v, m) && Reduced(plan, m, n) && Inv(refs, n)
    requires r in v.records && r.id !in plan.candidates && !r.retired
    ensures Survives(refs, v, r, n)
  {
    PlanSparesKept(v, plan, r);
    forall name | name in r.roots
      ensures RootName(r.id, name) in n.roots && n.roots[RootName(r.id, name)] == r.roots[name]
      ensures Complete(refs, n.store, r.roots[name])
    {
      assert RootName(r.id, name) in n.roots;
      assert n.roots[RootName(r.id, name)] in Anchors(n);
    }
    forall g | g in v.links && (v.links[g] in r.roots.Values || v.links[g] == v.current)
      ensures g in n.links && n.links[g] == v.links[g] && Complete(refs, n.store, v.links[g])
    {
      assert g in n.links;
      assert n.links[g] in Anchors(n);
    }
  }

  lemma EmptyPlan(v: Inventory, plan: Plan)
    requires IsPlan(v, plan) && plan.candidates == {}
    ensures plan.roots == map[] && plan.generations == map[]
  {
    assert forall r :: r in v.records && Eligible(v, r) ==> r.id in plan.candidates;
    assert plan.roots.Keys == {} && plan.generations.Keys == {};
  }

  function FirstJob(plan: Plan, current: StorePath): Job {
    Job(if plan.candidates == {} then Gc else Profiles, plan, current)
  }

  function Journaled(m: Machine, plan: Plan): Machine {
    m.(journal := Some(FirstJob(plan, m.running)))
  }

  lemma StartKeepsInv(refs: References, v: Inventory, plan: Plan, m: Machine)
    requires Inv(refs, m) && m.journal.None? && Seen(v, m) && IsPlan(v, plan)
    ensures Inv(refs, Journaled(m, plan))
  {
    if plan.candidates == {} {
      EmptyPlan(v, plan);
    }
    PlanSparesRunning(v, plan);
    assert Anchors(Journaled(m, plan)) == Anchors(m);
  }

  lemma PlanSparesRunning(v: Inventory, plan: Plan)
    requires IsPlan(v, plan)
    ensures v.current !in plan.generations.Values
  {
    assert forall g :: g in plan.generations ==> g in v.links && !Protected(v, plan.generations[g]);
  }

  class Cleanup {
    const refs: References
    // No effect fails and the power stays on.
    const undisturbed: bool
    var m: Machine

    constructor (refs: References, undisturbed: bool, m: Machine)
      requires Inv(refs, m)
      ensures this.refs == refs && this.undisturbed == undisturbed && this.m == m
    {
      this.refs, this.undisturbed, this.m := refs, undisturbed, m;
    }

    // One durable effect that would lead to the state `after`.
    method Effect(after: Machine) returns (r: Reply)
      requires Inv(refs, m) && Inv(refs, after)
      modifies this
      ensures Inv(refs, m) && (m == old(m) || m == after)
      ensures r.Ok? ==> m == after
      ensures undisturbed ==> r.Ok?
    {
      var happened: bool, reported: bool, powered: bool := *, *, *;
      happened, reported := happened || undisturbed, reported || undisturbed;
      r := if happened && reported then Ok else if powered then Failed else PowerLost;
      if happened {
        m := after;
      }
    }

    method Query() returns (r: Reply)
      ensures undisturbed ==> r.Ok?
    {
      var answered: bool, powered: bool := *, *;
      r := if answered || undisturbed then Ok else if powered then Failed else PowerLost;
    }

    /** Start a cleanup. One that was reviewed must still have the same material; an automatic one needs a confirmed
        deployment of the running system. */
    method Clean(v: Inventory, reviewed: Option<(Inventory, Plan)>) returns (r: Reply, plan: Plan)
      requires Inv(refs, m) && DistinctIds(v.records) && Seen(v, m)
      requires reviewed.Some? ==> IsPlan(reviewed.value.0, reviewed.value.1)
      modifies this
      ensures Inv(refs, m) && IsPlan(v, plan)
      ensures old(m.journal.Some?) ==> r.Failed? && m == old(m)
      ensures reviewed.Some? && plan != reviewed.value.1 ==> r.Failed? && m == old(m)
      ensures reviewed.Some? ==>
        var w := reviewed.value.0;
        (r.Failed? && m == old(m)) ||
        (w.records == v.records && w.pins == v.pins && w.keepConfirmed == v.keepConfirmed && w.selected == v.selected
         && w.current == v.current && w.booted == v.booted)
      ensures reviewed.None? && Active(v).None? ==> r.Failed? && m == old(m)
      ensures old(m.journal.None?) ==>
        && Reduced(plan, old(m), m)
        && (m.journal.None? ==> m == old(m) || Now(m) == Goal(old(m), plan))
        && (m.journal.Some? ==> m.journal.value.plan == plan && m.journal.value.current == old(m).running)
      ensures r.Ok? ==> m.journal.None? && Now(m) == Goal(old(m), plan)
      ensures r.Ok? ==> m.selected == if plan.candidates == {} then old(m).selected else old(m).running
      ensures undisturbed && old(m.journal.None?) && Accepted(v, plan, reviewed) && CanFinish(Journaled(old(m), plan)) ==>
        r.Ok?
    {
      plan := Snapshot(v);
      if m.journal.Some? || v.current != v.booted || !Accepted(v, plan, reviewed) {
        r := Failed;
        return;
      }
      if reviewed.Some? {
        ReviewedIsCarriedOut(v, plan, reviewed.value.0, reviewed.value.1);
      }
      StartKeepsInv(refs, v, plan, m);
      r := Effect(Journaled(m, plan));
      if r.Ok? {
        ghost var started := m;
        r := Resume();
        ReducedKeepsGoal(plan, old(m), started);
      }
    }

    /** Carry a journaled cleanup on. However it ends, it only advanced; a finished one reached the goal. Undisturbed it
        finishes exactly if it can. */
    method Resume() returns (r: Reply)
      requires Inv(refs, m)
      modifies this
      ensures Inv(refs, m)
      ensures old(m.journal.None?) ==> r.Ok? && m == old(m)
      ensures old(m.journal.Some?) ==> Advanced(old(m), m)
      ensures old(m.journal.Some?) && old(m.journal.value.current != m.running) ==> r.Failed? && m == old(m)
      ensures r.Ok? ==> m.journal.None?
      ensures old(m.journal.Some?) && !CanFinish(old(m)) ==> !r.Ok? && m.journal.Some?
      ensures undisturbed && old(m.journal.Some?) && CanFinish(old(m)) ==> r.Ok?
    {
      if m.journal.None? {
        return Ok;
      }
      if m.running != m.journal.value.current || m.booted != m.journal.value.current {
        return Failed;
      }
      :- Query();
      if m.journal.value.phase == Profiles {
        :- DeleteGenerations();
      }
      ghost var profiled := m;
      if m.journal.value.phase == Roots {
        r := ReleaseRoots();
        AdvancedTrans(old(m), profiled, m);
        :- r;
      }
      ghost var released := m;
      r := Collect();
      AdvancedTrans(old(m), released, m);
    }

    method DeleteGenerations() returns (r: Reply)
      requires Inv(refs, m) && m.journal.Some? && m.journal.value.phase == Profiles
      modifies this
      ensures Inv(refs, m) && m.journal.Some? && Advanced(old(m), m) && m.roots == old(m).roots
      ensures r.Ok? ==> m.journal.value.phase == Roots && Droppable(old(m))
      ensures !Droppable(old(m)) ==> m.journal == old(m).journal
      ensures undisturbed && Droppable(old(m)) ==> r.Ok?
    {
      r := DeletePlanned();
      if r.Ok? {
        ghost var deleted := m;
        ReducedKeepsGoal(m.journal.value.plan, old(m), m);
        assert Goal(m, m.journal.value.plan).links == m.links;
        r := ReinstallMenu();
        AdvancedTrans(old(m), deleted, m);
      }
    }

    method DeletePlanned() returns (r: Reply)
      requires Inv(refs, m) && m.journal.Some? && m.journal.value.phase == Profiles
      modifies this
      ensures Inv(refs, m) && m.journal == old(m).journal && Advanced(old(m), m) && m.roots == old(m).roots
      ensures r.Ok? ==> m.links.Keys !! m.journal.value.plan.generations.Keys
      ensures r.Ok? ==> Unchanged(m.journal.value.plan.generations, old(m).links)
      ensures undisturbed && Unchanged(m.journal.value.plan.generations, old(m).links) ==> r.Ok?
    {
      r := Ok;
      var planned := m.journal.value.plan.generations;
      var todo := planned.Keys;
      while todo != {}
        invariant r.Ok? && todo <= planned.Keys
        invariant Inv(refs, m) && m.journal == old(m).journal && Advanced(old(m), m) && m.roots == old(m).roots
        invariant m.links.Keys !! planned.Keys - todo
        invariant forall g :: g in planned && g !in todo && g in old(m).links ==> old(m).links[g] == planned[g]
      {
        var g :| g in todo;
        if g in m.links {
          if m.links[g] != planned[g] {
            return Failed;
          }
          ghost var before := m;
          r := DeleteGeneration(g);
          AdvancedTrans(old(m), before, m);
          if !r.Ok? {
            return;
          }
        }
        todo := todo - {g};
      }
    }

    method DeleteGeneration(g: nat) returns (r: Reply)
      requires Inv(refs, m) && m.journal.Some? && m.journal.value.phase == Profiles
      requires g in m.links && g in m.journal.value.plan.generations
      requires m.links[g] == m.journal.value.plan.generations[g]
      modifies this
      ensures Inv(refs, m) && Advanced(old(m), m) && m == old(m).(links := m.links)
      ensures m.links in {old(m).links, old(m).links - {g}}
      ensures r.Ok? ==> g !in m.links
      ensures undisturbed ==> r.Ok?
    {
      var kept := m.links - {g};
      var k :| k in m.links && m.links[k] == m.journal.value.current;
      assert k in kept && kept[k] == m.journal.value.current;
      assert Anchors(m.(links := kept)) <= Anchors(m);
      r := Effect(m.(links := kept));
    }

    // Reinstall the boot menu from the current system, select that system and journal it. The menu has an entry for the
    // system that installs it, but only a listed generation can be selected.
    method ReinstallMenu() returns (r: Reply)
      requires Inv(refs, m) && m.journal.Some? && m.journal.value.phase == Profiles
      requires m.links.Keys !! m.journal.value.plan.generations.Keys
      modifies this
      ensures Inv(refs, m) && m.journal.Some? && Advanced(old(m), m)
      ensures m == old(m).(menu := m.menu, selected := m.selected, journal := m.journal)
      ensures m.menu in {old(m).menu, Listed(m.links) + {m.journal.value.current}}
      ensures r.Ok? ==> m.menu == Listed(m.links) && m.selected == m.journal.value.current && m.selected in m.menu
      ensures r.Ok? ==> m.journal.value.phase == Roots
      ensures old(m).journal.value.current !in Listed(old(m).links) ==> !r.Ok? && m.journal == old(m).journal
      ensures undisturbed && old(m).journal.value.current in Listed(old(m).links) ==> r.Ok?
    {
      var job := m.journal.value;
      assert m.links - job.plan.generations.Keys == m.links;
      assert Listed(m.links) + {job.current} <= m.links.Values <= Anchors(m);
      :- Effect(m.(menu := Listed(m.links) + {job.current}));
      if job.current !in Listed(m.links) {
        return Failed;
      }
      :- Effect(m.(selected := job.current));
      r := Effect(m.(journal := Some(job.(phase := Roots))));
    }

    // Remove the planned references, mark the deployments retired and journal it.
    method ReleaseRoots() returns (r: Reply)
      requires Inv(refs, m) && m.journal.Some? && m.journal.value.phase == Roots
      modifies this
      ensures Inv(refs, m) && m.journal.Some? && Advanced(old(m), m)
      ensures r.Ok? ==> m.journal.value.phase == Gc && Unchanged(m.journal.value.plan.roots, old(m).roots)
      ensures undisturbed && Unchanged(m.journal.value.plan.roots, old(m).roots) ==> r.Ok?
    {
      r := ReleasePlanned();
      if r.Ok? {
        ghost var released := m;
        r := Retire();
        AdvancedTrans(old(m), released, m);
      }
    }

    method ReleasePlanned() returns (r: Reply)
      requires Inv(refs, m) && m.journal.Some? && m.journal.value.phase == Roots
      modifies this
      ensures Inv(refs, m) && m.journal == old(m).journal && Advanced(old(m), m)
      ensures r.Ok? ==> m.roots.Keys !! m.journal.value.plan.roots.Keys
      ensures r.Ok? ==> Unchanged(m.journal.value.plan.roots, old(m).roots)
      ensures undisturbed && Unchanged(m.journal.value.plan.roots, old(m).roots) ==> r.Ok?
    {
      r := Ok;
      var planned := m.journal.value.plan.roots;
      var todo := planned.Keys;
      while todo != {}
        invariant r.Ok? && todo <= planned.Keys
        invariant Inv(refs, m) && m.journal == old(m).journal && Advanced(old(m), m)
        invariant m.roots.Keys !! planned.Keys - todo
        invariant forall name :: name in planned && name !in todo && name in old(m).roots ==>
                    old(m).roots[name] == planned[name]
      {
        var name :| name in todo;
        if name in m.roots {
          if m.roots[name] != planned[name] {
            return Failed;
          }
          ghost var before := m;
          r := ReleaseRoot(name);
          AdvancedTrans(old(m), before, m);
          if !r.Ok? {
            return;
          }
        }
        todo := todo - {name};
      }
    }

    method ReleaseRoot(name: RootName) returns (r: Reply)
      requires Inv(refs, m) && m.journal.Some? && m.journal.value.phase == Roots
      requires name in m.roots && name in m.journal.value.plan.roots
      requires m.roots[name] == m.journal.value.plan.roots[name]
      modifies this
      ensures Inv(refs, m) && Advanced(old(m), m) && m == old(m).(roots := m.roots)
      ensures m.roots in {old(m).roots, old(m).roots - {name}}
      ensures r.Ok? ==> name !in m.roots
      ensures undisturbed ==> r.Ok?
    {
      assert Anchors(m.(roots := m.roots - {name})) <= Anchors(m);
      r := Effect(m.(roots := m.roots - {name}));
    }

    method Retire() returns (r: Reply)
      requires Inv(refs, m) && m.journal.Some? && m.journal.value.phase == Roots
      requires m.roots.Keys !! m.journal.value.plan.roots.Keys
      modifies this
      ensures Inv(refs, m) && m.journal.Some? && Advanced(old(m), m)
      ensures r.Ok? ==> m.journal.value.phase == Gc
      ensures undisturbed ==> r.Ok?
    {
      r := Ok;
      var job := m.journal.value;
      var todo := job.plan.candidates;
      while todo != {}
        invariant r.Ok? && todo <= job.plan.candidates
        invariant Inv(refs, m) && m == old(m).(retired := m.retired) && Advanced(old(m), m)
        invariant job.plan.candidates - todo <= m.retired
      {
        var id :| id in todo;
        assert Anchors(m.(retired := m.retired + {id})) == Anchors(m);
        :- Effect(m.(retired := m.retired + {id}));
        todo := todo - {id};
      }
      assert Anchors(m.(journal := Some(job.(phase := Gc)))) == Anchors(m);
      r := Effect(m.(journal := Some(job.(phase := Gc))));
    }

    /** Collect garbage, completely or not, and remove the journal. The collector keeps whatever an anchor reaches. */
    method Collect() returns (r: Reply)
      requires Inv(refs, m) && m.journal.Some? && m.journal.value.phase == Gc
      requires m.running == m.journal.value.current
      modifies this
      ensures Inv(refs, m) && Advanced(old(m), m)
      ensures r.Ok? ==> m.journal.None?
      ensures undisturbed ==> r.Ok?
    {
      ghost var job := m.journal.value;
      :- Query();
      :- Sweep();
      DoneIsGoal(job, m);
      assert Anchors(m.(journal := None)) == Anchors(m);
      r := Effect(m.(journal := None));
    }

    method Sweep() returns (r: Reply)
      requires Inv(refs, m) && m.journal.Some? && m.journal.value.phase == Gc
      requires m.running == m.journal.value.current
      modifies this
      ensures Inv(refs, m) && m == old(m).(store := m.store) && m.store <= old(m).store
      ensures undisturbed ==> r.Ok?
    {
      var kept: set<StorePath> := *;
      if !(Anchors(m) <= kept && IsClosed(refs, kept)) {
        r := Query();
        return;
      }
      var after := m.(store := m.store * kept);
      assert Anchors(after) == Anchors(m) && m.menu <= Anchors(m);
      forall p | p in Anchors(m)
        ensures Complete(refs, after.store, p)
      {
        ClosedKeepsReached(refs, kept, p);
      }
      r := Effect(after);
    }

    // Between two attempts the machine may be started with any entry of the boot menu.
    method Reboot(choice: StorePath)
      requires Inv(refs, m) && choice in m.menu
      modifies this
      ensures Inv(refs, m) && m == old(m).(running := choice, booted := choice)
    {
      m := m.(running := choice, booted := choice);
    }

    /** However often a cleanup is cut short, and whatever is booted in between, once the journal is gone the machine is
        where an uninterrupted cleanup would have left it; until then only planned deletions happened. */
    method ResumeRepeatedly(boots: seq<StorePath>)
      requires Inv(refs, m) && m.journal.Some?
      modifies this
      ensures Inv(refs, m)
      ensures Reduced(old(m).journal.value.plan, old(m), m)
      ensures m.journal.None? ==> Now(m) == Goal(old(m), old(m).journal.value.plan)
      ensures m.journal.Some? ==> SameJob(old(m), m) && m.journal.value.current in m.menu
      ensures Selects(old(m), m)
      // A first phase that cannot end blocks staging and rollback, which wait for the journal, for good.
      ensures old(m).journal.value.phase == Profiles && !Droppable(old(m)) ==> m.journal == old(m).journal
    {
      for k := 0 to |boots|
        invariant Inv(refs, m) && Left(old(m), m)
      {
        BootAndResume(old(m), boots[k]);
      }
    }

    // One more attempt to resume the cleanup journaled in the state `start`.
    method BootAndResume(ghost start: Machine, choice: StorePath)
      requires Inv(refs, m) && start.journal.Some? && Left(start, m)
      modifies this
      ensures Inv(refs, m) && Left(start, m)
    {
      if choice in m.menu {
        Reboot(choice);
      }
      ghost var plan, booted := start.journal.value.plan, m;
      var _ := Resume();
      SelectsTrans(start, booted, m);
      ReducedTrans(plan, start, booted, m);
      ReducedKeepsGoal(plan, start, booted);
      if m.journal == start.journal {
        DroppableStays(start, m);
      }
    }

    /** A cleanup, its interruptions and resumptions lose nothing of any deployment that was not a candidate. */
    method CleanWithInterruptions(v: Inventory, reviewed: Option<(Inventory, Plan)>, boots: seq<StorePath>)
      returns (plan: Plan)
      requires Inv(refs, m) && m.journal.None? && DistinctIds(v.records) && Seen(v, m)
      requires reviewed.Some? ==> IsPlan(reviewed.value.0, reviewed.value.1)
      modifies this
      ensures Inv(refs, m) && IsPlan(v, plan)
      ensures forall r :: r in v.records && r.id !in plan.candidates && !r.retired ==> Survives(refs, v, r, m)
      ensures m.journal.None? ==> Now(m) in {Now(old(m)), Goal(old(m), plan)}
    {
      var r;
      r, plan := Clean(v, reviewed);
      ghost var left := m;
      if m.journal.Some? {
        ResumeRepeatedly(boots);
        ReducedTrans(plan, old(m), left, m);
        ReducedKeepsGoal(plan, old(m), left);
      }
      forall r | r in v.records && r.id !in plan.candidates && !r.retired
        ensures Survives(refs, v, r, m)
      {
        RetainedSurvives(refs, v, plan, old(m), m, r);
      }
    }
  }
}

/** The review of an update: which packages two systems install, and the list of changes between them. */
module PackageReview {
  import opened Wrappers

  type Name = string
  type Path = string

  datatype Package = Package(name: Name, version: string, path: Path, description: string)

  // The packages of each name, as the inventory lists them.
  type Inventory = map<Name, seq<Package>>

  datatype Kind = Added | Removed | Rebuilt | Updated

  datatype Change = Change(name: Name, before: Option<string>, after: Option<string>, kind: Kind, oldPath: Option<Path>,
                           newPath: Option<Path>, description: string)

  // ---------------------------------------------------------------------------------------------------------------
  // Inventories
  // ---------------------------------------------------------------------------------------------------------------

  function Named(inventory: Inventory, name: Name): seq<Package> {
    if name in inventory then inventory[name] else []
  }

  function Add(inventory: Inventory, p: Package): Inventory {
    if p in Named(inventory, p.name) then inventory else inventory[p.name := Named(inventory, p.name) + [p]]
  }

  // The inventory of a list of packages: repeated entries count once.
  function Take(packages: seq<Package>): Inventory {
    if packages == [] then map[] else Add(Take(packages[..|packages| - 1]), packages[|packages| - 1])
  }

  ghost predicate Lists(inventory: Inventory, p: Package) {
    p.name in inventory && p in inventory[p.name]
  }

  // ---------------------------------------------------------------------------------------------------------------
  // Comparison
  // ---------------------------------------------------------------------------------------------------------------

  predicate Before(a: Package, b: Package) {
    TextBefore(a.version, b.version) || (a.version == b.version && TextBefore(a.path, b.path))
  }

  function Insert(p: Package, sorted: seq<Package>): seq<Package> {
    if sorted == [] || !Before(sorted[0], p) then [p] + sorted else [sorted[0]] + Insert(p, sorted[1..])
  }

  function Paths(packages: seq<Package>): set<Path> {
    set p | p in packages :: p.path
  }

  // The packages at other paths than these, ordered by version and path. Of two entries at one path the last counts.
  function Only(packages: seq<Package>, common: set<Path>): seq<Package> {
    if packages == [] then []
    else
      var p, rest := packages[0], packages[1..];
      if p.path in common || p.path in Paths(rest) then Only(rest, common) else Insert(p, Only(rest, common))
  }

  function ChangeOf(name: Name, left: Option<Package>, right: Option<Package>): Change
    requires left.Some? || right.Some?
  {
    Change(name, if left.Some? then Some(left.value.version) else None,
           if right.Some? then Some(right.value.version) else None,
           if left.None? then Added else if right.None? then Removed
           else if left.value.version == right.value.version then Rebuilt else Updated,
           if left.Some? then Some(left.value.path) else None, if right.Some? then Some(right.value.path) else None,
           if right.Some? then right.value.description else left.value.description)
  }

  // Pair the packages in order; the longer list goes on alone.
  function Pairs(name: Name, left: seq<Package>, right: seq<Package>): seq<Change> {
    if left == [] && right == [] then []
    else
      [ChangeOf(name, if left == [] then None else Some(left[0]), if right == [] then None else Some(right[0]))]
      + Pairs(name, if left == [] then [] else left[1..], if right == [] then [] else right[1..])
  }

  function CompareName(earlier: Inventory, next: Inventory, name: Name): seq<Change> {
    var before, after := Named(earlier, name), Named(next, name);
    var common := Paths(before) * Paths(after);
    Pairs(name, Only(before, common), Only(after, common))
  }

  function CompareNames(earlier: Inventory, next: Inventory, names: seq<Name>): seq<Change> {
    if names == [] then []
    else CompareNames(earlier, next, names[..|names| - 1]) + CompareName(earlier, next, names[|names| - 1])
  }

  // ---------------------------------------------------------------------------------------------------------------
  // What an inventory lists
  // ---------------------------------------------------------------------------------------------------------------

  // A path identifies one package.
  ghost predicate Identified(packages: seq<Package>) {
    forall p, q :: p in packages && q in packages && p.path == q.path ==> p == q
  }

  /** An inventory lists exactly the packages it was taken of, each under its own name. */
  lemma {:induction false} TakeIs(packages: seq<Package>)
    ensures forall p :: Lists(Take(packages), p) <==> p in packages
    ensures forall name, p :: name in Take(packages) && p in Take(packages)[name] ==> p.name == name
  {
    if packages != [] {
      var front, last := packages[..|packages| - 1], packages[|packages| - 1];
      TakeIs(front);
      AddIs(Take(front), last);
      assert packages == front + [last];
    }
  }

  lemma AddIs(inventory: Inventory, p: Package)
    ensures forall q :: Lists(Add(inventory, p), q) <==> Lists(inventory, q) || q == p
    ensures forall name, q :: name in Add(inventory, p) && q in Add(inventory, p)[name] ==>
      (name in inventory && q in inventory[name]) || (q == p && name == p.name)
  {
  }

  // ---------------------------------------------------------------------------------------------------------------
  // Sorting
  // ---------------------------------------------------------------------------------------------------------------

  ghost predicate Ordered(packages: seq<Package>) {
    forall i, j :: 0 <= i < j < |packages| ==> Before(packages[i], packages[j])
  }

  lemma BeforeTrans(a: Package, b: Package, c: Package)
    requires Before(a, b) && Before(b, c)
    ensures Before(a, c)
  {
    if TextBefore(a.version, b.version) && TextBefore(b.version, c.version) {
      TextBeforeTrans(a.version, b.version, c.version);
    } else if a.version == b.version == c.version {
      TextBeforeTrans(a.path, b.path, c.path);
    }
  }

  lemma OrderedCons(p: Package, rest: seq<Package>)
    requires Ordered(rest) && (rest == [] || Before(p, rest[0]))
    ensures Ordered([p] + rest)
  {
    forall j | 0 <= j < |rest|
      ensures Before(p, rest[j])
    {
      if j > 0 {
        BeforeTrans(p, rest[0], rest[j]);
      }
    }
  }

  lemma {:induction false} InsertIs(p: Package, sorted: seq<Package>)
    requires Ordered(sorted) && forall q :: q in sorted ==> q.path != p.path
    ensures forall q :: q in Insert(p, sorted) <==> q == p || q in sorted
    ensures Ordered(Insert(p, sorted)) && Insert(p, sorted) != []
    ensures Insert(p, sorted)[0] == p || (sorted != [] && Insert(p, sorted)[0] == sorted[0])
  {
    if sorted != [] && Before(sorted[0], p) {
      assert forall q :: q in sorted <==> q == sorted[0] || q in sorted[1..];
      InsertIs(p, sorted[1..]);
      OrderedCons(sorted[0], Insert(p, sorted[1..]));
    } else {
      if sorted != [] {
        TextBeforeIsTotal(p.version, sorted[0].version);
        TextBeforeIsTotal(p.path, sorted[0].path);
      }
      OrderedCons(p, sorted);
    }
  }

  lemma PathsCons(p: Package, rest: seq<Package>)
    ensures Paths([p] + rest) == {p.path} + Paths(rest)
  {
    assert forall q :: q in [p] + rest <==> q == p || q in rest;
  }

  /** The packages to pair are ordered by version and path, and are those at paths that are not common. */
  lemma {:induction false} OnlyIs(packages: seq<Package>, common: set<Path>)
    ensures Ordered(Only(packages, common))
    ensures forall i, j :: 0 <= i < j < |Only(packages, common)| ==>
      var p, q := Only(packages, common)[i], Only(packages, common)[j];
      TextBefore(p.version, q.version) || (p.version == q.version && TextBefore(p.path, q.path))
    ensures Paths(Only(packages, common)) == Paths(packages) - common
    ensures forall p :: p in Only(packages, common) ==> p in packages
  {
    if packages != [] {
      var p, rest := packages[0], packages[1..];
      OnlyIs(rest, common);
      assert packages == [p] + rest;
      PathsCons(p, rest);
      if !(p.path in common || p.path in Paths(rest)) {
        InsertKeepsPaths(p, Only(rest, common));
      }
    }
  }

  lemma InsertKeepsPaths(p: Package, sorted: seq<Package>)
    requires Ordered(sorted) && p.path !in Paths(sorted)
    ensures forall q :: q in Insert(p, sorted) <==> q == p || q in sorted
    ensures Ordered(Insert(p, sorted)) && Paths(Insert(p, sorted)) == {p.path} + Paths(sorted)
  {
    assert forall q :: q in sorted ==> q.path in Paths(sorted);
    InsertIs(p, sorted);
  }

  // ---------------------------------------------------------------------------------------------------------------
  // What a change says
  // ---------------------------------------------------------------------------------------------------------------

  // The entry is the last one at its path.
  ghost predicate LastEntry(packages: seq<Package>, p: Package) {
    exists i :: 0 <= i < |packages| && packages[i] == p && p.path !in Paths(packages[i + 1..])
  }

  lemma LastEntryCons(first: Package, rest: seq<Package>, p: Package)
    ensures LastEntry([first] + rest, p) <==> LastEntry(rest, p) || (p == first && p.path !in Paths(rest))
  {
    var packages := [first] + rest;
    assert packages[0] == first && packages[0 + 1..] == rest;
    if LastEntry(rest, p) {
      var i :| 0 <= i < |rest| && rest[i] == p && p.path !in Paths(rest[i + 1..]);
      assert packages[i + 1] == p && packages[i + 1 + 1..] == rest[i + 1..];
    }
    if LastEntry(packages, p) {
      var i :| 0 <= i < |packages| && packages[i] == p && p.path !in Paths(packages[i + 1..]);
      if i > 0 {
        assert rest[i - 1] == p && packages[i + 1..] == rest[i - 1 + 1..];
      }
    }
  }

  /** The packages to pair are the last entries at uncommon paths. */
  lemma {:induction false} OnlyIsLast(packages: seq<Package>, common: set<Path>, p: Package)
    ensures p in Only(packages, common) <==> p.path !in common && LastEntry(packages, p)
  {
    if packages != [] {
      var first, rest := packages[0], packages[1..];
      OnlyIsLast(rest, common, p);
      OnlyIs(rest, common);
      assert packages == [first] + rest;
      LastEntryCons(first, rest, p);
      if !(first.path in common || first.path in Paths(rest)) {
        InsertKeepsPaths(first, Only(rest, common));
      }
    }
  }

  lemma {:induction false} OnlyWithin(packages: seq<Package>, common: set<Path>, others: set<Path>)
    requires forall p :: p in packages ==> (p.path in common <==> p.path in others)
    ensures Only(packages, common) == Only(packages, others)
  {
    if packages != [] {
      assert packages[0] in packages && forall p :: p in packages[1..] ==> p in packages;
      OnlyWithin(packages[1..], common, others);
    }
  }

  // The i-th change: what was installed at the i-th old path and what is at the i-th new one.
  ghost predicate Describes(c: Change, name: Name, left: seq<Package>, right: seq<Package>, i: nat) {
    && c.name == name && (i < |left| || i < |right|)
    && (i < |left| ==> c.oldPath == Some(left[i].path) && c.before == Some(left[i].version))
    && (i >= |left| ==> c.oldPath == None && c.before == None && c.kind == Added)
    && (i < |right| ==>
          c.newPath == Some(right[i].path) && c.after == Some(right[i].version) && c.description == right[i].description)
    && (i >= |right| ==> c.newPath == None && c.after == None && c.kind == Removed && c.description == left[i].description)
    && (i < |left| && i < |right| ==> c.kind == if left[i].version == right[i].version then Rebuilt else Updated)
  }

  lemma {:induction false} PairsAre(name: Name, left: seq<Package>, right: seq<Package>)
    ensures |Pairs(name, left, right)| == if |left| > |right| then |left| else |right|
    ensures forall i :: 0 <= i < |Pairs(name, left, right)| ==> Describes(Pairs(name, left, right)[i], name, left, right, i)
    decreases |left| + |right|
  {
    if left != [] || right != [] {
      var l, r := if left == [] then [] else left[1..], if right == [] then [] else right[1..];
      PairsAre(name, l, r);
      var rest, all := Pairs(name, l, r), Pairs(name, left, right);
      forall i | 0 <= i < |all|
        ensures Describes(all[i], name, left, right, i)
      {
        assert i > 0 ==> all[i] == rest[i - 1] && Describes(rest[i - 1], name, l, r, i - 1);
      }
    }
  }

  /** The changes of a name pair what is at uncommon paths in order; same versions are rebuilt, others updated, and the
      rest of the longer list is added or removed. */
  lemma NameChangesAre(earlier: Inventory, next: Inventory, name: Name)
    ensures var before, after := Named(earlier, name), Named(next, name);
      var left, right := Only(before, Paths(after)), Only(after, Paths(before));
      && |CompareName(earlier, next, name)| == (if |left| > |right| then |left| else |right|)
      && forall i :: 0 <= i < |CompareName(earlier, next, name)| ==>
           Describes(CompareName(earlier, next, name)[i], name, left, right, i)
  {
    var before, after := Named(earlier, name), Named(next, name);
    OnlyWithin(before, Paths(before) * Paths(after), Paths(after));
    OnlyWithin(after, Paths(before) * Paths(after), Paths(before));
    PairsAre(name, Only(before, Paths(after)), Only(after, Paths(before)));
  }

  /** The changes follow the order of the names. */
  lemma {:induction false} ChangesFollowNames(earlier: Inventory, next: Inventory, first: seq<Name>, rest: seq<Name>)
    ensures CompareNames(earlier, next, first + rest)
      == CompareNames(earlier, next, first) + CompareNames(earlier, next, rest)
    ensures |first| == 1 ==> CompareNames(earlier, next, first) == CompareName(earlier, next, first[0])
  {
    if rest == [] {
      assert first + rest == first;
    } else {
      var front, last := rest[..|rest| - 1], rest[|rest| - 1];
      assert (first + rest)[..|first + rest| - 1] == first + front;
      ChangesFollowNames(earlier, next, first, front);
      Associate(CompareNames(earlier, next, first), CompareNames(earlier, next, front), CompareName(earlier, next, last));
    }
    if |first| == 1 {
      assert first[..0] == [];
    }
  }

  // ---------------------------------------------------------------------------------------------------------------
  // Each path once
  // ---------------------------------------------------------------------------------------------------------------

  function CountPath(packages: seq<Package>, path: Path): nat {
    if packages == [] then 0 else (if packages[0].path == path then 1 else 0) + CountPath(packages[1..], path)
  }

  function CountOld(changes: seq<Change>, path: Path): nat {
    if changes == [] then 0 else (if changes[0].oldPath == Some(path) then 1 else 0) + CountOld(changes[1..], path)
  }

  function CountNew(changes: seq<Change>, path: Path): nat {
    if changes == [] then 0 else (if changes[0].newPath == Some(path) then 1 else 0) + CountNew(changes[1..], path)
  }

  lemma {:induction false} CountSum(a: seq<Change>, b: seq<Change>, path: Path)
    ensures CountOld(a + b, path) == CountOld(a, path) + CountOld(b, path)
    ensures CountNew(a + b, path) == CountNew(a, path) + CountNew(b, path)
  {
    if a == [] {
      assert a + b == b;
    } else {
      assert (a + b)[1..] == a[1..] + b;
      CountSum(a[1..], b, path);
    }
  }

  lemma {:induction false} PairsCount(name: Name, left: seq<Package>, right: seq<Package>, path: Path)
    ensures CountOld(Pairs(name, left, right), path) == CountPath(left, path)
    ensures CountNew(Pairs(name, left, right), path) == CountPath(right, path)
    decreases |left| + |right|
  {
    if left != [] || right != [] {
      PairsCount(name, if left == [] then [] else left[1..], if right == [] then [] else right[1..], path);
      assert Pairs(name, left, right)[1..]
        == Pairs(name, if left == [] then [] else left[1..], if right == [] then [] else right[1..]);
    }
  }

  lemma {:induction false} InsertCount(p: Package, sorted: seq<Package>, path: Path)
    ensures CountPath(Insert(p, sorted), path) == CountPath(sorted, path) + if p.path == path then 1 else 0
  {
    if sorted == [] || !Before(sorted[0], p) {
      assert ([p] + sorted)[1..] == sorted;
    } else {
      InsertCount(p, sorted[1..], path);
      assert ([sorted[0]] + Insert(p, sorted[1..]))[1..] == Insert(p, sorted[1..]);
    }
  }

  lemma {:induction false} OnlyCount(packages: seq<Package>, common: set<Path>, path: Path)
    ensures CountPath(Only(packages, common), path) == if path in Paths(packages) - common then 1 else 0
  {
    if packages != [] {
      var p, rest := packages[0], packages[1..];
      OnlyCount(rest, common, path);
      assert forall q :: q in packages <==> q == p || q in rest;
      assert Paths(packages) == Paths(rest) + {p.path};
      InsertCount(p, Only(rest, common), path);
    }
  }

  lemma NameCount(earlier: Inventory, next: Inventory, name: Name, path: Path)
    ensures var before, after := Paths(Named(earlier, name)), Paths(Named(next, name));
      && CountOld(CompareName(earlier, next, name), path) == (if path in before - after then 1 else 0)
      && CountNew(CompareName(earlier, next, name), path) == (if path in after - before then 1 else 0)
  {
    var before, after := Named(earlier, name), Named(next, name);
    var common := Paths(before) * Paths(after);
    PairsCount(name, Only(before, common), Only(after, common), path);
    OnlyCount(before, common, path);
    OnlyCount(after, common, path);
  }

  // Every name of either inventory, once.
  ghost predicate Covers(names: seq<Name>, earlier: Inventory, next: Inventory) {
    && (forall i, j :: 0 <= i < j < |names| ==> names[i] != names[j])
    && (forall name :: name in names <==> name in earlier || name in next)
  }

  // At most one of the names has the path, and this one is it.
  ghost predicate OnlyAt(inventory: Inventory, path: Path, owner: Name) {
    forall name :: path in Paths(Named(inventory, name)) ==> name == owner
  }

  lemma {:induction false} NamesCount(earlier: Inventory, next: Inventory, names: seq<Name>, path: Path, owner: Name)
    requires forall i, j :: 0 <= i < j < |names| ==> names[i] != names[j]
    requires OnlyAt(earlier, path, owner) && OnlyAt(next, path, owner)
    ensures var before, after := Paths(Named(earlier, owner)), Paths(Named(next, owner));
      && CountOld(CompareNames(earlier, next, names), path)
        == (if owner in names && path in before - after then 1 else 0)
      && CountNew(CompareNames(earlier, next, names), path)
        == (if owner in names && path in after - before then 1 else 0)
  {
    if names != [] {
      var front, last := names[..|names| - 1], names[|names| - 1];
      assert names == front + [last];
      NamesCount(earlier, next, front, path, owner);
      NameCount(earlier, next, last, path);
      CountSum(CompareNames(earlier, next, front), CompareName(earlier, next, last), path);
    }
  }

  lemma ListedPath(packages: seq<Package>, name: Name, path: Path)
    ensures path in Paths(Named(Take(packages), name)) <==>
      exists p :: p in packages && p.name == name && p.path == path
  {
    TakeIs(packages);
    if path in Paths(Named(Take(packages), name)) {
      var p :| p in Named(Take(packages), name) && p.path == path;
      assert Lists(Take(packages), p);
    }
    forall p | p in packages && p.name == name && p.path == path
      ensures path in Paths(Named(Take(packages), name))
    {
      assert Lists(Take(packages), p);
    }
  }

  lemma OwnerIs(packages: seq<Package>, all: seq<Package>, p: Package)
    requires Identified(all) && p in all && forall q :: q in packages ==> q in all
    ensures OnlyAt(Take(packages), p.path, p.name)
    ensures p.path in Paths(Named(Take(packages), p.name)) <==> p.path in Paths(packages)
  {
    forall name | p.path in Paths(Named(Take(packages), name))
      ensures name == p.name
    {
      ListedPath(packages, name, p.path);
    }
    ListedPath(packages, p.name, p.path);
    forall q | q in packages && q.path == p.path
      ensures q == p
    {
    }
  }

  /** When a path identifies one package, every path of only one system occurs exactly once in the changes, on its
      side, and no other path does. */
  lemma PathsOccurOnce(before: seq<Package>, after: seq<Package>, names: seq<Name>, path: Path)
    requires Identified(before + after) && Covers(names, Take(before), Take(after))
    ensures var changes := CompareNames(Take(before), Take(after), names);
      && CountOld(changes, path) == (if path in Paths(before) - Paths(after) then 1 else 0)
      && CountNew(changes, path) == (if path in Paths(after) - Paths(before) then 1 else 0)
  {
    if path in Paths(before) + Paths(after) {
      var p :| p in before + after && p.path == path;
      OwnerIs(before, before + after, p);
      OwnerIs(after, before + after, p);
      NamesCount(Take(before), Take(after), names, path, p.name);
    } else {
      forall name
        ensures path !in Paths(Named(Take(before), name)) && path !in Paths(Named(Take(after), name))
      {
        ListedPath(before, name, path);
        ListedPath(after, name, path);
      }
      NamesCount(Take(before), Take(after), names, path, "");
    }
  }

  // ---------------------------------------------------------------------------------------------------------------
  // Applying the changes
  // ---------------------------------------------------------------------------------------------------------------

  predicate Introduces(c: Change, p: Package) {
    c.newPath == Some(p.path) && c.after == Some(p.version) && c.name == p.name && c.description == p.description
  }

  // The changes remove the old paths, and add what they introduce.
  ghost predicate Patched(earlier: seq<Package>, changes: seq<Change>, p: Package) {
    (p in earlier && CountOld(changes, p.path) == 0) || exists c :: c in changes && Introduces(c, p)
  }

  lemma {:induction false} PairsIntroduce(name: Name, left: seq<Package>, right: seq<Package>, p: Package)
    requires p.name == name && forall q :: q in right ==> q.name == name
    ensures (exists c :: c in Pairs(name, left, right) && Introduces(c, p)) <==> p in right
    decreases |left| + |right|
  {
    if left != [] || right != [] {
      var l, r := if left == [] then [] else left[1..], if right == [] then [] else right[1..];
      PairsIntroduce(name, l, r, p);
      var head := Pairs(name, left, right)[0];
      assert Pairs(name, left, right) == [head] + Pairs(name, l, r);
      assert right != [] ==> right == [right[0]] + r;
      assert Introduces(head, p) <==> right != [] && right[0] == p;
    }
  }

  lemma {:induction false} PairsKeepName(name: Name, left: seq<Package>, right: seq<Package>)
    ensures forall c :: c in Pairs(name, left, right) ==> c.name == name
    decreases |left| + |right|
  {
    if left != [] || right != [] {
      PairsKeepName(name, if left == [] then [] else left[1..], if right == [] then [] else right[1..]);
    }
  }

  lemma {:induction false} NamesIntroduce(earlier: Inventory, next: Inventory, names: seq<Name>, p: Package)
    requires p.name in names
    requires forall q :: q in Named(next, p.name) ==> q.name == p.name
    ensures (exists c :: c in CompareNames(earlier, next, names) && Introduces(c, p))
      <==> (exists c :: c in CompareName(earlier, next, p.name) && Introduces(c, p))
  {
    var front, last := names[..|names| - 1], names[|names| - 1];
    var before, after := Named(earlier, last), Named(next, last);
    PairsKeepName(last, Only(before, Paths(before) * Paths(after)), Only(after, Paths(before) * Paths(after)));
    assert names == front + [last];
    if p.name in front {
      NamesIntroduce(earlier, next, front, p);
    } else {
      NotIntroduced(earlier, next, front, p);
    }
  }

  lemma {:induction false} NotIntroduced(earlier: Inventory, next: Inventory, names: seq<Name>, p: Package)
    requires p.name !in names
    ensures forall c :: c in CompareNames(earlier, next, names) ==> !Introduces(c, p)
  {
    if names != [] {
      var front, last := names[..|names| - 1], names[|names| - 1];
      assert names == front + [last];
      var before, after := Named(earlier, last), Named(next, last);
      PairsKeepName(last, Only(before, Paths(before) * Paths(after)), Only(after, Paths(before) * Paths(after)));
      NotIntroduced(earlier, next, front, p);
    }
  }

  /** Applying the changes to the old packages yields exactly the new ones. */
  lemma ChangesRebuildNext(before: seq<Package>, after: seq<Package>, names: seq<Name>, p: Package)
    requires Identified(before + after) && Covers(names, Take(before), Take(after))
    ensures Patched(before, CompareNames(Take(before), Take(after), names), p) <==> p in after
  {
    var earlier, next := Take(before), Take(after);
    PathsOccurOnce(before, after, names, p.path);
    TakeIs(before);
    TakeIs(after);
    if p.name in names {
      var common := Paths(Named(earlier, p.name)) * Paths(Named(next, p.name));
      var right := Only(Named(next, p.name), common);
      OnlyIs(Named(next, p.name), common);
      PairsIntroduce(p.name, Only(Named(earlier, p.name), common), right, p);
      NamesIntroduce(earlier, next, names, p);
      IntroducedIsNew(before, after, p, right);
    } else {
      NotIntroduced(earlier, next, names, p);
      assert p in before ==> Lists(earlier, p);
      assert p in after ==> Lists(next, p);
    }
  }

  lemma IntroducedIsNew(before: seq<Package>, after: seq<Package>, p: Package, right: seq<Package>)
    requires Identified(before + after)
    requires var earlier, next := Take(before), Take(after);
      right == Only(Named(next, p.name), Paths(Named(earlier, p.name)) * Paths(Named(next, p.name)))
    ensures p in right <==> p in after && p.path !in Paths(before)
    ensures p in before && p.path in Paths(after) ==> p in after
  {
    TakeIs(after);
    OnlyIs(Named(Take(after), p.name), Paths(Named(Take(before), p.name)) * Paths(Named(Take(after), p.name)));
    if p in after {
      assert Lists(Take(after), p);
      OwnerIs(before, before + after, p);
      OwnerIs(after, before + after, p);
      assert p in Named(Take(after), p.name);
      if p.path !in Paths(before) {
        assert p.path in Paths(right);
        var q :| q in right && q.path == p.path;
        assert Lists(Take(after), q);
      }
    }
    if p in right {
      assert Lists(Take(after), p);
      assert p.path in Paths(right);
    }
  }

  // ---------------------------------------------------------------------------------------------------------------
  // Symmetry
  // ---------------------------------------------------------------------------------------------------------------

  // The same change seen from the other system. The description is not compared: it is the newer package's.
  function Mirrored(c: Change): Change {
    Change(c.name, c.after, c.before,
           match c.kind { case Added => Removed case Removed => Added case Rebuilt => Rebuilt case Updated => Updated },
           c.newPath, c.oldPath, "")
  }

  function MirroredAll(changes: seq<Change>): seq<Change> {
    if changes == [] then [] else [Mirrored(changes[0])] + MirroredAll(changes[1..])
  }

  function Undescribed(changes: seq<Change>): seq<Change> {
    if changes == [] then [] else [changes[0].(description := "")] + Undescribed(changes[1..])
  }

  lemma {:induction false} MirroredSum(a: seq<Change>, b: seq<Change>)
    ensures MirroredAll(a + b) == MirroredAll(a) + MirroredAll(b)
  {
    if a == [] {
      assert a + b == b;
    } else {
      assert (a + b)[0] == a[0] && (a + b)[1..] == a[1..] + b;
      MirroredSum(a[1..], b);
      assert MirroredAll(a + b) == [Mirrored(a[0])] + (MirroredAll(a[1..]) + MirroredAll(b));
      Associate([Mirrored(a[0])], MirroredAll(a[1..]), MirroredAll(b));
    }
  }

  lemma {:induction false} UndescribedSum(a: seq<Change>, b: seq<Change>)
    ensures Undescribed(a + b) == Undescribed(a) + Undescribed(b)
  {
    if a == [] {
      assert a + b == b;
    } else {
      assert (a + b)[0] == a[0] && (a + b)[1..] == a[1..] + b;
      UndescribedSum(a[1..], b);
      assert Undescribed(a + b) == [a[0].(description := "")] + (Undescribed(a[1..]) + Undescribed(b));
      Associate([a[0].(description := "")], Undescribed(a[1..]), Undescribed(b));
    }
  }

  lemma Associate(a: seq<Change>, b: seq<Change>, c: seq<Change>)
    ensures a + (b + c) == a + b + c
  {
  }

  lemma {:induction false} PairsMirror(name: Name, left: seq<Package>, right: seq<Package>)
    ensures Undescribed(Pairs(name, right, left)) == MirroredAll(Pairs(name, left, right))
    decreases |left| + |right|
  {
    if left != [] || right != [] {
      var l, r := if left == [] then [] else left[1..], if right == [] then [] else right[1..];
      PairsMirror(name, l, r);
      assert Pairs(name, left, right)[1..] == Pairs(name, l, r);
      assert Pairs(name, right, left)[1..] == Pairs(name, r, l);
    }
  }

  /** Comparing in the other direction mirrors the changes. */
  lemma {:induction false} ComparingMirrors(earlier: Inventory, next: Inventory, names: seq<Name>)
    ensures Undescribed(CompareNames(next, earlier, names)) == MirroredAll(CompareNames(earlier, next, names))
  {
    if names != [] {
      var front, last := names[..|names| - 1], names[|names| - 1];
      ComparingMirrors(earlier, next, front);
      var before, after := Named(earlier, last), Named(next, last);
      var common := Paths(before) * Paths(after);
      assert Paths(after) * Paths(before) == common;
      PairsMirror(last, Only(before, common), Only(after, common));
      MirroredSum(CompareNames(earlier, next, front), CompareName(earlier, next, last));
      UndescribedSum(CompareNames(next, earlier, front), CompareName(next, earlier, last));
    }
  }

  /** A system does not differ from itself. */
  lemma {:induction false} NoChangeToItself(inventory: Inventory, names: seq<Name>)
    ensures CompareNames(inventory, inventory, names) == []
  {
    if names != [] {
      NoChangeToItself(inventory, names[..|names| - 1]);
      var packages := Named(inventory, names[|names| - 1]);
      OnlyIs(packages, Paths(packages) * Paths(packages));
      var only := Only(packages, Paths(packages) * Paths(packages));
      assert only != [] ==> only[0].path in Paths(only);
    }
  }

  // ---------------------------------------------------------------------------------------------------------------
  // The loops
  // ---------------------------------------------------------------------------------------------------------------

  method ReadInventory(packages: seq<Package>) returns (inventory: Inventory)
    ensures inventory == Take(packages)
  {
    inventory := map[];
    for k := 0 to |packages|
      invariant inventory == Take(packages[..k])
    {
      var p := packages[k];
      assert packages[..k + 1][..k] == packages[..k];
      if p !in Named(inventory, p.name) {
        inventory := inventory[p.name := Named(inventory, p.name) + [p]];
      }
    }
    assert packages[..|packages|] == packages;
  }

  function Behind(packages: seq<Package>, k: nat): seq<Package> {
    if k <= |packages| then packages[k..] else []
  }

  function At(packages: seq<Package>, k: nat): Option<Package> {
    if k < |packages| then Some(packages[k]) else None
  }

  /** The loops over names and pairs compute the comparison. */
  method Compare(before: seq<Package>, after: seq<Package>, names: seq<Name>) returns (changes: seq<Change>)
    ensures changes == CompareNames(Take(before), Take(after), names)
  {
    var earlier := ReadInventory(before);
    var next := ReadInventory(after);
    changes := [];
    for k := 0 to |names|
      invariant changes == CompareNames(earlier, next, names[..k])
    {
      var more := ComparePairs(earlier, next, names[k]);
      assert names[..k + 1][..k] == names[..k];
      changes := changes + more;
    }
    assert names[..|names|] == names;
  }

  lemma PairsNext(name: Name, left: seq<Package>, right: seq<Package>, k: nat)
    requires k < |left| || k < |right|
    ensures Pairs(name, Behind(left, k), Behind(right, k))
      == [ChangeOf(name, At(left, k), At(right, k))] + Pairs(name, Behind(left, k + 1), Behind(right, k + 1))
  {
    var l, r := Behind(left, k), Behind(right, k);
    assert Behind(left, k + 1) == if l == [] then [] else l[1..];
    assert Behind(right, k + 1) == if r == [] then [] else r[1..];
  }

  lemma PairsStep(changes: seq<Change>, name: Name, left: seq<Package>, right: seq<Package>, k: nat)
    requires k < |left| || k < |right|
    ensures changes + Pairs(name, Behind(left, k), Behind(right, k))
      == changes + [ChangeOf(name, At(left, k), At(right, k))] + Pairs(name, Behind(left, k + 1), Behind(right, k + 1))
  {
    PairsNext(name, left, right, k);
    Associate(changes, [ChangeOf(name, At(left, k), At(right, k))],
              Pairs(name, Behind(left, k + 1), Behind(right, k + 1)));
  }

  method ComparePairs(earlier: Inventory, next: Inventory, name: Name) returns (changes: seq<Change>)
    ensures changes == CompareName(earlier, next, name)
  {
    var before, after := Named(earlier, name), Named(next, name);
    var common := Paths(before) * Paths(after);
    var previous, candidate := Only(before, common), Only(after, common);
    changes := PairUp(name, previous, candidate);
  }

  method PairUp(name: Name, previous: seq<Package>, candidate: seq<Package>) returns (changes: seq<Change>)
    ensures changes == Pairs(name, previous, candidate)
  {
    changes := [];
    var count := if |previous| >= |candidate| then |previous| else |candidate|;
    for k := 0 to count
      invariant changes + Pairs(name, Behind(previous, k), Behind(candidate, k)) == Pairs(name, previous, candidate)
    {
      PairsStep(changes, name, previous, candidate, k);
      changes := changes + [ChangeOf(name, At(previous, k), At(candidate, k))];
    }
  }
}

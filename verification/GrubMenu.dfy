/** Exact selection of a system in GRUB's generated menu.

    The menu is the tree its configuration text describes. Labelling gives the entries of the generations submenu
    identifiers derived from their exact systems; a selection is a path of such identifiers; GRUB follows a path by
    taking the first match at every level. `SelectionBootsSystem` proves that the path found for a system leads to it.
 */
module GrubMenu {
  import opened Wrappers

  // A store path, split at the end of its hash.
  datatype System = System(hash: string, name: string)

  // An entry identifier. A foreign one is anything labelling never writes; `safe` tells whether it has the form of
  // one that labelling could write.
  datatype Ident = Generations | Current | SystemId(hash: string) | GroupId(hash: string) | Foreign(text: string, safe: bool) {
    predicate Safe() {
      Foreign? ==> safe
    }
  }

  // An entry boots a system if it has exactly one recognised linux command.
  datatype Node =
    | Entry(id: Option<Ident>, title: string, system: Option<System>)
    | Submenu(id: Option<Ident>, title: string, children: seq<Node>)

  type Path = seq<Ident>

  const BRAND := "Cybex OS"
  const ALL := " - All configurations"
  const EARLIER := "Earlier versions  \U{203A}"

  // ---------------------------------------------------------------------------------------------------------------
  // Systems of a menu, in GRUB's order
  // ---------------------------------------------------------------------------------------------------------------

  function Systems(nodes: seq<Node>): seq<System> {
    if nodes == [] then []
    else SystemsOf(nodes[0]) + Systems(nodes[1..])
  }

  function SystemsOf(node: Node): seq<System> {
    match node
    case Entry(_, _, system) => if system.Some? then [system.value] else []
    case Submenu(_, _, children) => Systems(children)
  }

  // What a menu boots, whatever its identifiers and titles.
  function Shape(nodes: seq<Node>): seq<Node> {
    if nodes == [] then [] else [ShapeOf(nodes[0])] + Shape(nodes[1..])
  }

  function ShapeOf(node: Node): Node {
    match node
    case Entry(_, _, system) => Entry(None, "", system)
    case Submenu(_, _, children) => Submenu(None, "", Shape(children))
  }

  // ---------------------------------------------------------------------------------------------------------------
  // Labelling
  // ---------------------------------------------------------------------------------------------------------------

  function LabelNode(node: Node): Node {
    match node
    case Entry(_, title, system) =>
      Entry(if system.Some? then Some(SystemId(system.value.hash)) else None, title, system)
    case Submenu(_, title, children) =>
      var systems := Systems(children);
      Submenu(if systems == [] then None else Some(GroupId(systems[0].hash)), title, LabelNodes(children))
  }

  function LabelNodes(nodes: seq<Node>): (r: seq<Node>)
    ensures |r| == |nodes|
    ensures forall i :: 0 <= i < |nodes| ==> r[i] == LabelNode(nodes[i])
  {
    if nodes == [] then [] else [LabelNode(nodes[0])] + LabelNodes(nodes[1..])
  }

  // Outside the generations every identifier is removed.
  function StripNode(node: Node): Node {
    match node
    case Entry(_, title, system) => Entry(None, title, system)
    case Submenu(_, title, children) => Submenu(None, title, StripNodes(children))
  }

  function StripNodes(nodes: seq<Node>): seq<Node> {
    if nodes == [] then [] else [StripNode(nodes[0])] + StripNodes(nodes[1..])
  }

  // The three kinds of top-level node that labelling and selection look for.
  datatype Kind = GenerationsTitle(distro: string) | TopSystem | LabelledGenerations {
    predicate Is(node: Node) {
      match this
      case GenerationsTitle(distro) => node.Submenu? && node.title in {distro + ALL, BRAND + ALL, EARLIER}
      case TopSystem => node.Entry? && node.system.Some?
      case LabelledGenerations => node.Submenu? && node.id == Some(Generations)
    }
  }

  function Matching(nodes: seq<Node>, kind: Kind): (r: seq<nat>)
    ensures forall k :: 0 <= k < |r| ==> r[k] < |nodes| && kind.Is(nodes[r[k]])
    ensures forall i :: 0 <= i < |nodes| && kind.Is(nodes[i]) ==> i in r
    ensures forall j, k :: 0 <= j < k < |r| ==> r[j] < r[k]
  {
    if nodes == [] then []
    else
      var n := |nodes| - 1;
      var front := Matching(nodes[..n], kind);
      assert forall i :: 0 <= i < n ==> nodes[..n][i] == nodes[i];
      if kind.Is(nodes[n]) then front + [n] else front
  }

  function LabelRoot(node: Node, generations: bool, current: bool): Node {
    if generations && node.Submenu? then Submenu(Some(Generations), EARLIER, LabelNodes(node.children))
    else if current && node.Entry? then Entry(Some(Current), node.title, node.system)
    else StripNode(node)
  }

  // The labelled menu without the appended tail.
  function Labelled(menu: seq<Node>, distro: string): Result<seq<Node>> {
    var generations := Matching(menu, GenerationsTitle(distro));
    if |generations| != 1 then Failure
    else if Systems(menu[generations[0]].children) == [] then Failure
    else
      var current := Matching(menu, TopSystem);
      Success(seq(|menu|, i requires 0 <= i < |menu| =>
        LabelRoot(menu[i], i == generations[0], |current| == 1 && i == current[0])))
  }

  // The labelled menu with its closing entries, and the redirection its tail performs: a selection of the single
  // top-level system highlights that entry instead of its submenu.
  datatype Labels = Labels(menu: seq<Node>, current: Option<System>)

  function Label(menu: seq<Node>, distro: string, closing: seq<Node>): Result<Labels> {
    var labelled :- Labelled(menu, distro);
    var current := Matching(menu, TopSystem);
    Success(Labels(labelled + closing, if |current| == 1 then menu[current[0]].system else None))
  }

  // ---------------------------------------------------------------------------------------------------------------
  // Finding a selection, and following it
  // ---------------------------------------------------------------------------------------------------------------

  datatype Search = Missing | Unsafe | Found(path: Path)

  function SearchNodes(nodes: seq<Node>, system: System): Search {
    if nodes == [] then Missing
    else
      var first := SearchNode(nodes[0], system);
      if first == Missing then SearchNodes(nodes[1..], system) else first
  }

  function SearchNode(node: Node, system: System): Search {
    match node
    case Entry(id, _, boots) =>
      if boots != Some(system) then Missing
      else if id != Some(SystemId(system.hash)) then Unsafe
      else Found([id.value])
    case Submenu(id, _, children) =>
      if id.None? || !id.value.Safe() then Missing
      else
        var inside := SearchNodes(children, system);
        if inside.Found? then Found([id.value] + inside.path) else inside
  }

  function GrubEntry(system: System, menu: seq<Node>): Result<Path> {
    var generations := Matching(menu, LabelledGenerations);
    if |generations| != 1 then Failure
    else
      var search := SearchNodes(menu[generations[0]].children, system);
      if search.Found? then Success([Generations] + search.path) else Failure
  }

  // GRUB's rule: at every level the first node with the wanted identifier.
  function Follow(nodes: seq<Node>, path: Path): Option<Node>
    decreases |path|, |nodes|
  {
    if nodes == [] || path == [] then None
    else if nodes[0].id != Some(path[0]) then Follow(nodes[1..], path)
    else if |path| == 1 then Some(nodes[0])
    else if nodes[0].Submenu? then Follow(nodes[0].children, path[1..])
    else None
  }

  predicate Boots(nodes: seq<Node>, path: Path, system: System) {
    var node := Follow(nodes, path);
    node.Some? && node.value.Entry? && node.value.system == Some(system)
  }

  // The selection GRUB acts on after the tail of the configuration ran.
  function Redirected(labels: Labels, path: Path): Path {
    if labels.current.Some? && path == [Generations, SystemId(labels.current.value.hash)] then [Current] else path
  }

  // ---------------------------------------------------------------------------------------------------------------
  // Assumptions about the generated menu
  // ---------------------------------------------------------------------------------------------------------------

  // Equal store hashes mean equal systems.
  ghost predicate HashesIdentify(systems: seq<System>) {
    forall s, t :: s in systems && t in systems && s.hash == t.hash ==> s == t
  }

  // Sibling groups named after the same system hold the same systems.
  ghost predicate GroupsAgree(nodes: seq<Node>) {
    && (forall i, j :: 0 <= i < |nodes| && 0 <= j < |nodes| && SameGroup(nodes[i], nodes[j]) ==>
          forall s :: s in Systems(nodes[i].children) <==> s in Systems(nodes[j].children))
    && (forall i :: 0 <= i < |nodes| && nodes[i].Submenu? ==> GroupsAgree(nodes[i].children))
  }

  predicate SameGroup(a: Node, b: Node) {
    a.Submenu? && b.Submenu? && Systems(a.children) != [] && Systems(b.children) != []
      && Systems(a.children)[0].hash == Systems(b.children)[0].hash
  }

  // The first node that holds a listed system.
  function Holder(nodes: seq<Node>, system: System): (r: nat)
    requires system in Systems(nodes)
    ensures r < |nodes| && system in SystemsOf(nodes[r])
    ensures forall j :: 0 <= j < r ==> system !in SystemsOf(nodes[j])
  {
    if system in SystemsOf(nodes[0]) then 0 else Holder(nodes[1..], system) + 1
  }

  // No group on the way to the first entry of a system comes after a sibling group of the same name.
  ghost predicate Unshadowed(nodes: seq<Node>, system: System)
    requires system in Systems(nodes)
  {
    var h := Holder(nodes, system);
    nodes[h].Submenu? ==>
      && (forall j :: 0 <= j < h ==> !SameGroup(nodes[j], nodes[h]))
      && Unshadowed(nodes[h].children, system)
  }

  lemma {:induction false} AgreeingGroupsAreUnshadowed(nodes: seq<Node>, system: System)
    requires GroupsAgree(nodes) && system in Systems(nodes)
    ensures Unshadowed(nodes, system)
  {
    var h := Holder(nodes, system);
    if nodes[h].Submenu? {
      AgreeingGroupsAreUnshadowed(nodes[h].children, system);
    }
  }

  // ---------------------------------------------------------------------------------------------------------------
  // Labelling keeps what every entry boots
  // ---------------------------------------------------------------------------------------------------------------

  lemma {:induction false} LabelKeepsShape(nodes: seq<Node>)
    ensures Shape(LabelNodes(nodes)) == Shape(nodes) && Systems(LabelNodes(nodes)) == Systems(nodes)
  {
    if nodes != [] {
      if nodes[0].Submenu? {
        LabelKeepsShape(nodes[0].children);
      }
      LabelKeepsShape(nodes[1..]);
    }
  }

  lemma {:induction false} StripKeepsShape(nodes: seq<Node>)
    ensures Shape(StripNodes(nodes)) == Shape(nodes) && |StripNodes(nodes)| == |nodes|
    ensures forall i :: 0 <= i < |nodes| ==> StripNodes(nodes)[i] == StripNode(nodes[i])
  {
    if nodes != [] {
      if nodes[0].Submenu? {
        StripKeepsShape(nodes[0].children);
      }
      StripKeepsShape(nodes[1..]);
    }
  }

  lemma {:induction false} ShapeByIndex(a: seq<Node>, b: seq<Node>)
    requires |a| == |b| && forall i :: 0 <= i < |a| ==> ShapeOf(a[i]) == ShapeOf(b[i])
    ensures Shape(a) == Shape(b)
  {
    if a != [] {
      ShapeByIndex(a[1..], b[1..]);
    }
  }

  /** Labelling changes only identifiers and titles: every existing entry boots what it booted, in the same place. */
  lemma LabellingKeepsBoots(menu: seq<Node>, distro: string)
    requires Labelled(menu, distro).Success?
    ensures Shape(Labelled(menu, distro).value) == Shape(menu)
  {
    var labelled := Labelled(menu, distro).value;
    forall i | 0 <= i < |menu|
      ensures ShapeOf(labelled[i]) == ShapeOf(menu[i])
    {
      if menu[i].Submenu? {
        LabelKeepsShape(menu[i].children);
        StripKeepsShape(menu[i].children);
      }
    }
    ShapeByIndex(labelled, menu);
  }

  // ---------------------------------------------------------------------------------------------------------------
  // The search finds exactly the listed systems
  // ---------------------------------------------------------------------------------------------------------------

  lemma SystemsSplit(nodes: seq<Node>, system: System)
    requires nodes != []
    ensures system in Systems(nodes) <==> system in SystemsOf(nodes[0]) || system in Systems(nodes[1..])
  {
  }

  lemma {:induction false} SearchFindsListed(nodes: seq<Node>, system: System)
    ensures SearchNodes(LabelNodes(nodes), system) != Unsafe
    ensures SearchNodes(LabelNodes(nodes), system).Found? <==> system in Systems(nodes)
  {
    if nodes != [] {
      var labelled := LabelNodes(nodes);
      assert labelled[1..] == LabelNodes(nodes[1..]);
      SystemsSplit(nodes, system);
      if nodes[0].Submenu? {
        SearchFindsListed(nodes[0].children, system);
      }
      SearchFindsListed(nodes[1..], system);
    }
  }

  // An entry of a menu: the identifiers of the submenus around it, its own, and what it boots.
  datatype Listing = Listing(around: Path, id: Option<Ident>, system: Option<System>)

  // The entries in GRUB's order. Submenus without a safe identifier cannot be named, so they are not entered.
  function Listings(nodes: seq<Node>): seq<Listing> {
    if nodes == [] then [] else ListingsOf(nodes[0]) + Listings(nodes[1..])
  }

  function ListingsOf(node: Node): seq<Listing> {
    match node
    case Entry(id, _, system) => [Listing([], id, system)]
    case Submenu(id, _, children) =>
      if id.Some? && id.value.Safe() then Under(id.value, Listings(children)) else []
  }

  function Under(id: Ident, inside: seq<Listing>): seq<Listing> {
    seq(|inside|, k requires 0 <= k < |inside| => inside[k].(around := [id] + inside[k].around))
  }

  ghost predicate IsFirst(list: seq<Listing>, k: int, system: System) {
    0 <= k < |list| && list[k].system == Some(system) && forall j :: 0 <= j < k ==> list[j].system != Some(system)
  }

  predicate Unlisted(list: seq<Listing>, system: System) {
    forall k :: 0 <= k < |list| ==> list[k].system != Some(system)
  }

  // A search result that stands for the first entry of a system: its path if it has the identifier of the system.
  ghost predicate StandsFor(search: Search, list: seq<Listing>, system: System) {
    && (search == Missing <==> Unlisted(list, system))
    && forall k :: IsFirst(list, k, system) ==>
         search == if list[k].id == Some(SystemId(system.hash)) then Found(list[k].around + [SystemId(system.hash)])
                   else Unsafe
  }

  lemma FirstOfSum(a: seq<Listing>, b: seq<Listing>, system: System, inA: Search, inB: Search)
    requires StandsFor(inA, a, system) && StandsFor(inB, b, system)
    ensures StandsFor(if inA == Missing then inB else inA, a + b, system)
  {
    var all := a + b;
    forall k | IsFirst(all, k, system)
      ensures if k < |a| then inA != Missing && IsFirst(a, k, system) && all[k] == a[k]
              else inA == Missing && IsFirst(b, k - |a|, system) && all[k] == b[k - |a|]
    {
      assert forall j :: 0 <= j < |a| ==> all[j] == a[j];
      assert forall j :: 0 <= j < |b| ==> all[|a| + j] == b[j];
    }
    assert forall j :: 0 <= j < |a| ==> all[j] == a[j];
    assert forall j :: 0 <= j < |b| ==> all[|a| + j] == b[j];
  }

  lemma FirstUnder(id: Ident, inside: seq<Listing>, system: System, search: Search)
    requires StandsFor(search, inside, system)
    ensures StandsFor(if search.Found? then Found([id] + search.path) else search, Under(id, inside), system)
  {
    forall k | IsFirst(Under(id, inside), k, system)
      ensures IsFirst(inside, k, system)
      ensures [id] + (inside[k].around + [SystemId(system.hash)]) == Under(id, inside)[k].around + [SystemId(system.hash)]
    {
      assert forall j :: 0 <= j < |inside| ==> Under(id, inside)[j].system == inside[j].system;
    }
    assert forall j :: 0 <= j < |inside| ==> Under(id, inside)[j].system == inside[j].system;
  }

  /** In any menu, labelled or not, the search stops at the first entry that boots the system. It gives the path to it if
      that entry has the identifier of the system, and is refused otherwise. */
  lemma {:induction false} SearchStopsAtFirst(nodes: seq<Node>, system: System)
    ensures StandsFor(SearchNodes(nodes, system), Listings(nodes), system)
  {
    if nodes != [] {
      SearchStopsAtFirst(nodes[1..], system);
      NodeStopsAtFirst(nodes[0], system);
      FirstOfSum(ListingsOf(nodes[0]), Listings(nodes[1..]), system,
                 SearchNode(nodes[0], system), SearchNodes(nodes[1..], system));
    }
  }

  lemma {:induction false} NodeStopsAtFirst(node: Node, system: System)
    ensures StandsFor(SearchNode(node, system), ListingsOf(node), system)
  {
    if node.Submenu? && node.id.Some? && node.id.value.Safe() {
      SearchStopsAtFirst(node.children, system);
      FirstUnder(node.id.value, Listings(node.children), system, SearchNodes(node.children, system));
    } else if node.Entry? {
      assert ListingsOf(node)[0] == Listing([], node.id, node.system);
      assert [] + [SystemId(system.hash)] == [SystemId(system.hash)];
    }
  }

  // The one top-level submenu that is labelled as the generations.
  ghost predicate OnlyGenerations(menu: seq<Node>, g: int) {
    && 0 <= g < |menu| && menu[g].Submenu? && menu[g].id == Some(Generations)
    && forall j :: 0 <= j < |menu| && menu[j].Submenu? && menu[j].id == Some(Generations) ==> j == g
  }

  /** Without exactly one menu of generations nothing is selected. */
  lemma NoGenerationsNoEntry(system: System, menu: seq<Node>)
    ensures GrubEntry(system, menu) != Failure ==> exists g :: OnlyGenerations(menu, g)
  {
    var found := Matching(menu, LabelledGenerations);
    if |found| == 1 {
      assert OnlyGenerations(menu, found[0]);
    }
  }

  /** In any menu with one, exactly when a selection is found, and which one. */
  lemma GrubEntryIs(system: System, menu: seq<Node>, g: int)
    requires OnlyGenerations(menu, g)
    ensures var list := Listings(menu[g].children);
      && (Unlisted(list, system) ==> GrubEntry(system, menu) == Failure)
      && forall k :: IsFirst(list, k, system) ==>
           GrubEntry(system, menu) ==
             if list[k].id == Some(SystemId(system.hash))
             then Success([Generations] + (list[k].around + [SystemId(system.hash)])) else Failure
  {
    SingleMatch(menu, LabelledGenerations, g);
    SearchStopsAtFirst(menu[g].children, system);
  }

  // ---------------------------------------------------------------------------------------------------------------
  // Following a found path
  // ---------------------------------------------------------------------------------------------------------------

  // The node a search of labelled siblings succeeds in.
  lemma {:induction false} SearchWitness(nodes: seq<Node>, system: System) returns (i: nat)
    requires SearchNodes(nodes, system).Found?
    ensures i < |nodes| && SearchNode(nodes[i], system) == SearchNodes(nodes, system)
    ensures forall j :: 0 <= j < i ==> SearchNode(nodes[j], system) == Missing
  {
    if SearchNode(nodes[0], system) != Missing {
      i := 0;
    } else {
      var k := SearchWitness(nodes[1..], system);
      i := k + 1;
    }
  }

  lemma {:induction false} FollowFirst(nodes: seq<Node>, path: Path, i: nat)
    requires path != [] && i < |nodes| && nodes[i].id == Some(path[0])
    requires forall j :: 0 <= j < i ==> nodes[j].id != Some(path[0])
    ensures Follow(nodes, path) ==
      if |path| == 1 then Some(nodes[i])
      else if nodes[i].Submenu? then Follow(nodes[i].children, path[1..]) else None
  {
    if i > 0 {
      FollowFirst(nodes[1..], path, i - 1);
    }
  }

  lemma FirstWithId(nodes: seq<Node>, id: Ident, i: nat) returns (first: nat)
    requires i < |nodes| && nodes[i].id == Some(id)
    ensures first <= i && nodes[first].id == Some(id) && forall j :: 0 <= j < first ==> nodes[j].id != Some(id)
  {
    first := 0;
    while nodes[first].id != Some(id)
      invariant first <= i
      invariant forall j :: 0 <= j < first ==> nodes[j].id != Some(id)
      decreases i - first
    {
      first := first + 1;
    }
  }

  lemma {:induction false} InSystems(nodes: seq<Node>, i: nat, system: System)
    requires i < |nodes| && system in SystemsOf(nodes[i])
    ensures system in Systems(nodes)
  {
    SystemsSplit(nodes, system);
    if i > 0 {
      InSystems(nodes[1..], i - 1, system);
    }
  }

  // What a path leads to is listed.
  lemma {:induction false} FollowedIsListed(nodes: seq<Node>, path: Path, system: System)
    requires Boots(nodes, path, system)
    ensures system in Systems(nodes)
    decreases |path|, |nodes|
  {
    SystemsSplit(nodes, system);
    if nodes[0].id != Some(path[0]) {
      FollowedIsListed(nodes[1..], path, system);
    } else if |path| > 1 {
      FollowedIsListed(nodes[0].children, path[1..], system);
    }
  }

  // The search succeeds in the first node that holds the system.
  lemma SearchStopsAtHolder(nodes: seq<Node>, system: System)
    requires system in Systems(nodes)
    ensures var labelled := LabelNodes(nodes);
      SearchNodes(labelled, system).Found? &&
      SearchNode(labelled[Holder(nodes, system)], system) == SearchNodes(labelled, system)
  {
    SearchFindsListed(nodes, system);
    var labelled, h := LabelNodes(nodes), Holder(nodes, system);
    var i := SearchWitness(labelled, system);
    SearchNodeFindsListed(nodes[i], system);
    SearchNodeFindsListed(nodes[h], system);
    assert labelled[h] == LabelNode(nodes[h]) && labelled[i] == LabelNode(nodes[i]);
  }

  lemma SearchNodeFindsListed(node: Node, system: System)
    ensures SearchNode(LabelNode(node), system) != Missing <==> system in SystemsOf(node)
  {
    if node.Submenu? {
      SearchFindsListed(node.children, system);
    }
  }

  lemma {:induction false} FoundPathBootsIff(nodes: seq<Node>, system: System)
    requires system in Systems(nodes) && HashesIdentify(Systems(nodes))
    ensures SearchNodes(LabelNodes(nodes), system).Found?
    ensures Boots(LabelNodes(nodes), SearchNodes(LabelNodes(nodes), system).path, system) <==> Unshadowed(nodes, system)
  {
    var labelled, h := LabelNodes(nodes), Holder(nodes, system);
    SearchStopsAtHolder(nodes, system);
    var path := SearchNodes(labelled, system).path;
    var first := FirstWithId(labelled, path[0], h);
    FollowFirst(labelled, path, first);
    if nodes[h].Entry? {
      assert nodes[first].Entry? && nodes[first].system.value.hash == system.hash;
      InSystems(nodes, first, nodes[first].system.value);
    } else {
      assert SameGroup(nodes[first], nodes[h]);
      ChildSystemsIdentify(nodes, h);
      FoundPathBootsIff(nodes[h].children, system);
      SearchIsNotEmpty(labelled[h].children, system);
      assert path[1..] == SearchNodes(labelled[h].children, system).path;
      assert first == h <==> forall j :: 0 <= j < h ==> !SameGroup(nodes[j], nodes[h]);
      if first != h {
        EarlierGroupMisleads(nodes, first, path[1..], system);
      }
    }
  }

  lemma EarlierGroupMisleads(nodes: seq<Node>, i: nat, path: Path, system: System)
    requires system in Systems(nodes) && i < Holder(nodes, system) && nodes[i].Submenu?
    ensures !Boots(LabelNodes(nodes[i].children), path, system)
  {
    if Boots(LabelNodes(nodes[i].children), path, system) {
      FollowedIsListed(LabelNodes(nodes[i].children), path, system);
      LabelKeepsShape(nodes[i].children);
    }
  }

  lemma ChildSystemsIdentify(nodes: seq<Node>, i: nat)
    requires HashesIdentify(Systems(nodes)) && i < |nodes| && nodes[i].Submenu?
    ensures HashesIdentify(Systems(nodes[i].children))
  {
    forall s | s in Systems(nodes[i].children)
      ensures s in Systems(nodes)
    {
      InSystems(nodes, i, s);
    }
  }

  lemma SingleMatch(nodes: seq<Node>, kind: Kind, i: nat)
    requires i < |nodes| && kind.Is(nodes[i])
    requires forall j :: 0 <= j < |nodes| && j != i ==> !kind.Is(nodes[j])
    ensures Matching(nodes, kind) == [i]
  {
    var found := Matching(nodes, kind);
    assert i in found;
    assert forall k :: 0 <= k < |found| ==> kind.Is(nodes[found[k]]) && found[k] == i;
    assert found[0] == i && found[|found| - 1] == i;
  }

  // The closing entries must not pass for the generations submenu or the top-level entry.
  predicate ClosingIsPlain(closing: seq<Node>) {
    forall i :: 0 <= i < |closing| ==> closing[i].id != Some(Generations) && closing[i].id != Some(Current)
  }

  // The one submenu whose title marks it as the generations.
  function GenerationsOf(menu: seq<Node>, distro: string): (r: nat)
    requires Labelled(menu, distro).Success?
    ensures r < |menu| && GenerationsTitle(distro).Is(menu[r])
  {
    Matching(menu, GenerationsTitle(distro))[0]
  }

  lemma LabelledRoot(menu: seq<Node>, distro: string)
    requires Labelled(menu, distro).Success?
    ensures var labelled, g := Labelled(menu, distro).value, GenerationsOf(menu, distro);
      && |labelled| == |menu|
      && labelled[g] == Submenu(Some(Generations), EARLIER, LabelNodes(menu[g].children))
      && forall j :: 0 <= j < |labelled| && j != g ==> labelled[j].id in {None, Some(Current)}
  {
  }

  lemma RootOfLabelled(menu: seq<Node>, distro: string, closing: seq<Node>)
    requires Label(menu, distro, closing).Success? && ClosingIsPlain(closing)
    ensures var labelled, g := Label(menu, distro, closing).value.menu, GenerationsOf(menu, distro);
      && g < |labelled| && labelled[g] == Submenu(Some(Generations), EARLIER, LabelNodes(menu[g].children))
      && (forall j :: 0 <= j < |labelled| && j != g ==> labelled[j].id != Some(Generations))
      && Matching(labelled, LabelledGenerations) == [g]
  {
    LabelledRoot(menu, distro);
    var labelled, g := Label(menu, distro, closing).value.menu, GenerationsOf(menu, distro);
    assert labelled == Labelled(menu, distro).value + closing;
    assert forall j :: |menu| <= j < |labelled| ==> labelled[j] == closing[j - |menu|];
    SingleMatch(labelled, LabelledGenerations, g);
  }

  predicate IsTitled(node: Node, distro: string) {
    node.Submenu? && node.title in {distro + " - All configurations", "Cybex OS - All configurations", EARLIER}
  }

  // The one top-level submenu with a title of the generations.
  ghost predicate OnlyTitled(menu: seq<Node>, distro: string, g: int) {
    0 <= g < |menu| && IsTitled(menu[g], distro) && forall j :: 0 <= j < |menu| && IsTitled(menu[j], distro) ==> j == g
  }

  // The one top-level entry that boots a system.
  ghost predicate OnlyTop(menu: seq<Node>, c: int) {
    && 0 <= c < |menu| && menu[c].Entry? && menu[c].system.Some?
    && forall j :: 0 <= j < |menu| && menu[j].Entry? && menu[j].system.Some? ==> j == c
  }

  /** A menu can be labelled exactly if one top-level submenu has a title of the generations, and an entry in it boots a
      system. */
  lemma LabelledIff(menu: seq<Node>, distro: string, closing: seq<Node>)
    ensures Label(menu, distro, closing).Success? <==>
      exists g :: OnlyTitled(menu, distro, g) && Systems(menu[g].children) != []
    ensures Label(menu, distro, closing).Success? ==> OnlyTitled(menu, distro, GenerationsOf(menu, distro))
  {
    assert BRAND + ALL == "Cybex OS - All configurations" && ALL == " - All configurations";
    var found := Matching(menu, GenerationsTitle(distro));
    if |found| == 1 {
      assert OnlyTitled(menu, distro, found[0]);
    }
    if g :| OnlyTitled(menu, distro, g) {
      SingleMatch(menu, GenerationsTitle(distro), g);
    }
  }

  /** The selection of a system is redirected to a top-level entry exactly if that is the only one that boots, and boots
      the selected system without a specialisation. */
  lemma RedirectedIff(menu: seq<Node>, distro: string, closing: seq<Node>, path: Path)
    requires Label(menu, distro, closing).Success?
    ensures forall c :: OnlyTop(menu, c) ==>
      Redirected(Label(menu, distro, closing).value, path) ==
        if path == [Generations, SystemId(menu[c].system.value.hash)] then [Current] else path
    ensures (forall c :: !OnlyTop(menu, c)) ==> Redirected(Label(menu, distro, closing).value, path) == path
  {
    var found := Matching(menu, TopSystem);
    forall c | OnlyTop(menu, c)
      ensures found == [c]
    {
      SingleMatch(menu, TopSystem, c);
    }
    if |found| == 1 {
      assert OnlyTop(menu, found[0]);
    }
  }

  /** After labelling, a selection exists for exactly the systems listed in the generations submenu. */
  lemma SelectionExistsIffListed(menu: seq<Node>, distro: string, closing: seq<Node>, system: System)
    requires Label(menu, distro, closing).Success? && ClosingIsPlain(closing)
    ensures GrubEntry(system, Label(menu, distro, closing).value.menu).Success? <==>
      system in Systems(menu[GenerationsOf(menu, distro)].children)
  {
    RootOfLabelled(menu, distro, closing);
    SearchFindsListed(menu[GenerationsOf(menu, distro)].children, system);
  }

  /** GRUB follows the selection found for a listed system to an entry that boots exactly that system, if and only if
      no group on the way comes after a sibling group named after the same system. */
  lemma SelectionBootsSystemIff(menu: seq<Node>, distro: string, closing: seq<Node>, system: System)
    requires Label(menu, distro, closing).Success? && ClosingIsPlain(closing)
    requires var g := menu[GenerationsOf(menu, distro)].children; system in Systems(g) && HashesIdentify(Systems(g))
    ensures var labels := Label(menu, distro, closing).value;
      && GrubEntry(system, labels.menu).Success?
      && (Boots(labels.menu, GrubEntry(system, labels.menu).value, system) <==>
            Unshadowed(menu[GenerationsOf(menu, distro)].children, system))
  {
    var labelled, g := Label(menu, distro, closing).value.menu, GenerationsOf(menu, distro);
    RootOfLabelled(menu, distro, closing);
    FoundPathBootsIff(menu[g].children, system);
    var path := GrubEntry(system, labelled).value;
    SearchIsNotEmpty(labelled[g].children, system);
    FollowFirst(labelled, path, g);
    assert path[1..] == SearchNodes(labelled[g].children, system).path;
  }

  /** When groups named after the same system hold the same systems, as specialisations of equal systems do, every
      selection found leads to its system. */
  lemma SelectionBootsSystem(menu: seq<Node>, distro: string, closing: seq<Node>, system: System)
    requires Label(menu, distro, closing).Success? && ClosingIsPlain(closing)
    requires GrubEntry(system, Label(menu, distro, closing).value.menu).Success?
    requires var g := menu[GenerationsOf(menu, distro)].children; HashesIdentify(Systems(g)) && GroupsAgree(g)
    ensures var labels := Label(menu, distro, closing).value;
      Boots(labels.menu, GrubEntry(system, labels.menu).value, system)
  {
    SelectionExistsIffListed(menu, distro, closing, system);
    AgreeingGroupsAreUnshadowed(menu[GenerationsOf(menu, distro)].children, system);
    SelectionBootsSystemIff(menu, distro, closing, system);
  }

  lemma SearchIsNotEmpty(nodes: seq<Node>, system: System)
    requires SearchNodes(nodes, system).Found?
    ensures SearchNodes(nodes, system).path != []
  {
    var i := SearchWitness(nodes, system);
  }

  /** The highlighting of the top-level entry does not change what is booted. */
  lemma RedirectionBootsSystem(menu: seq<Node>, distro: string, closing: seq<Node>, system: System)
    requires Label(menu, distro, closing).Success? && ClosingIsPlain(closing)
    requires GrubEntry(system, Label(menu, distro, closing).value.menu).Success?
    requires HashesIdentify(Systems(menu)) && GroupsAgree(menu[GenerationsOf(menu, distro)].children)
    ensures var labels := Label(menu, distro, closing).value;
      Boots(labels.menu, Redirected(labels, GrubEntry(system, labels.menu).value), system)
  {
    var labels := Label(menu, distro, closing).value;
    ChildSystemsIdentify(menu, GenerationsOf(menu, distro));
    if Redirected(labels, GrubEntry(system, labels.menu).value) == GrubEntry(system, labels.menu).value {
      SelectionBootsSystem(menu, distro, closing, system);
    } else {
      CurrentBootsTopSystem(menu, distro, closing);
      SelectionIsListed(menu, distro, closing, system);
      SelectionEndsInHash(menu, distro, closing, system, GrubEntry(system, labels.menu).value);
      EqualHashes(Systems(menu), system, labels.current.value);
    }
  }

  lemma EqualHashes(systems: seq<System>, s: System, t: System)
    requires HashesIdentify(systems) && s in systems && t in systems && s.hash == t.hash
    ensures s == t
  {
  }

  lemma SelectionIsListed(menu: seq<Node>, distro: string, closing: seq<Node>, system: System)
    requires Label(menu, distro, closing).Success? && ClosingIsPlain(closing)
    requires GrubEntry(system, Label(menu, distro, closing).value.menu).Success?
    ensures system in Systems(menu)
  {
    SelectionExistsIffListed(menu, distro, closing, system);
    InSystems(menu, GenerationsOf(menu, distro), system);
  }

  lemma SelectionEndsInHash(menu: seq<Node>, distro: string, closing: seq<Node>, system: System, path: Path)
    requires Label(menu, distro, closing).Success? && ClosingIsPlain(closing)
    requires GrubEntry(system, Label(menu, distro, closing).value.menu) == Success(path)
    ensures |path| >= 2 && path[|path| - 1] == SystemId(system.hash)
  {
    SelectionIs(menu, distro, closing, system);
    PathEndsInHash(menu[GenerationsOf(menu, distro)].children, system);
  }

  lemma SelectionIs(menu: seq<Node>, distro: string, closing: seq<Node>, system: System)
    requires Label(menu, distro, closing).Success? && ClosingIsPlain(closing)
    ensures var search := SearchNodes(LabelNodes(menu[GenerationsOf(menu, distro)].children), system);
      GrubEntry(system, Label(menu, distro, closing).value.menu)
      == if search.Found? then Success([Generations] + search.path) else Failure
  {
    RootOfLabelled(menu, distro, closing);
  }

  lemma CurrentBootsTopSystem(menu: seq<Node>, distro: string, closing: seq<Node>)
    requires Label(menu, distro, closing).Success? && Label(menu, distro, closing).value.current.Some?
    ensures var labels := Label(menu, distro, closing).value;
      labels.current.value in Systems(menu) && Boots(labels.menu, [Current], labels.current.value)
  {
    var labels, c := Label(menu, distro, closing).value, Matching(menu, TopSystem)[0];
    assert labels.menu[c] == Entry(Some(Current), menu[c].title, menu[c].system);
    assert forall j :: 0 <= j < c ==> labels.menu[j].id != Some(Current);
    FollowFirst(labels.menu, [Current], c);
    InSystems(menu, c, menu[c].system.value);
  }

  lemma {:induction false} PathEndsInHash(nodes: seq<Node>, system: System)
    requires SearchNodes(LabelNodes(nodes), system).Found?
    ensures var path := SearchNodes(LabelNodes(nodes), system).path;
      path != [] && path[|path| - 1] == SystemId(system.hash)
  {
    var labelled := LabelNodes(nodes);
    var i := SearchWitness(labelled, system);
    if nodes[i].Submenu? {
      PathEndsInHash(nodes[i].children, system);
    }
  }

  /** The condition is needed: of two groups named after the same system GRUB only ever opens the first, so a system
      that only the second one holds is not reached by the path found for it. */
  lemma DisagreeingGroupsMislead()
    ensures var a, b, c := System("a", "x"), System("b", "x"), System("c", "x");
      var nodes := [Submenu(None, "", Pair(a, b)), Submenu(None, "", Pair(a, c))];
      && c in Systems(nodes) && HashesIdentify(Systems(nodes))
      && SearchNodes(LabelNodes(nodes), c).Found?
      && !Boots(LabelNodes(nodes), SearchNodes(LabelNodes(nodes), c).path, c)
  {
    var a, b, c := System("a", "x"), System("b", "x"), System("c", "x");
    var nodes := [Submenu(None, "", Pair(a, b)), Submenu(None, "", Pair(a, c))];
    PairIs(a, b);
    PairIs(a, c);
    assert nodes[1..] == [nodes[1]] && Systems([nodes[1]]) == [a, c];
    assert Systems(nodes) == [a, b] + [a, c];
    assert "a"[0] != "b"[0] && "a"[0] != "c"[0] && "b"[0] != "c"[0];
    assert c == Systems(nodes)[3];
    FoundPathBootsIff(nodes, c);
    assert Holder(nodes, c) == 1 && SameGroup(nodes[0], nodes[1]);
  }

  function Pair(a: System, b: System): seq<Node> {
    [Entry(None, "", Some(a)), Entry(None, "", Some(b))]
  }

  lemma PairIs(a: System, b: System)
    ensures Systems(Pair(a, b)) == [a, b]
  {
    assert Pair(a, b)[1..] == [Entry(None, "", Some(b))];
    assert Systems(Pair(a, b)[1..]) == [b];
  }

  lemma LabelRootTwice(node: Node, generations: bool, current: bool)
    ensures LabelRoot(LabelRoot(node, generations, current), generations, current) == LabelRoot(node, generations, current)
  {
    if node.Submenu? {
      LabelTwice(node.children);
      StripTwice(node.children);
    }
  }

  // A labelled menu is labelled at the same places again.
  lemma MatchesStay(menu: seq<Node>, distro: string)
    requires Labelled(menu, distro).Success?
    ensures var once, g := Labelled(menu, distro).value, GenerationsOf(menu, distro);
      && Matching(once, GenerationsTitle(distro)) == [g] == Matching(menu, GenerationsTitle(distro))
      && Matching(once, TopSystem) == Matching(menu, TopSystem)
      && Systems(once[g].children) == Systems(menu[g].children)
  {
    var once, g := Labelled(menu, distro).value, GenerationsOf(menu, distro);
    forall j | 0 <= j < |menu| && j != g
      ensures !GenerationsTitle(distro).Is(once[j])
    {
      var found := Matching(menu, GenerationsTitle(distro));
      assert GenerationsTitle(distro).Is(menu[j]) ==> j in found;
    }
    SingleMatch(once, GenerationsTitle(distro), g);
    LabelKeepsShape(menu[g].children);
    SameMatches(menu, once, TopSystem);
  }

  /** Labelling a labelled menu again changes nothing. */
  lemma LabellingIsIdempotent(menu: seq<Node>, distro: string)
    requires Labelled(menu, distro).Success?
    ensures Labelled(Labelled(menu, distro).value, distro) == Labelled(menu, distro)
  {
    var once, g, current := Labelled(menu, distro).value, GenerationsOf(menu, distro), Matching(menu, TopSystem);
    MatchesStay(menu, distro);
    var twice := Labelled(once, distro).value;
    forall i | 0 <= i < |menu|
      ensures twice[i] == once[i]
    {
      LabelRootTwice(menu[i], i == g, |current| == 1 && i == current[0]);
    }
    assert twice == once;
  }

  lemma {:induction false} SameMatches(a: seq<Node>, b: seq<Node>, kind: Kind)
    requires |a| == |b| && forall i :: 0 <= i < |a| ==> (kind.Is(a[i]) <==> kind.Is(b[i]))
    ensures Matching(a, kind) == Matching(b, kind)
  {
    if a != [] {
      var n := |a| - 1;
      assert forall i :: 0 <= i < n ==> (kind.Is(a[..n][i]) <==> kind.Is(b[..n][i]));
      SameMatches(a[..n], b[..n], kind);
    }
  }

  lemma {:induction false} LabelTwice(nodes: seq<Node>)
    ensures LabelNodes(LabelNodes(nodes)) == LabelNodes(nodes)
  {
    if nodes != [] {
      LabelTwice(nodes[1..]);
      assert LabelNodes(nodes)[1..] == LabelNodes(nodes[1..]);
      if nodes[0].Submenu? {
        LabelTwice(nodes[0].children);
        LabelKeepsShape(nodes[0].children);
      }
    }
  }

  lemma {:induction false} StripTwice(nodes: seq<Node>)
    ensures StripNodes(StripNodes(nodes)) == StripNodes(nodes)
  {
    if nodes != [] {
      StripTwice(nodes[1..]);
      if nodes[0].Submenu? {
        StripTwice(nodes[0].children);
      }
    }
  }
}

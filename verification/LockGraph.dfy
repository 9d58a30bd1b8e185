/** Comparison of lock files: what an update may change.

    A lock names nodes arbitrarily, and several inputs may share a node. Two inputs count as unchanged when the trees
    they unfold to are equal; `UnchangedIffEveryPath` says what that means for the paths of input names. */
module LockGraph {
  import opened Wrappers

  type NodeId = string
  type Name = string

  // A field is a text or another value, of which it matters only whether it counts as absent.
  datatype Value = Text(text: string) | Other(empty: bool)
  type Fields = map<string, Value>

  // What a node says besides its inputs: where its source comes from, what it is locked to, and everything else.
  datatype Content = Source(original: Option<Fields>, locked: Option<Fields>, rest: string)

  // A locked input of a node, or a path of names that it follows instead.
  datatype Ref = Direct(node: NodeId) | Follows(path: seq<Name>)

  datatype Node = Node(content: Content, inputs: map<Name, Ref>)

  datatype Lock = Lock(nodes: map<NodeId, Node>, root: NodeId) {
    predicate Closed() {
      && root in nodes
      && forall n :: n in nodes ==> forall k :: k in nodes[n].inputs ==> Has(nodes[n].inputs[k])
    }

    predicate Has(ref: Ref) {
      ref.Direct? ==> ref.node in nodes
    }

    function RootInputs(): map<Name, Ref>
      requires root in nodes
    {
      nodes[root].inputs
    }

    // A certificate that no input leads back to its own node.
    ghost predicate Ranked(rank: map<NodeId, nat>) {
      && Closed()
      && (forall n :: n in nodes ==> n in rank)
      && forall n :: n in nodes ==> forall k :: k in nodes[n].inputs ==> Below(rank, nodes[n].inputs[k], n)
    }

    ghost predicate Below(rank: map<NodeId, nat>, ref: Ref, n: NodeId)
      requires n in rank
    {
      ref.Direct? ==> ref.node in rank && rank[ref.node] < rank[n]
    }
  }

  // ---------------------------------------------------------------------------------------------------------------
  // Unfolding
  // ---------------------------------------------------------------------------------------------------------------

  // The tree an input unfolds to; node names do not occur in it.
  datatype Tree = FollowsTree(path: seq<Name>) | NodeTree(content: Content, inputs: map<Name, Tree>)

  ghost function Normalize(lock: Lock, ref: Ref, rank: map<NodeId, nat>): Tree
    requires lock.Ranked(rank) && lock.Has(ref)
    decreases if ref.Direct? then rank[ref.node] + 1 else 0
  {
    match ref
    case Follows(path) => FollowsTree(path)
    case Direct(n) =>
      NodeTree(lock.nodes[n].content,
               map k | k in lock.nodes[n].inputs ::
                 assert lock.Below(rank, lock.nodes[n].inputs[k], n); Normalize(lock, lock.nodes[n].inputs[k], rank))
  }

  // What is found at the end of a path of input names.
  datatype View = Absent | Following(path: seq<Name>) | Content(content: Content, names: set<Name>)

  function Look(lock: Lock, ref: Ref, path: seq<Name>): View
    requires lock.Closed() && lock.Has(ref)
    decreases |path|
  {
    match ref
    case Follows(p) => if path == [] then Following(p) else Absent
    case Direct(n) =>
      var node := lock.nodes[n];
      if path == [] then Content(node.content, node.inputs.Keys)
      else if path[0] in node.inputs then Look(lock, node.inputs[path[0]], path[1..])
      else Absent
  }

  function LookTree(t: Tree, path: seq<Name>): View
    decreases |path|
  {
    match t
    case FollowsTree(p) => if path == [] then Following(p) else Absent
    case NodeTree(content, inputs) =>
      if path == [] then Content(content, inputs.Keys)
      else if path[0] in inputs then LookTree(inputs[path[0]], path[1..])
      else Absent
  }

  lemma {:induction false} LookNormalized(lock: Lock, ref: Ref, rank: map<NodeId, nat>, path: seq<Name>)
    requires lock.Ranked(rank) && lock.Has(ref)
    ensures Look(lock, ref, path) == LookTree(Normalize(lock, ref, rank), path)
    decreases |path|
  {
    if ref.Direct? {
      var node := lock.nodes[ref.node];
      assert Normalize(lock, ref, rank).inputs.Keys == node.inputs.Keys;
      if path != [] && path[0] in node.inputs {
        assert lock.Has(node.inputs[path[0]]);
        LookNormalized(lock, node.inputs[path[0]], rank, path[1..]);
      }
    }
  }

  ghost predicate SameViews(a: Lock, r: Ref, b: Lock, s: Ref)
    requires a.Closed() && a.Has(r) && b.Closed() && b.Has(s)
  {
    forall path: seq<Name> :: Look(a, r, path) == Look(b, s, path)
  }

  lemma SameViewsBelow(a: Lock, r: Ref, b: Lock, s: Ref, k: Name)
    requires a.Closed() && a.Has(r) && b.Closed() && b.Has(s) && SameViews(a, r, b, s)
    requires r.Direct? && s.Direct? && k in a.nodes[r.node].inputs && k in b.nodes[s.node].inputs
    ensures a.Has(a.nodes[r.node].inputs[k]) && b.Has(b.nodes[s.node].inputs[k])
    ensures SameViews(a, a.nodes[r.node].inputs[k], b, b.nodes[s.node].inputs[k])
  {
    var r', s' := a.nodes[r.node].inputs[k], b.nodes[s.node].inputs[k];
    forall path: seq<Name>
      ensures Look(a, r', path) == Look(b, s', path)
    {
      assert ([k] + path)[1..] == path;
      assert Look(a, r, [k] + path) == Look(b, s, [k] + path);
    }
  }

  lemma {:induction false} SameViewsUnfoldAlike(a: Lock, r: Ref, ra: map<NodeId, nat>, b: Lock, s: Ref, rb: map<NodeId, nat>)
    requires a.Ranked(ra) && a.Has(r) && b.Ranked(rb) && b.Has(s)
    requires SameViews(a, r, b, s)
    ensures Normalize(a, r, ra) == Normalize(b, s, rb)
    decreases if r.Direct? then ra[r.node] + 1 else 0
  {
    assert Look(a, r, []) == Look(b, s, []);
    if r.Direct? {
      var m, n := a.nodes[r.node], b.nodes[s.node];
      assert m.inputs.Keys == n.inputs.Keys;
      forall k | k in m.inputs
        ensures Normalize(a, r, ra).inputs[k] == Normalize(b, s, rb).inputs[k]
      {
        SameViewsBelow(a, r, b, s, k);
        assert a.Below(ra, m.inputs[k], r.node);
        SameViewsUnfoldAlike(a, m.inputs[k], ra, b, n.inputs[k], rb);
      }
      assert Normalize(a, r, ra).inputs == Normalize(b, s, rb).inputs;
    }
  }

  // ---------------------------------------------------------------------------------------------------------------
  // Unchanged inputs
  // ---------------------------------------------------------------------------------------------------------------

  ghost predicate Unchanged(before: Lock, ra: map<NodeId, nat>, after: Lock, rb: map<NodeId, nat>, name: Name)
    requires before.Ranked(ra) && after.Ranked(rb)
    requires name in before.RootInputs() && name in after.RootInputs()
  {
    assert before.Has(before.RootInputs()[name]) && after.Has(after.RootInputs()[name]);
    Normalize(before, before.RootInputs()[name], ra) == Normalize(after, after.RootInputs()[name], rb)
  }

  /** An input is unchanged exactly when every path of input names below it reaches equal content with equal input
      names, or an equal list of names to follow. */
  lemma UnchangedIffEveryPath(before: Lock, ra: map<NodeId, nat>, after: Lock, rb: map<NodeId, nat>, name: Name)
    requires before.Ranked(ra) && after.Ranked(rb)
    requires name in before.RootInputs() && name in after.RootInputs()
    ensures before.Has(before.RootInputs()[name]) && after.Has(after.RootInputs()[name])
    ensures Unchanged(before, ra, after, rb, name) <==>
      SameViews(before, before.RootInputs()[name], after, after.RootInputs()[name])
  {
    var r, s := before.RootInputs()[name], after.RootInputs()[name];
    assert before.Has(r) && after.Has(s);
    if Unchanged(before, ra, after, rb, name) {
      forall path: seq<Name>
        ensures Look(before, r, path) == Look(after, s, path)
      {
        LookNormalized(before, r, ra, path);
        LookNormalized(after, s, rb, path);
      }
    } else if SameViews(before, r, after, s) {
      SameViewsUnfoldAlike(before, r, ra, after, s, rb);
    }
  }

  function RenamedRef(ref: Ref, f: map<NodeId, NodeId>): Ref
    requires ref.Direct? ==> ref.node in f
  {
    if ref.Direct? then Direct(f[ref.node]) else ref
  }

  // The second lock holds the first one's nodes under the names f gives them; f may even merge equal nodes.
  ghost predicate Renames(a: Lock, b: Lock, f: map<NodeId, NodeId>) {
    && a.Closed() && b.Closed()
    && (forall n :: n in a.nodes ==> n in f && f[n] in b.nodes)
    && f[a.root] == b.root
    && forall n :: n in a.nodes ==> RenamesNode(a.nodes[n], b.nodes[f[n]], f)
  }

  ghost predicate RenamesNode(m: Node, n: Node, f: map<NodeId, NodeId>) {
    && m.content == n.content && m.inputs.Keys == n.inputs.Keys
    && forall k :: k in m.inputs ==>
         (m.inputs[k].Direct? ==> m.inputs[k].node in f) && n.inputs[k] == RenamedRef(m.inputs[k], f)
  }

  lemma {:induction false} RenamedLooksAlike(a: Lock, b: Lock, f: map<NodeId, NodeId>, r: Ref, path: seq<Name>)
    requires Renames(a, b, f) && a.Has(r)
    ensures b.Has(RenamedRef(r, f)) && Look(a, r, path) == Look(b, RenamedRef(r, f), path)
    decreases |path|
  {
    if r.Direct? {
      var m, n := a.nodes[r.node], b.nodes[f[r.node]];
      assert RenamesNode(m, n, f);
      if path != [] && path[0] in m.inputs {
        assert a.Has(m.inputs[path[0]]);
        RenamedLooksAlike(a, b, f, m.inputs[path[0]], path[1..]);
      }
    }
  }

  /** Renaming the nodes of a lock changes no input. */
  lemma RenamingIsNoChange(a: Lock, ra: map<NodeId, nat>, b: Lock, rb: map<NodeId, nat>, f: map<NodeId, NodeId>,
                           name: Name)
    requires a.Ranked(ra) && b.Ranked(rb) && Renames(a, b, f) && name in a.RootInputs()
    ensures name in b.RootInputs() && Unchanged(a, ra, b, rb, name)
  {
    assert RenamesNode(a.nodes[a.root], b.nodes[b.root], f);
    var r := a.RootInputs()[name];
    assert a.Has(r) && b.RootInputs()[name] == RenamedRef(r, f);
    forall path: seq<Name>
      ensures Look(a, r, path) == Look(b, RenamedRef(r, f), path)
    {
      RenamedLooksAlike(a, b, f, r, path);
    }
    UnchangedIffEveryPath(a, ra, b, rb, name);
  }

  // ---------------------------------------------------------------------------------------------------------------
  // A valid machine lock
  // ---------------------------------------------------------------------------------------------------------------

  const BRANCH := "nixos-26.05"

  function FieldsOf(fields: Option<Fields>): Fields {
    if fields.Some? then fields.value else map[]
  }

  predicate Says(fields: Fields, key: string, text: string) {
    key in fields && fields[key] == Text(text)
  }

  predicate IsHex(c: char) {
    '0' <= c <= '9' || 'a' <= c <= 'f'
  }

  predicate IsRevision(v: Value) {
    v.Text? && |v.text| == 40 && forall i :: 0 <= i < 40 ==> IsHex(v.text[i])
  }

  predicate IsDigit64(c: char) {
    'A' <= c <= 'Z' || 'a' <= c <= 'z' || '0' <= c <= '9' || c == '+' || c == '/'
  }

  // A SHA-256 in base 64.
  predicate IsContentHash(v: Value) {
    v.Text? && |v.text| == 51 && v.text[..7] == "sha256-" && v.text[50] == '='
    && forall i :: 7 <= i < 50 ==> IsDigit64(v.text[i])
  }

  // The selected release: an exact revision with its content, or a content-addressed development path.
  predicate IsPinned(vendor: Node) {
    var selected, origin := FieldsOf(vendor.content.locked), FieldsOf(vendor.content.original);
    if Says(selected, "type", "github") then
      && Says(origin, "type", "github") && Says(origin, "owner", "DigitalPals") && Says(origin, "repo", "CybexOS")
      && origin.Keys == {"type", "owner", "repo", "rev"}
      && Says(selected, "owner", "DigitalPals") && Says(selected, "repo", "CybexOS")
      && IsRevision(origin["rev"]) && "rev" in selected && selected["rev"] == origin["rev"]
      && "narHash" in selected && IsContentHash(selected["narHash"])
    else
      && Says(selected, "type", "path")
      && "narHash" in selected && selected["narHash"] !in {Text(""), Other(true)}
  }

  function NixpkgsNodes(lock: Lock): set<NodeId> {
    set n | n in lock.nodes && Says(FieldsOf(lock.nodes[n].content.locked), "repo", "nixpkgs")
  }

  predicate RootIsLocked(lock: Lock, name: Name)
    requires lock.Closed()
  {
    name in lock.RootInputs() && lock.RootInputs()[name].Direct?
  }

  function RootNode(lock: Lock, name: Name): Node
    requires lock.Closed() && RootIsLocked(lock, name)
  {
    assert lock.Has(lock.RootInputs()[name]);
    lock.nodes[lock.RootInputs()[name].node]
  }

  predicate ValidMachine(lock: Lock)
    requires lock.Closed()
  {
    && RootIsLocked(lock, "nixpkgs") && RootIsLocked(lock, "cybexos")
    && RootNode(lock, "nixpkgs").content.original
       == Some(map["type" := Text("github"), "owner" := Text("NixOS"), "repo" := Text("nixpkgs"), "ref" := Text(BRANCH)])
    && var vendor := RootNode(lock, "cybexos");
      && "nixpkgs" in vendor.inputs && vendor.inputs["nixpkgs"] == Follows(["nixpkgs"])
      && IsPinned(vendor)
      && |NixpkgsNodes(lock)| == 1
  }

  // Forty digits, as of a Git revision.
  predicate FortyDigits(text: string) {
    |text| == 40 && forall i :: 0 <= i < 40 ==> '0' <= text[i] <= '9' || 'a' <= text[i] <= 'f'
  }

  // A base-64 SHA-256 in the form Nix writes.
  predicate NixHash(text: string) {
    && |text| == 51 && "sha256-" <= text && text[50] == '='
    && forall i :: 7 <= i < 50 ==>
         'A' <= text[i] <= 'Z' || 'a' <= text[i] <= 'z' || '0' <= text[i] <= '9' || text[i] in {'+', '/'}
  }

  /** The vendor input is pinned exactly if it is a release of the project at one revision, with the hash of its content,
      or a path with a hash. */
  lemma PinnedIff(vendor: Node)
    ensures var locked, origin := FieldsOf(vendor.content.locked), FieldsOf(vendor.content.original);
      IsPinned(vendor) <==>
        if "type" in locked && locked["type"] == Text("github") then
          exists rev, hash :: FortyDigits(rev) && NixHash(hash)
            && origin == map["type" := Text("github"), "owner" := Text("DigitalPals"), "repo" := Text("CybexOS"),
                             "rev" := Text(rev)]
            && "owner" in locked && locked["owner"] == Text("DigitalPals")
            && "repo" in locked && locked["repo"] == Text("CybexOS")
            && "rev" in locked && locked["rev"] == Text(rev)
            && "narHash" in locked && locked["narHash"] == Text(hash)
        else
          && "type" in locked && locked["type"] == Text("path")
          && "narHash" in locked && locked["narHash"] !in {Text(""), Other(true)}
  {
    var locked, origin := FieldsOf(vendor.content.locked), FieldsOf(vendor.content.original);
    if Says(locked, "type", "github") {
      if IsPinned(vendor) {
        var rev, hash := origin["rev"].text, locked["narHash"].text;
        assert FortyDigits(rev) && NixHash(hash);
        assert origin == map["type" := Text("github"), "owner" := Text("DigitalPals"), "repo" := Text("CybexOS"),
                             "rev" := Text(rev)];
      }
    }
  }

  /** A machine lock is valid exactly if it follows the supported branch, its vendor input is pinned and follows the
      machine's Nixpkgs, and one node alone is locked to Nixpkgs. */
  lemma ValidIff(lock: Lock)
    requires lock.Closed()
    ensures var packages, vendor := Look(lock, Direct(lock.root), ["nixpkgs"]), Look(lock, Direct(lock.root), ["cybexos"]);
      ValidMachine(lock) <==>
        && packages.Content? && vendor.Content?
        && packages.content.original ==
             Some(map["type" := Text("github"), "owner" := Text("NixOS"), "repo" := Text("nixpkgs"),
                      "ref" := Text("nixos-26.05")])
        && IsPinned(Node(vendor.content, map[]))
        && Look(lock, Direct(lock.root), ["cybexos", "nixpkgs"]) == Following(["nixpkgs"])
        && (exists n :: LockedTo(lock, n, "nixpkgs"))
        && forall m, n :: LockedTo(lock, m, "nixpkgs") && LockedTo(lock, n, "nixpkgs") ==> m == n
  {
    assert ["nixpkgs"][1..] == [] && ["cybexos"][1..] == [] && ["cybexos", "nixpkgs"][1..] == ["nixpkgs"];
    forall name | RootIsLocked(lock, name)
      ensures lock.Has(lock.RootInputs()[name])
    {
    }
    var found := NixpkgsNodes(lock);
    assert forall n :: n in found <==> LockedTo(lock, n, "nixpkgs");
    if |found| == 1 {
      var n :| n in found;
      IsSingleton(found, n);
    }
    if n :| n in found {
      if forall m :: m in found ==> m == n {
        assert found == {n};
      }
    }
  }

  predicate LockedTo(lock: Lock, n: NodeId, repo: string) {
    && n in lock.nodes && lock.nodes[n].content.locked.Some?
    && "repo" in lock.nodes[n].content.locked.value && lock.nodes[n].content.locked.value["repo"] == Text(repo)
  }

  // Distinct nodes get distinct names, and no others are there.
  ghost predicate RenamesOneToOne(a: Lock, b: Lock, f: map<NodeId, NodeId>) {
    && Renames(a, b, f)
    && (forall m, n :: m in a.nodes && n in a.nodes && f[m] == f[n] ==> m == n)
    && (forall n :: n in b.nodes ==> exists m :: m in a.nodes && f[m] == n)
  }

  lemma RenamedRootNode(a: Lock, b: Lock, f: map<NodeId, NodeId>, name: Name)
    requires Renames(a, b, f)
    ensures RootIsLocked(a, name) <==> RootIsLocked(b, name)
    ensures RootIsLocked(a, name) ==> RenamesNode(RootNode(a, name), RootNode(b, name), f)
  {
    assert RenamesNode(a.nodes[a.root], b.nodes[b.root], f);
    if RootIsLocked(a, name) {
      var n := a.RootInputs()[name].node;
      assert a.Has(a.RootInputs()[name]) && RenamesNode(a.nodes[n], b.nodes[f[n]], f);
    }
  }

  lemma RenamedNixpkgsNodes(a: Lock, b: Lock, f: map<NodeId, NodeId>)
    requires RenamesOneToOne(a, b, f)
    ensures |NixpkgsNodes(a)| == 1 <==> |NixpkgsNodes(b)| == 1
  {
    forall n | n in a.nodes
      ensures n in NixpkgsNodes(a) <==> f[n] in NixpkgsNodes(b)
    {
      assert RenamesNode(a.nodes[n], b.nodes[f[n]], f);
    }
    if |NixpkgsNodes(a)| == 1 {
      var n :| n in NixpkgsNodes(a);
      IsSingleton(NixpkgsNodes(a), n);
      assert NixpkgsNodes(b) == {f[n]};
    }
    if |NixpkgsNodes(b)| == 1 {
      var t :| t in NixpkgsNodes(b);
      IsSingleton(NixpkgsNodes(b), t);
      var n :| n in a.nodes && f[n] == t;
      assert NixpkgsNodes(a) == {n};
    }
  }

  lemma IsSingleton(s: set<NodeId>, n: NodeId)
    requires |s| == 1 && n in s
    ensures s == {n}
  {
    assert |s - {n}| == 0;
  }

  /** Renaming the nodes of a lock does not change whether it is valid. */
  lemma RenamingKeepsValidity(a: Lock, b: Lock, f: map<NodeId, NodeId>)
    requires RenamesOneToOne(a, b, f)
    ensures ValidMachine(a) <==> ValidMachine(b)
  {
    RenamedRootNode(a, b, f, "nixpkgs");
    RenamedRootNode(a, b, f, "cybexos");
    RenamedNixpkgsNodes(a, b, f);
  }

  // ---------------------------------------------------------------------------------------------------------------
  // The delta of an update
  // ---------------------------------------------------------------------------------------------------------------

  datatype Scope = Upstream | Cybexos | Both | Local

  function Allowed(scope: Scope): set<Name> {
    match scope
    case Upstream => {"nixpkgs"}
    case Cybexos => {"cybexos"}
    case Both => {"nixpkgs", "cybexos"}
    case Local => {}
  }

  ghost predicate DeltaAccepted(before: Lock, ra: map<NodeId, nat>, after: Lock, rb: map<NodeId, nat>, scope: Scope)
    requires before.Ranked(ra) && after.Ranked(rb)
  {
    && ValidMachine(after)
    && before.RootInputs().Keys == after.RootInputs().Keys
    && forall name :: name in before.RootInputs() && name !in Allowed(scope) ==> Unchanged(before, ra, after, rb, name)
  }

  /** An accepted update leads to a valid lock and keeps the set of inputs, and below every input outside its scope every
      path of names leads to what it led to before; conversely such an update is accepted. */
  lemma AcceptedIffOnlyScopeChanges(before: Lock, ra: map<NodeId, nat>, after: Lock, rb: map<NodeId, nat>, scope: Scope)
    requires before.Ranked(ra) && after.Ranked(rb)
    ensures DeltaAccepted(before, ra, after, rb, scope) <==>
      && ValidMachine(after)
      && before.RootInputs().Keys == after.RootInputs().Keys
      && forall name, path: seq<Name> ::
           name in before.RootInputs()
           && !(name == "nixpkgs" && scope in {Upstream, Both}) && !(name == "cybexos" && scope in {Cybexos, Both}) ==>
           Look(before, Direct(before.root), [name] + path) == Look(after, Direct(after.root), [name] + path)
  {
    if before.RootInputs().Keys == after.RootInputs().Keys {
      forall name | name in before.RootInputs()
        ensures Unchanged(before, ra, after, rb, name) <==> forall path: seq<Name> ::
          Look(before, Direct(before.root), [name] + path) == Look(after, Direct(after.root), [name] + path)
      {
        var r, s := before.RootInputs()[name], after.RootInputs()[name];
        UnchangedIffEveryPath(before, ra, after, rb, name);
        forall path: seq<Name>
          ensures Look(before, Direct(before.root), [name] + path) == Look(before, r, path)
          ensures Look(after, Direct(after.root), [name] + path) == Look(after, s, path)
        {
          assert ([name] + path)[1..] == path;
        }
      }
    }
  }

  // ---------------------------------------------------------------------------------------------------------------
  // The nodes under an input, also on cycles
  // ---------------------------------------------------------------------------------------------------------------

  function Children(lock: Lock, n: NodeId): set<NodeId>
    requires n in lock.nodes
  {
    set k | k in lock.nodes[n].inputs && lock.nodes[n].inputs[k].Direct? :: lock.nodes[n].inputs[k].node
  }

  // Following a path of input names from a node.
  ghost predicate Leads(lock: Lock, from: NodeId, path: seq<Name>, to: NodeId)
    decreases |path|
  {
    from in lock.nodes &&
    if path == [] then from == to
    else
      && path[0] in lock.nodes[from].inputs && lock.nodes[from].inputs[path[0]].Direct?
      && Leads(lock, lock.nodes[from].inputs[path[0]].node, path[1..], to)
  }

  ghost predicate Reachable(lock: Lock, from: NodeId, to: NodeId) {
    exists path :: Leads(lock, from, path, to)
  }

  lemma ReachableStep(lock: Lock, n: NodeId, k: Name, to: NodeId)
    requires n in lock.nodes && k in lock.nodes[n].inputs && lock.nodes[n].inputs[k].Direct?
    requires Reachable(lock, lock.nodes[n].inputs[k].node, to)
    ensures Reachable(lock, n, to)
  {
    var path :| Leads(lock, lock.nodes[n].inputs[k].node, path, to);
    assert ([k] + path)[1..] == path;
    assert Leads(lock, n, [k] + path, to);
  }

  lemma {:induction false} ClosedSetHoldsReachable(lock: Lock, nodes: set<NodeId>, from: NodeId, path: seq<Name>, to: NodeId)
    requires from in nodes && (forall n :: n in nodes ==> n in lock.nodes && Children(lock, n) <= nodes)
    requires Leads(lock, from, path, to)
    ensures to in nodes
    decreases |path|
  {
    if path != [] {
      assert lock.nodes[from].inputs[path[0]].node in Children(lock, from);
      ClosedSetHoldsReachable(lock, nodes, lock.nodes[from].inputs[path[0]].node, path[1..], to);
    }
  }

  // Nodes added since `before` have their children visited.
  ghost predicate Expanded(lock: Lock, before: set<NodeId>, visited: set<NodeId>, open: set<NodeId>) {
    && visited <= lock.nodes.Keys
    && forall n :: n in visited && n !in before && n !in open ==> Children(lock, n) <= visited
  }

  method Visit(lock: Lock, node: NodeId, before: map<NodeId, Node>) returns (result: map<NodeId, Node>)
    requires lock.Closed() && node in lock.nodes && before.Keys <= lock.nodes.Keys
    requires forall n :: n in before ==> before[n] == lock.nodes[n]
    ensures before.Keys <= result.Keys <= lock.nodes.Keys && node in result
    ensures forall n :: n in result ==> result[n] == lock.nodes[n]
    ensures Expanded(lock, before.Keys, result.Keys, {})
    ensures forall n :: n in result && n !in before ==> Reachable(lock, node, n)
    decreases lock.nodes.Keys - before.Keys
  {
    if node in before {
      return before;
    }
    result := before[node := lock.nodes[node]];
    assert Leads(lock, node, [], node);
    var names := lock.nodes[node].inputs.Keys;
    while names != {}
      invariant names <= lock.nodes[node].inputs.Keys
      invariant before.Keys + {node} <= result.Keys <= lock.nodes.Keys
      invariant forall n :: n in result ==> result[n] == lock.nodes[n]
      invariant Expanded(lock, before.Keys, result.Keys, {node})
      invariant forall n :: n in result && n !in before ==> Reachable(lock, node, n)
      invariant forall k :: k in lock.nodes[node].inputs && k !in names && lock.nodes[node].inputs[k].Direct? ==>
        lock.nodes[node].inputs[k].node in result
      decreases |names|
    {
      var k :| k in names;
      names := names - {k};
      var child := lock.nodes[node].inputs[k];
      assert lock.Has(child);
      if child.Direct? {
        var visited := result;
        result := Visit(lock, child.node, visited);
        forall n | n in result && n !in before
          ensures Reachable(lock, node, n)
        {
          if n !in visited {
            ReachableStep(lock, node, k, n);
          }
        }
      }
    }
  }

  /** The nodes under an input are exactly those reachable from it, with their content; the search ends on cycles. */
  method Graph(lock: Lock, name: Name) returns (result: map<NodeId, Node>)
    requires lock.Closed() && name in lock.RootInputs() && lock.RootInputs()[name].Direct?
    ensures forall n :: n in result <==> Reachable(lock, lock.RootInputs()[name].node, n)
    ensures forall n :: n in result ==> n in lock.nodes && result[n] == lock.nodes[n]
  {
    var start := lock.RootInputs()[name];
    assert lock.Has(start);
    result := Visit(lock, start.node, map[]);
    forall n | Reachable(lock, start.node, n)
      ensures n in result
    {
      var path :| Leads(lock, start.node, path, n);
      ClosedSetHoldsReachable(lock, result.Keys, start.node, path, n);
    }
  }
}

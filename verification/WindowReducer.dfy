/** The window list of the desktop page and the actions that change it.

    The order of the list is the stacking order; `tileOrder` places a window among the tiles of its workspace.
 */
module WindowReducer {
  import opened Wrappers

  // Applications, numbered in the alphabetical order that breaks ties.
  type AppId = nat

  const WELCOME: AppId := 6
  const SETTINGS: AppId := 2

  datatype Window = Window(id: AppId, workspace: int, minimized: bool, maximized: bool, floating: bool, tileOrder: int,
                           createdOrder: int, x: real, y: real, width: real, height: real)

  datatype Action =
    | Open(id: AppId, workspace: int, viewportWidth: real)
    | Focus(id: AppId)
    | Close(id: AppId)
    | Minimize(id: AppId)
    | Maximize(id: AppId)
    | ToggleFloating(id: AppId)
    | Swap(id: AppId, target: AppId)
    | Move(id: AppId, x: real, y: real)
    | Resize(id: AppId, width: real, height: real)
    | MoveTo(id: AppId, workspace: int)

  function InitialWindow(id: AppId, workspace: int, offset: int): Window {
    var width := if id == WELCOME then 940.0 else if id == SETTINGS then 850.0 else 800.0;
    Window(id, workspace, false, false, false, offset, 0, -1.0, (65 + offset * 24) as real, width,
           if id == WELCOME then 560.0 else 530.0)
  }

  const INITIAL := [InitialWindow(WELCOME, 1, 0)]

  // ---------------------------------------------------------------------------------------------------------------
  // Lists
  // ---------------------------------------------------------------------------------------------------------------

  function Find(s: seq<Window>, id: AppId): Option<Window> {
    if s == [] then None else if s[0].id == id then Some(s[0]) else Find(s[1..], id)
  }

  function Without(s: seq<Window>, id: AppId): seq<Window> {
    if s == [] then [] else (if s[0].id == id then [] else [s[0]]) + Without(s[1..], id)
  }

  function InWorkspace(s: seq<Window>, workspace: int): seq<Window> {
    if s == [] then [] else (if s[0].workspace == workspace then [s[0]] else []) + InWorkspace(s[1..], workspace)
  }

  function MaxTileOrder(s: seq<Window>): int {
    if s == [] then -1 else var rest := MaxTileOrder(s[1..]); if s[0].tileOrder > rest then s[0].tileOrder else rest
  }

  function MaxCreatedOrder(s: seq<Window>): int {
    if s == [] then -1
    else var rest := MaxCreatedOrder(s[1..]); if s[0].createdOrder > rest then s[0].createdOrder else rest
  }

  function NextTileOrder(s: seq<Window>, workspace: int): int {
    MaxTileOrder(InWorkspace(s, workspace)) + 1
  }

  function LeaveZoom(w: Window, workspace: int): Window {
    if w.workspace == workspace && w.maximized then w.(maximized := false) else w
  }

  function Unzoomed(s: seq<Window>, workspace: int): seq<Window> {
    seq(|s|, i requires 0 <= i < |s| => LeaveZoom(s[i], workspace))
  }

  // ---------------------------------------------------------------------------------------------------------------
  // Tiles
  // ---------------------------------------------------------------------------------------------------------------

  datatype Key = Key(order: int, id: AppId)

  function KeyOf(w: Window): Key {
    Key(w.tileOrder, w.id)
  }

  predicate Before(a: Key, b: Key) {
    a.order < b.order || (a.order == b.order && a.id < b.id)
  }

  function Insert(w: Window, sorted: seq<Window>): seq<Window> {
    if sorted == [] || !Before(KeyOf(sorted[0]), KeyOf(w)) then [w] + sorted
    else [sorted[0]] + Insert(w, sorted[1..])
  }

  function Sort(s: seq<Window>): seq<Window> {
    if s == [] then [] else Insert(s[0], Sort(s[1..]))
  }

  predicate IsTile(w: Window, workspace: int) {
    w.workspace == workspace && !w.minimized && !w.floating
  }

  function TilesOf(s: seq<Window>, workspace: int): seq<Window> {
    if s == [] then [] else (if IsTile(s[0], workspace) then [s[0]] else []) + TilesOf(s[1..], workspace)
  }

  // The tiles of a workspace in the order the layout places them.
  function TiledWindows(s: seq<Window>, workspace: int): seq<Window> {
    Sort(TilesOf(s, workspace))
  }

  function IndexOf(s: seq<Window>, w: Window): int {
    if s == [] then -1 else if s[0] == w then 0 else var rest := IndexOf(s[1..], w); if rest < 0 then rest else rest + 1
  }

  // ---------------------------------------------------------------------------------------------------------------
  // Actions
  // ---------------------------------------------------------------------------------------------------------------

  function Opened(s: seq<Window>, a: Action): seq<Window>
    requires a.Open?
  {
    var others := Unzoomed(Without(s, a.id), a.workspace);
    match Find(s, a.id)
    case Some(w) =>
      others + [w.(minimized := false, workspace := a.workspace,
                   maximized := w.workspace == a.workspace && w.maximized,
                   tileOrder := if w.workspace == a.workspace then w.tileOrder else NextTileOrder(s, a.workspace))]
    case None =>
      var next := InitialWindow(a.id, a.workspace, |InWorkspace(s, a.workspace)| % 4);
      var centered := (a.viewportWidth - next.width) / 2.0;
      others + [next.(x := if centered > 12.0 then centered else 12.0, tileOrder := NextTileOrder(s, a.workspace),
                      createdOrder := MaxCreatedOrder(s) + 1)]
  }

  predicate Swappable(w: Window, target: Window) {
    && target.id != w.id && target.workspace == w.workspace
    && !target.minimized && !w.minimized && !target.floating && !w.floating
  }

  // The place of a window in a swap: its order, or its position where the two orders are tied.
  function Place(s: seq<Window>, w: Window, target: Window, v: Window): int {
    if w.tileOrder == target.tileOrder then IndexOf(Sort(InWorkspace(s, w.workspace)), v) else v.tileOrder
  }

  function SwappedWindow(s: seq<Window>, w: Window, target: Window, v: Window): Window {
    if v.workspace != w.workspace then v
    else v.(tileOrder := Place(s, w, target, if v.id == w.id then target else if v.id == target.id then w else v))
  }

  function Swapped(s: seq<Window>, w: Window, target: Window): seq<Window> {
    seq(|s|, i requires 0 <= i < |s| => SwappedWindow(s, w, target, s[i]))
  }

  // What the remaining actions do to the addressed window, and to another one.
  function Addressed(s: seq<Window>, a: Action, w: Window): Window {
    match a
    case Minimize(_) => w.(minimized := true, maximized := false)
    case Maximize(_) => w.(maximized := !w.maximized)
    case ToggleFloating(_) => w.(floating := !w.floating)
    case Move(_, x, y) => w.(x := x, y := y)
    case Resize(_, width, height) => w.(width := width, height := height)
    case MoveTo(_, workspace) =>
      w.(workspace := workspace, maximized := w.workspace == workspace && w.maximized,
         tileOrder := if w.workspace == workspace then w.tileOrder else NextTileOrder(s, workspace))
    case _ => w
  }

  function Other(a: Action, addressed: Window, w: Window): Window {
    if a.Maximize? then LeaveZoom(w, addressed.workspace)
    else if a.MoveTo? && a.workspace != addressed.workspace then LeaveZoom(w, a.workspace)
    else w
  }

  function EachWindow(s: seq<Window>, a: Action, addressed: Window, v: Window): Window {
    if v.id != a.id then Other(a, addressed, v) else Addressed(s, a, v)
  }

  function Each(s: seq<Window>, a: Action, addressed: Window): seq<Window> {
    seq(|s|, i requires 0 <= i < |s| => EachWindow(s, a, addressed, s[i]))
  }

  function Reduce(s: seq<Window>, a: Action): seq<Window> {
    if a.Open? then Opened(s, a)
    else match Find(s, a.id)
      case None => s
      case Some(w) =>
        if a.Close? then Without(s, a.id)
        else if a.Focus? then Unzoomed(Without(s, a.id), w.workspace) + [w]
        else if a.Swap? then
          match Find(s, a.target) {
            case Some(target) => if Swappable(w, target) then Swapped(s, w, target) else s
            case None => s
          }
        else Each(s, a, w)
  }

  function Run(s: seq<Window>, actions: seq<Action>): seq<Window>
    decreases |actions|
  {
    if actions == [] then s else Run(Reduce(s, actions[0]), actions[1..])
  }

  // ---------------------------------------------------------------------------------------------------------------
  // The invariant
  // ---------------------------------------------------------------------------------------------------------------

  predicate Compatible(a: Window, b: Window) {
    && a.id != b.id && a.createdOrder != b.createdOrder
    && (a.workspace == b.workspace ==> a.tileOrder != b.tileOrder && !(a.maximized && b.maximized))
  }

  // Identities and creation orders are unique, tile orders are unique within a workspace, and at most one window of a
  // workspace is maximized.
  ghost predicate Inv(s: seq<Window>) {
    forall i, j :: 0 <= i < j < |s| ==> Compatible(s[i], s[j])
  }

  ghost predicate UniqueIds(s: seq<Window>) {
    forall i, j :: 0 <= i < j < |s| ==> s[i].id != s[j].id
  }

  lemma {:induction false} FindIs(s: seq<Window>, id: AppId)
    ensures Find(s, id).Some? ==> Find(s, id).value in s && Find(s, id).value.id == id
    ensures Find(s, id).None? ==> forall w :: w in s ==> w.id != id
  {
    if s != [] && s[0].id != id {
      FindIs(s[1..], id);
    }
  }

  lemma {:induction false} WithoutIs(s: seq<Window>, id: AppId)
    ensures forall w :: w in Without(s, id) <==> w in s && w.id != id
  {
    if s != [] {
      WithoutIs(s[1..], id);
      assert forall w :: w in s <==> w == s[0] || w in s[1..];
    }
  }

  lemma {:induction false} WithoutKeepsInv(s: seq<Window>, id: AppId)
    requires Inv(s)
    ensures Inv(Without(s, id))
  {
    if s != [] {
      WithoutKeepsInv(s[1..], id);
      WithoutIs(s[1..], id);
      if s[0].id != id {
        PrependKeepsInv(s[0], s[1..], Without(s[1..], id));
        assert [s[0]] + s[1..] == s;
      } else {
        assert Without(s, id) == Without(s[1..], id);
      }
    }
  }

  lemma PrependKeepsInv(w: Window, s: seq<Window>, part: seq<Window>)
    requires Inv([w] + s) && Inv(part) && forall v :: v in part ==> v in s
    ensures Inv([w] + part)
  {
    forall i | 0 <= i < |part|
      ensures Compatible(w, part[i])
    {
      assert part[i] in part;
      var j :| 0 <= j < |s| && s[j] == part[i];
      assert Compatible(([w] + s)[0], ([w] + s)[j + 1]);
    }
  }

  // The next order is the least that is not negative and exceeds every order of the workspace.
  lemma {:induction false} NextTileOrderIs(s: seq<Window>, workspace: int)
    ensures forall w :: w in s && w.workspace == workspace ==> w.tileOrder < NextTileOrder(s, workspace)
    ensures 0 <= NextTileOrder(s, workspace)
    ensures NextTileOrder(s, workspace) == 0
      || exists w :: w in s && w.workspace == workspace && w.tileOrder == NextTileOrder(s, workspace) - 1
  {
    if s != [] {
      NextTileOrderIs(s[1..], workspace);
      assert s[0] in s && forall w :: w in s[1..] ==> w in s;
      assert InWorkspace(s, workspace) ==
        if s[0].workspace == workspace then [s[0]] + InWorkspace(s[1..], workspace) else InWorkspace(s[1..], workspace);
    }
  }

  lemma {:induction false} MaxCreatedOrderIs(s: seq<Window>)
    ensures forall w :: w in s ==> w.createdOrder <= MaxCreatedOrder(s)
    ensures -1 <= MaxCreatedOrder(s)
    ensures MaxCreatedOrder(s) == -1 || exists w :: w in s && w.createdOrder == MaxCreatedOrder(s)
  {
    if s != [] {
      MaxCreatedOrderIs(s[1..]);
      assert s[0] in s && forall w :: w in s[1..] ==> w in s;
    }
  }

  // ---------------------------------------------------------------------------------------------------------------
  // What each action does
  // ---------------------------------------------------------------------------------------------------------------

  lemma {:induction false} FindAt(s: seq<Window>, k: nat)
    requires UniqueIds(s) && k < |s|
    ensures Find(s, s[k].id) == Some(s[k])
  {
    if k > 0 {
      FindAt(s[1..], k - 1);
    }
  }

  lemma {:induction false} WithoutUnknown(s: seq<Window>, id: AppId)
    requires forall w :: w in s ==> w.id != id
    ensures Without(s, id) == s && Find(s, id) == None
  {
    if s != [] {
      assert s[0] in s && forall w :: w in s[1..] ==> w in s;
      WithoutUnknown(s[1..], id);
    }
  }

  lemma {:induction false} WithoutAt(s: seq<Window>, k: nat)
    requires UniqueIds(s) && k < |s|
    ensures Without(s, s[k].id) == s[..k] + s[k + 1..]
  {
    var rest := s[1..];
    if k > 0 {
      WithoutAt(rest, k - 1);
      assert s[..k] + s[k + 1..] == [s[0]] + (rest[..k - 1] + rest[k..]);
    } else {
      forall w | w in rest
        ensures w.id != s[0].id
      {
        var i :| 0 <= i < |rest| && rest[i] == w;
        assert s[i + 1] == w;
      }
      WithoutUnknown(rest, s[0].id);
    }
  }

  /** An action on a window that is not there changes nothing, unless it opens it. */
  lemma UnknownIsIgnored(s: seq<Window>, a: Action)
    requires !a.Open? && forall w :: w in s ==> w.id != a.id
    ensures Reduce(s, a) == s
  {
    WithoutUnknown(s, a.id);
  }

  /** Closing takes the window out and leaves all others as they are and in their order. */
  lemma CloseRemoves(s: seq<Window>, a: Action, k: nat)
    requires UniqueIds(s) && a.Close? && k < |s| && s[k].id == a.id
    ensures Reduce(s, a) == s[..k] + s[k + 1..]
  {
    FindAt(s, k);
    WithoutAt(s, k);
  }

  // The k-th window moves to the top as `top`, the others keep their order, and those of a workspace stop being
  // maximized.
  ghost predicate Raised(s: seq<Window>, t: seq<Window>, k: nat, workspace: int, top: Window)
    requires k < |s|
  {
    && |t| == |s| && t[|s| - 1] == top
    && (forall i :: 0 <= i < k ==>
          t[i] == if s[i].workspace == workspace then s[i].(maximized := false) else s[i])
    && (forall i :: k < i < |s| ==>
          t[i - 1] == if s[i].workspace == workspace then s[i].(maximized := false) else s[i])
  }

  lemma UnzoomedIsRaised(s: seq<Window>, k: nat, workspace: int, top: Window)
    requires k < |s|
    ensures Raised(s, Unzoomed(s[..k] + s[k + 1..], workspace) + [top], k, workspace, top)
  {
    var t := Unzoomed(s[..k] + s[k + 1..], workspace) + [top];
    forall i | k < i < |s|
      ensures t[i - 1] == if s[i].workspace == workspace then s[i].(maximized := false) else s[i]
    {
      assert (s[..k] + s[k + 1..])[i - 1] == s[i];
    }
  }

  /** Focusing puts the window on top as it is; of the others only those maximized in its workspace change. */
  lemma FocusRaises(s: seq<Window>, a: Action, k: nat)
    requires UniqueIds(s) && a.Focus? && k < |s| && s[k].id == a.id
    ensures Raised(s, Reduce(s, a), k, s[k].workspace, s[k])
  {
    FindAt(s, k);
    WithoutAt(s, k);
    UnzoomedIsRaised(s, k, s[k].workspace, s[k]);
  }

  /** Opening a window that is there puts it on top, visible, in the workspace asked for: it stays as it is in its own
      one, and is the last and not maximized in another. */
  lemma OpenRaises(s: seq<Window>, a: Action, k: nat, order: int)
    requires UniqueIds(s) && a.Open? && k < |s| && s[k].id == a.id && IsNextOrder(s, a.workspace, order)
    ensures Raised(s, Reduce(s, a), k, a.workspace,
              if s[k].workspace == a.workspace then s[k].(minimized := false)
              else s[k].(minimized := false, maximized := false, workspace := a.workspace, tileOrder := order))
  {
    FindAt(s, k);
    WithoutAt(s, k);
    NextOrderIsUnique(s, a.workspace, order);
    var all := Reduce(s, a);
    UnzoomedIsRaised(s, k, a.workspace, all[|all| - 1]);
  }

  // The least order that is not negative and exceeds all orders of the workspace.
  ghost predicate IsNextOrder(s: seq<Window>, workspace: int, order: int) {
    && 0 <= order && (forall w :: w in s && w.workspace == workspace ==> w.tileOrder < order)
    && (order == 0 || exists w :: w in s && w.workspace == workspace && w.tileOrder == order - 1)
  }

  // A list without repetition has as many members as places.
  lemma {:induction false} DistinctCount(s: seq<Window>)
    requires UniqueIds(s)
    ensures |set w | w in s| == |s|
  {
    if s != [] {
      DistinctCount(s[1..]);
      assert s[0] !in s[1..];
      assert (set w | w in s) == (set w | w in s[1..]) + {s[0]};
    }
  }

  lemma WorkspaceCount(s: seq<Window>, workspace: int)
    requires UniqueIds(s)
    ensures |InWorkspace(s, workspace)| == |set w | w in s && w.workspace == workspace|
  {
    InWorkspaceIs(s, workspace);
    DistinctCount(InWorkspace(s, workspace));
    assert (set w | w in s && w.workspace == workspace) == set w | w in InWorkspace(s, workspace);
  }

  /** A new window opens on top, in the middle but not left of 12, lower for each window of its workspace up to a fourth,
      as the last tile and the last one created. */
  lemma OpenCreates(s: seq<Window>, a: Action, order: int, created: int)
    requires UniqueIds(s) && a.Open? && (forall w :: w in s ==> w.id != a.id) && IsNextOrder(s, a.workspace, order)
    requires 0 <= created && (forall w :: w in s ==> w.createdOrder < created)
    requires created == 0 || exists w :: w in s && w.createdOrder == created - 1
    ensures |Reduce(s, a)| == |s| + 1
    ensures var t, top := Reduce(s, a), Reduce(s, a)[|s|];
      && (forall i :: 0 <= i < |s| ==>
            t[i] == if s[i].workspace == a.workspace then s[i].(maximized := false) else s[i])
      && top.id == a.id && top.workspace == a.workspace && !top.minimized && !top.maximized && !top.floating
      && top.tileOrder == order && top.createdOrder == created
      && top.width == (if a.id == 6 then 940.0 else if a.id == 2 then 850.0 else 800.0)
      && top.height == (if a.id == 6 then 560.0 else 530.0)
      && top.x == (if a.viewportWidth - top.width > 24.0 then (a.viewportWidth - top.width) / 2.0 else 12.0)
      && top.y == (65 + 24 * (|set w | w in s && w.workspace == a.workspace| % 4)) as real
  {
    WithoutUnknown(s, a.id);
    NextOrderIsUnique(s, a.workspace, order);
    NextCreatedIsUnique(s, created);
    WorkspaceCount(s, a.workspace);
  }

  lemma NextOrderIsUnique(s: seq<Window>, workspace: int, order: int)
    requires IsNextOrder(s, workspace, order)
    ensures NextTileOrder(s, workspace) == order
  {
    NextTileOrderIs(s, workspace);
  }

  lemma NextCreatedIsUnique(s: seq<Window>, created: int)
    requires 0 <= created && (forall w :: w in s ==> w.createdOrder < created)
    requires created == 0 || exists w :: w in s && w.createdOrder == created - 1
    ensures MaxCreatedOrder(s) + 1 == created
  {
    MaxCreatedOrderIs(s);
  }

  // The other windows stay where they are, and those of a workspace stop being maximized if `unzoom` holds.
  ghost predicate OnlyAt(s: seq<Window>, t: seq<Window>, k: nat, w: Window, unzoom: bool, workspace: int)
    requires k < |s|
  {
    && |t| == |s| && t[k] == w
    && forall i :: 0 <= i < |s| && i != k ==>
         t[i] == if unzoom && s[i].workspace == workspace then s[i].(maximized := false) else s[i]
  }

  lemma EachIsOnlyAt(s: seq<Window>, a: Action, k: nat, unzoom: bool, workspace: int)
    requires UniqueIds(s) && k < |s| && s[k].id == a.id && !a.Open? && !a.Close? && !a.Focus? && !a.Swap?
    requires unzoom <==> a.Maximize? || (a.MoveTo? && a.workspace != s[k].workspace)
    requires unzoom ==> workspace == if a.Maximize? then s[k].workspace else a.workspace
    ensures OnlyAt(s, Reduce(s, a), k, Addressed(s, a, s[k]), unzoom, workspace)
  {
    FindAt(s, k);
    var t := Each(s, a, s[k]);
    forall i | 0 <= i < |s| && i != k
      ensures t[i] == if unzoom && s[i].workspace == workspace then s[i].(maximized := false) else s[i]
    {
      assert s[i].id != s[k].id;
      OtherIs(a, s[k], s[i]);
    }
  }

  lemma OtherIs(a: Action, w: Window, v: Window)
    ensures a.Maximize? ==> Other(a, w, v) == if v.workspace == w.workspace then v.(maximized := false) else v
    ensures a.MoveTo? ==>
      Other(a, w, v) == if a.workspace != w.workspace && v.workspace == a.workspace then v.(maximized := false) else v
    ensures !a.Maximize? && !a.MoveTo? ==> Other(a, w, v) == v
  {
  }

  /** Minimizing also ends maximizing, and maximizing ends it for the others of the workspace. */
  lemma OthersStay(s: seq<Window>, a: Action, k: nat)
    requires UniqueIds(s) && k < |s| && s[k].id == a.id
    ensures a.Minimize? ==> OnlyAt(s, Reduce(s, a), k, s[k].(minimized := true, maximized := false), false, 0)
    ensures a.Maximize? ==>
      OnlyAt(s, Reduce(s, a), k, s[k].(maximized := !s[k].maximized), true, s[k].workspace)
    ensures a.ToggleFloating? ==> OnlyAt(s, Reduce(s, a), k, s[k].(floating := !s[k].floating), false, 0)
    ensures a.Move? ==> OnlyAt(s, Reduce(s, a), k, s[k].(x := a.x, y := a.y), false, 0)
    ensures a.Resize? ==> OnlyAt(s, Reduce(s, a), k, s[k].(width := a.width, height := a.height), false, 0)
  {
    match a
    case Maximize(_) => EachIsOnlyAt(s, a, k, true, s[k].workspace);
    case Minimize(_) => EachIsOnlyAt(s, a, k, false, 0);
    case ToggleFloating(_) => EachIsOnlyAt(s, a, k, false, 0);
    case Move(_, _, _) => EachIsOnlyAt(s, a, k, false, 0);
    case Resize(_, _, _) => EachIsOnlyAt(s, a, k, false, 0);
    case _ =>
  }

  /** Moving to another workspace makes the window its last tile and ends maximizing, for the window and for all that are
      there; moving to its own workspace changes nothing. */
  lemma MoveToBringsLast(s: seq<Window>, a: Action, k: nat, order: int)
    requires UniqueIds(s) && a.MoveTo? && k < |s| && s[k].id == a.id && IsNextOrder(s, a.workspace, order)
    ensures s[k].workspace == a.workspace ==> Reduce(s, a) == s
    ensures s[k].workspace != a.workspace ==>
      OnlyAt(s, Reduce(s, a), k, s[k].(workspace := a.workspace, maximized := false, tileOrder := order), true,
        a.workspace)
  {
    NextOrderIsUnique(s, a.workspace, order);
    EachIsOnlyAt(s, a, k, s[k].workspace != a.workspace, a.workspace);
  }

  /** A swap exchanges the orders of two different visible tiles of one workspace, and is ignored otherwise. */
  lemma SwapExchanges(s: seq<Window>, a: Action, k: nat, j: nat)
    requires UniqueIds(s) && a.Swap? && k < |s| && j < |s| && s[k].id == a.id && s[j].id == a.target
    ensures k == j || s[k].workspace != s[j].workspace || s[k].minimized || s[j].minimized || s[k].floating || s[j].floating
      ==> Reduce(s, a) == s
    ensures k != j && s[k].workspace == s[j].workspace && !s[k].minimized && !s[j].minimized && !s[k].floating
      && !s[j].floating && s[k].tileOrder != s[j].tileOrder
      ==> Reduce(s, a) == s[k := s[k].(tileOrder := s[j].tileOrder)][j := s[j].(tileOrder := s[k].tileOrder)]
  {
    FindAt(s, k);
    FindAt(s, j);
  }

  lemma SwapWithUnknownIsIgnored(s: seq<Window>, a: Action)
    requires a.Swap? && forall w :: w in s ==> w.id != a.target
    ensures Reduce(s, a) == s
  {
    WithoutUnknown(s, a.target);
  }

  /** Every action keeps the invariant. */
  lemma ReduceKeepsInv(s: seq<Window>, a: Action)
    requires Inv(s)
    ensures Inv(Reduce(s, a))
  {
    WithoutKeepsInv(s, a.id);
    match a
    case Open(_, _, _) => OpenKeepsInv(s, a);
    case Swap(_, _) => SwapKeepsInv(s, a);
    case Focus(_) => FocusKeepsInv(s, a);
    case Close(_) =>
    case _ => EachKeepsInv(s, a);
  }

  lemma AppendKeepsInv(s: seq<Window>, w: Window)
    requires Inv(s) && forall v :: v in s ==> Compatible(v, w)
    ensures Inv(s + [w])
  {
  }

  lemma UnzoomedKeepsInv(s: seq<Window>, workspace: int)
    requires Inv(s)
    ensures Inv(Unzoomed(s, workspace))
  {
  }

  lemma OpenKeepsInv(s: seq<Window>, a: Action)
    requires a.Open? && Inv(s)
    ensures Inv(Opened(s, a))
  {
    FindIs(s, a.id);
    WithoutIs(s, a.id);
    WithoutKeepsInv(s, a.id);
    NextTileOrderIs(s, a.workspace);
    MaxCreatedOrderIs(s);
    var rest := Without(s, a.id);
    UnzoomedKeepsInv(rest, a.workspace);
    var others, all := Unzoomed(rest, a.workspace), Opened(s, a);
    forall v | v in others
      ensures Compatible(v, all[|all| - 1])
    {
      var i :| 0 <= i < |others| && others[i] == v;
      assert rest[i] in s && rest[i].id != a.id;
      if Find(s, a.id).Some? {
        CompatibleInside(s, rest[i], Find(s, a.id).value);
      }
    }
    AppendKeepsInv(others, all[|all| - 1]);
  }

  lemma CompatibleInside(s: seq<Window>, v: Window, w: Window)
    requires Inv(s) && v in s && w in s && v.id != w.id
    ensures Compatible(v, w)
  {
  }

  lemma FocusKeepsInv(s: seq<Window>, a: Action)
    requires a.Focus? && Inv(s)
    ensures Inv(Reduce(s, a))
  {
    FindIs(s, a.id);
    WithoutIs(s, a.id);
    if Find(s, a.id).Some? {
      var w, rest := Find(s, a.id).value, Without(s, a.id);
      WithoutKeepsInv(s, a.id);
      UnzoomedKeepsInv(rest, w.workspace);
      var others := Unzoomed(rest, w.workspace);
      forall v | v in others
        ensures Compatible(v, w)
      {
        var i :| 0 <= i < |others| && others[i] == v;
        assert rest[i] in s;
        CompatibleInside(s, rest[i], w);
      }
      AppendKeepsInv(others, w);
    }
  }

  lemma SwapKeepsInv(s: seq<Window>, a: Action)
    requires a.Swap? && Inv(s)
    ensures Inv(Reduce(s, a))
  {
    FindIs(s, a.id);
    FindIs(s, a.target);
    if Find(s, a.id).Some? && Find(s, a.target).Some? {
      var w, target := Find(s, a.id).value, Find(s, a.target).value;
      if Swappable(w, target) {
        CompatibleInside(s, w, target);
        forall i, j | 0 <= i < j < |s|
          ensures Compatible(SwappedWindow(s, w, target, s[i]), SwappedWindow(s, w, target, s[j]))
        {
          assert Compatible(s[i], s[j]) && s[i] in s && s[j] in s;
          SwapKeepsPair(s, w, target, s[i], s[j]);
        }
      }
    }
  }

  lemma SwapKeepsPair(s: seq<Window>, w: Window, target: Window, u: Window, v: Window)
    requires Inv(s) && w in s && target in s && u in s && v in s && Compatible(u, v) && Compatible(w, target)
    requires w.workspace == target.workspace
    ensures Compatible(SwappedWindow(s, w, target, u), SwappedWindow(s, w, target, v))
  {
    forall p, q | p in {u, v} && q in {w, target}
      ensures p != q ==> p.id != q.id && Compatible(p, q)
    {
      if p != q {
        DistinctInside(s, p, q);
      }
    }
  }

  lemma DistinctInside(s: seq<Window>, v: Window, w: Window)
    requires Inv(s) && v in s && w in s && v != w
    ensures v.id != w.id && Compatible(v, w)
  {
  }

  lemma EachKeepsInv(s: seq<Window>, a: Action)
    requires Inv(s) && !a.Open? && !a.Focus? && !a.Close? && !a.Swap?
    ensures Inv(Reduce(s, a))
  {
    FindIs(s, a.id);
    if Find(s, a.id).Some? {
      var w := Find(s, a.id).value;
      forall i, j | 0 <= i < j < |s|
        ensures Compatible(EachWindow(s, a, w, s[i]), EachWindow(s, a, w, s[j]))
      {
        assert Compatible(s[i], s[j]) && s[i] in s && s[j] in s;
        EachKeepsPair(s, a, w, s[i], s[j]);
      }
    }
  }

  lemma EachKeepsPair(s: seq<Window>, a: Action, w: Window, u: Window, v: Window)
    requires Inv(s) && w in s && w.id == a.id && u in s && v in s && Compatible(u, v) && !a.Swap?
    ensures Compatible(EachWindow(s, a, w, u), EachWindow(s, a, w, v))
  {
    if a.MoveTo? {
      NextTileOrderIs(s, a.workspace);
    }
    if u.id == a.id && u != w {
      DistinctInside(s, u, w);
    }
    if v.id == a.id && v != w {
      DistinctInside(s, v, w);
    }
  }

  /** Every state that the page can reach satisfies the invariant. */
  lemma {:induction false} RunKeepsInv(s: seq<Window>, actions: seq<Action>)
    requires Inv(s)
    ensures Inv(Run(s, actions))
    decreases |actions|
  {
    if actions != [] {
      ReduceKeepsInv(s, actions[0]);
      RunKeepsInv(Reduce(s, actions[0]), actions[1..]);
    }
  }

  lemma ReachableIsSound(actions: seq<Action>)
    ensures Inv(Run(INITIAL, actions))
  {
    RunKeepsInv(INITIAL, actions);
  }

  // ---------------------------------------------------------------------------------------------------------------
  // The order of tiles
  // ---------------------------------------------------------------------------------------------------------------

  function Keys(s: seq<Window>): seq<Key> {
    seq(|s|, i requires 0 <= i < |s| => KeyOf(s[i]))
  }

  function Ids(s: seq<Window>): seq<AppId> {
    seq(|s|, i requires 0 <= i < |s| => s[i].id)
  }

  function TileIds(s: seq<Window>, workspace: int): seq<AppId> {
    Ids(TiledWindows(s, workspace))
  }

  ghost predicate Ordered(s: seq<Window>) {
    forall i, j :: 0 <= i < j < |s| ==> Before(KeyOf(s[i]), KeyOf(s[j]))
  }

  lemma OrderedCons(w: Window, rest: seq<Window>)
    requires Ordered(rest) && (rest == [] || Before(KeyOf(w), KeyOf(rest[0])))
    ensures Ordered([w] + rest)
  {
    forall j | 0 <= j < |rest|
      ensures Before(KeyOf(w), KeyOf(rest[j]))
    {
      if j > 0 {
        assert Before(KeyOf(rest[0]), KeyOf(rest[j]));
      }
    }
  }

  lemma {:induction false} InsertIs(w: Window, sorted: seq<Window>)
    requires Ordered(sorted) && forall v :: v in sorted ==> v.id != w.id
    ensures forall v :: v in Insert(w, sorted) <==> v == w || v in sorted
    ensures Ordered(Insert(w, sorted)) && Insert(w, sorted) != []
    ensures Insert(w, sorted)[0] == w || (sorted != [] && Insert(w, sorted)[0] == sorted[0])
  {
    if sorted != [] && Before(KeyOf(sorted[0]), KeyOf(w)) {
      assert forall v :: v in sorted <==> v == sorted[0] || v in sorted[1..];
      InsertIs(w, sorted[1..]);
      OrderedCons(sorted[0], Insert(w, sorted[1..]));
    } else {
      OrderedCons(w, sorted);
    }
  }

  lemma {:induction false} SortIs(s: seq<Window>)
    requires UniqueIds(s)
    ensures Ordered(Sort(s)) && forall v :: v in Sort(s) <==> v in s
  {
    if s != [] {
      SortIs(s[1..]);
      assert forall v :: v in s <==> v == s[0] || v in s[1..];
      forall v | v in Sort(s[1..])
        ensures v.id != s[0].id
      {
        var i :| 0 <= i < |s| - 1 && s[1..][i] == v;
        assert s[i + 1] == v;
      }
      InsertIs(s[0], Sort(s[1..]));
    }
  }

  lemma {:induction false} TilesOfIs(s: seq<Window>, workspace: int)
    ensures forall v :: v in TilesOf(s, workspace) <==> v in s && IsTile(v, workspace)
    ensures UniqueIds(s) ==> UniqueIds(TilesOf(s, workspace))
  {
    if s != [] {
      TilesOfIs(s[1..], workspace);
      assert forall v :: v in s <==> v == s[0] || v in s[1..];
      var rest := TilesOf(s[1..], workspace);
      forall i | 0 <= i < |rest|
        ensures UniqueIds(s) ==> s[0].id != rest[i].id
      {
        assert rest[i] in s[1..];
      }
    }
  }

  lemma TiledWindowsIs(s: seq<Window>, workspace: int)
    requires UniqueIds(s)
    ensures Ordered(TiledWindows(s, workspace))
    ensures forall v :: v in TiledWindows(s, workspace) <==> v in s && IsTile(v, workspace)
  {
    TilesOfIs(s, workspace);
    SortIs(TilesOf(s, workspace));
  }

  /** The tiles of a workspace are its windows that are neither minimized nor floating, by their order and, where that is
      tied, by their identity. */
  lemma TilesAreVisible(s: seq<Window>, workspace: int)
    requires UniqueIds(s)
    ensures var tiles := TiledWindows(s, workspace);
      && (forall v :: v in tiles <==> v in s && v.workspace == workspace && !v.minimized && !v.floating)
      && (forall i, j :: 0 <= i < j < |tiles| ==>
            || tiles[i].tileOrder < tiles[j].tileOrder
            || (tiles[i].tileOrder == tiles[j].tileOrder && tiles[i].id < tiles[j].id))
  {
    TiledWindowsIs(s, workspace);
    var tiles := TiledWindows(s, workspace);
    forall i, j | 0 <= i < j < |tiles|
      ensures Before(KeyOf(tiles[i]), KeyOf(tiles[j]))
    {
    }
  }

  /** Ordered lists with the same keys name the same windows in the same order. */
  lemma {:induction false} OrderedIsUnique(a: seq<Window>, b: seq<Window>)
    requires Ordered(a) && Ordered(b)
    requires forall k :: k in Keys(a) <==> k in Keys(b)
    ensures Keys(a) == Keys(b) && Ids(a) == Ids(b)
  {
    HeadKey(a);
    HeadKey(b);
    if a != [] && b != [] {
      HeadsAgree(a, b);
      assert Keys(a) == [KeyOf(a[0])] + Keys(a[1..]) && Keys(b) == [KeyOf(b[0])] + Keys(b[1..]);
      forall k
        ensures k in Keys(a[1..]) <==> k in Keys(b[1..])
      {
        HeadIsFirst(a);
        HeadIsFirst(b);
        assert k in Keys(a) <==> k == KeyOf(a[0]) || k in Keys(a[1..]);
        assert k in Keys(b) <==> k == KeyOf(b[0]) || k in Keys(b[1..]);
      }
      OrderedIsUnique(a[1..], b[1..]);
      assert Ids(a) == [a[0].id] + Ids(a[1..]) && Ids(b) == [b[0].id] + Ids(b[1..]);
    }
  }

  lemma HeadKey(a: seq<Window>)
    ensures a != [] ==> KeyOf(a[0]) in Keys(a)
  {
    if a != [] {
      assert Keys(a)[0] in Keys(a);
    }
  }

  lemma HeadIsFirst(a: seq<Window>)
    requires Ordered(a) && a != []
    ensures KeyOf(a[0]) !in Keys(a[1..])
    ensures forall k :: k in Keys(a) ==> k == KeyOf(a[0]) || Before(KeyOf(a[0]), k)
  {
  }

  lemma HeadsAgree(a: seq<Window>, b: seq<Window>)
    requires Ordered(a) && Ordered(b) && a != [] && b != []
    requires forall k :: k in Keys(a) <==> k in Keys(b)
    ensures KeyOf(a[0]) == KeyOf(b[0])
  {
    HeadIsFirst(a);
    HeadIsFirst(b);
    assert Keys(a)[0] in Keys(a) && Keys(b)[0] in Keys(b);
  }

  // Some tile of the workspace has this key.
  ghost predicate HasTile(s: seq<Window>, workspace: int, k: Key) {
    exists v :: v in s && IsTile(v, workspace) && KeyOf(v) == k
  }

  lemma TileKeys(s: seq<Window>, workspace: int, k: Key)
    requires UniqueIds(s)
    ensures k in Keys(TiledWindows(s, workspace)) <==> HasTile(s, workspace, k)
  {
    TiledWindowsIs(s, workspace);
    var t := TiledWindows(s, workspace);
    if k in Keys(t) {
      var i :| 0 <= i < |t| && Keys(t)[i] == k;
      assert t[i] in t;
    }
    if HasTile(s, workspace, k) {
      var v :| v in s && IsTile(v, workspace) && KeyOf(v) == k;
      var i :| 0 <= i < |t| && t[i] == v;
      assert Keys(t)[i] == k;
    }
  }

  // Actions that leave every window where it is.
  predicate InPlace(a: Action) {
    a.Focus? || a.Maximize? || a.Move? || a.Resize?
  }

  lemma UnzoomedTiles(s: seq<Window>, zoomed: int, workspace: int, k: Key)
    ensures HasTile(Unzoomed(s, zoomed), workspace, k) <==> HasTile(s, workspace, k)
  {
    var t := Unzoomed(s, zoomed);
    if HasTile(s, workspace, k) {
      var i :| 0 <= i < |s| && IsTile(s[i], workspace) && KeyOf(s[i]) == k;
      assert t[i] in t;
    }
    if HasTile(t, workspace, k) {
      var i :| 0 <= i < |t| && IsTile(t[i], workspace) && KeyOf(t[i]) == k;
      assert s[i] in s;
    }
  }

  lemma EachTiles(s: seq<Window>, a: Action, w: Window, workspace: int, k: Key)
    requires !a.Open? && !a.Swap? && (k.id != a.id || InPlace(a))
    ensures HasTile(Each(s, a, w), workspace, k) <==> HasTile(s, workspace, k)
  {
    var t := Each(s, a, w);
    if HasTile(s, workspace, k) {
      var i :| 0 <= i < |s| && IsTile(s[i], workspace) && KeyOf(s[i]) == k;
      assert t[i] in t;
    }
    if HasTile(t, workspace, k) {
      var i :| 0 <= i < |t| && IsTile(t[i], workspace) && KeyOf(t[i]) == k;
      assert s[i] in s;
    }
  }

  lemma TilesKept(s: seq<Window>, a: Action, workspace: int, k: Key)
    requires Inv(s) && !a.Swap? && (k.id != a.id || InPlace(a))
    ensures HasTile(Reduce(s, a), workspace, k) <==> HasTile(s, workspace, k)
  {
    FindIs(s, a.id);
    WithoutIs(s, a.id);
    var rest, t := Without(s, a.id), Reduce(s, a);
    match a
    case Open(_, zoomed, _) =>
      UnzoomedTiles(rest, zoomed, workspace, k);
      assert t[..|t| - 1] == Unzoomed(rest, zoomed) && t == t[..|t| - 1] + [t[|t| - 1]];
      LastTile(t[..|t| - 1], t[|t| - 1], workspace, k);
    case Focus(_) =>
      if Find(s, a.id).Some? {
        var w := Find(s, a.id).value;
        UnzoomedTiles(rest, w.workspace, workspace, k);
        LastTile(Unzoomed(rest, w.workspace), w, workspace, k);
        assert forall v :: v in s && v.id == a.id ==> v == w by {
          forall v | v in s && v.id == a.id
            ensures v == w
          {
            if v != w {
              DistinctInside(s, v, w);
            }
          }
        }
      }
    case Close(_) =>
    case _ =>
      match Find(s, a.id)
      case Some(w) => EachTiles(s, a, w, workspace, k);
      case None =>
  }

  lemma LastTile(s: seq<Window>, w: Window, workspace: int, k: Key)
    ensures HasTile(s + [w], workspace, k) <==> HasTile(s, workspace, k) || (IsTile(w, workspace) && KeyOf(w) == k)
  {
    assert forall v :: v in s + [w] <==> v in s || v == w;
  }

  /** Focusing, maximizing, moving and resizing reorder no tiles of any workspace. */
  lemma InPlaceKeepsTiles(s: seq<Window>, a: Action, workspace: int)
    requires Inv(s) && InPlace(a)
    ensures TileIds(Reduce(s, a), workspace) == TileIds(s, workspace)
  {
    ReduceKeepsInv(s, a);
    TiledWindowsIs(s, workspace);
    TiledWindowsIs(Reduce(s, a), workspace);
    forall k
      ensures k in Keys(TiledWindows(Reduce(s, a), workspace)) <==> k in Keys(TiledWindows(s, workspace))
    {
      TileKeys(s, workspace, k);
      TileKeys(Reduce(s, a), workspace, k);
      TilesKept(s, a, workspace, k);
    }
    OrderedIsUnique(TiledWindows(Reduce(s, a), workspace), TiledWindows(s, workspace));
  }

  lemma {:induction false} WithoutKeepsOrder(s: seq<Window>, id: AppId)
    requires Ordered(s)
    ensures Ordered(Without(s, id))
  {
    if s != [] {
      WithoutKeepsOrder(s[1..], id);
      WithoutIs(s[1..], id);
      var rest := Without(s[1..], id);
      forall i | 0 <= i < |rest|
        ensures Before(KeyOf(s[0]), KeyOf(rest[i]))
      {
        var j :| 0 <= j < |s| - 1 && s[1..][j] == rest[i];
        assert Before(KeyOf(s[0]), KeyOf(s[j + 1]));
      }
    }
  }

  lemma {:induction false} KeysWithout(s: seq<Window>, id: AppId, k: Key)
    ensures k in Keys(Without(s, id)) <==> k in Keys(s) && k.id != id
  {
    if s != [] {
      var rest := Without(s[1..], id);
      KeysWithout(s[1..], id, k);
      assert Keys(s) == [KeyOf(s[0])] + Keys(s[1..]);
      assert Keys([s[0]] + rest) == [KeyOf(s[0])] + Keys(rest);
      assert [] + rest == rest;
    }
  }

  /** Only a swap reorders tiles: any other action leaves the order of all windows but the addressed one. */
  lemma OnlySwapReorders(s: seq<Window>, a: Action, workspace: int)
    requires Inv(s) && !a.Swap?
    ensures Ids(Without(TiledWindows(Reduce(s, a), workspace), a.id)) == Ids(Without(TiledWindows(s, workspace), a.id))
  {
    ReduceKeepsInv(s, a);
    var before, after := TiledWindows(s, workspace), TiledWindows(Reduce(s, a), workspace);
    TiledWindowsIs(s, workspace);
    TiledWindowsIs(Reduce(s, a), workspace);
    WithoutKeepsOrder(before, a.id);
    WithoutKeepsOrder(after, a.id);
    forall k
      ensures k in Keys(Without(after, a.id)) <==> k in Keys(Without(before, a.id))
    {
      KeysWithout(before, a.id, k);
      KeysWithout(after, a.id, k);
      if k.id != a.id {
        TileKeys(s, workspace, k);
        TileKeys(Reduce(s, a), workspace, k);
        TilesKept(s, a, workspace, k);
      }
    }
    OrderedIsUnique(Without(after, a.id), Without(before, a.id));
  }

  // The action brings the window into a workspace it was not in.
  predicate Arrives(s: seq<Window>, a: Action) {
    && (a.Open? || (a.MoveTo? && Find(s, a.id).Some?))
    && (Find(s, a.id).Some? ==> Find(s, a.id).value.workspace != a.workspace)
  }

  // Where the arriving window goes, if it is a tile there.
  predicate BecomesTile(s: seq<Window>, a: Action) {
    Find(s, a.id).Some? ==> !Find(s, a.id).value.floating && (a.MoveTo? ==> !Find(s, a.id).value.minimized)
  }

  lemma ArrivalKey(s: seq<Window>, a: Action, k: Key)
    requires Inv(s) && Arrives(s, a) && k.id == a.id
    ensures HasTile(Reduce(s, a), a.workspace, k) <==> BecomesTile(s, a) && k.order == NextTileOrder(s, a.workspace)
    ensures !HasTile(s, a.workspace, k)
  {
    FindIs(s, a.id);
    WithoutIs(s, a.id);
    var rest, t := Without(s, a.id), Reduce(s, a);
    forall v | v in s && v.id == a.id
      ensures Find(s, a.id) == Some(v)
    {
      if v != Find(s, a.id).value {
        DistinctInside(s, v, Find(s, a.id).value);
      }
    }
    if a.Open? {
      UnzoomedTiles(rest, a.workspace, a.workspace, k);
      assert t[..|t| - 1] == Unzoomed(rest, a.workspace) && t == t[..|t| - 1] + [t[|t| - 1]];
      LastTile(t[..|t| - 1], t[|t| - 1], a.workspace, k);
    } else {
      var i :| 0 <= i < |s| && s[i] == Find(s, a.id).value;
      assert t[i] in t && t[i] == Addressed(s, a, s[i]);
      forall v | v in t && v.id == a.id
        ensures v == t[i]
      {
        var j :| 0 <= j < |t| && t[j] == v;
        assert s[j] in s;
      }
    }
  }

  lemma AppendedKeys(tiles: seq<Window>, w: Window, k: Key)
    ensures k in Keys(tiles + [w]) <==> k in Keys(tiles) || k == KeyOf(w)
  {
    assert Keys(tiles + [w]) == Keys(tiles) + [KeyOf(w)];
  }

  lemma AppendedIsOrdered(tiles: seq<Window>, w: Window)
    requires Ordered(tiles) && forall v :: v in tiles ==> v.tileOrder < w.tileOrder
    ensures Ordered(tiles + [w]) && Ids(tiles + [w]) == Ids(tiles) + [w.id]
  {
  }

  lemma ArrivalKeys(s: seq<Window>, a: Action, k: Key)
    requires Inv(s) && Arrives(s, a)
    ensures HasTile(Reduce(s, a), a.workspace, k) <==>
      HasTile(s, a.workspace, k) || (BecomesTile(s, a) && k == Key(NextTileOrder(s, a.workspace), a.id))
  {
    if k.id == a.id {
      ArrivalKey(s, a, k);
    } else {
      TilesKept(s, a, a.workspace, k);
    }
  }

  /** A window that arrives in a workspace becomes its last tile, unless it floats or stays minimized. */
  lemma ArrivalIsLast(s: seq<Window>, a: Action)
    requires Inv(s) && Arrives(s, a)
    ensures TileIds(Reduce(s, a), a.workspace)
      == TileIds(s, a.workspace) + if BecomesTile(s, a) then [a.id] else []
  {
    ReduceKeepsInv(s, a);
    var before, after := TiledWindows(s, a.workspace), TiledWindows(Reduce(s, a), a.workspace);
    TiledWindowsIs(s, a.workspace);
    TiledWindowsIs(Reduce(s, a), a.workspace);
    var arrived := InitialWindow(a.id, a.workspace, 0).(tileOrder := NextTileOrder(s, a.workspace));
    NextTileOrderIs(s, a.workspace);
    AppendedIsOrdered(before, arrived);
    var expected := if BecomesTile(s, a) then before + [arrived] else before;
    forall k
      ensures k in Keys(after) <==> k in Keys(expected)
    {
      TileKeys(s, a.workspace, k);
      TileKeys(Reduce(s, a), a.workspace, k);
      ArrivalKeys(s, a, k);
      AppendedKeys(before, arrived, k);
    }
    OrderedIsUnique(after, expected);
  }

  // ---------------------------------------------------------------------------------------------------------------
  // Swapping
  // ---------------------------------------------------------------------------------------------------------------

  function Transposed(ids: seq<AppId>, a: AppId, b: AppId): seq<AppId> {
    seq(|ids|, i requires 0 <= i < |ids| => if ids[i] == a then b else if ids[i] == b then a else ids[i])
  }

  // No third window of the workspace has the order of one of the two, unless those are tied themselves.
  ghost predicate Untied(s: seq<Window>, w: Window, target: Window) {
    w.tileOrder == target.tileOrder
    || forall v :: v in s && v.workspace == w.workspace && v != w && v != target ==>
         v.tileOrder != w.tileOrder && v.tileOrder != target.tileOrder
  }

  function Partner(w: Window, target: Window, v: Window): Window {
    if v == w then target else if v == target then w else v
  }

  lemma {:induction false} IndexOfIs(s: seq<Window>, w: Window)
    requires w in s
    ensures 0 <= IndexOf(s, w) < |s| && s[IndexOf(s, w)] == w
  {
    if s[0] != w {
      IndexOfIs(s[1..], w);
    }
  }

  lemma {:induction false} InWorkspaceIs(s: seq<Window>, workspace: int)
    ensures forall v :: v in InWorkspace(s, workspace) <==> v in s && v.workspace == workspace
    ensures UniqueIds(s) ==> UniqueIds(InWorkspace(s, workspace))
  {
    if s != [] {
      InWorkspaceIs(s[1..], workspace);
      assert forall v :: v in s <==> v == s[0] || v in s[1..];
      var rest := InWorkspace(s[1..], workspace);
      forall i | 0 <= i < |rest|
        ensures UniqueIds(s) ==> s[0].id != rest[i].id
      {
        assert rest[i] in s[1..];
      }
    }
  }

  lemma OrderedBefore(sorted: seq<Window>, i: nat, u: Window)
    requires Ordered(sorted) && i < |sorted|
    ensures u in sorted[..i] <==> u in sorted && Before(KeyOf(u), KeyOf(sorted[i]))
  {
    if u in sorted {
      var j :| 0 <= j < |sorted| && sorted[j] == u;
      assert j > i ==> Before(KeyOf(sorted[i]), KeyOf(sorted[j]));
      assert j < i ==> Before(KeyOf(sorted[j]), KeyOf(sorted[i])) && sorted[..i][j] == u;
    }
  }

  lemma {:induction false} OrderedIsDistinct(sorted: seq<Window>)
    requires Ordered(sorted)
    ensures |set u | u in sorted| == |sorted|
  {
    if sorted != [] {
      OrderedIsDistinct(sorted[1..]);
      assert forall i :: 0 < i < |sorted| ==> Before(KeyOf(sorted[0]), KeyOf(sorted[i]));
      assert sorted[0] !in sorted[1..];
      assert (set u | u in sorted) == (set u | u in sorted[1..]) + {sorted[0]};
    }
  }

  /** Where two windows are tied, the place of a window is the number of those before it in the workspace. */
  lemma PlaceCounts(s: seq<Window>, w: Window, target: Window, v: Window)
    requires UniqueIds(s) && v in s && v.workspace == w.workspace
    ensures w.tileOrder != target.tileOrder ==> Place(s, w, target, v) == v.tileOrder
    ensures w.tileOrder == target.tileOrder ==>
      Place(s, w, target, v) == |set u | u in s && u.workspace == w.workspace && Before(KeyOf(u), KeyOf(v))|
  {
    var sorted := Sort(InWorkspace(s, w.workspace));
    InWorkspaceIs(s, w.workspace);
    SortIs(InWorkspace(s, w.workspace));
    IndexOfIs(sorted, v);
    var i := IndexOf(sorted, v);
    forall u
      ensures u in sorted[..i] <==> u in s && u.workspace == w.workspace && Before(KeyOf(u), KeyOf(v))
    {
      OrderedBefore(sorted, i, u);
    }
    OrderedIsDistinct(sorted[..i]);
    assert (set u | u in s && u.workspace == w.workspace && Before(KeyOf(u), KeyOf(v))) == set u | u in sorted[..i];
  }

  /** The places of a swap are ordered like the windows, also where orders are tied. */
  lemma PlacesAreOrdered(s: seq<Window>, w: Window, target: Window, u: Window, v: Window)
    requires UniqueIds(s) && u in s && v in s && u.workspace == w.workspace && v.workspace == w.workspace
    requires Before(KeyOf(u), KeyOf(v))
    ensures Place(s, w, target, u) <= Place(s, w, target, v)
    ensures w.tileOrder == target.tileOrder || u.tileOrder != v.tileOrder ==>
      Place(s, w, target, u) < Place(s, w, target, v)
  {
    var sorted := Sort(InWorkspace(s, w.workspace));
    InWorkspaceIs(s, w.workspace);
    SortIs(InWorkspace(s, w.workspace));
    IndexOfIs(sorted, u);
    IndexOfIs(sorted, v);
    assert IndexOf(sorted, v) < IndexOf(sorted, u) ==> Before(KeyOf(v), KeyOf(u));
  }

  // The tiles after the swap, in the order of the tiles before it.
  function Exchanged(s: seq<Window>, w: Window, target: Window): seq<Window> {
    var tiles := TiledWindows(s, w.workspace);
    seq(|tiles|, i requires 0 <= i < |tiles| => SwappedWindow(s, w, target, Partner(w, target, tiles[i])))
  }

  lemma PartnerSwaps(s: seq<Window>, w: Window, target: Window, v: Window)
    requires UniqueIds(s) && w in s && target in s && v in s && Swappable(w, target) && v.workspace == w.workspace
    ensures KeyOf(SwappedWindow(s, w, target, Partner(w, target, v)))
      == Key(Place(s, w, target, v), Partner(w, target, v).id)
  {
    UniqueInside(s, v, w);
    UniqueInside(s, v, target);
  }

  lemma UniqueInside(s: seq<Window>, v: Window, w: Window)
    requires UniqueIds(s) && v in s && w in s
    ensures v.id == w.id ==> v == w
  {
  }

  lemma ExchangedIsOrdered(s: seq<Window>, w: Window, target: Window)
    requires UniqueIds(s) && w in s && target in s && Swappable(w, target) && Untied(s, w, target)
    ensures Ordered(Exchanged(s, w, target))
  {
    var tiles := TiledWindows(s, w.workspace);
    TiledWindowsIs(s, w.workspace);
    forall i, j | 0 <= i < j < |tiles|
      ensures Before(KeyOf(Exchanged(s, w, target)[i]), KeyOf(Exchanged(s, w, target)[j]))
    {
      assert tiles[i] in tiles && tiles[j] in tiles;
      PlacesAreOrdered(s, w, target, tiles[i], tiles[j]);
      PartnerSwaps(s, w, target, tiles[i]);
      PartnerSwaps(s, w, target, tiles[j]);
    }
  }

  lemma ExchangedHasTiles(s: seq<Window>, w: Window, target: Window, k: Key)
    requires UniqueIds(s) && w in s && target in s && Swappable(w, target)
    ensures k in Keys(Exchanged(s, w, target)) <==> HasTile(Swapped(s, w, target), w.workspace, k)
  {
    var tiles, e, t := TiledWindows(s, w.workspace), Exchanged(s, w, target), Swapped(s, w, target);
    TiledWindowsIs(s, w.workspace);
    if k in Keys(e) {
      var i :| 0 <= i < |tiles| && KeyOf(e[i]) == k;
      assert tiles[i] in tiles;
      var p := Partner(w, target, tiles[i]);
      var j :| 0 <= j < |s| && s[j] == p;
      assert t[j] in t && t[j] == e[i];
    }
    if HasTile(t, w.workspace, k) {
      var j :| 0 <= j < |s| && IsTile(t[j], w.workspace) && KeyOf(t[j]) == k;
      assert s[j] in s;
      var p := Partner(w, target, s[j]);
      assert p in tiles && Partner(w, target, p) == s[j];
      var i :| 0 <= i < |tiles| && tiles[i] == p;
      assert Keys(e)[i] == k;
    }
  }

  lemma SwappedIsUnique(s: seq<Window>, w: Window, target: Window)
    requires UniqueIds(s)
    ensures UniqueIds(Swapped(s, w, target))
  {
  }

  /** An accepted swap is a transposition of the tiles, also of two tied ones. */
  lemma SwapTransposes(s: seq<Window>, a: Action)
    requires a.Swap? && UniqueIds(s) && Find(s, a.id).Some? && Find(s, a.target).Some?
    requires Swappable(Find(s, a.id).value, Find(s, a.target).value)
    requires Untied(s, Find(s, a.id).value, Find(s, a.target).value)
    ensures var workspace := Find(s, a.id).value.workspace;
      TileIds(Reduce(s, a), workspace) == Transposed(TileIds(s, workspace), a.id, a.target)
  {
    FindIs(s, a.id);
    FindIs(s, a.target);
    var w, target := Find(s, a.id).value, Find(s, a.target).value;
    var t, tiles, e := Swapped(s, w, target), TiledWindows(s, w.workspace), Exchanged(s, w, target);
    SwappedIsUnique(s, w, target);
    TiledWindowsIs(s, w.workspace);
    TiledWindowsIs(t, w.workspace);
    ExchangedIsOrdered(s, w, target);
    forall k
      ensures k in Keys(TiledWindows(t, w.workspace)) <==> k in Keys(e)
    {
      TileKeys(t, w.workspace, k);
      ExchangedHasTiles(s, w, target, k);
    }
    OrderedIsUnique(TiledWindows(t, w.workspace), e);
    forall i | 0 <= i < |tiles|
      ensures e[i].id == Transposed(TileIds(s, w.workspace), a.id, a.target)[i]
    {
      assert tiles[i] in tiles;
      UniqueInside(s, tiles[i], w);
      UniqueInside(s, tiles[i], target);
    }
  }

  /** In every reachable state an accepted swap is a transposition, and swapping again takes it back. */
  lemma ReachableSwapTransposes(s: seq<Window>, a: Action)
    requires a.Swap? && Inv(s) && Find(s, a.id).Some? && Find(s, a.target).Some?
    requires Swappable(Find(s, a.id).value, Find(s, a.target).value)
    ensures var workspace := Find(s, a.id).value.workspace;
      TileIds(Reduce(s, a), workspace) == Transposed(TileIds(s, workspace), a.id, a.target)
    ensures Reduce(Reduce(s, a), a) == s
  {
    FindIs(s, a.id);
    FindIs(s, a.target);
    var w, target := Find(s, a.id).value, Find(s, a.target).value;
    forall v | v in s && v.workspace == w.workspace && v != w && v != target
      ensures v.tileOrder != w.tileOrder && v.tileOrder != target.tileOrder
    {
      DistinctInside(s, v, w);
      DistinctInside(s, v, target);
    }
    SwapTransposes(s, a);
    SwapTwice(s, w, target);
  }

  lemma {:induction false} FindInSwapped(s: seq<Window>, t: seq<Window>, id: AppId)
    requires |t| == |s| && forall i :: 0 <= i < |s| ==> t[i].id == s[i].id
    ensures Find(t, id).Some? <==> Find(s, id).Some?
    ensures Find(s, id).Some? ==> exists i :: 0 <= i < |s| && s[i] == Find(s, id).value && t[i] == Find(t, id).value
  {
    if s != [] && s[0].id != id {
      FindInSwapped(s[1..], t[1..], id);
      if Find(s, id).Some? {
        var i :| 0 <= i < |s| - 1 && s[1..][i] == Find(s, id).value && t[1..][i] == Find(t, id).value;
        assert s[i + 1] == Find(s, id).value;
      }
    }
  }

  lemma SwapBack(s: seq<Window>, t: seq<Window>, w: Window, target: Window, x: Window)
    requires UniqueIds(s) && w in s && target in s && x in s && Swappable(w, target) && w.tileOrder != target.tileOrder
    ensures SwappedWindow(t, w.(tileOrder := target.tileOrder), target.(tileOrder := w.tileOrder),
              SwappedWindow(s, w, target, x)) == x
  {
    UniqueInside(s, x, w);
    UniqueInside(s, x, target);
  }

  lemma FoundAfterSwap(s: seq<Window>, w: Window, target: Window)
    requires Inv(s) && Find(s, w.id) == Some(w) && Find(s, target.id) == Some(target) && Swappable(w, target)
    ensures w.tileOrder != target.tileOrder
    ensures Find(Swapped(s, w, target), w.id) == Some(w.(tileOrder := target.tileOrder))
    ensures Find(Swapped(s, w, target), target.id) == Some(target.(tileOrder := w.tileOrder))
  {
    FindIs(s, w.id);
    FindIs(s, target.id);
    DistinctInside(s, w, target);
    FindInSwapped(s, Swapped(s, w, target), w.id);
    FindInSwapped(s, Swapped(s, w, target), target.id);
  }

  lemma SwapTwice(s: seq<Window>, w: Window, target: Window)
    requires Inv(s) && Find(s, w.id) == Some(w) && Find(s, target.id) == Some(target) && Swappable(w, target)
    ensures Reduce(Swapped(s, w, target), Swap(w.id, target.id)) == s
  {
    var t, u, v := Swapped(s, w, target), w.(tileOrder := target.tileOrder), target.(tileOrder := w.tileOrder);
    FindIs(s, w.id);
    FindIs(s, target.id);
    FoundAfterSwap(s, w, target);
    forall x | x in s
      ensures SwappedWindow(t, u, v, SwappedWindow(s, w, target, x)) == x
    {
      SwapBack(s, t, w, target, x);
    }
    assert Swapped(t, u, v) == s;
  }

  const TIED := [InitialWindow(0, 1, 0), InitialWindow(1, 1, 0), InitialWindow(2, 1, 1)]

  /** Outside reachable states it may fail: a third window tied with one of the two changes places as well. */
  lemma ThirdTieMovesToo()
    ensures UniqueIds(TIED) && Swappable(TIED[0], TIED[2])
    ensures TileIds(TIED, 1) == [0, 1, 2] && TileIds(Reduce(TIED, Swap(0, 2)), 1) == [1, 2, 0]
  {
    var x, y, z := TIED[0], TIED[1], TIED[2];
    SortThree(x, y, z);
    assert Sort([z]) == [z] && Sort([y, z]) == [y, z];
    var p, q := x.(tileOrder := 1), z.(tileOrder := 0);
    assert TIED[1..] == [y, z] && [y, z][1..] == [z];
    assert Find(TIED, 2) == Some(z);
    assert Reduce(TIED, Swap(0, 2)) == [p, y, q];
    SortThree(p, y, q);
    assert Sort([q]) == [q] && Sort([y, q]) == [y, q];
    assert [y, q][1..] == [q];
    assert Insert(p, [q]) == [q] + [p];
  }

  lemma TilesOfCons(w: Window, rest: seq<Window>)
    requires IsTile(w, 1)
    ensures TilesOf([w] + rest, 1) == [w] + TilesOf(rest, 1)
  {
    assert ([w] + rest)[1..] == rest;
  }

  lemma SortCons(w: Window, rest: seq<Window>)
    ensures Sort([w] + rest) == Insert(w, Sort(rest))
  {
    assert ([w] + rest)[1..] == rest;
  }

  lemma SortThree(a: Window, b: Window, c: Window)
    requires IsTile(a, 1) && IsTile(b, 1) && IsTile(c, 1)
    ensures TiledWindows([a, b, c], 1) == Insert(a, Insert(b, [c]))
  {
    assert [a] + ([b] + ([c] + [])) == [a, b, c];
    TilesOfCons(c, []);
    TilesOfCons(b, [c] + []);
    TilesOfCons(a, [b] + ([c] + []));
    assert TilesOf([a, b, c], 1) == [a] + ([b] + ([c] + []));
    SortCons(c, []);
    SortCons(b, [c] + []);
    SortCons(a, [b] + ([c] + []));
    assert Insert(c, []) == [c] + [] == [c];
  }
}

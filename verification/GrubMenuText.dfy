/** Reading the text of a generated GRUB menu: a loop over classified lines with a stack of open braces.

    A text is balanced if its braces are. Every balanced text has a syntax tree; `ReadingIsMeaning` proves that the loop
    computes what the syntax means, and `ReadsIffBalanced` that it accepts nothing else.
 */
module GrubMenuText {
  import opened Wrappers
  import opened GrubMenu

  // A line as the reader classifies it. A recognised linux command names the system it boots.
  datatype Line =
    | Comment
    | OpenEntry(id: Option<Ident>, title: string)
    | OpenSubmenu(id: Option<Ident>, title: string)
    | OpenBlock
    | Close
    | Linux(system: Option<System>)
    | Plain

  // ---------------------------------------------------------------------------------------------------------------
  // The meaning of a text
  // ---------------------------------------------------------------------------------------------------------------

  datatype Syntax =
    | Simple(line: Line)
    | InBlock(body: seq<Syntax>)
    | InEntry(id: Option<Ident>, title: string, body: seq<Syntax>)
    | InSubmenu(id: Option<Ident>, title: string, body: seq<Syntax>)

  predicate IsSyntax(body: seq<Syntax>) {
    forall i :: 0 <= i < |body| ==> IsItem(body[i])
  }

  predicate IsItem(s: Syntax) {
    match s
    case Simple(line) => line.Comment? || line.Linux? || line.Plain?
    case InBlock(body) => IsSyntax(body)
    case InEntry(_, _, body) => IsSyntax(body)
    case InSubmenu(_, _, body) => IsSyntax(body)
  }

  function Lines(body: seq<Syntax>): seq<Line> {
    if body == [] then [] else LinesOf(body[0]) + Lines(body[1..])
  }

  function LinesOf(s: Syntax): seq<Line> {
    match s
    case Simple(line) => [line]
    case InBlock(body) => [OpenBlock] + Lines(body) + [Close]
    case InEntry(id, title, body) => [OpenEntry(id, title)] + Lines(body) + [Close]
    case InSubmenu(id, title, body) => [OpenSubmenu(id, title)] + Lines(body) + [Close]
  }

  // The linux commands directly in a body, not those in its inner braces.
  function Commands(body: seq<Syntax>): seq<Option<System>> {
    if body == [] then []
    else (if body[0].Simple? && body[0].line.Linux? then [body[0].line.system] else []) + Commands(body[1..])
  }

  // An entry boots a system if it has exactly one linux command, and that one is recognised.
  function Booted(commands: seq<Option<System>>): Option<System> {
    if |commands| == 1 then commands[0] else None
  }

  // The nodes of a body. What stands inside a block or an entry belongs to the menu around it.
  function Meaning(body: seq<Syntax>): seq<Node> {
    if body == [] then [] else MeaningOf(body[0]) + Meaning(body[1..])
  }

  function MeaningOf(s: Syntax): seq<Node> {
    match s
    case Simple(_) => []
    case InBlock(body) => Meaning(body)
    case InEntry(id, title, body) => [Entry(id, title, Booted(Commands(body)))] + Meaning(body)
    case InSubmenu(id, title, body) => [Submenu(id, title, Meaning(body))]
  }

  // ---------------------------------------------------------------------------------------------------------------
  // The reader
  // ---------------------------------------------------------------------------------------------------------------

  // An open brace. A menu collects nodes; the place of a node is its index in the menu around it.
  datatype Frame =
    | Menu(id: Option<Ident>, title: string, nodes: seq<Node>, place: nat)
    | EntryAt(commands: seq<Option<System>>, place: nat)
    | Block

  const ROOT := Menu(None, "", [], 0)

  // The innermost open menu.
  function Innermost(stack: seq<Frame>): Option<nat> {
    if stack == [] then None
    else if stack[|stack| - 1].Menu? then Some(|stack| - 1)
    else Innermost(stack[..|stack| - 1])
  }

  predicate Rooted(stack: seq<Frame>) {
    stack != [] && stack[0].Menu?
  }

  lemma {:induction false} InnermostIs(stack: seq<Frame>)
    requires Rooted(stack)
    ensures Innermost(stack).Some?
    ensures var n := Innermost(stack).value; n < |stack| && stack[n].Menu? && forall k :: n < k < |stack| ==> !stack[k].Menu?
  {
    if !stack[|stack| - 1].Menu? {
      InnermostIs(stack[..|stack| - 1]);
    }
  }

  function NodesOf(stack: seq<Frame>): seq<Node>
    requires Rooted(stack)
  {
    InnermostIs(stack);
    stack[Innermost(stack).value].nodes
  }

  function WithNodes(stack: seq<Frame>, nodes: seq<Node>): (r: seq<Frame>)
    requires Rooted(stack)
    ensures Rooted(r) && |r| == |stack|
  {
    InnermostIs(stack);
    var n := Innermost(stack).value;
    stack[n := stack[n].(nodes := nodes)]
  }

  function Replace(nodes: seq<Node>, place: nat, node: Node): seq<Node> {
    if place < |nodes| then nodes[place := node] else nodes
  }

  // A node is placed when it opens; an entry learns what it boots, and a submenu what it holds, by the time it closes.
  function Step(stack: seq<Frame>, line: Line): (r: Option<seq<Frame>>)
    requires Rooted(stack)
    ensures r.Some? ==> Rooted(r.value)
  {
    var top := stack[|stack| - 1];
    match line
    case OpenEntry(id, title) =>
      var nodes := NodesOf(stack);
      Some(WithNodes(stack, nodes + [Entry(id, title, None)]) + [EntryAt([], |nodes|)])
    case OpenSubmenu(id, title) =>
      var nodes := NodesOf(stack);
      Some(WithNodes(stack, nodes + [Submenu(id, title, [])]) + [Menu(id, title, [], |nodes|)])
    case OpenBlock => Some(stack + [Block])
    case Close =>
      if |stack| == 1 then None
      else
        var rest := stack[..|stack| - 1];
        Some(match top
             case Menu(id, title, nodes, place) =>
               WithNodes(rest, Replace(NodesOf(rest), place, Submenu(id, title, nodes)))
             case EntryAt(commands, place) => Started(rest, place, Booted(commands))
             case Block => rest)
    case Linux(system) =>
      Some(if top.EntryAt? then stack[|stack| - 1 := top.(commands := top.commands + [system])] else stack)
    case _ => Some(stack)
  }

  function Started(stack: seq<Frame>, place: nat, system: Option<System>): (r: seq<Frame>)
    requires Rooted(stack)
    ensures Rooted(r)
  {
    var nodes := NodesOf(stack);
    if place < |nodes| && nodes[place].Entry? then
      WithNodes(stack, nodes[place := nodes[place].(system := system)])
    else stack
  }

  function Run(stack: seq<Frame>, lines: seq<Line>): (r: Option<seq<Frame>>)
    requires Rooted(stack)
    ensures r.Some? ==> Rooted(r.value)
    decreases |lines|
  {
    if lines == [] then Some(stack)
    else match Step(stack, lines[0])
      case None => None
      case Some(next) => Run(next, lines[1..])
  }

  function ReadMenu(lines: seq<Line>): Result<seq<Node>> {
    match Run([ROOT], lines)
    case None => Failure
    case Some(stack) => if |stack| == 1 then Success(stack[0].nodes) else Failure
  }

  method Read(lines: seq<Line>) returns (r: Result<seq<Node>>)
    ensures r == ReadMenu(lines)
  {
    var stack := [ROOT];
    for i := 0 to |lines|
      invariant Rooted(stack)
      invariant Run(stack, lines[i..]) == Run([ROOT], lines)
    {
      assert lines[i..][0] == lines[i] && lines[i..][1..] == lines[i + 1..];
      var next := Step(stack, lines[i]);
      if next.None? {
        return Failure;
      }
      stack := next.value;
    }
    r := if |stack| == 1 then Success(stack[0].nodes) else Failure;
  }

  // ---------------------------------------------------------------------------------------------------------------
  // Reading computes the meaning
  // ---------------------------------------------------------------------------------------------------------------

  // The stack after a body with these commands and nodes was read.
  function Added(stack: seq<Frame>, commands: seq<Option<System>>, nodes: seq<Node>): (r: seq<Frame>)
    requires Rooted(stack)
    ensures Rooted(r)
  {
    var s, n := WithNodes(stack, NodesOf(stack) + nodes), |stack| - 1;
    if s[n].EntryAt? then s[n := s[n].(commands := s[n].commands + commands)] else s
  }

  lemma PushedFrame(stack: seq<Frame>, f: Frame, nodes: seq<Node>)
    requires Rooted(stack)
    ensures Rooted(stack + [f])
    ensures f.Menu? ==> NodesOf(stack + [f]) == f.nodes && WithNodes(stack + [f], nodes) == stack + [f.(nodes := nodes)]
    ensures !f.Menu? ==>
      NodesOf(stack + [f]) == NodesOf(stack) && WithNodes(stack + [f], nodes) == WithNodes(stack, nodes) + [f]
  {
    assert (stack + [f])[..|stack|] == stack;
    InnermostIs(stack);
  }

  lemma NodesOfWithNodes(stack: seq<Frame>, nodes: seq<Node>, more: seq<Node>)
    requires Rooted(stack)
    ensures NodesOf(WithNodes(stack, nodes)) == nodes
    ensures WithNodes(WithNodes(stack, nodes), more) == WithNodes(stack, more)
  {
    InnermostIs(stack);
    SameInnermost(stack, WithNodes(stack, nodes));
  }

  lemma {:induction false} SameInnermost(a: seq<Frame>, b: seq<Frame>)
    requires |a| == |b| && forall i :: 0 <= i < |a| ==> (a[i].Menu? <==> b[i].Menu?)
    ensures Innermost(a) == Innermost(b)
  {
    if a != [] {
      SameInnermost(a[..|a| - 1], b[..|b| - 1]);
    }
  }

  lemma {:induction false} RunSplit(stack: seq<Frame>, a: seq<Line>, b: seq<Line>)
    requires Rooted(stack)
    ensures Run(stack, a + b) == match Run(stack, a) { case None => None case Some(next) => Run(next, b) }
    decreases |a|
  {
    if a == [] {
      assert a + b == b;
    } else {
      assert (a + b)[0] == a[0] && (a + b)[1..] == a[1..] + b;
      if Step(stack, a[0]).Some? {
        RunSplit(Step(stack, a[0]).value, a[1..], b);
      }
    }
  }

  lemma AddedOnPush(stack: seq<Frame>, f: Frame, commands: seq<Option<System>>, nodes: seq<Node>)
    requires Rooted(stack)
    ensures Rooted(stack + [f])
    ensures Added(stack + [f], commands, nodes) ==
      match f
      case Menu(_, _, held, _) => stack + [f.(nodes := held + nodes)]
      case EntryAt(before, _) => WithNodes(stack, NodesOf(stack) + nodes) + [f.(commands := before + commands)]
      case Block => WithNodes(stack, NodesOf(stack) + nodes) + [f]
  {
    PushedFrame(stack, f, NodesOf(stack + [f]) + nodes);
  }

  lemma AddedNodes(stack: seq<Frame>, nodes: seq<Node>)
    requires Rooted(stack)
    ensures Added(stack, [], nodes) == WithNodes(stack, NodesOf(stack) + nodes)
  {
    var s, n := WithNodes(stack, NodesOf(stack) + nodes), |stack| - 1;
    if s[n].EntryAt? {
      assert s[n].commands + [] == s[n].commands;
    }
  }

  lemma OwnNodes(stack: seq<Frame>)
    requires Rooted(stack)
    ensures WithNodes(stack, NodesOf(stack) + []) == stack
  {
    InnermostIs(stack);
    assert NodesOf(stack) + [] == NodesOf(stack);
  }

  lemma AddedNothing(stack: seq<Frame>)
    requires Rooted(stack)
    ensures Added(stack, [], []) == stack
  {
    AddedNodes(stack, []);
    OwnNodes(stack);
  }

  lemma AddedTwice(stack: seq<Frame>, c: seq<Option<System>>, m: seq<Node>, d: seq<Option<System>>, n: seq<Node>)
    requires Rooted(stack)
    ensures Added(Added(stack, c, m), d, n) == Added(stack, c + d, m + n)
  {
    var once := Added(stack, c, m);
    NodesOfWithNodes(stack, NodesOf(stack) + m, NodesOf(stack) + m + n);
    InnermostIs(stack);
    SameInnermost(stack, once);
    assert NodesOf(once) == NodesOf(stack) + m;
    assert NodesOf(stack) + m + n == NodesOf(stack) + (m + n);
    var top := stack[|stack| - 1];
    if top.EntryAt? {
      assert top.commands + c + d == top.commands + (c + d);
    }
    assert Added(once, d, n) == Added(stack, c + d, m + n);
  }

  lemma RunBraces(stack: seq<Frame>, open: Line, inner: seq<Line>, entered: seq<Frame>, filled: seq<Frame>)
    requires Rooted(stack) && Rooted(entered) && Rooted(filled)
    requires Step(stack, open) == Some(entered) && Run(entered, inner) == Some(filled)
    ensures Run(stack, [open] + inner + [Close]) == Step(filled, Close)
  {
    var lines := [open] + inner + [Close];
    assert lines[1..] == inner + [Close];
    RunSplit(entered, inner, [Close]);
    RunOne(filled, Close);
  }

  function CommandsOf(s: Syntax): seq<Option<System>> {
    if s.Simple? && s.line.Linux? then [s.line.system] else []
  }

  lemma {:induction false} ItemReads(stack: seq<Frame>, s: Syntax)
    requires Rooted(stack) && IsItem(s)
    ensures Run(stack, LinesOf(s)) == Some(Added(stack, CommandsOf(s), MeaningOf(s)))
    decreases s
  {
    match s
    case Simple(line) => SimpleReads(stack, line);
    case InBlock(body) =>
      BodyReads(stack + [Block], body);
      BlockReads(stack, body);
    case InEntry(id, title, body) =>
      var entered := Step(stack, OpenEntry(id, title)).value;
      BodyReads(entered, body);
      EntryReads(stack, OpenEntry(id, title), body, Entry(id, title, None), entered);
    case InSubmenu(id, title, body) =>
      var entered := Step(stack, OpenSubmenu(id, title)).value;
      BodyReads(entered, body);
      SubmenuReads(stack, OpenSubmenu(id, title), body, id, title, entered);
  }

  lemma SimpleReads(stack: seq<Frame>, line: Line)
    requires Rooted(stack) && IsItem(Simple(line))
    ensures Run(stack, [line]) == Some(Added(stack, CommandsOf(Simple(line)), []))
  {
    AddedNothing(stack);
    OwnNodes(stack);
    RunOne(stack, line);
  }

  lemma RunOne(stack: seq<Frame>, line: Line)
    requires Rooted(stack)
    ensures Run(stack, [line]) == Step(stack, line)
  {
    assert [line][1..] == [];
  }

  lemma BlockReads(stack: seq<Frame>, body: seq<Syntax>)
    requires Rooted(stack)
    requires Run(stack + [Block], Lines(body)) == Some(Added(stack + [Block], Commands(body), Meaning(body)))
    ensures Run(stack, LinesOf(InBlock(body))) == Some(Added(stack, [], Meaning(body)))
  {
    var filled := Added(stack + [Block], Commands(body), Meaning(body));
    AddedOnPush(stack, Block, Commands(body), Meaning(body));
    RunBraces(stack, OpenBlock, Lines(body), stack + [Block], filled);
    AddedNodes(stack, Meaning(body));
    assert filled[..|filled| - 1] == WithNodes(stack, NodesOf(stack) + Meaning(body));
  }

  // The body of an entry was read behind its node, which stands at the given place.
  lemma EntryFills(stack: seq<Frame>, node: Node, commands: seq<Option<System>>, inner: seq<Node>)
    requires Rooted(stack)
    ensures var nodes := NodesOf(stack);
      Added(WithNodes(stack, nodes + [node]) + [EntryAt([], |nodes|)], commands, inner)
      == WithNodes(stack, nodes + [node] + inner) + [EntryAt(commands, |nodes|)]
  {
    var nodes := NodesOf(stack);
    NodesOfWithNodes(stack, nodes + [node], nodes + [node] + inner);
    AddedOnPush(WithNodes(stack, nodes + [node]), EntryAt([], |nodes|), commands, inner);
    assert [] + commands == commands;
  }

  lemma EntryCloses(stack: seq<Frame>, node: Node, commands: seq<Option<System>>, inner: seq<Node>)
    requires Rooted(stack) && node.Entry?
    ensures var nodes := NodesOf(stack);
      Step(WithNodes(stack, nodes + [node] + inner) + [EntryAt(commands, |nodes|)], Close)
      == Some(WithNodes(stack, nodes + ([node.(system := Booted(commands))] + inner)))
  {
    var nodes, after := NodesOf(stack), node.(system := Booted(commands));
    var rest := WithNodes(stack, nodes + [node] + inner);
    assert (rest + [EntryAt(commands, |nodes|)])[..|rest|] == rest;
    NodesOfWithNodes(stack, nodes + [node] + inner, nodes + ([after] + inner));
    assert (nodes + [node] + inner)[|nodes| := after] == nodes + ([after] + inner);
  }

  lemma EntryReads(stack: seq<Frame>, open: Line, body: seq<Syntax>, node: Node, entered: seq<Frame>)
    requires Rooted(stack) && node.Entry? && Step(stack, open) == Some(entered)
    requires entered == WithNodes(stack, NodesOf(stack) + [node]) + [EntryAt([], |NodesOf(stack)|)]
    requires Run(entered, Lines(body)) == Some(Added(entered, Commands(body), Meaning(body)))
    ensures Run(stack, [open] + Lines(body) + [Close])
      == Some(Added(stack, [], [node.(system := Booted(Commands(body)))] + Meaning(body)))
  {
    var filled := Added(entered, Commands(body), Meaning(body));
    EntryFills(stack, node, Commands(body), Meaning(body));
    RunBraces(stack, open, Lines(body), entered, filled);
    EntryCloses(stack, node, Commands(body), Meaning(body));
    AddedNodes(stack, [node.(system := Booted(Commands(body)))] + Meaning(body));
  }

  lemma SubmenuCloses(stack: seq<Frame>, id: Option<Ident>, title: string, inner: seq<Node>)
    requires Rooted(stack)
    ensures var nodes := NodesOf(stack);
      Step(WithNodes(stack, nodes + [Submenu(id, title, [])]) + [Menu(id, title, inner, |nodes|)], Close)
      == Some(WithNodes(stack, nodes + [Submenu(id, title, inner)]))
  {
    var nodes, before, after := NodesOf(stack), Submenu(id, title, []), Submenu(id, title, inner);
    var base := WithNodes(stack, nodes + [before]);
    assert (base + [Menu(id, title, inner, |nodes|)])[..|base|] == base;
    NodesOfWithNodes(stack, nodes + [before], nodes + [after]);
    assert (nodes + [before])[|nodes| := after] == nodes + [after];
  }

  lemma SubmenuFills(stack: seq<Frame>, id: Option<Ident>, title: string, commands: seq<Option<System>>, inner: seq<Node>)
    requires Rooted(stack)
    ensures var nodes := NodesOf(stack);
      var base := WithNodes(stack, nodes + [Submenu(id, title, [])]);
      Added(base + [Menu(id, title, [], |nodes|)], commands, inner) == base + [Menu(id, title, inner, |nodes|)]
  {
    var nodes := NodesOf(stack);
    AddedOnPush(WithNodes(stack, nodes + [Submenu(id, title, [])]), Menu(id, title, [], |nodes|), commands, inner);
    assert [] + inner == inner;
  }

  lemma SubmenuReads(stack: seq<Frame>, open: Line, body: seq<Syntax>, id: Option<Ident>, title: string,
                     entered: seq<Frame>)
    requires Rooted(stack) && Step(stack, open) == Some(entered)
    requires entered ==
      WithNodes(stack, NodesOf(stack) + [Submenu(id, title, [])]) + [Menu(id, title, [], |NodesOf(stack)|)]
    requires Run(entered, Lines(body)) == Some(Added(entered, Commands(body), Meaning(body)))
    ensures Run(stack, [open] + Lines(body) + [Close]) == Some(Added(stack, [], [Submenu(id, title, Meaning(body))]))
  {
    var filled := Added(entered, Commands(body), Meaning(body));
    SubmenuFills(stack, id, title, Commands(body), Meaning(body));
    RunBraces(stack, open, Lines(body), entered, filled);
    SubmenuCloses(stack, id, title, Meaning(body));
    AddedNodes(stack, [Submenu(id, title, Meaning(body))]);
  }

  lemma {:induction false} BodyReads(stack: seq<Frame>, body: seq<Syntax>)
    requires Rooted(stack) && IsSyntax(body)
    ensures Run(stack, Lines(body)) == Some(Added(stack, Commands(body), Meaning(body)))
    decreases body
  {
    if body == [] {
      AddedNothing(stack);
    } else {
      var c, m := CommandsOf(body[0]), MeaningOf(body[0]);
      ItemReads(stack, body[0]);
      RunSplit(stack, LinesOf(body[0]), Lines(body[1..]));
      BodyReads(Added(stack, c, m), body[1..]);
      AddedTwice(stack, c, m, Commands(body[1..]), Meaning(body[1..]));
    }
  }

  /** Whatever braces, comments and other lines a text holds, the reader computes its menu: nodes in the order in which
      they open, each entry with the system that its own single linux command starts. */
  lemma ReadingIsMeaning(body: seq<Syntax>)
    requires IsSyntax(body)
    ensures ReadMenu(Lines(body)) == Success(Meaning(body))
  {
    BodyReads([ROOT], body);
    assert [] + Meaning(body) == Meaning(body);
    InnermostIs([ROOT]);
  }

  // The lines of an entry that has these linux commands and nothing else.
  function LinuxLines(systems: seq<Option<System>>): seq<Syntax> {
    if systems == [] then [] else [Simple(Linux(systems[0]))] + LinuxLines(systems[1..])
  }

  lemma {:induction false} LinuxLinesAre(systems: seq<Option<System>>)
    ensures IsSyntax(LinuxLines(systems)) && Meaning(LinuxLines(systems)) == []
    ensures Commands(LinuxLines(systems)) == systems
    ensures Lines(LinuxLines(systems)) == seq(|systems|, k requires 0 <= k < |systems| => Linux(systems[k]))
  {
    if systems != [] {
      LinuxLinesAre(systems[1..]);
      assert LinuxLines(systems)[1..] == LinuxLines(systems[1..]);
      assert [systems[0]] + systems[1..] == systems;
    }
  }

  /** An entry boots a system exactly if it has one linux command, and that one names the system. */
  lemma EntryBoots(id: Option<Ident>, title: string, systems: seq<Option<System>>, system: System)
    ensures var linux := seq(|systems|, k requires 0 <= k < |systems| => Linux(systems[k]));
      var read := ReadMenu([OpenEntry(id, title)] + linux + [Close]);
      && read.Success? && |read.value| == 1 && read.value[0].Entry?
      && read.value[0].id == id && read.value[0].title == title
      && (read.value[0].system == Some(system) <==> systems == [Some(system)])
  {
    LinuxLinesAre(systems);
    var s := InEntry(id, title, LinuxLines(systems));
    assert Lines([s]) == LinesOf(s) + Lines([]) == LinesOf(s);
    assert Meaning([s]) == MeaningOf(s) + Meaning([]) == [Entry(id, title, Booted(systems))];
    ReadingIsMeaning([s]);
  }

  // ---------------------------------------------------------------------------------------------------------------
  // Balanced texts
  // ---------------------------------------------------------------------------------------------------------------

  predicate Opens(line: Line) {
    line.OpenEntry? || line.OpenSubmenu? || line.OpenBlock?
  }

  // The lines close exactly `depth` more braces than they open, and never one too many.
  predicate Balanced(lines: seq<Line>, depth: nat) {
    if lines == [] then depth == 0
    else if Opens(lines[0]) then Balanced(lines[1..], depth + 1)
    else if lines[0].Close? then depth > 0 && Balanced(lines[1..], depth - 1)
    else Balanced(lines[1..], depth)
  }

  lemma {:induction false} RunIsBalanced(stack: seq<Frame>, lines: seq<Line>)
    requires Rooted(stack)
    ensures (Run(stack, lines).Some? && |Run(stack, lines).value| == 1) <==> Balanced(lines, |stack| - 1)
    decreases |lines|
  {
    if lines != [] && Step(stack, lines[0]).Some? {
      StepDepth(stack, lines[0]);
      RunIsBalanced(Step(stack, lines[0]).value, lines[1..]);
    }
  }

  lemma StepDepth(stack: seq<Frame>, line: Line)
    requires Rooted(stack) && Step(stack, line).Some?
    ensures |Step(stack, line).value| == |stack| + (if Opens(line) then 1 else if line.Close? then -1 else 0)
  {
  }

  /** The reader accepts exactly the balanced texts. */
  lemma ReadsIffBalanced(lines: seq<Line>)
    ensures ReadMenu(lines).Success? <==> Balanced(lines, 0)
  {
    RunIsBalanced([ROOT], lines);
  }

  // The brace that closes the first of the open ones that the lines do not open themselves.
  lemma {:induction false} FirstClose(lines: seq<Line>, inner: nat, depth: nat) returns (n: nat)
    requires Balanced(lines, inner + 1 + depth)
    ensures n < |lines| && lines[n].Close? && Balanced(lines[..n], inner) && Balanced(lines[n + 1..], depth)
  {
    var rest := lines[1..];
    if lines[0].Close? && inner == 0 {
      n := 0;
    } else {
      var k := FirstClose(rest, if Opens(lines[0]) then inner + 1 else if lines[0].Close? then inner - 1 else inner, depth);
      n := k + 1;
      assert lines[..n][1..] == rest[..k] && lines[..n][0] == lines[0] && lines[n + 1..] == rest[k + 1..];
    }
  }

  /** Every balanced text has a syntax, so the meaning says what is read from any text that is accepted. */
  lemma {:induction false} BalancedHasSyntax(lines: seq<Line>) returns (body: seq<Syntax>)
    requires Balanced(lines, 0)
    ensures IsSyntax(body) && Lines(body) == lines
    decreases |lines|
  {
    if lines == [] {
      return [];
    }
    var rest := lines[1..];
    if !Opens(lines[0]) {
      var tail := BalancedHasSyntax(rest);
      body := [Simple(lines[0])] + tail;
      assert lines == [lines[0]] + rest;
    } else {
      var n := FirstClose(rest, 0, 0);
      var inside := BalancedHasSyntax(rest[..n]);
      var tail := BalancedHasSyntax(rest[n + 1..]);
      body := [Braced(lines[0], inside)] + tail;
      Rejoin(lines, n);
    }
  }

  // What an opening line and its body make.
  function Braced(open: Line, body: seq<Syntax>): (s: Syntax)
    requires Opens(open)
    ensures LinesOf(s) == [open] + Lines(body) + [Close] && (IsSyntax(body) ==> IsItem(s))
  {
    match open
    case OpenEntry(id, title) => InEntry(id, title, body)
    case OpenSubmenu(id, title) => InSubmenu(id, title, body)
    case OpenBlock => InBlock(body)
  }

  lemma Rejoin(lines: seq<Line>, n: nat)
    requires n < |lines| - 1 && lines[n + 1].Close?
    ensures [lines[0]] + lines[1..][..n] + [Close] + lines[1..][n + 1..] == lines
  {
  }

  // ---------------------------------------------------------------------------------------------------------------
  // Labelling the text
  // ---------------------------------------------------------------------------------------------------------------

  // Inside the generations every opening line gets the identifier of its node.
  function LabelText(body: seq<Syntax>): seq<Syntax> {
    if body == [] then [] else [LabelItem(body[0])] + LabelText(body[1..])
  }

  function LabelItem(s: Syntax): Syntax {
    match s
    case Simple(_) => s
    case InBlock(body) => InBlock(LabelText(body))
    case InEntry(_, title, body) =>
      var system := Booted(Commands(body));
      InEntry(if system.Some? then Some(SystemId(system.value.hash)) else None, title, LabelText(body))
    case InSubmenu(_, title, body) =>
      var systems := Systems(Meaning(body));
      InSubmenu(if systems == [] then None else Some(GroupId(systems[0].hash)), title, LabelText(body))
  }

  lemma {:induction false} LabelNodesSum(a: seq<Node>, b: seq<Node>)
    ensures LabelNodes(a + b) == LabelNodes(a) + LabelNodes(b)
  {
  }

  lemma {:induction false} LabelTextKeepsCommands(body: seq<Syntax>)
    ensures Commands(LabelText(body)) == Commands(body) && |LabelText(body)| == |body|
  {
    if body != [] {
      LabelTextKeepsCommands(body[1..]);
      assert LabelText(body)[1..] == LabelText(body[1..]);
    }
  }

  /** Reading a labelled text yields the labelled menu. */
  lemma {:induction false} LabelledTextIsLabelledMenu(body: seq<Syntax>)
    ensures Meaning(LabelText(body)) == LabelNodes(Meaning(body))
    decreases body
  {
    if body != [] {
      assert LabelText(body)[1..] == LabelText(body[1..]);
      LabelledItemIsLabelledNodes(body[0]);
      LabelledTextIsLabelledMenu(body[1..]);
      LabelNodesSum(MeaningOf(body[0]), Meaning(body[1..]));
    }
  }

  lemma {:induction false} LabelledItemIsLabelledNodes(s: Syntax)
    ensures MeaningOf(LabelItem(s)) == LabelNodes(MeaningOf(s))
    decreases s
  {
    match s
    case Simple(_) =>
    case InBlock(body) => LabelledTextIsLabelledMenu(body);
    case InSubmenu(_, _, body) => LabelledTextIsLabelledMenu(body);
    case InEntry(id, title, body) =>
      LabelTextKeepsCommands(body);
      LabelledTextIsLabelledMenu(body);
      LabelNodesSum([Entry(id, title, Booted(Commands(body)))], Meaning(body));
  }

  // The same line, but for the identifier of an opening one.
  predicate SameLine(a: Line, b: Line) {
    || a == b
    || (a.OpenEntry? && b.OpenEntry? && a.title == b.title)
    || (a.OpenSubmenu? && b.OpenSubmenu? && a.title == b.title)
  }

  ghost predicate SameLines(a: seq<Line>, b: seq<Line>) {
    |a| == |b| && forall i :: 0 <= i < |a| ==> SameLine(a[i], b[i])
  }

  lemma SameLinesSum(a: seq<Line>, b: seq<Line>, c: seq<Line>, d: seq<Line>)
    requires SameLines(a, b) && SameLines(c, d)
    ensures SameLines(a + c, b + d)
  {
  }

  /** Labelling changes no line but the identifiers of opening ones. */
  lemma {:induction false} LabellingKeepsLines(body: seq<Syntax>)
    ensures SameLines(Lines(body), Lines(LabelText(body)))
    decreases body
  {
    if body != [] {
      assert LabelText(body)[1..] == LabelText(body[1..]);
      LabellingKeepsItem(body[0]);
      LabellingKeepsLines(body[1..]);
      SameLinesSum(LinesOf(body[0]), LinesOf(LabelItem(body[0])), Lines(body[1..]), Lines(LabelText(body[1..])));
    }
  }

  lemma {:induction false} LabellingKeepsItem(s: Syntax)
    ensures SameLines(LinesOf(s), LinesOf(LabelItem(s)))
    decreases s
  {
    if !s.Simple? {
      LabellingKeepsLines(s.body);
      var first, next := LinesOf(s)[0], LinesOf(LabelItem(s))[0];
      SameLinesSum([first], [next], Lines(s.body), Lines(LabelText(s.body)));
      SameLinesSum([first] + Lines(s.body), [next] + Lines(LabelText(s.body)), [Close], [Close]);
    }
  }

  // ---------------------------------------------------------------------------------------------------------------
  // From the generated text to the selected system
  // ---------------------------------------------------------------------------------------------------------------

  // Outside the generations every identifier is removed.
  function StripText(body: seq<Syntax>): seq<Syntax> {
    if body == [] then [] else [StripItem(body[0])] + StripText(body[1..])
  }

  function StripItem(s: Syntax): Syntax {
    match s
    case Simple(_) => s
    case InBlock(body) => InBlock(StripText(body))
    case InEntry(_, title, body) => InEntry(None, title, StripText(body))
    case InSubmenu(_, title, body) => InSubmenu(None, title, StripText(body))
  }

  // The top level of a text whose first node is the k-th: node g holds the generations, and node c, if any, is the
  // single top-level entry.
  function RootText(body: seq<Syntax>, k: nat, g: nat, c: Option<nat>): seq<Syntax> {
    if body == [] then [] else [RootItem(body[0], k, g, c)] + RootText(body[1..], k + |MeaningOf(body[0])|, g, c)
  }

  function RootItem(s: Syntax, k: nat, g: nat, c: Option<nat>): Syntax {
    match s
    case Simple(_) => s
    case InBlock(body) => InBlock(RootText(body, k, g, c))
    case InEntry(_, title, body) => InEntry(if c == Some(k) then Some(Current) else None, title, RootText(body, k + 1, g, c))
    case InSubmenu(_, title, body) =>
      if k == g then InSubmenu(Some(Generations), EARLIER, LabelText(body)) else InSubmenu(None, title, StripText(body))
  }

  function RootNodes(nodes: seq<Node>, k: nat, g: nat, c: Option<nat>): seq<Node> {
    if nodes == [] then [] else [LabelRoot(nodes[0], k == g, c == Some(k))] + RootNodes(nodes[1..], k + 1, g, c)
  }

  lemma {:induction false} StripNodesSum(a: seq<Node>, b: seq<Node>)
    ensures StripNodes(a + b) == StripNodes(a) + StripNodes(b)
  {
    if a == [] {
      assert a + b == b;
    } else {
      assert (a + b)[1..] == a[1..] + b;
      StripNodesSum(a[1..], b);
    }
  }

  lemma {:induction false} RootNodesSum(a: seq<Node>, b: seq<Node>, k: nat, g: nat, c: Option<nat>)
    ensures RootNodes(a + b, k, g, c) == RootNodes(a, k, g, c) + RootNodes(b, k + |a|, g, c)
  {
    if a == [] {
      assert a + b == b;
    } else {
      assert (a + b)[1..] == a[1..] + b;
      RootNodesSum(a[1..], b, k + 1, g, c);
    }
  }

  lemma {:induction false} StripTextKeepsCommands(body: seq<Syntax>)
    ensures Commands(StripText(body)) == Commands(body)
  {
    if body != [] {
      StripTextKeepsCommands(body[1..]);
      assert StripText(body)[1..] == StripText(body[1..]);
    }
  }

  lemma {:induction false} RootTextKeepsCommands(body: seq<Syntax>, k: nat, g: nat, c: Option<nat>)
    ensures Commands(RootText(body, k, g, c)) == Commands(body)
  {
    if body != [] {
      RootTextKeepsCommands(body[1..], k + |MeaningOf(body[0])|, g, c);
      assert RootText(body, k, g, c)[1..] == RootText(body[1..], k + |MeaningOf(body[0])|, g, c);
    }
  }

  lemma {:induction false} StrippedTextIsStrippedMenu(body: seq<Syntax>)
    ensures Meaning(StripText(body)) == StripNodes(Meaning(body))
    decreases body
  {
    if body != [] {
      assert StripText(body)[1..] == StripText(body[1..]);
      StrippedItemIsStrippedNodes(body[0]);
      StrippedTextIsStrippedMenu(body[1..]);
      StripNodesSum(MeaningOf(body[0]), Meaning(body[1..]));
    }
  }

  lemma {:induction false} StrippedItemIsStrippedNodes(s: Syntax)
    ensures MeaningOf(StripItem(s)) == StripNodes(MeaningOf(s))
    decreases s
  {
    match s
    case Simple(_) =>
    case InBlock(body) => StrippedTextIsStrippedMenu(body);
    case InSubmenu(_, _, body) => StrippedTextIsStrippedMenu(body);
    case InEntry(id, title, body) =>
      StripTextKeepsCommands(body);
      StrippedTextIsStrippedMenu(body);
      StripNodesSum([Entry(id, title, Booted(Commands(body)))], Meaning(body));
  }

  lemma {:induction false} RootTextIsRootMenu(body: seq<Syntax>, k: nat, g: nat, c: Option<nat>)
    ensures Meaning(RootText(body, k, g, c)) == RootNodes(Meaning(body), k, g, c)
    decreases body
  {
    if body != [] {
      var next := k + |MeaningOf(body[0])|;
      assert RootText(body, k, g, c)[1..] == RootText(body[1..], next, g, c);
      RootItemIsRootNodes(body[0], k, g, c);
      RootTextIsRootMenu(body[1..], next, g, c);
      RootNodesSum(MeaningOf(body[0]), Meaning(body[1..]), k, g, c);
    }
  }

  lemma {:induction false} RootItemIsRootNodes(s: Syntax, k: nat, g: nat, c: Option<nat>)
    ensures MeaningOf(RootItem(s, k, g, c)) == RootNodes(MeaningOf(s), k, g, c)
    decreases s
  {
    match s
    case Simple(_) =>
    case InBlock(body) => RootTextIsRootMenu(body, k, g, c);
    case InSubmenu(_, _, body) =>
      LabelledTextIsLabelledMenu(body);
      StrippedTextIsStrippedMenu(body);
    case InEntry(id, title, body) =>
      RootTextIsRootMenu(body, k + 1, g, c);
      RootEntryIsRootNodes(id, title, body, k, g, c);
  }

  lemma RootEntryIsRootNodes(id: Option<Ident>, title: string, body: seq<Syntax>, k: nat, g: nat, c: Option<nat>)
    requires Meaning(RootText(body, k + 1, g, c)) == RootNodes(Meaning(body), k + 1, g, c)
    ensures MeaningOf(RootItem(InEntry(id, title, body), k, g, c)) == RootNodes(MeaningOf(InEntry(id, title, body)), k, g, c)
  {
    var node := Entry(id, title, Booted(Commands(body)));
    RootTextKeepsCommands(body, k + 1, g, c);
    RootNodesSum([node], Meaning(body), k, g, c);
    assert RootNodes([node], k, g, c) == [LabelRoot(node, k == g, c == Some(k))];
  }

  lemma {:induction false} RootNodesAt(nodes: seq<Node>, k: nat, g: nat, c: Option<nat>, i: nat)
    requires i < |nodes|
    ensures |RootNodes(nodes, k, g, c)| == |nodes|
    ensures RootNodes(nodes, k, g, c)[i] == LabelRoot(nodes[i], k + i == g, c == Some(k + i))
    decreases |nodes|
  {
    if |nodes| > 1 {
      RootNodesAt(nodes[1..], k + 1, g, c, if i > 0 then i - 1 else 0);
    }
  }

  // The single top-level entry that boots a system.
  function CurrentOf(menu: seq<Node>): Option<nat> {
    var current := Matching(menu, TopSystem);
    if |current| == 1 then Some(current[0]) else None
  }

  // The labelled text, with the closing entries appended.
  function LabelledText(body: seq<Syntax>, distro: string, closing: seq<Syntax>): seq<Syntax>
    requires Labelled(Meaning(body), distro).Success?
  {
    RootText(body, 0, GenerationsOf(Meaning(body), distro), CurrentOf(Meaning(body))) + closing
  }

  lemma {:induction false} MeaningSum(a: seq<Syntax>, b: seq<Syntax>)
    ensures Meaning(a + b) == Meaning(a) + Meaning(b)
  {
    if a == [] {
      assert a + b == b;
    } else {
      assert (a + b)[1..] == a[1..] + b;
      MeaningSum(a[1..], b);
    }
  }

  lemma {:induction false} LabelTextIsSyntax(body: seq<Syntax>)
    requires IsSyntax(body)
    ensures IsSyntax(LabelText(body)) && IsSyntax(StripText(body))
    decreases body
  {
    if body != [] {
      LabelTextIsSyntax(body[1..]);
      if !body[0].Simple? {
        LabelTextIsSyntax(body[0].body);
      }
    }
  }

  lemma {:induction false} RootTextIsSyntax(body: seq<Syntax>, k: nat, g: nat, c: Option<nat>)
    requires IsSyntax(body)
    ensures IsSyntax(RootText(body, k, g, c))
    decreases body
  {
    if body != [] {
      RootTextIsSyntax(body[1..], k + |MeaningOf(body[0])|, g, c);
      match body[0]
      case Simple(_) =>
      case InBlock(inner) => RootTextIsSyntax(inner, k, g, c);
      case InEntry(_, _, inner) => RootTextIsSyntax(inner, k + 1, g, c);
      case InSubmenu(_, _, inner) => LabelTextIsSyntax(inner);
    }
  }

  lemma LabelledAt(menu: seq<Node>, distro: string, i: nat)
    requires Labelled(menu, distro).Success? && i < |menu|
    ensures |Labelled(menu, distro).value| == |menu|
    ensures Labelled(menu, distro).value[i] == LabelRoot(menu[i], i == GenerationsOf(menu, distro), CurrentOf(menu) == Some(i))
  {
  }

  lemma RootIsLabelled(menu: seq<Node>, distro: string)
    requires Labelled(menu, distro).Success?
    ensures RootNodes(menu, 0, GenerationsOf(menu, distro), CurrentOf(menu)) == Labelled(menu, distro).value
  {
    var g, c := GenerationsOf(menu, distro), CurrentOf(menu);
    var nodes, labelled := RootNodes(menu, 0, g, c), Labelled(menu, distro).value;
    RootNodesAt(menu, 0, g, c, g);
    LabelledAt(menu, distro, g);
    forall i | 0 <= i < |menu|
      ensures nodes[i] == labelled[i]
    {
      RootNodesAt(menu, 0, g, c, i);
      LabelledAt(menu, distro, i);
    }
  }

  /** Labelling the whole text and reading it again yields the labelled menu. */
  lemma LabelledTextReads(body: seq<Syntax>, distro: string, closing: seq<Syntax>)
    requires IsSyntax(body) && IsSyntax(closing) && Labelled(Meaning(body), distro).Success?
    ensures Label(Meaning(body), distro, Meaning(closing)).Success?
    ensures ReadMenu(Lines(LabelledText(body, distro, closing)))
      == Success(Label(Meaning(body), distro, Meaning(closing)).value.menu)
  {
    var menu := Meaning(body);
    var g, c := GenerationsOf(menu, distro), CurrentOf(menu);
    RootTextIsRootMenu(body, 0, g, c);
    RootTextIsSyntax(body, 0, g, c);
    RootIsLabelled(menu, distro);
    MeaningSum(RootText(body, 0, g, c), closing);
    ReadingIsMeaning(LabelledText(body, distro, closing));
  }

  /** From text to boot: after the generated text was labelled, a selection is found in it for exactly the systems under
      the generations, and GRUB follows it to that system exactly if no group on the way is shadowed. */
  lemma TextSelectsSystem(body: seq<Syntax>, distro: string, closing: seq<Syntax>, system: System)
    requires IsSyntax(body) && IsSyntax(closing) && Labelled(Meaning(body), distro).Success?
    requires ClosingIsPlain(Meaning(closing))
    requires HashesIdentify(Systems(Meaning(body)[GenerationsOf(Meaning(body), distro)].children))
    ensures var generations := Meaning(body)[GenerationsOf(Meaning(body), distro)].children;
      var read := ReadMenu(Lines(LabelledText(body, distro, closing)));
      && read.Success?
      && (GrubEntry(system, read.value).Success? <==> system in Systems(generations))
      && (system in Systems(generations) ==>
            (Boots(read.value, GrubEntry(system, read.value).value, system) <==> Unshadowed(generations, system)))
  {
    LabelledTextReads(body, distro, closing);
    SelectionExistsIffListed(Meaning(body), distro, Meaning(closing), system);
    if system in Systems(Meaning(body)[GenerationsOf(Meaning(body), distro)].children) {
      SelectionBootsSystemIff(Meaning(body), distro, Meaning(closing), system);
    }
  }
}

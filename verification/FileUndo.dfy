/** Undo for the files that one assistant turn changes: pre-images are taken before a change, post-images at the end.

    Files are a map from paths. Anything that is not a small regular file is never touched.
 */
module FileUndo {
  import opened Wrappers

  type Path = string
  type Content = seq<byte>

  datatype Node = File(content: Content, mode: nat) | Other

  type Files = map<Path, Node>

  const MAX_SNAPSHOT := 8 * 1024 * 1024

  datatype State = Absent | Regular(content: Content, mode: nat) | Unsnapshottable

  function StateOf(files: Files, path: Path): State {
    if path !in files then Absent
    else if files[path].File? && |files[path].content| <= MAX_SNAPSHOT then
      Regular(files[path].content, files[path].mode)
    else Unsnapshottable
  }

  // The mode does not count.
  predicate SameContent(a: State, b: State) {
    (a.Absent? && b.Absent?) || (a.Regular? && b.Regular? && a.content == b.content)
  }

  // The post-image that is kept: of a file that can be restored and whose content changed.
  predicate Changed(before: State, now: State) {
    !before.Unsnapshottable? && !now.Unsnapshottable? && !SameContent(now, before)
  }

  // Nothing at the path, or a regular file of at most 8 MiB.
  predicate Restorable(files: Files, path: Path) {
    path !in files || (files[path].File? && |files[path].content| <= 8 * 1024 * 1024)
  }

  /** A state is that of a path without a file, or of a small regular one with its content and mode. */
  lemma StateIs(files: Files, path: Path)
    ensures StateOf(files, path).Absent? <==> path !in files
    ensures StateOf(files, path).Unsnapshottable? <==> !Restorable(files, path)
    ensures path in files && Restorable(files, path) ==>
      StateOf(files, path) == Regular(files[path].content, files[path].mode)
  {
  }

  // At both times no file, or a file of the same content.
  predicate SameBytes(a: Files, b: Files, path: Path)
    requires Restorable(a, path) && Restorable(b, path)
  {
    (path in a <==> path in b) && (path in a ==> a[path].content == b[path].content)
  }

  /** Two states agree if at both times the path can be restored and has the same content or no file, whatever its mode;
      a post-image is kept exactly where both can be restored and do not agree. */
  lemma ChangedIff(a: Files, b: Files, path: Path)
    ensures SameContent(StateOf(a, path), StateOf(b, path)) <==>
      Restorable(a, path) && Restorable(b, path) && SameBytes(a, b, path)
    ensures Changed(StateOf(a, path), StateOf(b, path)) <==>
      Restorable(a, path) && Restorable(b, path) && !SameBytes(a, b, path)
  {
  }

  predicate SameFile(a: Files, b: Files, path: Path) {
    (path in a <==> path in b) && (path in a ==> a[path] == b[path])
  }

  lemma SameFilesAreEqual(a: Files, b: Files)
    requires forall path :: SameFile(a, b, path)
    ensures a == b
  {
    forall path
      ensures path in a <==> path in b
    {
      assert SameFile(a, b, path);
    }
    assert a.Keys == b.Keys;
    assert forall path :: path in a ==> SameFile(a, b, path);
  }

  // What happens to the files during a turn.
  datatype Act = Take(path: Path) | Write(path: Path, node: Node) | Delete(path: Path)

  function Perform(files: Files, a: Act): Files {
    match a
    case Take(_) => files
    case Write(path, node) => files[path := node]
    case Delete(path) => files - {path}
  }

  function PerformAll(files: Files, acts: seq<Act>): Files
    decreases |acts|
  {
    if acts == [] then files else PerformAll(Perform(files, acts[0]), acts[1..])
  }

  // The state of a file when it was first taken.
  function Seen(files: Files, acts: seq<Act>, path: Path): Option<State>
    decreases |acts|
  {
    if acts == [] then None
    else if acts[0] == Take(path) then Some(StateOf(files, path))
    else Seen(Perform(files, acts[0]), acts[1..], path)
  }

  // The file is taken before it is first changed.
  predicate TakenFirst(acts: seq<Act>, path: Path) {
    acts != [] && (acts[0] == Take(path) || (acts[0].path != path && TakenFirst(acts[1..], path)))
  }

  lemma {:induction false} TakenFirstIsOriginal(files: Files, acts: seq<Act>, path: Path)
    requires TakenFirst(acts, path)
    ensures Seen(files, acts, path) == Some(StateOf(files, path))
    decreases |acts|
  {
    if acts[0] != Take(path) {
      TakenFirstIsOriginal(Perform(files, acts[0]), acts[1..], path);
      assert SameFile(files, Perform(files, acts[0]), path);
    }
  }

  predicate Untouched(acts: seq<Act>, path: Path) {
    forall i :: 0 <= i < |acts| ==> acts[i].path == path ==> acts[i].Take?
  }

  lemma {:induction false} UntouchedKeepsFile(files: Files, acts: seq<Act>, path: Path)
    requires Untouched(acts, path)
    ensures SameFile(files, PerformAll(files, acts), path)
    decreases |acts|
  {
    if acts != [] {
      assert acts[0].path == path ==> acts[0].Take?;
      UntouchedKeepsFile(Perform(files, acts[0]), acts[1..], path);
    }
  }

  class Snapshots {
    var files: Files
    var before: map<Path, State>
    var after: map<Path, State>

    constructor (files: Files)
      ensures this.files == files && before == map[] && after == map[]
    {
      this.files, before, after := files, map[], map[];
    }

    method TakePreimage(path: Path)
      modifies this`before
      ensures before == if path in old(before) then old(before) else old(before)[path := StateOf(files, path)]
    {
      if path !in before {
        before := before[path := StateOf(files, path)];
      }
    }

    method Finish() returns (changed: set<Path>)
      modifies this`after
      ensures changed == after.Keys
      ensures after == map path | path in before && Changed(before[path], StateOf(files, path)) :: StateOf(files, path)
    {
      after := map[];
      var todo := before.Keys;
      while todo != {}
        invariant todo <= before.Keys
        invariant after == map path | path in before && path !in todo && Changed(before[path], StateOf(files, path))
          :: StateOf(files, path)
      {
        var path :| path in todo;
        todo := todo - {path};
        var now := StateOf(files, path);
        if Changed(before[path], now) {
          after := after[path := now];
        }
      }
      changed := after.Keys;
    }

    // Every post-image has a pre-image that can be restored.
    predicate Valid()
      reads this
    {
      forall path :: path in after ==> path in before && !before[path].Unsnapshottable? && !after[path].Unsnapshottable?
    }

    predicate Restored(path: Path)
      requires path in before
      reads this
    {
      match before[path]
      case Absent => path !in files
      case Regular(content, mode) => path in files && files[path] == File(content, mode)
      case Unsnapshottable => false
    }

    /** Undo restores content and mode of every changed file that was not touched since, and deletes those that the
        turn created. It leaves files that were edited later, failed ones and all others alone. `failed` are the paths
        that the file system refused to change. */
    method Undo() returns (restored: set<Path>, skipped: set<Path>, failed: set<Path>)
      requires Valid()
      modifies this
      ensures Valid() && after == map[] && before == old(before)
      ensures restored !! skipped && restored + skipped == old(after).Keys
      ensures forall path :: path in restored ==> Restored(path)
      ensures forall path :: path !in restored ==> SameFile(old(files), files, path)
      ensures forall path :: path in old(after) ==>
        (path in skipped <==> !SameContent(StateOf(old(files), path), old(after)[path]) || path in failed)
    {
      restored, skipped, failed := {}, {}, {};
      var todo := after.Keys;
      while todo != {}
        invariant todo <= after.Keys && Valid() && before == old(before) && after == old(after)
        invariant restored !! skipped && restored !! todo && skipped !! todo
        invariant restored + skipped + todo == after.Keys && failed <= skipped
        invariant forall path :: path in restored ==> Restored(path)
        invariant forall path :: path !in restored ==> SameFile(old(files), files, path)
        invariant forall path :: path in after && path !in todo ==>
          (path in skipped <==> !SameContent(StateOf(old(files), path), after[path]) || path in failed)
      {
        var path :| path in todo;
        todo := todo - {path};
        assert SameFile(old(files), files, path);
        var refused: bool := *;
        if !SameContent(StateOf(files, path), after[path]) {
          skipped := skipped + {path};
        } else if refused {
          skipped, failed := skipped + {path}, failed + {path};
        } else {
          match before[path] {
            case Absent => files := files - {path};
            case Regular(content, mode) => files := files[path := File(content, mode)];
          }
          restored := restored + {path};
        }
      }
      after := map[];
    }

    method UndoAgain() returns (restored: set<Path>)
      requires Valid() && after == map[]
      modifies this
      ensures restored == {} && files == old(files) && before == old(before)
    {
      var skipped, failed;
      restored, skipped, failed := Undo();
      SameFilesAreEqual(old(files), files);
    }

    // The turn: files are taken and changed in any order.
    method Work(acts: seq<Act>)
      modifies this`files, this`before
      ensures files == PerformAll(old(files), acts)
      ensures forall path :: path in before <==> path in old(before) || Seen(old(files), acts, path).Some?
      ensures forall path :: path in before ==>
        before[path] == if path in old(before) then old(before)[path] else Seen(old(files), acts, path).value
    {
      ghost var start := files;
      for i := 0 to |acts|
        invariant PerformAll(files, acts[i..]) == PerformAll(start, acts)
        invariant old(before).Keys <= before.Keys
        invariant forall path :: path in before || Seen(files, acts[i..], path).Some? <==>
          path in old(before) || Seen(start, acts, path).Some?
        invariant forall path :: path in old(before) ==> before[path] == old(before)[path]
        invariant forall path :: path in before && path !in old(before) ==>
          Seen(start, acts, path) == Some(before[path])
        invariant forall path :: path !in before ==> Seen(files, acts[i..], path) == Seen(start, acts, path)
      {
        assert acts[i..][0] == acts[i] && acts[i..][1..] == acts[i + 1..];
        if acts[i].Take? {
          TakePreimage(acts[i].path);
        } else {
          files := Perform(files, acts[i]);
        }
      }
    }

    /** A whole turn, later edits, and Undo, twice. A file that was taken before the turn changed its content has its
        original content and mode again exactly if its content is as the turn left it: later edits of the content are
        kept, but a later change of the mode alone is overwritten. The second Undo does nothing. */
    method TurnAndUndo(acts: seq<Act>, edits: seq<Act>) returns (restored: set<Path>, skipped: set<Path>, failed: set<Path>)
      requires before == map[] && after == map[]
      modifies this
      ensures var worked := PerformAll(old(files), acts);
        var edited := PerformAll(worked, edits);
        && (forall path :: path in restored ==> TakenFirst(acts, path) ==> SameFile(old(files), files, path))
        && (forall path :: TakenFirst(acts, path) && Changed(StateOf(old(files), path), StateOf(worked, path)) ==>
              (path in restored <==> path !in failed && SameContent(StateOf(edited, path), StateOf(worked, path))))
        && (forall path :: Untouched(edits, path) ==> SameContent(StateOf(edited, path), StateOf(worked, path))
                                                       || StateOf(worked, path).Unsnapshottable?)
        && (forall path :: path !in restored ==> SameFile(edited, files, path))
        && (forall path :: !SameContent(StateOf(edited, path), StateOf(worked, path)) ==> SameFile(edited, files, path))
    {
      ghost var start := files;
      Work(acts);
      ghost var worked := files;
      forall path | TakenFirst(acts, path)
        ensures path in before && before[path] == StateOf(start, path)
      {
        TakenFirstIsOriginal(start, acts, path);
      }
      var changed := Finish();
      EditLater(edits);
      forall path | Untouched(edits, path)
        ensures SameFile(worked, files, path)
      {
        UntouchedKeepsFile(worked, edits, path);
      }
      restored, skipped, failed := Undo();
      var again := UndoAgain();
    }

    method EditLater(edits: seq<Act>)
      modifies this`files
      ensures files == PerformAll(old(files), edits)
    {
      ghost var start := files;
      for i := 0 to |edits|
        invariant PerformAll(files, edits[i..]) == PerformAll(start, edits)
      {
        assert edits[i..][0] == edits[i] && edits[i..][1..] == edits[i + 1..];
        files := Perform(files, edits[i]);
      }
    }
  }
}

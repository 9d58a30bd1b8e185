/** GRUB's environment block: a fixed-size file of variables and comments that GRUB rewrites in place.

    Text is modelled as its UTF-8 bytes. The parser follows GRUB's own: a backslash takes the next byte literally, a
    name may hold anything but an equals sign, and a final '#' run is padding.
 */
module GrubEnvironment {
  import opened Wrappers

  const NEWLINE: byte := 10
  const HASH: byte := 35
  const EQUALS: byte := 61
  const BACKSLASH: byte := 92

  // The bytes of an ASCII text.
  function Ascii(s: string): (r: seq<byte>)
    ensures |r| == |s| && forall i :: 0 <= i < |s| && s[i] as int < 128 ==> r[i] == s[i] as int
  {
    seq(|s|, i requires 0 <= i < |s| => if s[i] as int < 128 then s[i] as int else 0)
  }

  const SIGNATURE := Ascii("# GRUB Environment Block\n")
  const WARNING := Ascii("# WARNING: Do not edit ") + Ascii("this file by tools other ") + Ascii("than grub-editenv!!!\n")
  const SAVED := Ascii("saved_entry")
  const NEXT := Ascii("next_entry")
  const PENDING := Ascii("cybexos_boot")
  const DEFAULT_SIZE := 1024

  datatype Variable = Variable(name: seq<byte>, value: seq<byte>)

  // Variables keep the order in which their names first appeared.
  datatype Environment = Environment(values: seq<Variable>, comments: seq<seq<byte>>)

  datatype Item = Comment(line: seq<byte>) | Assign(variable: Variable)

  // ---------------------------------------------------------------------------------------------------------------
  // Variables
  // ---------------------------------------------------------------------------------------------------------------

  predicate Distinct(values: seq<Variable>) {
    forall i, j :: 0 <= i < j < |values| ==> values[i].name != values[j].name
  }

  function Lookup(values: seq<Variable>, name: seq<byte>): (r: Option<seq<byte>>)
    ensures r.Some? ==> Variable(name, r.value) in values
    ensures r.None? ==> forall v :: v in values ==> v.name != name
  {
    if values == [] then None
    else if values[0].name == name then Some(values[0].value)
    else Lookup(values[1..], name)
  }

  // Assign in place, or append a new name.
  function Put(values: seq<Variable>, name: seq<byte>, value: seq<byte>): seq<Variable> {
    if values == [] then [Variable(name, value)]
    else if values[0].name == name then [Variable(name, value)] + values[1..]
    else [values[0]] + Put(values[1..], name, value)
  }

  function Without(values: seq<Variable>, name: seq<byte>): seq<Variable> {
    if values == [] then []
    else if values[0].name == name then values[1..]
    else [values[0]] + Without(values[1..], name)
  }

  lemma ConsIs(head: Variable, rest: seq<Variable>)
    ensures forall v :: v in [head] + rest <==> v == head || v in rest
    ensures Distinct([head] + rest) <==> Distinct(rest) && forall v :: v in rest ==> v.name != head.name
  {
    var all := [head] + rest;
    if Distinct(all) {
      forall v | v in rest
        ensures v.name != head.name
      {
        var i :| 0 <= i < |rest| && rest[i] == v;
        assert all[i + 1] == v && all[0] == head;
      }
      assert forall i :: 0 <= i < |rest| ==> rest[i] == all[i + 1];
    }
  }

  lemma {:induction false} PutIs(values: seq<Variable>, name: seq<byte>, value: seq<byte>)
    requires Distinct(values)
    ensures Distinct(Put(values, name, value))
    ensures forall v :: v in Put(values, name, value) <==> v == Variable(name, value) || (v in values && v.name != name)
  {
    if values != [] {
      var head, tail := values[0], values[1..];
      assert values == [head] + tail;
      ConsIs(head, tail);
      if head.name == name {
        ConsIs(Variable(name, value), tail);
      } else {
        PutIs(tail, name, value);
        ConsIs(head, Put(tail, name, value));
      }
    }
  }

  lemma {:induction false} WithoutIs(values: seq<Variable>, name: seq<byte>)
    requires Distinct(values)
    ensures Distinct(Without(values, name))
    ensures forall v :: v in Without(values, name) <==> v in values && v.name != name
  {
    if values != [] {
      var head, tail := values[0], values[1..];
      assert values == [head] + tail;
      ConsIs(head, tail);
      if head.name != name {
        WithoutIs(tail, name);
        ConsIs(head, Without(tail, name));
      }
    }
  }

  lemma LookupIs(values: seq<Variable>, v: Variable)
    requires Distinct(values) && v in values
    ensures Lookup(values, v.name) == Some(v.value)
  {
    assert Lookup(values, v.name).Some?;
    var w := Variable(v.name, Lookup(values, v.name).value);
    var i :| 0 <= i < |values| && values[i] == v;
    var j :| 0 <= j < |values| && values[j] == w;
  }

  // ---------------------------------------------------------------------------------------------------------------
  // Parsing, as a function on the rest of the block
  // ---------------------------------------------------------------------------------------------------------------

  function Find(s: seq<byte>, b: byte, from: nat := 0): (r: Option<nat>)
    requires from <= |s|
    ensures r.Some? ==> from <= r.value < |s|
    decreases |s| - from
  {
    if from == |s| then None else if s[from] == b then Some(from) else Find(s, b, from + 1)
  }

  lemma FindIs(s: seq<byte>, b: byte, from: nat := 0)
    requires from <= |s|
    ensures var r := Find(s, b, from);
      if r.None? then forall i :: from <= i < |s| ==> s[i] != b
      else s[r.value] == b && forall i :: from <= i < r.value ==> s[i] != b
    decreases |s| - from
  {
  }

  datatype Read = Unterminated | Value(value: seq<byte>, consumed: nat) {
    // This value after a prefix of it that took n bytes.
    function After(prefix: seq<byte>, n: nat): Read {
      if Unterminated? then this else Value(prefix + value, n + consumed)
    }
  }

  // A value up to its unescaped newline, and the bytes it took including that newline.
  function ReadValue(s: seq<byte>): (r: Read)
    ensures r.Value? ==> 1 <= r.consumed <= |s|
  {
    if s == [] then Unterminated
    else if s[0] == NEWLINE then Value([], 1)
    else if s[0] != BACKSLASH then ReadValue(s[1..]).After([s[0]], 1)
    else if |s| == 1 then Unterminated
    else ReadValue(s[2..]).After([s[1]], 2)
  }

  // What stands at the head of a nonempty rest: an item and the bytes it takes, padding to the end, or neither.
  datatype Head = Padded | Broken | Next(item: Item, consumed: nat)

  function HeadOf(s: seq<byte>): (r: Head)
    requires s != []
    ensures r.Next? ==> 1 <= r.consumed <= |s|
  {
    if s[0] == HASH then
      var newline := Find(s, NEWLINE);
      if newline.None? then Padded else Next(Comment(s[..newline.value + 1]), newline.value + 1)
    else
      var separator := Find(s, EQUALS);
      if separator.None? then Broken
      else
        var read := ReadValue(s[separator.value + 1..]);
        if read.Unterminated? then Broken
        else Next(Assign(Variable(s[..separator.value], read.value)), separator.value + 1 + read.consumed)
  }

  // The environment with one more item.
  function Add(e: Environment, item: Item): Environment {
    match item
    case Comment(line) => e.(comments := e.comments + [line])
    case Assign(v) => e.(values := Put(e.values, v.name, v.value))
  }

  function ParseRest(s: seq<byte>, e: Environment): Result<Environment>
    decreases |s|
  {
    if s == [] then Success(e)
    else
      match HeadOf(s)
      case Padded => Success(e)
      case Broken => Failure
      case Next(item, consumed) => ParseRest(s[consumed..], Add(e, item))
  }

  function Parse(data: seq<byte>): Result<Environment> {
    if SIGNATURE <= data then ParseRest(data[|SIGNATURE|..], Environment([], [])) else Failure
  }

  /** The parser proper: one position moving over the block. */
  method ParseEnvironment(data: seq<byte>) returns (r: Result<Environment>)
    ensures r == Parse(data)
  {
    if !(SIGNATURE <= data) {
      return Failure;
    }
    var values: seq<Variable>, comments: seq<seq<byte>> := [], [];
    var position, end := |SIGNATURE|, |data|;
    while position < end
      invariant |SIGNATURE| <= position <= end
      invariant Parse(data) == ParseRest(data[position..], Environment(values, comments))
    {
      ghost var s := data[position..];
      var head := ReadHead(data, position);
      match head {
        case Broken =>
          return Failure;
        case Padded =>
          position := end;
        case Next(item, consumed) =>
          assert s[consumed..] == data[position + consumed..];
          if item.Comment? {
            comments := comments + [item.line];
          } else {
            values := Put(values, item.variable.name, item.variable.value);
          }
          position := position + consumed;
      }
    }
    return Success(Environment(values, comments));
  }

  method ReadHead(data: seq<byte>, position: nat) returns (head: Head)
    requires position < |data|
    ensures head == HeadOf(data[position..])
  {
    ghost var s := data[position..];
    if data[position] == HASH {
      var newline := Find(data, NEWLINE, position);
      FindShift(data, NEWLINE, position);
      if newline.None? {
        return Padded;
      }
      assert s[..newline.value + 1 - position] == data[position..newline.value + 1];
      return Next(Comment(data[position..newline.value + 1]), newline.value + 1 - position);
    }
    var separator := Find(data, EQUALS, position);
    FindShift(data, EQUALS, position);
    if separator.None? {
      return Broken;
    }
    var name := data[position..separator.value];
    assert s[separator.value + 1 - position..] == data[separator.value + 1..];
    var value, after := ParseValue(data, separator.value + 1, ReadValue(data[separator.value + 1..]));
    assert s[..separator.value - position] == name;
    if after > |data| {
      return Broken;
    }
    return Next(Assign(Variable(name, value)), after - position);
  }

  lemma {:induction false} FindShift(data: seq<byte>, b: byte, from: nat, k: nat := 0)
    requires from + k <= |data|
    ensures var r, s := Find(data, b, from + k), Find(data[from..], b, k);
      if r.None? then s.None? else s == Some(r.value - from)
    decreases |data| - from - k
  {
    if from + k < |data| && data[from + k] != b {
      FindShift(data, b, from, k + 1);
    }
  }

  lemma ReadStep(data: seq<byte>, at: nat)
    requires at < |data| && data[at] != NEWLINE
    ensures var n := if data[at] == BACKSLASH then 2 else 1;
      if at + n > |data| then ReadValue(data[at..]).Unterminated?
      else ReadValue(data[at..]) == ReadValue(data[at + n..]).After([data[at + n - 1]], n)
  {
    var s, n := data[at..], if data[at] == BACKSLASH then 2 else 1;
    if at + n <= |data| {
      assert s[n..] == data[at + n..];
    }
  }

  lemma ReadEnd(data: seq<byte>, at: nat)
    requires at <= |data| && (at == |data| || data[at] == NEWLINE)
    ensures ReadValue(data[at..]) == if at == |data| then Unterminated else Value([], 1)
  {
  }

  lemma AfterTwice(a: seq<byte>, n: nat, b: seq<byte>, m: nat, read: Read)
    ensures read.After(b, m).After(a, n) == read.After(a + b, n + m)
  {
    if read.Value? {
      assert a + (b + read.value) == a + b + read.value;
    }
  }

  // One byte of a value, perhaps behind a backslash.
  lemma ReadOn(data: seq<byte>, at: nat, value: seq<byte>, taken: nat, whole: Read)
    requires at < |data| && data[at] != NEWLINE && whole == ReadValue(data[at..]).After(value, taken)
    ensures var n := if data[at] == BACKSLASH then 2 else 1;
      if at + n > |data| then whole.Unterminated?
      else whole == ReadValue(data[at + n..]).After(value + [data[at + n - 1]], taken + n)
  {
    var n := if data[at] == BACKSLASH then 2 else 1;
    ReadStep(data, at);
    if at + n <= |data| {
      AfterTwice(value, taken, [data[at + n - 1]], n, ReadValue(data[at + n..]));
    }
  }

  // The value at a position and where the next item starts; beyond the block when no newline ends the value.
  method ParseValue(data: seq<byte>, start: nat, ghost whole: Read) returns (value: seq<byte>, after: nat)
    requires start <= |data|
    requires whole == ReadValue(data[start..])
    ensures whole.Unterminated? ==> after > |data|
    ensures whole.Value? ==> value == whole.value && after == start + whole.consumed
  {
    value, after := [], start;
    assert whole == ReadValue(data[after..]).After(value, after - start);
    while after < |data| && data[after] != NEWLINE
      invariant start <= after <= |data| + 1
      invariant after <= |data| ==> whole == ReadValue(data[after..]).After(value, after - start)
      invariant after > |data| ==> whole.Unterminated?
    {
      ReadOn(data, after, value, after - start, whole);
      if data[after] == BACKSLASH {
        after := after + 1;
      }
      if after < |data| {
        value := value + [data[after]];
      }
      after := after + 1;
    }
    if after <= |data| {
      ReadEnd(data, after);
      assert value + [] == value;
    }
    after := after + 1;
  }

  // ---------------------------------------------------------------------------------------------------------------
  // Printing
  // ---------------------------------------------------------------------------------------------------------------

  function Escape(value: seq<byte>): seq<byte> {
    if value == [] then []
    else (if value[0] == BACKSLASH || value[0] == NEWLINE then [BACKSLASH, value[0]] else [value[0]]) + Escape(value[1..])
  }

  function Line(v: Variable): seq<byte> {
    v.name + [EQUALS] + Escape(v.value) + [NEWLINE]
  }

  function Lines(values: seq<Variable>): seq<byte> {
    if values == [] then [] else Line(values[0]) + Lines(values[1..])
  }

  function Concat(lines: seq<seq<byte>>): seq<byte> {
    if lines == [] then [] else lines[0] + Concat(lines[1..])
  }

  function Block(e: Environment): seq<byte> {
    SIGNATURE + Concat(e.comments) + Lines(e.values)
  }

  function Padding(n: nat): (r: seq<byte>)
    ensures |r| == n && forall i :: 0 <= i < n ==> r[i] == HASH
  {
    seq(n, _ => HASH)
  }

  function Dump(e: Environment, size: nat): (r: Result<seq<byte>>)
    ensures r.Success? <==> |Block(e)| <= size
    ensures r.Success? ==> |r.value| == size
  {
    var block := Block(e);
    if |block| > size then Failure else Success(block + Padding(size - |block|))
  }

  // ---------------------------------------------------------------------------------------------------------------
  // The printer and the parser undo each other
  // ---------------------------------------------------------------------------------------------------------------

  predicate GoodName(name: seq<byte>) {
    EQUALS !in name && (name == [] || name[0] != HASH)
  }

  predicate GoodComment(line: seq<byte>) {
    line != [] && line[0] == HASH && line[|line| - 1] == NEWLINE && forall i :: 0 <= i < |line| - 1 ==> line[i] != NEWLINE
  }

  predicate WellFormed(e: Environment) {
    && Distinct(e.values)
    && (forall v :: v in e.values ==> GoodName(v.name))
    && (forall c :: c in e.comments ==> GoodComment(c))
  }

  lemma {:induction false} ReadEscaped(value: seq<byte>, rest: seq<byte>)
    ensures ReadValue(Escape(value) + [NEWLINE] + rest) == Value(value, |Escape(value)| + 1)
  {
    var s := Escape(value) + [NEWLINE] + rest;
    if value != [] {
      ReadEscaped(value[1..], rest);
      var tail := Escape(value[1..]) + [NEWLINE] + rest;
      var n := if value[0] == BACKSLASH || value[0] == NEWLINE then 2 else 1;
      assert s[n..] == tail;
      assert [value[0]] + value[1..] == value;
    }
  }

  lemma {:induction false} FirstIs(s: seq<byte>, b: byte, k: nat, from: nat := 0)
    requires from <= k < |s| && s[k] == b && forall i :: from <= i < k ==> s[i] != b
    ensures Find(s, b, from) == Some(k)
    decreases k - from
  {
    if from < k {
      FirstIs(s, b, k, from + 1);
    }
  }

  lemma HeadOfLine(v: Variable, rest: seq<byte>)
    requires GoodName(v.name)
    ensures HeadOf(Line(v) + rest) == Next(Assign(v), |Line(v)|)
  {
    var s, k := Line(v) + rest, |v.name|;
    assert s == v.name + [EQUALS] + (Escape(v.value) + [NEWLINE] + rest);
    assert forall i :: 0 <= i < k ==> s[i] == v.name[i] && s[i] in v.name;
    FirstIs(s, EQUALS, k);
    assert s[..k] == v.name;
    assert s[k + 1..] == Escape(v.value) + [NEWLINE] + rest;
    ReadEscaped(v.value, rest);
  }

  lemma HeadOfComment(line: seq<byte>, rest: seq<byte>)
    requires GoodComment(line)
    ensures HeadOf(line + rest) == Next(Comment(line), |line|)
  {
    var s := line + rest;
    FirstIs(s, NEWLINE, |line| - 1);
    assert s[..|line|] == line;
  }

  lemma ParseStep(head: seq<byte>, item: Item, rest: seq<byte>, e: Environment)
    requires head != [] && HeadOf(head + rest) == Next(item, |head|)
    ensures ParseRest(head + rest, e) == ParseRest(rest, Add(e, item))
  {
    assert (head + rest)[|head|..] == rest;
  }

  lemma LineStep(v: Variable, rest: seq<byte>, e: Environment)
    requires GoodName(v.name) && Distinct(e.values + [v])
    ensures ParseRest(Line(v) + rest, e) == ParseRest(rest, e.(values := e.values + [v]))
  {
    HeadOfLine(v, rest);
    ParseStep(Line(v), Assign(v), rest, e);
    NamesBefore(e.values, [v]);
    PutFresh(e.values, v);
  }

  lemma CommentStep(line: seq<byte>, rest: seq<byte>, e: Environment)
    requires GoodComment(line)
    ensures ParseRest(line + rest, e) == ParseRest(rest, e.(comments := e.comments + [line]))
  {
    HeadOfComment(line, rest);
    ParseStep(line, Comment(line), rest, e);
  }

  lemma Reassociate<T>(a: seq<T>, b: seq<T>, c: seq<T>)
    ensures a + b + c == a + (b + c)
  {
  }

  lemma {:induction false} LinesParse(values: seq<Variable>, e: Environment, rest: seq<byte>)
    requires Distinct(e.values + values) && forall v :: v in values ==> GoodName(v.name)
    ensures ParseRest(Lines(values) + rest, e) == ParseRest(rest, e.(values := e.values + values))
  {
    if values == [] {
      assert Lines(values) + rest == rest && e.values + values == e.values;
    } else {
      var v, tail := values[0], Lines(values[1..]) + rest;
      Reassociate(Line(v), Lines(values[1..]), rest);
      Reassociate(e.values, [v], values[1..]);
      assert [v] + values[1..] == values;
      assert e.values + [v] == (e.values + values)[..|e.values| + 1];
      LineStep(v, tail, e);
      LinesParse(values[1..], e.(values := e.values + [v]), rest);
    }
  }

  lemma NamesBefore(values: seq<Variable>, more: seq<Variable>)
    requires Distinct(values + more) && more != []
    ensures forall w :: w in values ==> w.name != more[0].name
  {
    var all := values + more;
    assert all[|values|] == more[0];
    assert forall i :: 0 <= i < |values| ==> all[i] == values[i];
  }

  lemma {:induction false} CommentsParse(lines: seq<seq<byte>>, e: Environment, rest: seq<byte>)
    requires forall c :: c in lines ==> GoodComment(c)
    ensures ParseRest(Concat(lines) + rest, e) == ParseRest(rest, e.(comments := e.comments + lines))
  {
    if lines == [] {
      assert Concat(lines) + rest == rest && e.comments + lines == e.comments;
    } else {
      var line, tail := lines[0], Concat(lines[1..]) + rest;
      Reassociate(line, Concat(lines[1..]), rest);
      Reassociate(e.comments, [line], lines[1..]);
      assert [line] + lines[1..] == lines;
      CommentStep(line, tail, e);
      CommentsParse(lines[1..], e.(comments := e.comments + [line]), rest);
    }
  }

  lemma PaddingParses(n: nat, e: Environment)
    ensures ParseRest(Padding(n), e) == Success(e)
  {
    if n > 0 {
      FindIs(Padding(n), NEWLINE);
    }
  }

  lemma {:induction false} PutFresh(values: seq<Variable>, v: Variable)
    requires forall w :: w in values ==> w.name != v.name
    ensures Put(values, v.name, v.value) == values + [v]
  {
    if values != [] {
      PutFresh(values[1..], v);
      assert values == [values[0]] + values[1..];
    }
  }

  predicate GoodItem(item: Item) {
    if item.Assign? then GoodName(item.variable.name) else GoodComment(item.line)
  }

  lemma HeadIsGood(s: seq<byte>)
    requires s != [] && HeadOf(s).Next?
    ensures GoodItem(HeadOf(s).item)
  {
    if s[0] == HASH {
      FindIs(s, NEWLINE);
      var line := s[..Find(s, NEWLINE).value + 1];
      assert line[0] == s[0] && line[|line| - 1] == NEWLINE;
    } else {
      FindIs(s, EQUALS);
      var k := Find(s, EQUALS).value;
      assert forall i :: 0 <= i < k ==> s[..k][i] == s[i];
    }
  }

  lemma {:induction false} ParseKeepsWellFormed(s: seq<byte>, e: Environment)
    requires WellFormed(e) && ParseRest(s, e).Success?
    ensures WellFormed(ParseRest(s, e).value)
    decreases |s|
  {
    if s != [] && HeadOf(s).Next? {
      var item := HeadOf(s).item;
      HeadIsGood(s);
      if item.Assign? {
        PutIs(e.values, item.variable.name, item.variable.value);
      }
      ParseKeepsWellFormed(s[HeadOf(s).consumed..], Add(e, item));
    }
  }

  /** Whatever parsed is well formed: its names are distinct, hold no equals sign and do not look like comments. */
  lemma ParsedIsWellFormed(data: seq<byte>)
    requires Parse(data).Success?
    ensures WellFormed(Parse(data).value)
  {
    ParseKeepsWellFormed(data[|SIGNATURE|..], Environment([], []));
  }

  lemma WellFormedParsesBack(e: Environment, padding: nat)
    requires WellFormed(e)
    ensures Parse(Block(e) + Padding(padding)) == Success(e)
  {
    var lines := Lines(e.values) + Padding(padding);
    var rest := Concat(e.comments) + lines;
    assert Block(e) + Padding(padding) == SIGNATURE + rest;
    ParseBehindSignature(rest);
    ItemsParse(e, padding);
  }

  lemma ParseBehindSignature(rest: seq<byte>)
    ensures Parse(SIGNATURE + rest) == ParseRest(rest, Environment([], []))
  {
    assert (SIGNATURE + rest)[|SIGNATURE|..] == rest && (SIGNATURE + rest)[..|SIGNATURE|] == SIGNATURE;
  }

  lemma ItemsParse(e: Environment, padding: nat)
    requires WellFormed(e)
    ensures ParseRest(Concat(e.comments) + (Lines(e.values) + Padding(padding)), Environment([], [])) == Success(e)
  {
    assert [] + e.comments == e.comments && [] + e.values == e.values;
    CommentsParse(e.comments, Environment([], []), Lines(e.values) + Padding(padding));
    LinesParse(e.values, Environment([], e.comments), Padding(padding));
    PaddingParses(padding, e);
  }

  /** A printed block has exactly the requested size, and it parses back to the same variables, values and comments
      precisely when the environment is well formed. Values may hold any bytes. */
  lemma PrintedParsesBack(e: Environment, size: nat)
    requires Dump(e, size).Success?
    ensures |Dump(e, size).value| == size
    ensures Parse(Dump(e, size).value) == Success(e) <==> WellFormed(e)
  {
    var data := Dump(e, size).value;
    if WellFormed(e) {
      WellFormedParsesBack(e, size - |Block(e)|);
    }
    if Parse(data) == Success(e) {
      ParsedIsWellFormed(data);
    }
  }

  // ---------------------------------------------------------------------------------------------------------------
  // Every block that parses
  // ---------------------------------------------------------------------------------------------------------------

  // A byte of a value as written: behind a backslash any byte, without one neither a newline nor a backslash.
  datatype Glyph = Glyph(escaped: bool, b: byte)

  function GlyphText(glyphs: seq<Glyph>): seq<byte> {
    if glyphs == [] then []
    else (if glyphs[0].escaped then [BACKSLASH, glyphs[0].b] else [glyphs[0].b]) + GlyphText(glyphs[1..])
  }

  function GlyphValue(glyphs: seq<Glyph>): seq<byte> {
    seq(|glyphs|, i requires 0 <= i < |glyphs| => glyphs[i].b)
  }

  // The pieces of a block, in any order: comment lines, and assignments of a value written in any way.
  datatype Piece = Remark(line: seq<byte>) | Setting(name: seq<byte>, glyphs: seq<Glyph>) {
    predicate Good() {
      match this
      case Remark(line) =>
        line != [] && line[0] == HASH && line[|line| - 1] == NEWLINE && forall i :: 0 <= i < |line| - 1 ==> line[i] != NEWLINE
      case Setting(name, glyphs) =>
        && EQUALS !in name && (name == [] || name[0] != HASH)
        && forall i :: 0 <= i < |glyphs| ==> glyphs[i].escaped || glyphs[i].b !in {NEWLINE, BACKSLASH}
    }

    function Text(): seq<byte> {
      match this
      case Remark(line) => line
      case Setting(name, glyphs) => name + [EQUALS] + GlyphText(glyphs) + [NEWLINE]
    }

    function Added(e: Environment): Environment {
      match this
      case Remark(line) => e.(comments := e.comments + [line])
      case Setting(name, glyphs) => e.(values := Put(e.values, name, GlyphValue(glyphs)))
    }
  }

  function Texts(pieces: seq<Piece>): seq<byte> {
    if pieces == [] then [] else pieces[0].Text() + Texts(pieces[1..])
  }

  function AddedAll(pieces: seq<Piece>, e: Environment): Environment {
    if pieces == [] then e else AddedAll(pieces[1..], pieces[0].Added(e))
  }

  // Padding begins like a comment, but no newline ends it.
  predicate IsPadding(s: seq<byte>) {
    s == [] || (s[0] == HASH && NEWLINE !in s)
  }

  lemma {:induction false} GlyphsRead(glyphs: seq<Glyph>, rest: seq<byte>)
    requires forall i :: 0 <= i < |glyphs| ==> glyphs[i].escaped || glyphs[i].b !in {NEWLINE, BACKSLASH}
    ensures ReadValue(GlyphText(glyphs) + [NEWLINE] + rest) == Value(GlyphValue(glyphs), |GlyphText(glyphs)| + 1)
  {
    var s := GlyphText(glyphs) + [NEWLINE] + rest;
    if glyphs == [] {
      assert s == [NEWLINE] + rest;
    } else {
      GlyphsRead(glyphs[1..], rest);
      var tail, n := GlyphText(glyphs[1..]) + [NEWLINE] + rest, if glyphs[0].escaped then 2 else 1;
      assert s[n..] == tail;
      assert [glyphs[0].b] + GlyphValue(glyphs[1..]) == GlyphValue(glyphs);
    }
  }

  lemma SettingText(name: seq<byte>, raw: seq<byte>, rest: seq<byte>)
    ensures var s := name + [EQUALS] + raw + [NEWLINE] + rest;
      && |s| > |name| && s[|name|] == EQUALS && s[..|name|] == name && s[|name| + 1..] == raw + [NEWLINE] + rest
      && forall i :: 0 <= i < |name| ==> s[i] == name[i]
  {
  }

  lemma HeadOfSetting(name: seq<byte>, raw: seq<byte>, value: seq<byte>, rest: seq<byte>)
    requires EQUALS !in name && (name == [] || name[0] != HASH)
    requires ReadValue(raw + [NEWLINE] + rest) == Value(value, |raw| + 1)
    ensures HeadOf(name + [EQUALS] + raw + [NEWLINE] + rest) ==
      Next(Assign(Variable(name, value)), |name| + 1 + |raw| + 1)
  {
    SettingText(name, raw, rest);
    FirstIs(name + [EQUALS] + raw + [NEWLINE] + rest, EQUALS, |name|);
  }

  lemma PieceParses(p: Piece, rest: seq<byte>, e: Environment)
    requires p.Good()
    ensures ParseRest(p.Text() + rest, e) == ParseRest(rest, p.Added(e))
  {
    match p
    case Remark(line) =>
      HeadOfComment(line, rest);
      ParseStep(line, Comment(line), rest, e);
    case Setting(name, glyphs) =>
      GlyphsRead(glyphs, rest);
      HeadOfSetting(name, GlyphText(glyphs), GlyphValue(glyphs), rest);
      ParseStep(p.Text(), Assign(Variable(name, GlyphValue(glyphs))), rest, e);
  }

  lemma {:induction false} PiecesParse(pieces: seq<Piece>, padding: seq<byte>, e: Environment)
    requires (forall p :: p in pieces ==> p.Good()) && IsPadding(padding)
    ensures ParseRest(Texts(pieces) + padding, e) == Success(AddedAll(pieces, e))
  {
    if pieces == [] {
      assert Texts(pieces) + padding == padding;
      FindIs(padding, NEWLINE);
    } else {
      Reassociate(pieces[0].Text(), Texts(pieces[1..]), padding);
      PieceParses(pieces[0], Texts(pieces[1..]) + padding, e);
      PiecesParse(pieces[1..], padding, pieces[0].Added(e));
    }
  }

  // The glyphs of a value that was read.
  lemma {:induction false} ReadHasGlyphs(s: seq<byte>) returns (glyphs: seq<Glyph>)
    requires ReadValue(s).Value?
    ensures forall i :: 0 <= i < |glyphs| ==> glyphs[i].escaped || glyphs[i].b !in {NEWLINE, BACKSLASH}
    ensures |GlyphText(glyphs)| + 1 == ReadValue(s).consumed
    ensures s[..ReadValue(s).consumed] == GlyphText(glyphs) + [NEWLINE]
  {
    if s[0] == NEWLINE {
      glyphs := [];
    } else {
      var n := if s[0] == BACKSLASH then 2 else 1;
      var rest := ReadHasGlyphs(s[n..]);
      glyphs := [Glyph(n == 2, s[n - 1])] + rest;
      assert glyphs[1..] == rest;
      assert s[..ReadValue(s).consumed] == s[..n] + s[n..][..ReadValue(s[n..]).consumed];
    }
  }

  lemma SettingAtHead(s: seq<byte>, k: nat, consumed: nat, glyphs: seq<Glyph>)
    requires k < |s| && s[k] == EQUALS && consumed <= |s| - k - 1
    requires s[k + 1..][..consumed] == GlyphText(glyphs) + [NEWLINE]
    ensures s == Setting(s[..k], glyphs).Text() + s[k + 1 + consumed..]
  {
    SplitAt(s, k, k + 1 + consumed);
    assert s[k + 1..][..consumed] == s[k + 1..k + 1 + consumed];
    Reassociate(s[..k] + [EQUALS], GlyphText(glyphs), [NEWLINE]);
  }

  lemma SplitAt(s: seq<byte>, k: nat, n: nat)
    requires k < n <= |s|
    ensures s == s[..k] + [s[k]] + s[k + 1..n] + s[n..]
  {
  }

  lemma HeadHasPiece(s: seq<byte>) returns (p: Piece)
    requires s != [] && HeadOf(s).Next?
    ensures p.Good() && s == p.Text() + s[HeadOf(s).consumed..]
  {
    HeadIsGood(s);
    var head := HeadOf(s);
    if s[0] == HASH {
      p := Remark(head.item.line);
    } else {
      FindIs(s, EQUALS);
      var k := Find(s, EQUALS).value;
      var glyphs := ReadHasGlyphs(s[k + 1..]);
      p := Setting(s[..k], glyphs);
      SettingAtHead(s, k, ReadValue(s[k + 1..]).consumed, glyphs);
    }
  }

  lemma {:induction false} ParsedHasPieces(s: seq<byte>, e: Environment) returns (pieces: seq<Piece>, padding: seq<byte>)
    requires ParseRest(s, e).Success?
    ensures (forall p :: p in pieces ==> p.Good()) && IsPadding(padding) && s == Texts(pieces) + padding
    decreases |s|
  {
    if s == [] || HeadOf(s).Padded? {
      pieces, padding := [], s;
      if s != [] {
        FindIs(s, NEWLINE);
      }
    } else {
      var n := HeadOf(s).consumed;
      var p := HeadHasPiece(s);
      pieces, padding := ParsedHasPieces(s[n..], Add(e, HeadOf(s).item));
      Reassociate(p.Text(), Texts(pieces), padding);
      pieces := [p] + pieces;
    }
  }

  /** A block parses exactly if it is the signature, followed by comment lines and assignments in any order and any way of
      writing, and padding. Its environment is what these add up to. */
  lemma ParsesIff(data: seq<byte>, e: Environment)
    ensures Parse(data) == Success(e) <==>
      exists pieces, padding :: IsBlock(data, pieces, padding) && e == AddedAll(pieces, Environment([], []))
  {
    forall pieces, padding | IsBlock(data, pieces, padding)
      ensures Parse(data) == Success(AddedAll(pieces, Environment([], [])))
    {
      Reassociate(SIGNATURE, Texts(pieces), padding);
      ParseBehindSignature(Texts(pieces) + padding);
      PiecesParse(pieces, padding, Environment([], []));
    }
    if Parse(data) == Success(e) {
      var pieces, padding := ParsedHasPieces(data[|SIGNATURE|..], Environment([], []));
      Reassociate(SIGNATURE, Texts(pieces), padding);
      assert IsBlock(data, pieces, padding);
    }
  }

  ghost predicate IsBlock(data: seq<byte>, pieces: seq<Piece>, padding: seq<byte>) {
    data == SIGNATURE + Texts(pieces) + padding && (forall p :: p in pieces ==> p.Good()) && IsPadding(padding)
  }

  // ---------------------------------------------------------------------------------------------------------------
  // Rewriting fits
  // ---------------------------------------------------------------------------------------------------------------

  // The bytes an environment takes when printed, without the signature.
  function Size(e: Environment): nat {
    |Concat(e.comments)| + |Lines(e.values)|
  }

  function ItemSize(item: Item): nat {
    if item.Assign? then |Line(item.variable)| else |item.line|
  }

  lemma {:induction false} EscapedIsNoLonger(s: seq<byte>)
    requires ReadValue(s).Value?
    ensures |Escape(ReadValue(s).value)| + 1 <= ReadValue(s).consumed
  {
    if s[0] != NEWLINE {
      var n := if s[0] == BACKSLASH then 2 else 1;
      EscapedIsNoLonger(s[n..]);
      assert ([s[n - 1]] + ReadValue(s[n..]).value)[1..] == ReadValue(s[n..]).value;
    }
  }

  lemma HeadFits(s: seq<byte>)
    requires s != [] && HeadOf(s).Next?
    ensures ItemSize(HeadOf(s).item) <= HeadOf(s).consumed
  {
    if s[0] != HASH {
      EscapedIsNoLonger(s[Find(s, EQUALS).value + 1..]);
    }
  }

  lemma {:induction false} PutBytes(values: seq<Variable>, name: seq<byte>, value: seq<byte>)
    ensures |Lines(Put(values, name, value))| <= |Lines(values)| + |Line(Variable(name, value))|
  {
    if values == [] {
      assert Lines([Variable(name, value)]) == Line(Variable(name, value)) + Lines([]);
    } else if values[0].name == name {
      assert ([Variable(name, value)] + values[1..])[1..] == values[1..];
    } else {
      PutBytes(values[1..], name, value);
      assert ([values[0]] + Put(values[1..], name, value))[1..] == Put(values[1..], name, value);
    }
  }

  lemma {:induction false} ConcatAppend(lines: seq<seq<byte>>, line: seq<byte>)
    ensures |Concat(lines + [line])| == |Concat(lines)| + |line|
  {
    if lines == [] {
      assert Concat([line]) == line + Concat([]);
    } else {
      ConcatAppend(lines[1..], line);
      assert (lines + [line])[1..] == lines[1..] + [line];
    }
  }

  lemma AddFits(e: Environment, item: Item)
    ensures Size(Add(e, item)) <= Size(e) + ItemSize(item)
  {
    match item
    case Comment(line) => ConcatAppend(e.comments, line);
    case Assign(v) => PutBytes(e.values, v.name, v.value);
  }

  lemma {:induction false} ParseFits(s: seq<byte>, e: Environment)
    requires ParseRest(s, e).Success?
    ensures Size(ParseRest(s, e).value) <= Size(e) + |s|
    decreases |s|
  {
    if s != [] && HeadOf(s).Next? {
      HeadFits(s);
      AddFits(e, HeadOf(s).item);
      ParseFits(s[HeadOf(s).consumed..], Add(e, HeadOf(s).item));
    }
  }

  lemma {:induction false} WithoutBytes(values: seq<Variable>, v: Variable)
    requires Distinct(values) && v in values
    ensures |Lines(values)| == |Lines(Without(values, v.name))| + |Line(v)|
  {
    if values[0].name != v.name {
      assert v in values[1..];
      WithoutBytes(values[1..], v);
      assert ([values[0]] + Without(values[1..], v.name))[1..] == Without(values[1..], v.name);
    } else {
      assert v == values[0];
    }
  }

  lemma {:induction false} FewerLinesFit(values: seq<Variable>, fewer: seq<Variable>)
    requires Distinct(values) && Distinct(fewer) && forall v :: v in fewer ==> v in values
    ensures |Lines(fewer)| <= |Lines(values)|
    decreases |fewer|
  {
    if fewer != [] {
      var v := fewer[0];
      WithoutBytes(values, v);
      WithoutIs(values, v.name);
      assert forall w :: w in fewer[1..] ==> w in fewer && w.name != v.name;
      FewerLinesFit(Without(values, v.name), fewer[1..]);
    }
  }

  /** Rewriting a block that parsed, with the same or fewer of its variables and its comments, always fits its size. */
  lemma RewriteFits(data: seq<byte>, fewer: seq<Variable>)
    requires Parse(data).Success?
    requires Distinct(fewer) && forall v :: v in fewer ==> v in Parse(data).value.values
    ensures Dump(Environment(fewer, Parse(data).value.comments), |data|).Success?
  {
    ParseFits(data[|SIGNATURE|..], Environment([], []));
    ParsedIsWellFormed(data);
    FewerLinesFit(Parse(data).value.values, fewer);
  }

  // ---------------------------------------------------------------------------------------------------------------
  // The stored block
  // ---------------------------------------------------------------------------------------------------------------

  // The boot selections; an entry is None when the menu has no bootable entry for the requested system.
  datatype Action =
    | Disarm
    | Restore(entry: Option<seq<byte>>)
    | Commit(entry: Option<seq<byte>>)
    | Arm(candidate: Option<seq<byte>>, previous: Option<seq<byte>>)
  {
    predicate Resolves() {
      match this
      case Disarm => true
      case Restore(e) => e.Some?
      case Commit(e) => e.Some?
      case Arm(c, p) => c.Some? && p.Some?
    }

    // The values the two selections have afterwards.
    function Saved(before: Option<seq<byte>>): Option<seq<byte>>
      requires Resolves()
    {
      match this
      case Disarm => before
      case Restore(e) => e
      case Commit(e) => e
      case Arm(_, p) => p
    }

    function Next(before: Option<seq<byte>>): Option<seq<byte>>
      requires Resolves()
    {
      match this
      case Disarm => None
      case Restore(_) => None
      case Commit(_) => before
      case Arm(c, _) => c
    }
  }

  // The variables after an update.
  function Updated(action: Action, values: seq<Variable>): seq<Variable>
    requires action.Resolves()
  {
    match action
    case Disarm => Without(values, NEXT)
    case Restore(e) => Put(Without(values, NEXT), SAVED, e.value)
    case Commit(e) => Put(values, SAVED, e.value)
    case Arm(c, p) => Put(Put(values, SAVED, p.value), NEXT, c.value)
  }

  // A block keeps its size; a new file has the standard one.
  function SizeOf(data: Option<seq<byte>>): nat {
    if data.Some? then |data.value| else DEFAULT_SIZE
  }

  // The environment before an update; a missing file counts as an empty block with the standard warning.
  function Loaded(data: Option<seq<byte>>): Result<Environment> {
    if data.None? then Success(Environment([], [WARNING])) else Parse(data.value)
  }

  lemma WarningIsComment()
    ensures GoodComment(WARNING)
  {
    var a, b, c := Ascii("# WARNING: Do not edit "), Ascii("this file by tools other "), Ascii("than grub-editenv!!!\n");
    assert WARNING == a + b + c;
    assert a[0] == HASH && c[|c| - 1] == NEWLINE;
    assert forall i :: 0 <= i < |a| ==> a[i] != NEWLINE;
    assert forall i :: 0 <= i < |b| ==> b[i] != NEWLINE;
    assert forall i :: 0 <= i < |c| - 1 ==> c[i] != NEWLINE;
  }

  lemma LoadedIsWellFormed(data: Option<seq<byte>>)
    requires Loaded(data).Success?
    ensures WellFormed(Loaded(data).value)
  {
    if data.Some? {
      ParsedIsWellFormed(data.value);
    } else {
      WarningIsComment();
    }
  }

  // Variables of other names are the same before and after.
  ghost predicate OnlyChanges(before: seq<Variable>, after: seq<Variable>, names: set<seq<byte>>) {
    forall v: Variable :: v.name !in names ==> (v in before <==> v in after)
  }

  lemma SameLookups(before: seq<Variable>, after: seq<Variable>, names: set<seq<byte>>)
    requires Distinct(before) && Distinct(after) && OnlyChanges(before, after, names)
    ensures forall n :: n !in names ==> Lookup(after, n) == Lookup(before, n)
  {
    forall n | n !in names
      ensures Lookup(after, n) == Lookup(before, n)
    {
      var a, b := Lookup(after, n), Lookup(before, n);
      if a.Some? {
        LookupIs(before, Variable(n, a.value));
      }
    }
  }

  class BlockFile {
    var data: Option<seq<byte>>

    /** Change the boot selection. On failure the block is untouched; otherwise it keeps its size, its comments and
        every other variable, and both selections read back as requested. */
    method UpdateTrial(action: Action) returns (r: Result<()>)
      modifies this
      ensures r.Failure? ==> data == old(data)
      // It succeeds exactly if the block can be read, the entries are found, and the changed block fits its size.
      ensures r.Success? <==>
        && Loaded(old(data)).Success?
        && (match action
            case Disarm => true
            case Restore(e) => e.Some?
            case Commit(e) => e.Some?
            case Arm(c, p) => c.Some? && p.Some?)
        && var before := Loaded(old(data)).value;
          |Block(Environment(Updated(action, before.values), before.comments))| <= SizeOf(old(data))
      ensures r.Success? ==>
        && Loaded(old(data)).Success? && action.Resolves()
        && data.Some? && Parse(data.value).Success?
        && |data.value| == SizeOf(old(data))
        && var before, after := Loaded(old(data)).value, Parse(data.value).value;
          && after.comments == before.comments
          && Lookup(after.values, SAVED) ==
               (match action
                case Disarm => Lookup(before.values, SAVED)
                case Restore(e) => e
                case Commit(e) => e
                case Arm(_, p) => p)
          && Lookup(after.values, NEXT) ==
               (match action
                case Disarm => None
                case Restore(_) => None
                case Commit(_) => Lookup(before.values, NEXT)
                case Arm(c, _) => c)
          && OnlyChanges(before.values, after.values, {SAVED, NEXT})
      ensures action == Disarm && Loaded(old(data)).Success? && old(data).Some? ==> r.Success?
    {
      var environment := Environment([], [WARNING]);
      if data.Some? {
        environment :- ParseEnvironment(data.value);
      }
      LoadedIsWellFormed(data);
      var values :- Select(action, environment.values);
      var size := SizeOf(data);
      if action == Disarm && data.Some? {
        RewriteFits(data.value, values);
      }
      var printed :- Dump(Environment(values, environment.comments), size);
      PrintedParsesBack(Environment(values, environment.comments), size);
      data := Some(printed);
      r := Success(());
    }

    static method Select(action: Action, before: seq<Variable>) returns (r: Result<seq<Variable>>)
      requires Distinct(before) && forall v :: v in before ==> GoodName(v.name)
      ensures r.Success? <==> action.Resolves()
      ensures r.Success? ==>
        && Distinct(r.value) && (forall v :: v in r.value ==> GoodName(v.name))
        && Lookup(r.value, SAVED) == action.Saved(Lookup(before, SAVED))
        && Lookup(r.value, NEXT) == action.Next(Lookup(before, NEXT))
        && OnlyChanges(before, r.value, {SAVED, NEXT})
        && r.value == Updated(action, before)
      ensures r.Success? && action == Disarm ==> forall v :: v in r.value ==> v in before
    {
      assert SAVED != NEXT && GoodName(SAVED) && GoodName(NEXT);
      var values;
      match action {
        case Disarm =>
          values := Remove(before, NEXT);
        case Restore(entry) =>
          if entry.None? {
            return Failure;
          }
          values := Remove(before, NEXT);
          values := Set(values, SAVED, entry.value);
        case Commit(entry) =>
          if entry.None? {
            return Failure;
          }
          values := Set(before, SAVED, entry.value);
        case Arm(candidate, previous) =>
          if candidate.None? || previous.None? {
            return Failure;
          }
          values := Set(before, SAVED, previous.value);
          values := Set(values, NEXT, candidate.value);
      }
      r := Success(values);
    }

    static method Set(values: seq<Variable>, name: seq<byte>, value: seq<byte>) returns (r: seq<Variable>)
      requires Distinct(values) && (forall v :: v in values ==> GoodName(v.name)) && GoodName(name)
      ensures Distinct(r) && forall v :: v in r ==> GoodName(v.name)
      ensures r == Put(values, name, value)
      ensures Lookup(r, name) == Some(value) && OnlyChanges(values, r, {name})
      ensures forall n :: n != name ==> Lookup(r, n) == Lookup(values, n)
    {
      PutIs(values, name, value);
      r := Put(values, name, value);
      LookupIs(r, Variable(name, value));
      SameLookups(values, r, {name});
    }

    static method Remove(values: seq<Variable>, name: seq<byte>) returns (r: seq<Variable>)
      requires Distinct(values)
      ensures Distinct(r) && forall v :: v in r ==> v in values
      ensures r == Without(values, name)
      ensures Lookup(r, name) == None && OnlyChanges(values, r, {name})
      ensures forall n :: n != name ==> Lookup(r, n) == Lookup(values, n)
    {
      WithoutIs(values, name);
      r := Without(values, name);
      SameLookups(values, r, {name});
    }

    /** Clear the pending mark of this start. It never meets a full block: it fails only for a block that does not
        parse. It answers whether there was a mark, and it changes nothing else. */
    method ConfirmStart() returns (r: Result<bool>)
      modifies this
      ensures r.Failure? <==> old(data).Some? && Parse(old(data).value).Failure?
      ensures r.Failure? || r == Success(false) ==> data == old(data)
      ensures r.Success? && old(data).Some? ==>
        r.value == Lookup(Parse(old(data).value).value.values, PENDING).Some?
      ensures r == Success(true) ==>
        && old(data).Some? && data.Some? && |data.value| == |old(data).value| && Parse(data.value).Success?
        && var before, after := Parse(old(data).value).value, Parse(data.value).value;
          && after.comments == before.comments
          && Lookup(after.values, PENDING) == None
          && OnlyChanges(before.values, after.values, {PENDING})
    {
      if data.None? {
        return Success(false);
      }
      var environment :- ParseEnvironment(data.value);
      if Lookup(environment.values, PENDING).None? {
        return Success(false);
      }
      ParsedIsWellFormed(data.value);
      var values := Remove(environment.values, PENDING);
      RewriteFits(data.value, values);
      PrintedParsesBack(Environment(values, environment.comments), |data.value|);
      data := Some(Dump(Environment(values, environment.comments), |data.value|).value);
      r := Success(true);
    }
  }
}

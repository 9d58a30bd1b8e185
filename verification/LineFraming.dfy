/** Two bounded line readers: the assistant's reader of agent output and the reader of Nix progress messages.

    Both get a byte stream in arbitrary chunks and drop lines beyond a limit. The specification splits the whole stream;
    the readers deliver exactly its lines within the limit, for every chunking.
 */
module LineFraming {
  import opened Wrappers

  const NEWLINE: byte := 10
  const RETURN: byte := 13

  type Bytes = seq<byte>

  // ---------------------------------------------------------------------------------------------------------------
  // Lines of a whole stream
  // ---------------------------------------------------------------------------------------------------------------

  // The terminated lines, without their newlines.
  function Complete(s: Bytes): seq<Bytes> {
    if s == [] then []
    else
      var front, last := s[..|s| - 1], s[|s| - 1];
      if last == NEWLINE then Complete(front) + [Rest(front)] else Complete(front)
  }

  // What follows the last newline.
  function Rest(s: Bytes): Bytes {
    if s == [] || s[|s| - 1] == NEWLINE then [] else Rest(s[..|s| - 1]) + [s[|s| - 1]]
  }

  // The lines of at most n bytes.
  function Within(lines: seq<Bytes>, n: int): seq<Bytes> {
    if lines == [] then []
    else
      var front, last := Within(lines[..|lines| - 1], n), lines[|lines| - 1];
      if |last| <= n then front + [last] else front
  }

  // What a reader delivers at the end: an unterminated last line counts when it is not empty.
  function Delivered(s: Bytes, n: int, limit: nat): seq<Bytes> {
    Within(Complete(s), n) + (if 0 < |Rest(s)| <= limit then [Rest(s)] else [])
  }

  function Unsplit(lines: seq<Bytes>): Bytes {
    if lines == [] then [] else Unsplit(lines[..|lines| - 1]) + lines[|lines| - 1] + [NEWLINE]
  }

  lemma {:induction false} RestHasNoNewline(s: Bytes)
    ensures NEWLINE !in Rest(s)
  {
    if s != [] && s[|s| - 1] != NEWLINE {
      RestHasNoNewline(s[..|s| - 1]);
    }
  }

  /** The specification loses nothing: the lines and the rest, joined again, are the stream, and no line holds a
      newline. */
  lemma {:induction false} SplitIsFaithful(s: Bytes)
    ensures Unsplit(Complete(s)) + Rest(s) == s
    ensures forall line :: line in Complete(s) ==> NEWLINE !in line
  {
    if s != [] {
      var front, last := s[..|s| - 1], s[|s| - 1];
      SplitIsFaithful(front);
      RestHasNoNewline(front);
      assert s == front + [last];
      if last == NEWLINE {
        assert (Complete(front) + [Rest(front)])[..|Complete(front)|] == Complete(front);
      }
    }
  }

  /** No other lines do that: a stream is split in one way only. */
  lemma {:induction false} SplitIsUnique(lines: seq<Bytes>, rest: Bytes)
    requires NEWLINE !in rest && forall line :: line in lines ==> NEWLINE !in line
    ensures Complete(Unsplit(lines) + rest) == lines && Rest(Unsplit(lines) + rest) == rest
    decreases |lines|, |rest|
  {
    var s := Unsplit(lines) + rest;
    if rest != [] {
      var n := |rest| - 1;
      assert rest[n] in rest;
      assert s[|s| - 1] == rest[n] && s[..|s| - 1] == Unsplit(lines) + rest[..n];
      SplitIsUnique(lines, rest[..n]);
      assert rest == rest[..n] + [rest[n]];
    } else if lines != [] {
      var front, last := lines[..|lines| - 1], lines[|lines| - 1];
      assert s == Unsplit(lines);
      assert s[..|s| - 1] == Unsplit(front) + last;
      SplitIsUnique(front, last);
      assert lines == front + [last];
    }
  }

  // The lines within a limit keep their order; the others are dropped.
  lemma WithinAppend(lines: seq<Bytes>, line: Bytes, n: int)
    ensures Within([], n) == []
    ensures Within(lines + [line], n) == Within(lines, n) + (if |line| <= n then [line] else [])
  {
    assert (lines + [line])[..|lines|] == lines;
  }

  function Joined(chunks: seq<Bytes>): Bytes {
    if chunks == [] then [] else Joined(chunks[..|chunks| - 1]) + chunks[|chunks| - 1]
  }

  lemma JoinedAppend(chunks: seq<Bytes>, k: nat)
    requires k < |chunks|
    ensures Joined([]) == []
    ensures Joined(chunks[..k + 1]) == Joined(chunks[..k]) + chunks[k]
  {
    assert chunks[..k + 1][..k] == chunks[..k];
  }

  // ---------------------------------------------------------------------------------------------------------------
  // Agent output: a line counts without its newline
  // ---------------------------------------------------------------------------------------------------------------

  // What a reader keeps of an unfinished line: the line, unless it is beyond the limit already.
  ghost predicate Keeps(rest: Bytes, limit: nat, buffer: Bytes, discarding: bool) {
    && (discarding <==> |rest| > limit)
    && buffer == if discarding then [] else rest
  }

  lemma UnsplitAppend(lines: seq<Bytes>, line: Bytes)
    ensures Unsplit(lines + [line]) == Unsplit(lines) + line + [NEWLINE]
  {
    assert (lines + [line])[..|lines|] == lines;
  }

  // The lines and the unfinished line of the stream consumed so far.
  ghost predicate IsSplit(complete: seq<Bytes>, rest: Bytes) {
    NEWLINE !in rest && forall line :: line in complete ==> NEWLINE !in line
  }

  lemma JoinLine(front: Bytes, rest: Bytes, body: Bytes)
    ensures front + (rest + body) + [NEWLINE] + [] == front + rest + (body + [NEWLINE])
  {
  }

  lemma Joins(a: Bytes, b: Bytes, c: Bytes)
    ensures a + (b + c) == a + b + c
  {
  }

  lemma SliceAppend(chunk: Bytes, start: nat, end: nat)
    requires start <= end <= |chunk|
    ensures chunk[..end] == chunk[..start] + chunk[start..end]
  {
  }

  lemma LineJoins(before: Bytes, chunk: Bytes, start: nat, end: nat)
    requires start <= end < |chunk| && chunk[end] == NEWLINE
    ensures before + chunk[..start] + (chunk[start..end] + [NEWLINE]) == before + chunk[..end + 1]
  {
    SliceAppend(chunk, start, end + 1);
    assert chunk[start..end + 1] == chunk[start..end] + [NEWLINE];
    Joins(before, chunk[..start], chunk[start..end + 1]);
  }

  class LineReader {
    const limit: nat
    var buffer: Bytes
    var discarding: bool

    // The complete lines and the unfinished line of the stream consumed so far.
    ghost var complete: seq<Bytes>
    ghost var rest: Bytes

    ghost predicate Valid()
      reads this
    {
      IsSplit(complete, rest) && Keeps(rest, limit, buffer, discarding)
    }

    ghost function Stream(): Bytes
      reads this
    {
      Unsplit(complete) + rest
    }

    constructor (limit: nat)
      ensures Valid() && this.limit == limit && complete == [] && rest == []
    {
      this.limit, buffer, discarding, complete, rest := limit, [], false, [], [];
    }

    /** Consume one chunk and deliver the lines it completes. Between chunks at most `limit` bytes are retained. */
    method Consume(chunk: Bytes) returns (lines: seq<Bytes>)
      requires Valid()
      modifies this
      ensures Valid() && Stream() == old(Stream()) + chunk && |buffer| <= limit
      ensures Within(complete, limit) == Within(old(complete), limit) + lines
    {
      lines := [];
      var start := 0;
      while start < |chunk| && NEWLINE in chunk[start..]
        invariant start <= |chunk|
        invariant Valid() && Stream() == old(Stream()) + chunk[..start]
        invariant Within(complete, limit) == Within(old(complete), limit) + lines
      {
        var end := FindNewline(chunk, start);
        var line := EndLine(chunk[start..end]);
        if line.Some? {
          lines := lines + [line.value];
        }
        LineJoins(old(Stream()), chunk, start, end);
        start := end + 1;
      }
      ExtendLine(chunk[start..]);
      SliceAppend(chunk, start, |chunk|);
      assert chunk[..|chunk|] == chunk && chunk[start..|chunk|] == chunk[start..];
      Joins(old(Stream()), chunk[..start], chunk[start..]);
    }

    static method FindNewline(chunk: Bytes, start: nat) returns (end: nat)
      requires start < |chunk| && NEWLINE in chunk[start..]
      ensures start <= end < |chunk| && chunk[end] == NEWLINE && NEWLINE !in chunk[start..end]
    {
      end := start;
      while chunk[end] != NEWLINE
        invariant start <= end < |chunk| && NEWLINE in chunk[end..]
        invariant NEWLINE !in chunk[start..end]
        decreases |chunk| - end
      {
        assert chunk[end..] == [chunk[end]] + chunk[end + 1..];
        end := end + 1;
      }
    }

    // The bytes up to a newline: the line is delivered if it was not discarded and is within the limit.
    method EndLine(body: Bytes) returns (line: Option<Bytes>)
      requires Valid() && NEWLINE !in body
      modifies this
      ensures Valid() && Stream() == old(Stream()) + (body + [NEWLINE]) && buffer == []
      ensures Within(complete, limit) == Within(old(complete), limit) + (if line.Some? then [line.value] else [])
    {
      line := None;
      if discarding {
        discarding := false;
      } else {
        buffer := buffer + body;
        if |buffer| <= limit {
          line := Some(buffer);
        }
      }
      buffer := [];
      UnsplitAppend(complete, rest + body);
      JoinLine(Unsplit(complete), rest, body);
      WithinAppend(complete, rest + body, limit);
      complete, rest := complete + [rest + body], [];
    }

    // The bytes after the last newline of a chunk.
    method ExtendLine(body: Bytes)
      requires Valid() && NEWLINE !in body
      modifies this
      ensures Valid() && Stream() == old(Stream()) + body && complete == old(complete) && |buffer| <= limit
    {
      if !discarding {
        buffer := buffer + body;
        if |buffer| > limit {
          buffer := [];
          discarding := true;
        }
      }
      Joins(Unsplit(complete), rest, body);
      rest := rest + body;
    }

    method Finish() returns (lines: seq<Bytes>)
      requires Valid()
      ensures Within(complete, limit) + lines == Delivered(Stream(), limit, limit)
    {
      SplitIsUnique(complete, rest);
      lines := if buffer != [] && !discarding then [buffer] else [];
    }
  }

  /** For every chunking, the lines delivered are those of the whole stream within the limit. */
  method ReadLines(chunks: seq<Bytes>, limit: nat) returns (lines: seq<Bytes>)
    ensures lines == Delivered(Joined(chunks), limit, limit)
    ensures var s := Joined(chunks);
      lines == Within(Complete(s), limit) + if 0 < |Rest(s)| <= limit then [Rest(s)] else []
  {
    var reader := new LineReader(limit);
    lines := [];
    for k := 0 to |chunks|
      invariant fresh(reader) && reader.Valid() && reader.limit == limit
      invariant reader.Stream() == Joined(chunks[..k])
      invariant lines == Within(reader.complete, limit)
    {
      var more := reader.Consume(chunks[k]);
      lines := lines + more;
      JoinedAppend(chunks, k);
    }
    assert chunks[..|chunks|] == chunks;
    var last := reader.Finish();
    lines := lines + last;
  }

  // ---------------------------------------------------------------------------------------------------------------
  // Nix progress: a line counts with its newline
  // ---------------------------------------------------------------------------------------------------------------

  // The first piece of a nonempty chunk: up to and including a newline, a carriage return, or both.
  function PieceLength(s: Bytes): (n: nat)
    requires s != []
    ensures 1 <= n <= |s| && NEWLINE !in s[..n - 1]
  {
    if s[0] == NEWLINE then 1
    else if s[0] == RETURN then (if |s| > 1 && s[1] == NEWLINE then 2 else 1)
    else if |s| == 1 then 1
    else
      assert s[..PieceLength(s[1..])] == [s[0]] + s[1..][..PieceLength(s[1..]) - 1];
      PieceLength(s[1..]) + 1
  }

  class ProgressReader {
    const limit: nat
    var buffer: Bytes
    var discarding: bool

    // The complete lines and the unfinished line of the stream consumed so far.
    ghost var complete: seq<Bytes>
    ghost var rest: Bytes

    ghost predicate Valid()
      reads this
    {
      IsSplit(complete, rest) && Keeps(rest, limit, buffer, discarding)
    }

    ghost function Stream(): Bytes
      reads this
    {
      Unsplit(complete) + rest
    }

    constructor (limit: nat)
      ensures Valid() && this.limit == limit && complete == [] && rest == []
    {
      this.limit, buffer, discarding, complete, rest := limit, [], false, [], [];
    }

    /** Feed one chunk. The lines delivered are, without their newlines, those shorter than the limit. */
    method Feed(chunk: Bytes) returns (lines: seq<Bytes>)
      requires Valid()
      modifies this
      ensures Valid() && Stream() == old(Stream()) + chunk && |buffer| <= limit
      ensures Within(complete, limit - 1) == Within(old(complete), limit - 1) + lines
    {
      lines := [];
      var start := 0;
      while start < |chunk|
        invariant start <= |chunk|
        invariant Valid() && Stream() == old(Stream()) + chunk[..start]
        invariant Within(complete, limit - 1) == Within(old(complete), limit - 1) + lines
      {
        var n := PieceLength(chunk[start..]);
        var part := chunk[start..start + n];
        assert part == chunk[start..][..n] && part[..|part| - 1] == chunk[start..][..n - 1];
        var line := FeedPart(part);
        if line.Some? {
          lines := lines + [line.value];
        }
        SliceAppend(chunk, start, start + n);
        Joins(old(Stream()), chunk[..start], part);
        start := start + n;
      }
      assert chunk[..|chunk|] == chunk;
    }

    method FeedPart(part: Bytes) returns (line: Option<Bytes>)
      requires Valid() && part != [] && NEWLINE !in part[..|part| - 1]
      modifies this
      ensures Valid() && Stream() == old(Stream()) + part && |buffer| <= limit
      ensures Within(complete, limit - 1) ==
        Within(old(complete), limit - 1) + (if line.Some? then [line.value] else [])
    {
      line := None;
      ghost var body := part[..|part| - 1];
      assert part == body + [part[|part| - 1]];
      if !discarding {
        if |buffer| + |part| <= limit {
          buffer := buffer + part;
        } else {
          buffer, discarding := [], true;
        }
      }
      if part[|part| - 1] == NEWLINE {
        assert !discarding ==> buffer == rest + body + [NEWLINE] && buffer[..|buffer| - 1] == rest + body;
        UnsplitAppend(complete, rest + body);
        WithinAppend(complete, rest + body, limit - 1);
        if !discarding {
          line := Some(buffer[..|buffer| - 1]);
        }
        buffer, discarding := [], false;
        JoinLine(Unsplit(complete), rest, body);
        complete, rest := complete + [rest + body], [];
      } else {
        Joins(Unsplit(complete), rest, part);
        rest := rest + part;
      }
    }

    method Close() returns (lines: seq<Bytes>)
      requires Valid()
      ensures Within(complete, limit - 1) + lines == Delivered(Stream(), limit - 1, limit)
    {
      SplitIsUnique(complete, rest);
      lines := if buffer != [] && !discarding then [buffer] else [];
    }
  }

  /** For every chunking, the progress lines handled are those of the whole stream within the limit. */
  method ReadProgress(chunks: seq<Bytes>, limit: nat) returns (lines: seq<Bytes>)
    ensures lines == Delivered(Joined(chunks), limit - 1, limit)
    ensures var s := Joined(chunks);
      lines == Within(Complete(s), limit - 1) + if 0 < |Rest(s)| <= limit then [Rest(s)] else []
  {
    var reader := new ProgressReader(limit);
    lines := [];
    for k := 0 to |chunks|
      invariant fresh(reader) && reader.Valid() && reader.limit == limit
      invariant reader.Stream() == Joined(chunks[..k])
      invariant lines == Within(reader.complete, limit - 1)
    {
      var more := reader.Feed(chunks[k]);
      lines := lines + more;
      JoinedAppend(chunks, k);
    }
    assert chunks[..|chunks|] == chunks;
    var last := reader.Close();
    lines := lines + last;
  }
}

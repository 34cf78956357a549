/** The local backend's streaming client (`streamChat` in `src/lib/ollama.ts`):
    newline-delimited JSON read in arbitrary pieces, buffered, split into
    lines and turned into `onChunk` / `onDone` / `onError` callbacks.

    Text is modelled after decoding: each read is the string the decoder
    returned for it. `JSON.parse` of one line is an oracle `parse` returning
    the two fields the loop looks at, or `None` when parsing (or reading a
    field of the parsed value) throws. */
module Framing {
  import opened Wrappers
  import opened Types

  /** The part of one parsed frame the loop inspects: `message.content`
      ("" when absent) and `done`. */
  datatype Frame = Frame(content: string, done: bool)

  type Parser = string -> Option<Frame>

  // ---------------------------------------------------------------------
  // Line splitting with the semantics of JavaScript's `split('\n')`

  /** `s.split('\n')`: k separators give k + 1 pieces, none of which holds a
      separator. */
  function Split(s: string): (parts: seq<string>)
    ensures |parts| >= 1
    ensures forall i :: 0 <= i < |parts| ==> '\n' !in parts[i]
    decreases |s|
  {
    if s == [] then [""]
    else
      var rest := Split(s[1..]);
      if s[0] == '\n' then [""] + rest
      else [[s[0]] + rest[0]] + rest[1..]
  }

  /** `parts.join('\n')`. */
  function Join(parts: seq<string>): string
    requires |parts| >= 1
    decreases |parts|
  {
    if |parts| == 1 then parts[0] else parts[0] + "\n" + Join(parts[1..])
  }

  /** Joining the pieces back gives the original text. */
  lemma {:induction false} SplitJoin(s: string)
    ensures Join(Split(s)) == s
    decreases |s|
  {
    if s != [] {
      var rest := Split(s[1..]);
      SplitJoin(s[1..]);
      if s[0] == '\n' {
        assert Split(s) == [""] + rest;
        assert ([""] + rest)[1..] == rest;
        assert s == "\n" + s[1..];
      } else if |rest| == 1 {
        assert s == [s[0]] + s[1..];
      } else {
        assert Split(s)[1..] == rest[1..];
        assert s == [s[0]] + s[1..];
      }
    }
  }

  /** Text without a separator is one piece. */
  lemma {:induction false} SplitNoNewline(a: string)
    requires '\n' !in a
    ensures Split(a) == [a]
    decreases |a|
  {
    if a != [] {
      assert '\n' !in a[1..] by {
        forall i | 0 <= i < |a[1..]| ensures a[1..][i] != '\n' {
          assert a[1..][i] == a[i + 1];
        }
      }
      SplitNoNewline(a[1..]);
      assert a == [a[0]] + a[1..];
    }
  }

  /** A separator-free line followed by '\n' is split off as the first piece. */
  lemma {:induction false} SplitAfterLine(a: string, b: string)
    requires '\n' !in a
    ensures Split(a + "\n" + b) == [a] + Split(b)
    decreases |a|
  {
    var t := a + "\n" + b;
    if a == [] {
      assert t[0] == '\n' && t[1..] == b;
    } else {
      assert '\n' !in a[1..] by {
        forall i | 0 <= i < |a[1..]| ensures a[1..][i] != '\n' {
          assert a[1..][i] == a[i + 1];
        }
      }
      SplitAfterLine(a[1..], b);
      assert t[0] == a[0] && t[1..] == a[1..] + "\n" + b;
      assert [t[0]] + a[1..] == a;
    }
  }

  /** Splitting is injective on separator-free pieces: the pieces of a join
      are the pieces joined. */
  lemma {:induction false} JoinSplit(parts: seq<string>)
    requires |parts| >= 1
    requires forall i :: 0 <= i < |parts| ==> '\n' !in parts[i]
    ensures Split(Join(parts)) == parts
    decreases |parts|
  {
    if |parts| == 1 {
      SplitNoNewline(parts[0]);
    } else {
      JoinSplit(parts[1..]);
      SplitAfterLine(parts[0], Join(parts[1..]));
      assert parts == [parts[0]] + parts[1..];
    }
  }

  /** Splitting a concatenation: the pieces of `a` up to its last one, then
      the pieces of that last one continued by `b`. This is what lets the
      read loop keep only the last fragment between reads. */
  lemma {:induction false} SplitAppend(a: string, b: string)
    ensures var sa := Split(a);
      Split(a + b) == sa[..|sa| - 1] + Split(sa[|sa| - 1] + b)
    decreases |a|
  {
    if a == [] {
      assert a + b == b;
    } else {
      var c, a' := a[0], a[1..];
      assert a == [c] + a';
      assert a + b == [c] + (a' + b);
      SplitAppend(a', b);
      SplitCons(c, a');
      SplitCons(c, a' + b);
      var sa' := Split(a');
      var l' := sa'[|sa'| - 1];
      var tail := Split(l' + b);
      var joined := c != '\n' && |sa'| == 1;
      if joined {
        SplitCons(c, l' + b);
        assert [c] + (l' + b) == ([c] + l') + b;
      }
      ConsPieces(c, sa', Split(a' + b), tail,
                 if joined then ConsPiece(c, tail) else tail);
    }
  }

  /** How one leading character changes the pieces of a split: a separator
      opens a new piece, any other character extends the first piece. */
  function ConsPiece(c: char, st: seq<string>): (r: seq<string>)
    requires |st| >= 1
    ensures |r| == if c == '\n' then |st| + 1 else |st|
  {
    if c == '\n' then [""] + st else [[c] + st[0]] + st[1..]
  }

  /** The bookkeeping of one step of `SplitAppend`, on the pieces alone:
      `sa` splits the tail of `a`, `rest` splits the tail of `a + b`, and
      `tail` splits the last piece of `sa` continued by `b`; `last` is the
      split of the last piece of `a` continued by `b`. */
  lemma ConsPieces(c: char, sa: seq<string>, rest: seq<string>, tail: seq<string>, last: seq<string>)
    requires |sa| >= 1 && |tail| >= 1
    requires rest == sa[..|sa| - 1] + tail
    requires last == if c != '\n' && |sa| == 1 then ConsPiece(c, tail) else tail
    ensures var sc := ConsPiece(c, sa);
      && sc[|sc| - 1] == (if c != '\n' && |sa| == 1 then [c] + sa[0] else sa[|sa| - 1])
      && ConsPiece(c, rest) == sc[..|sc| - 1] + last
  {
    if c == '\n' {
      NewlinePieces(sa, rest, tail);
    } else if |sa| > 1 {
      ExtendPieces([c] + sa[0], sa, rest, tail);
    } else {
      assert rest == tail;
    }
  }

  /** `ConsPieces` when the leading character is a separator. */
  lemma NewlinePieces(sa: seq<string>, rest: seq<string>, tail: seq<string>)
    requires |sa| >= 1
    requires rest == sa[..|sa| - 1] + tail
    ensures [""] + rest == ([""] + sa)[..|sa|] + tail
  {
    assert ([""] + sa)[..|sa|] == [""] + sa[..|sa| - 1];
  }

  /** `ConsPieces` when the leading character extends a first piece that
      is not the last. */
  lemma ExtendPieces(first: string, sa: seq<string>, rest: seq<string>, tail: seq<string>)
    requires |sa| > 1
    requires rest == sa[..|sa| - 1] + tail
    ensures [first] + rest[1..] == ([first] + sa[1..])[..|sa| - 1] + tail
  {
    assert ([first] + sa[1..])[..|sa| - 1] == [first] + sa[1..|sa| - 1];
    assert rest[1..] == sa[1..|sa| - 1] + tail;
  }

  /** One step of the split. */
  lemma SplitCons(c: char, t: string)
    ensures Split([c] + t) == ConsPiece(c, Split(t))
  {
    var s := [c] + t;
    assert s[0] == c && s[1..] == t;
  }

  /** The lines a buffer holds that are terminated by '\n'. */
  function CompleteLines(s: string): seq<string>
  {
    var parts := Split(s);
    parts[..|parts| - 1]
  }

  /** The last piece of the split: the unterminated fragment kept as the
      buffer for the next read. */
  function Fragment(s: string): (f: string)
    ensures '\n' !in f
  {
    var parts := Split(s);
    parts[|parts| - 1]
  }

  /** `lines.join('\n')` with a separator after every line. */
  function Terminated(lines: seq<string>): string
    decreases |lines|
  {
    if lines == [] then "" else lines[0] + "\n" + Terminated(lines[1..])
  }

  /** Every buffer is its complete lines, each followed by '\n', then its
      unterminated fragment; no complete line and not the fragment holds a
      newline. */
  lemma LinesThenFragment(s: string)
    ensures s == Terminated(CompleteLines(s)) + Fragment(s)
    ensures forall i :: 0 <= i < |CompleteLines(s)| ==> '\n' !in CompleteLines(s)[i]
    ensures '\n' !in Fragment(s)
  {
    var parts := Split(s);
    assert parts == CompleteLines(s) + [Fragment(s)];
    SplitJoin(s);
    JoinTerminated(CompleteLines(s), Fragment(s));
  }

  lemma {:induction false} JoinTerminated(lines: seq<string>, last: string)
    ensures Join(lines + [last]) == Terminated(lines) + last
    decreases |lines|
  {
    if lines == [] {
      assert lines + [last] == [last];
    } else {
      var all := lines + [last];
      assert all[0] == lines[0] && all[1..] == lines[1..] + [last];
      JoinTerminated(lines[1..], last);
    }
  }

  /** The complete lines of a concatenation: those of `a`, then those of
      its fragment continued by `b`. */
  lemma CompleteLinesAppend(a: string, b: string)
    ensures CompleteLines(a + b) == CompleteLines(a) + CompleteLines(Fragment(a) + b)
  {
    var whole, tail := Split(a + b), Split(Fragment(a) + b);
    SplitAppend(a, b);
    assert whole == CompleteLines(a) + tail;
    DropLastAppend(CompleteLines(a), tail);
  }

  /** Dropping the last element of a concatenation with a non-empty tail. */
  lemma DropLastAppend<T>(x: seq<T>, y: seq<T>)
    requires |y| >= 1
    ensures (x + y)[..|x + y| - 1] == x + y[..|y| - 1]
  {
  }

  /** Text that is empty or ends with '\n' leaves an empty fragment. */
  lemma LastPieceAfterNewline(s: string)
    requires s == "" || s[|s| - 1] == '\n'
    ensures Fragment(s) == ""
  {
    if s != "" {
      var init := s[..|s| - 1];
      assert s == init + "\n";
      SplitAppend(init, "\n");
      var si := Split(init);
      var l := si[|si| - 1];
      SplitAfterLine(l, "");
      assert l + "\n" + "" == l + "\n";
    }
  }

  // ---------------------------------------------------------------------
  // Handling complete lines

  /** The characters `String.prototype.trim` removes: white space and line
      terminators. */
  predicate IsJsWhitespace(c: char)
  {
    || c in {'\t', '\n', '\U{000B}', '\U{000C}', '\r', ' ', '\U{00A0}', '\U{1680}',
             '\U{2028}', '\U{2029}', '\U{202F}', '\U{205F}', '\U{3000}', '\U{FEFF}'}
    || '\U{2000}' <= c <= '\U{200A}'
  }

  /** `trimStart`: the longest suffix that does not start with white space. */
  function TrimStart(s: string): (r: string)
    ensures |r| <= |s| && r == s[|s| - |r|..]
    ensures forall i :: 0 <= i < |s| - |r| ==> IsJsWhitespace(s[i])
    ensures r == "" || !IsJsWhitespace(r[0])
    decreases |s|
  {
    if s != "" && IsJsWhitespace(s[0]) then TrimStart(s[1..]) else s
  }

  /** `trimEnd`: the longest prefix that does not end with white space. */
  function TrimEnd(s: string): (r: string)
    ensures |r| <= |s| && r == s[..|r|]
    ensures forall i :: |r| <= i < |s| ==> IsJsWhitespace(s[i])
    ensures r == "" || !IsJsWhitespace(r[|r| - 1])
    decreases |s|
  {
    if s != "" && IsJsWhitespace(s[|s| - 1]) then TrimEnd(s[..|s| - 1]) else s
  }

  /** `String.prototype.trim`. */
  function Trim(s: string): string
  {
    TrimEnd(TrimStart(s))
  }

  /** `line.trim() === ''`, stated as "every character is white space";
      `TrimEmptyIffBlank` shows the two agree. */
  predicate IsBlank(line: string)
  {
    forall i :: 0 <= i < |line| ==> IsJsWhitespace(line[i])
  }

  /** `trim` leaves nothing of a line exactly when every character of it is
      white space. */
  lemma TrimEmptyIffBlank(line: string)
    ensures Trim(line) == "" <==> IsBlank(line)
  {
  }

  /** What the inner loop over one batch of lines produced: the chunks it
      emitted, and whether it met a `done` frame (and so returned). */
  datatype Scan = Scan(chunks: seq<string>, stopped: bool)

  /** The inner `for` loop: skip blank lines, skip lines that fail to parse,
      emit non-empty content, and stop after a `done` frame. */
  function HandleLines(lines: seq<string>, parse: Parser): (r: Scan)
    ensures forall i :: 0 <= i < |r.chunks| ==> r.chunks[i] != ""
    decreases |lines|
  {
    if lines == [] then Scan([], false)
    else if IsBlank(lines[0]) then HandleLines(lines[1..], parse)
    else
      match parse(lines[0])
      case None => HandleLines(lines[1..], parse)
      case Some(f) =>
        var emitted := if f.content != "" then [f.content] else [];
        if f.done then Scan(emitted, true)
        else
          var rest := HandleLines(lines[1..], parse);
          Scan(emitted + rest.chunks, rest.stopped)
  }

  /** Reference view of a batch of lines: the frames of its non-blank,
      parseable lines, in order. */
  function Frames(lines: seq<string>, parse: Parser): seq<Frame>
    decreases |lines|
  {
    if lines == [] then []
    else
      (if !IsBlank(lines[0]) && parse(lines[0]).Some? then [parse(lines[0]).value] else [])
      + Frames(lines[1..], parse)
  }

  /** The frames up to and including the first `done` frame. */
  function UpToDone(frames: seq<Frame>): seq<Frame>
    decreases |frames|
  {
    if frames == [] then []
    else if frames[0].done then [frames[0]]
    else [frames[0]] + UpToDone(frames[1..])
  }

  /** The non-empty contents of frames, in order. */
  function Contents(frames: seq<Frame>): seq<string>
    decreases |frames|
  {
    if frames == [] then []
    else (if frames[0].content != "" then [frames[0].content] else []) + Contents(frames[1..])
  }

  predicate HasDone(frames: seq<Frame>)
  {
    exists i :: 0 <= i < |frames| && frames[i].done
  }

  /** The inner loop emits exactly the non-empty contents of the parseable
      frames up to the first `done` frame (that frame's own content
      included), and stops exactly when some frame is `done`. Blank and
      unparseable lines contribute nothing and end nothing. */
  lemma {:induction false} HandleLinesByFrames(lines: seq<string>, parse: Parser)
    ensures var frames := Frames(lines, parse);
      HandleLines(lines, parse) == Scan(Contents(UpToDone(frames)), HasDone(frames))
    decreases |lines|
  {
    if lines != [] {
      var rest := Frames(lines[1..], parse);
      HandleLinesByFrames(lines[1..], parse);
      if !IsBlank(lines[0]) && parse(lines[0]).Some? {
        var f := parse(lines[0]).value;
        var frames := [f] + rest;
        assert Frames(lines, parse) == frames;
        assert frames[0] == f && frames[1..] == rest;
        if f.done {
          assert HasDone(frames) by { assert frames[0].done; }
          assert UpToDone(frames) == [f];
          assert Contents([f]) == (if f.content != "" then [f.content] else []) + Contents([]);
        } else {
          assert UpToDone(frames) == [f] + UpToDone(rest);
          var u := [f] + UpToDone(rest);
          assert u[0] == f && u[1..] == UpToDone(rest);
          assert HasDone(frames) == HasDone(rest) by {
            if HasDone(rest) {
              var i :| 0 <= i < |rest| && rest[i].done;
              assert frames[i + 1] == rest[i];
            }
            if HasDone(frames) {
              var i :| 0 <= i < |frames| && frames[i].done;
              assert i > 0;
              assert rest[i - 1] == frames[i];
            }
          }
        }
      } else {
        assert Frames(lines, parse) == [] + rest;
        assert [] + rest == rest;
      }
    }
  }

  /** Handling two batches of lines in a row is handling their concatenation,
      except that nothing after a `done` frame is looked at. */
  lemma {:induction false} HandleLinesAppend(a: seq<string>, b: seq<string>, parse: Parser)
    ensures HandleLines(a + b, parse) ==
      (var x := HandleLines(a, parse);
       if x.stopped then x
       else var y := HandleLines(b, parse); Scan(x.chunks + y.chunks, y.stopped))
    decreases |a|
  {
    if a == [] {
      assert a + b == b;
    } else {
      assert (a + b)[0] == a[0] && (a + b)[1..] == a[1..] + b;
      HandleLinesAppend(a[1..], b, parse);
      if !IsBlank(a[0]) && parse(a[0]).Some? {
        var f := parse(a[0]).value;
        var emitted := if f.content != "" then [f.content] else [];
        if !f.done {
          var x' := HandleLines(a[1..], parse);
          if !x'.stopped {
            var y := HandleLines(b, parse);
            assert emitted + (x'.chunks + y.chunks) == (emitted + x'.chunks) + y.chunks;
          }
        }
      }
    }
  }

  // ---------------------------------------------------------------------
  // The read loop

  /** The outer `while (true)` loop, one read per step: append the read to
      the buffer, split, keep the last piece as the new buffer, handle the
      complete lines, and return as soon as a `done` frame was handled. */
  function ReadLoop(buffer: string, received: seq<string>, parse: Parser): (r: Scan)
    ensures forall i :: 0 <= i < |r.chunks| ==> r.chunks[i] != ""
    decreases |received|
  {
    if received == [] then Scan([], false)
    else
      var text := buffer + received[0];
      var handled := HandleLines(CompleteLines(text), parse);
      if handled.stopped then handled
      else
        var rest := ReadLoop(Fragment(text), received[1..], parse);
        Scan(handled.chunks + rest.chunks, rest.stopped)
  }

  /** The read loop handles exactly the complete lines of everything read,
      whatever the read boundaries were. */
  lemma {:induction false} ReadLoopSeesOnlyConcat(buffer: string, received: seq<string>, parse: Parser)
    requires '\n' !in buffer
    ensures ReadLoop(buffer, received, parse) == HandleLines(CompleteLines(buffer + Concat(received)), parse)
    decreases |received|
  {
    if received == [] {
      assert buffer + Concat(received) == buffer;
      SplitNoNewline(buffer);
    } else {
      ReadLoopSeesOnlyConcat(Fragment(buffer + received[0]), received[1..], parse);
      ConcatLinesStep(buffer, received, parse);
    }
  }

  /** The complete lines of the buffer and everything read, handled, are
      those of the buffer and the first read, then those of its fragment and
      the remaining reads. */
  lemma ConcatLinesStep(buffer: string, received: seq<string>, parse: Parser)
    requires received != []
    ensures var x := buffer + received[0];
      var handled := HandleLines(CompleteLines(x), parse);
      var rest := HandleLines(CompleteLines(Fragment(x) + Concat(received[1..])), parse);
      HandleLines(CompleteLines(buffer + Concat(received)), parse) ==
        if handled.stopped then handled else Scan(handled.chunks + rest.chunks, rest.stopped)
  {
    var x := buffer + received[0];
    var c := Concat(received[1..]);
    assert Concat(received) == received[0] + c;
    assert buffer + Concat(received) == x + c;
    CompleteLinesAppend(x, c);
    HandleLinesAppend(CompleteLines(x), CompleteLines(Fragment(x) + c), parse);
  }

  // ---------------------------------------------------------------------
  // streamChat as a whole

  /** How the response body ends after the given received: the reader reports
      `done`, or a read rejects. */
  datatype BodyEnd = EndOfBody | ReadFailed(message: string)

  /** The response as the client sees it. The HTTP status is not inspected,
      so it is not part of the model. */
  datatype Response =
    | FetchFailed(message: string)
    | NullBody
    | Body(received: seq<string>, end: BodyEnd)

  const NullBodyMessage: string := "Response body is null"

  /** `streamChat`: the callbacks it makes for a response, as one outcome. */
  function StreamChat(response: Response, parse: Parser): (o: StreamOutcome)
    ensures forall i :: 0 <= i < |o.chunks| ==> o.chunks[i] != ""
    ensures response.FetchFailed? ==> o == StreamOutcome([], Failed(response.message))
    ensures response.NullBody? ==> o == StreamOutcome([], Failed(NullBodyMessage))
    ensures response.Body? && response.end.EndOfBody? ==> o.end == Completed
  {
    match response
    case FetchFailed(m) => StreamOutcome([], Failed(m))
    case NullBody => StreamOutcome([], Failed(NullBodyMessage))
    case Body(received, end) =>
      var scan := ReadLoop("", received, parse);
      StreamOutcome(scan.chunks, if scan.stopped || end.EndOfBody? then Completed else Failed(end.message))
  }

  /** The reference behaviour of a body: the parser sees exactly the
      complete lines of the concatenated received; the chunks are the non-empty
      contents up to the first `done` frame; the stream completes on a
      `done` frame or at end of body, and fails only when a read rejects
      before any `done` frame. */
  lemma StreamChatReadsCompleteLines(received: seq<string>, end: BodyEnd, parse: Parser)
    ensures var frames := Frames(CompleteLines(Concat(received)), parse);
      StreamChat(Body(received, end), parse) ==
        StreamOutcome(Contents(UpToDone(frames)),
                      if HasDone(frames) || end.EndOfBody? then Completed else Failed(end.message))
  {
    assert "" + Concat(received) == Concat(received);
    ReadLoopSeesOnlyConcat("", received, parse);
    HandleLinesByFrames(CompleteLines(Concat(received)), parse);
  }

  /** Chunking does not matter: two bodies with the same concatenated text
      produce the same callbacks. */
  lemma ChunkingIrrelevant(received1: seq<string>, received2: seq<string>, end: BodyEnd, parse: Parser)
    requires Concat(received1) == Concat(received2)
    ensures StreamChat(Body(received1, end), parse) == StreamChat(Body(received2, end), parse)
  {
    StreamChatReadsCompleteLines(received1, end, parse);
    StreamChatReadsCompleteLines(received2, end, parse);
  }

  /** An unterminated trailing fragment is never parsed: appending it to a
      body that ends at a line boundary changes nothing, even when the
      fragment is a complete `done` frame. */
  lemma TrailingFragmentDropped(received: seq<string>, fragment: string, end: BodyEnd, parse: Parser)
    requires '\n' !in fragment
    requires Concat(received) == "" || Concat(received)[|Concat(received)| - 1] == '\n'
    ensures StreamChat(Body(received + [fragment], end), parse) == StreamChat(Body(received, end), parse)
  {
    var c := Concat(received);
    ConcatAppend(received, [fragment]);
    assert Concat([fragment]) == fragment + Concat([]);
    assert Concat(received + [fragment]) == c + fragment;
    FragmentAddsNoLine(c, fragment);
    StreamChatReadsCompleteLines(received + [fragment], end, parse);
    StreamChatReadsCompleteLines(received, end, parse);
  }

  /** Text without a newline, after a line boundary, completes no line. */
  lemma FragmentAddsNoLine(c: string, fragment: string)
    requires '\n' !in fragment
    requires c == "" || c[|c| - 1] == '\n'
    ensures CompleteLines(c + fragment) == CompleteLines(c)
  {
    CompleteLinesAppend(c, fragment);
    LastPieceAfterNewline(c);
    assert "" + fragment == fragment;
    SplitNoNewline(fragment);
  }

  /** A single read holding one line and no '\n' yields no chunk: the
      stream ends as the body ends, whatever the line says. */
  lemma UnterminatedLineIgnored(line: string, end: BodyEnd, parse: Parser)
    requires '\n' !in line
    ensures StreamChat(Body([line], end), parse) ==
      StreamOutcome([], if end.EndOfBody? then Completed else Failed(end.message))
  {
    TrailingFragmentDropped([], line, end, parse);
    assert [] + [line] == [line];
    StreamChatReadsCompleteLines([], end, parse);
    assert Concat([]) == "";
    assert CompleteLines("") == [];
  }

  /** After a `done` frame nothing else is read: later received, and how the
      body ends, do not change the outcome. */
  lemma DoneFrameEndsStream(received: seq<string>, more: seq<string>, end1: BodyEnd, end2: BodyEnd, parse: Parser)
    requires HasDone(Frames(CompleteLines(Concat(received)), parse))
    ensures StreamChat(Body(received + more, end2), parse) == StreamChat(Body(received, end1), parse)
    ensures StreamChat(Body(received, end1), parse).end == Completed
  {
    var c := Concat(received);
    ConcatAppend(received, more);
    HandleLinesByFrames(CompleteLines(c), parse);
    StoppedScanIgnoresMore(c, Concat(more), parse);
    ReadLoopFromEmpty(received, parse);
    ReadLoopFromEmpty(received + more, parse);
  }

  /** The read loop from an empty buffer handles the complete lines of the
      concatenated received. */
  lemma ReadLoopFromEmpty(received: seq<string>, parse: Parser)
    ensures ReadLoop("", received, parse) == HandleLines(CompleteLines(Concat(received)), parse)
  {
    assert "" + Concat(received) == Concat(received);
    ReadLoopSeesOnlyConcat("", received, parse);
  }

  /** Once the complete lines of `c` hold a `done` frame, more text after
      `c` changes nothing the inner loop produces. */
  lemma StoppedScanIgnoresMore(c: string, m: string, parse: Parser)
    requires HandleLines(CompleteLines(c), parse).stopped
    ensures HandleLines(CompleteLines(c + m), parse) == HandleLines(CompleteLines(c), parse)
  {
    CompleteLinesAppend(c, m);
    HandleLinesAppend(CompleteLines(c), CompleteLines(Fragment(c) + m), parse);
  }

  // ---------------------------------------------------------------------
  // The request body

  datatype WireMessage = WireMessage(role: Role, content: string)

  /** The JSON body POSTed to `/api/chat`. */
  datatype ChatRequestBody = ChatRequestBody(
    model: string,
    messages: seq<WireMessage>,
    system: string,
    stream: bool)

  /** Each message reduced to its role and content, in order, with the
      system prompt and streaming switched on. */
  function RequestBody(model: string, messages: seq<ChatMessage>, systemPrompt: string): (body: ChatRequestBody)
    ensures |body.messages| == |messages|
    ensures forall i :: 0 <= i < |messages| ==>
      body.messages[i].role == messages[i].role && body.messages[i].content == messages[i].content
    ensures body.model == model && body.system == systemPrompt && body.stream
  {
    ChatRequestBody(
      model,
      seq(|messages|, i requires 0 <= i < |messages| => WireMessage(messages[i].role, messages[i].content)),
      systemPrompt,
      true)
  }

  /** Ids and character stamps never reach the wire: histories that agree on
      roles and contents produce the same body. */
  lemma RequestIgnoresStamps(model: string, a: seq<ChatMessage>, b: seq<ChatMessage>, systemPrompt: string)
    requires |a| == |b|
    requires forall i :: 0 <= i < |a| ==> a[i].role == b[i].role && a[i].content == b[i].content
    ensures RequestBody(model, a, systemPrompt) == RequestBody(model, b, systemPrompt)
  {
    var x := RequestBody(model, a, systemPrompt);
    var y := RequestBody(model, b, systemPrompt);
    assert x.messages == y.messages;
  }
}

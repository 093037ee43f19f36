/** How a browser's `EventSource` reads a `text/event-stream` body, after
    section 9.2.6 "Interpreting an event stream" of the WHATWG HTML Living
    Standard: a line ends at a CRLF pair, a lone LF or a lone CR. This is the
    reader the SSE hub writes for; the hub's frames are proved to dispatch
    exactly the intended messages against it. */
module SseClient {
  import opened Text

  /** A dispatched `MessageEvent`: its type, its data and its `lastEventId`. */
  datatype Message = Message(eventType: string, data: string, lastEventId: string)

  /** The reader's buffers: the line being read, the event type buffer, the
      data buffer, the last event ID buffer, and the messages dispatched so far;
      `afterCR` says the last character read was a CR, so that an LF right
      after it completes the same line end. */
  datatype Reader = Reader(line: string, eventType: string, data: string, lastEventId: string,
                           dispatched: seq<Message>, afterCR: bool)

  /** Between two events: no partial line, empty type and data buffers, and
      no line end half read. */
  predicate Idle(r: Reader) {
    r.line == [] && r.eventType == [] && r.data == [] && !r.afterCR
  }

  /** "If the data buffer is an empty string, set the data buffer and the event
      type buffer to the empty string and return"; otherwise drop one trailing
      LF from the data, dispatch with type `message` unless the type buffer says
      otherwise, and clear both buffers. */
  function Dispatch(r: Reader): Reader {
    if r.data == [] then r.(eventType := [], data := [])
    else
      var data := if r.data[|r.data| - 1] == '\n' then r.data[..|r.data| - 1] else r.data;
      var ty := if r.eventType == [] then "message" else r.eventType;
      r.(eventType := [], data := [], dispatched := r.dispatched + [Message(ty, data, r.lastEventId)])
  }

  /** The field names the standard gives a meaning; `retry` only sets the
      reconnection time, which is not part of this reader. */
  function ProcessField(r: Reader, name: string, value: string): Reader {
    if name == "event" then r.(eventType := value)
    else if name == "data" then r.(data := r.data + value + "\n")
    else if name == "id" then (if '\0' in value then r else r.(lastEventId := value))
    else r
  }

  /** One complete line: blank dispatches, a leading colon is a comment, and
      otherwise the field name runs to the first colon and the value starts
      after it, minus one leading space. */
  function ProcessLine(r: Reader, line: string): Reader {
    if line == [] then Dispatch(r)
    else if line[0] == ':' then r
    else if ':' in line then
      var k := IndexOf(line, ':');
      var value := line[k + 1..];
      ProcessField(r, line[..k], if value != [] && value[0] == ' ' then value[1..] else value)
    else ProcessField(r, line, [])
  }

  function EndOfLine(r: Reader): Reader {
    ProcessLine(r.(line := []), r.line)
  }

  /** Feed characters to the reader. A CR ends the line; an LF ends it too,
      unless it follows a CR, whose line end it completes. */
  function Feed(r: Reader, s: string): Reader
    decreases |s|
  {
    if s == [] then r
    else if s[0] == '\r' then Feed(EndOfLine(r).(afterCR := true), s[1..])
    else if s[0] == '\n' then Feed(if r.afterCR then r.(afterCR := false) else EndOfLine(r), s[1..])
    else Feed(r.(line := r.line + [s[0]], afterCR := false), s[1..])
  }

  /** Reading a stream in two pieces is reading it in one. */
  lemma {:induction false} FeedAppend(r: Reader, a: string, b: string)
    ensures Feed(r, a + b) == Feed(Feed(r, a), b)
    decreases |a|
  {
    if a != [] {
      assert (a + b)[0] == a[0] && (a + b)[1..] == a[1..] + b;
      if a[0] == '\r' {
        FeedAppend(EndOfLine(r).(afterCR := true), a[1..], b);
      } else if a[0] == '\n' {
        FeedAppend(if r.afterCR then r.(afterCR := false) else EndOfLine(r), a[1..], b);
      } else {
        FeedAppend(r.(line := r.line + [a[0]], afterCR := false), a[1..], b);
      }
    } else {
      assert a + b == b;
    }
  }

  lemma {:induction false} FeedPartialLine(r: Reader, x: string)
    requires '\n' !in x && '\r' !in x && !r.afterCR
    ensures Feed(r, x) == r.(line := r.line + x)
    decreases |x|
  {
    if x != [] {
      assert '\n' !in x[1..] && '\r' !in x[1..];
      assert r.(line := r.line + [x[0]], afterCR := false) == r.(line := r.line + [x[0]]);
      FeedPartialLine(r.(line := r.line + [x[0]]), x[1..]);
      assert r.line + [x[0]] + x[1..] == r.line + x;
    } else {
      assert r.line + x == r.line;
    }
  }

  /** A line followed by its LF is processed as one line. */
  lemma FeedLine(r: Reader, x: string)
    requires '\n' !in x && '\r' !in x && !r.afterCR
    ensures Feed(r, x + "\n") == ProcessLine(r.(line := []), r.line + x)
  {
    FeedAppend(r, x, "\n");
    FeedPartialLine(r, x);
  }

  /** A `name: value` line sets the named field to exactly `value`. */
  lemma FieldLine(r: Reader, name: string, value: string)
    requires name != [] && name[0] != ':' && ':' !in name
    ensures ProcessLine(r, name + ": " + value) == ProcessField(r, name, value)
  {
    var line := name + ": " + value;
    assert line[|name|] == ':' && line[..|name|] == name;
    IndexOfIs(line, ':', |name|);
    assert line[|name| + 1..] == " " + value;
  }

  function EventTypeOf(ty: string): string {
    if ty == [] then "message" else ty
  }

  /** A complete `name: value` line at the head of the input acts on the
      reader as setting the field, then reading goes on with the rest. */
  lemma FieldLineThen(r: Reader, name: string, value: string, rest: string)
    requires r.line == [] && !r.afterCR && name != [] && name[0] != ':' && ':' !in name
    requires '\n' !in name && '\n' !in value && '\r' !in name && '\r' !in value
    ensures Feed(r, name + ": " + value + "\n" + rest) == Feed(ProcessField(r, name, value), rest)
  {
    var line := name + ": " + value;
    assert '\n' !in line && '\r' !in line by {
      assert forall i :: 0 <= i < |name| ==> line[i] == name[i];
      assert forall i :: |name| + 2 <= i < |line| ==> line[i] == value[i - |name| - 2];
    }
    assert name + ": " + value + "\n" + rest == (line + "\n") + rest;
    FeedAppend(r, line + "\n", rest);
    FeedLine(r, line);
    assert r.(line := []) == r && r.line + line == line;
    FieldLine(r, name, value);
  }

  /** A line ended by a lone CR is processed as one line, and the LF of a
      CRLF pair ends nothing more: CRLF reads exactly as LF does. */
  lemma CarriageReturnEndsLine(r: Reader, x: string)
    requires '\n' !in x && '\r' !in x && !r.afterCR
    ensures Feed(r, x + "\r") == ProcessLine(r.(line := []), r.line + x).(afterCR := true)
    ensures Feed(r, x + "\r\n") == Feed(r, x + "\n")
  {
    FeedAppend(r, x, "\r");
    FeedAppend(r, x, "\r\n");
    FeedAppend(r, x, "\n");
    FeedPartialLine(r, x);
  }

  /** Any character but a line break clears a pending CR. */
  lemma FeedClearsCarriageReturn(r: Reader, x: string)
    requires x != [] && '\n' !in x && '\r' !in x
    ensures Feed(r, x) == r.(line := r.line + x, afterCR := false)
  {
    var t := r.(line := r.line + [x[0]], afterCR := false);
    assert x[0] in x;
    assert Feed(r, x) == Feed(t, x[1..]);
    assert '\n' !in x[1..] && '\r' !in x[1..];
    FeedPartialLine(t, x[1..]);
    assert t.line + x[1..] == r.line + x;
  }

  /** A non-empty line read right after a CR is processed as one line: only
      an LF that comes straight after the CR is swallowed. */
  lemma FeedLineAfterCarriageReturn(r: Reader, x: string)
    requires x != [] && '\n' !in x && '\r' !in x
    ensures Feed(r, x + "\n") == ProcessLine(r.(line := [], afterCR := false), r.line + x)
  {
    FeedAppend(r, x, "\n");
    FeedClearsCarriageReturn(r, x);
    var t := r.(line := r.line + x, afterCR := false);
    assert Feed(t, "\n") == EndOfLine(t);
  }

  lemma FieldKeepsLine(r: Reader, name: string, value: string)
    ensures ProcessField(r, name, value).line == r.line
    ensures ProcessField(r, name, value).afterCR == r.afterCR
  {
  }

  /** A CR inside a field value cuts the value there: the rest of the value
      is read as a line of its own. */
  lemma FieldCutAtCarriageReturn(r: Reader, name: string, a: string, b: string)
    requires r.line == [] && !r.afterCR && name != [] && name[0] != ':' && ':' !in name && b != []
    requires '\n' !in name && '\r' !in name && '\n' !in a && '\r' !in a && '\n' !in b && '\r' !in b
    ensures Feed(r, name + ": " + a + "\r" + b + "\n") == ProcessLine(ProcessField(r, name, a), b)
  {
    var line := name + ": " + a;
    assert '\n' !in line && '\r' !in line by {
      assert forall i :: 0 <= i < |name| ==> line[i] == name[i];
      assert forall i :: |name| + 2 <= i < |line| ==> line[i] == a[i - |name| - 2];
    }
    var f := ProcessField(r, name, a);
    FieldKeepsLine(r, name, a);
    var s := f.(afterCR := true);
    assert Feed(r, line + "\r") == s by {
      CarriageReturnEndsLine(r, line);
      assert r.(line := []) == r && r.line + line == line;
      FieldLine(r, name, a);
    }
    assert Feed(s, b + "\n") == ProcessLine(f, b) by {
      FeedLineAfterCarriageReturn(s, b);
      assert s.(line := [], afterCR := false) == f && s.line + b == b;
    }
    assert name + ": " + a + "\r" + b + "\n" == (line + "\r") + (b + "\n");
    FeedAppend(r, line + "\r", b + "\n");
  }

  /** Reading `id: I`, `event: T`, `data: D` and a blank line from an idle
      reader dispatches exactly one message, whose type is `T` (or `message`),
      whose data is `D` and whose last event ID is `I`, and leaves the reader
      idle. */
  lemma {:induction false} FrameDispatches(r: Reader, id: string, ty: string, data: string)
    requires Idle(r)
    requires '\n' !in id && '\n' !in ty && '\n' !in data && '\0' !in id
    requires '\r' !in id && '\r' !in ty && '\r' !in data
    ensures Feed(r, "id: " + id + "\nevent: " + ty + "\ndata: " + data + "\n\n")
      == r.(lastEventId := id, dispatched := r.dispatched + [Message(EventTypeOf(ty), data, id)])
  {
    var s4 := "\n";
    var s3 := "data" + ": " + data + "\n" + s4;
    var s2 := "event" + ": " + ty + "\n" + s3;
    var s1 := "id" + ": " + id + "\n" + s2;
    assert s1 == "id: " + id + "\nevent: " + ty + "\ndata: " + data + "\n\n";
    FieldLineThen(r, "id", id, s2);
    var r1 := r.(lastEventId := id);
    assert ProcessField(r, "id", id) == r1;
    FieldLineThen(r1, "event", ty, s3);
    var r2 := r1.(eventType := ty);
    assert ProcessField(r1, "event", ty) == r2;
    FieldLineThen(r2, "data", data, s4);
    var r3 := r2.(data := data + "\n");
    assert ProcessField(r2, "data", data) == r3;
    assert Feed(r, s1) == Feed(r3, s4);
    assert s4 == [] + "\n";
    FeedLine(r3, []);
    assert r3.line + [] == [] && r3.(line := []) == r3;
    assert (data + "\n")[..|data|] == data;
    assert Dispatch(r3) == r.(lastEventId := id, dispatched := r.dispatched + [Message(EventTypeOf(ty), data, id)]);
  }

  /** A comment line followed by a blank line dispatches nothing. */
  lemma CommentIsSilent(r: Reader, text: string)
    requires Idle(r) && '\n' !in text && '\r' !in text
    ensures Feed(r, ":" + text + "\n\n") == r
  {
    var c := ":" + text;
    assert '\n' !in c && '\r' !in c by { assert forall i :: 1 <= i < |c| ==> c[i] == text[i - 1]; }
    assert ":" + text + "\n\n" == (c + "\n") + ([] + "\n");
    FeedAppend(r, c + "\n", [] + "\n");
    FeedLine(r, c);
    FeedLine(r, []);
    assert r.line + [] == [];
  }

  // ---------------------------------------------------------------- streams of chunks

  function Concat(xs: seq<string>): string {
    if xs == [] then [] else xs[0] + Concat(xs[1..])
  }

  function Flatten(ms: seq<seq<Message>>): seq<Message> {
    if ms == [] then [] else ms[0] + Flatten(ms[1..])
  }

  /** Read from any idle reader, `s` dispatches exactly `ms` and leaves the
      reader idle again. */
  ghost predicate ReadsAs(s: string, ms: seq<Message>) {
    forall r :: Idle(r) ==> Idle(Feed(r, s)) && Feed(r, s).dispatched == r.dispatched + ms
  }

  lemma AppendAssoc<T>(a: seq<T>, b: seq<T>, c: seq<T>)
    ensures a + b + c == a + (b + c)
  {
  }

  /** Each chunk reads as its own messages. */
  ghost predicate EachReadsAs(xs: seq<string>, ms: seq<seq<Message>>) {
    |xs| == |ms| && forall i :: 0 <= i < |xs| ==> ReadsAs(xs[i], ms[i])
  }

  lemma EachReadsAsTail(xs: seq<string>, ms: seq<seq<Message>>)
    requires EachReadsAs(xs, ms) && xs != []
    ensures ReadsAs(xs[0], ms[0]) && EachReadsAs(xs[1..], ms[1..])
  {
    forall i | 0 <= i < |xs| - 1 ensures ReadsAs(xs[1..][i], ms[1..][i]) {
      assert xs[1..][i] == xs[i + 1] && ms[1..][i] == ms[i + 1];
      assert ReadsAs(xs[i + 1], ms[i + 1]);
    }
  }

  /** Chunks that each read as their messages read, one after another, as the
      messages one after another. */
  lemma {:induction false} FeedConcat(r: Reader, xs: seq<string>, ms: seq<seq<Message>>)
    requires EachReadsAs(xs, ms) && Idle(r)
    ensures Idle(Feed(r, Concat(xs)))
    ensures Feed(r, Concat(xs)).dispatched == r.dispatched + Flatten(ms)
    decreases |xs|
  {
    if xs != [] {
      EachReadsAsTail(xs, ms);
      var r1 := Feed(r, xs[0]);
      assert Idle(r1) && r1.dispatched == r.dispatched + ms[0];
      FeedConcat(r1, xs[1..], ms[1..]);
      FeedAppend(r, xs[0], Concat(xs[1..]));
      AppendAssoc(r.dispatched, ms[0], Flatten(ms[1..]));
    }
  }
}

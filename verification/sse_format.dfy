/** `format_sse_event` of the SSE hub and the stream of chunks a subscription
    writes: event frames and keepalive comments in the `text/event-stream`
    format of section 9.2 "Server-sent events" of the WHATWG HTML Living
    Standard. */
module SseFormat {
  import opened Wrappers
  import opened Text
  import opened Json
  import opened SseClient

  /** The object on the `data:` line: `{topic, data}`, plus `retain: true`
      when the record asks for it. */
  function Payload(topic: Json, data: Json, retain: bool): (p: Json)
    ensures p.Obj?
    ensures Lookup(p.fields, "topic") == Some(topic) && Lookup(p.fields, "data") == Some(data)
    ensures Lookup(p.fields, "retain") == if retain then Some(Bool(true)) else None
  {
    var base := [("topic", topic), ("data", data)];
    assert base[..1] == [("topic", topic)];
    if retain then
      var fs := base + [("retain", Bool(true))];
      assert fs[..2] == base;
      assert Lookup(fs, "topic") == Lookup(base, "topic");
      assert Lookup(fs, "data") == Lookup(base, "data");
      Obj(fs)
    else Obj(base)
  }

  lemma PayloadCanonical(topic: Json, data: Json, retain: bool)
    requires Canonical(topic) && Canonical(data)
    ensures Canonical(Payload(topic, data, retain))
  {
    var fs := Payload(topic, data, retain).fields;
    var base := [("topic", topic), ("data", data)];
    assert "topic" != "data" && "topic" != "retain" && "data" != "retain";
    if retain {
      assert fs == base + [("retain", Bool(true))];
      assert Canonical(Bool(true));
    } else {
      assert fs == base;
    }
  }

  // What `format_sse_event` reads from a record, with the same defaults.
  function IdOf(rec: Json): Json requires rec.Obj? { Get(rec.fields, "id", Num(0)) }
  function TopicOf(rec: Json): Json requires rec.Obj? { Get(rec.fields, "topic", Str("")) }
  function DataOf(rec: Json): Json requires rec.Obj? { Get(rec.fields, "data", Null) }
  function RetainOf(rec: Json): bool requires rec.Obj? { Truthy(Get(rec.fields, "retain", Bool(false))) }

  /** `format_sse_event(rec)`: nothing for a record whose topic is missing or
      falsy; otherwise an `id`, an `event` and a `data` line and the blank
      line that ends the event. */
  function FormatSseEvent(c: Codec, rec: Json): (frame: string)
    requires rec.Obj?
    ensures frame == [] <==> !Truthy(TopicOf(rec))
  {
    if !Truthy(TopicOf(rec)) then ""
    else
      "id: " + Show(c, IdOf(rec)) + "\nevent: " + Show(c, TopicOf(rec))
      + "\ndata: " + c.dumps(Payload(TopicOf(rec), DataOf(rec), RetainOf(rec))) + "\n\n"
  }

  /** The comment the tail loop sends when the log has not grown. */
  const Keepalive: string := ": keepalive\n\n"

  /** One chunk a subscription yields. */
  datatype Emit = Frame(rec: Json) | KeepaliveComment

  predicate Renderable(emits: seq<Emit>) {
    forall i :: 0 <= i < |emits| ==> emits[i].Frame? ==> emits[i].rec.Obj?
  }

  function Render(c: Codec, e: Emit): string
    requires e.Frame? ==> e.rec.Obj?
  {
    match e
    case Frame(rec) => FormatSseEvent(c, rec)
    case KeepaliveComment => Keepalive
  }

  /** The chunks, rendered. */
  function Chunks(c: Codec, emits: seq<Emit>): (xs: seq<string>)
    requires Renderable(emits)
    ensures |xs| == |emits| && forall i :: 0 <= i < |emits| ==> xs[i] == Render(c, emits[i])
  {
    seq(|emits|, i requires 0 <= i < |emits| => Render(c, emits[i]))
  }

  /** The response body: the chunks one after another. */
  function Wire(c: Codec, emits: seq<Emit>): string
    requires Renderable(emits)
  {
    Concat(Chunks(c, emits))
  }

  /** The message a browser should see for a record. */
  function MessageOf(c: Codec, rec: Json): Message
    requires rec.Obj?
  {
    Message(EventTypeOf(Show(c, TopicOf(rec))),
            c.dumps(Payload(TopicOf(rec), DataOf(rec), RetainOf(rec))),
            Show(c, IdOf(rec)))
  }

  /** The message one chunk should produce, if any: frames with a truthy topic
      produce one, everything else none. */
  function ExpectedOf(c: Codec, e: Emit): seq<Message>
    requires e.Frame? ==> e.rec.Obj?
  {
    if e.Frame? && Truthy(TopicOf(e.rec)) then [MessageOf(c, e.rec)] else []
  }

  function ExpectedEach(c: Codec, emits: seq<Emit>): (ms: seq<seq<Message>>)
    requires Renderable(emits)
    ensures |ms| == |emits| && forall i :: 0 <= i < |emits| ==> ms[i] == ExpectedOf(c, emits[i])
  {
    seq(|emits|, i requires 0 <= i < |emits| => ExpectedOf(c, emits[i]))
  }

  /** The messages a body should produce, in order. */
  function Expected(c: Codec, emits: seq<Emit>): seq<Message>
    requires Renderable(emits)
  {
    Flatten(ExpectedEach(c, emits))
  }

  /** A record whose id and topic print on one line each (the id field is
      also free of NUL, which would make a reader ignore it). */
  predicate OneLine(c: Codec, rec: Json)
    requires rec.Obj?
  {
    && '\n' !in Show(c, IdOf(rec)) && '\r' !in Show(c, IdOf(rec)) && '\0' !in Show(c, IdOf(rec))
    && '\n' !in Show(c, TopicOf(rec)) && '\r' !in Show(c, TopicOf(rec))
  }

  /** A frame makes an idle reader dispatch exactly the record's message. */
  lemma FrameReadsBack(c: Codec, rec: Json, r: Reader)
    requires DumpsOneLine(c) && rec.Obj? && OneLine(c, rec) && Truthy(TopicOf(rec)) && Idle(r)
    ensures Feed(r, FormatSseEvent(c, rec))
      == r.(lastEventId := Show(c, IdOf(rec)), dispatched := r.dispatched + [MessageOf(c, rec)])
  {
    var p := Payload(TopicOf(rec), DataOf(rec), RetainOf(rec));
    assert '\n' !in c.dumps(p) && '\r' !in c.dumps(p);
    FrameDispatches(r, Show(c, IdOf(rec)), Show(c, TopicOf(rec)), c.dumps(p));
  }

  /** The one law of `json.dumps` that framing needs: a dump never holds a
      line break (`Lawful` implies it). */
  ghost predicate DumpsOneLine(c: Codec) {
    forall j :: '\n' !in c.dumps(j) && '\r' !in c.dumps(j)
  }

  /** The keepalive is a comment: a reader ignores it. */
  lemma KeepaliveIsSilent(r: Reader)
    requires Idle(r)
    ensures Feed(r, Keepalive) == r
  {
    assert Keepalive == ":" + " keepalive" + "\n\n";
    CommentIsSilent(r, " keepalive");
  }

  /** One chunk, read from an idle reader, dispatches what `ExpectedOf` says
      for it and leaves the reader idle. */
  lemma EmitReadsAs(c: Codec, e: Emit)
    requires DumpsOneLine(c) && (e.Frame? ==> e.rec.Obj? && OneLine(c, e.rec))
    ensures ReadsAs(Render(c, e), ExpectedOf(c, e))
  {
    forall r | Idle(r)
      ensures Idle(Feed(r, Render(c, e))) && Feed(r, Render(c, e)).dispatched == r.dispatched + ExpectedOf(c, e)
    {
      match e
      case KeepaliveComment =>
        KeepaliveIsSilent(r);
      case Frame(rec) =>
        if Truthy(TopicOf(rec)) {
          FrameReadsBack(c, rec, r);
        } else {
          assert Render(c, e) == [];
        }
    }
  }

  /** Chunks a reader can take apart: every frame is an object whose id and
      topic print on one line. */
  predicate Sendable(c: Codec, emits: seq<Emit>) {
    Renderable(emits) && forall i :: 0 <= i < |emits| ==> emits[i].Frame? ==> OneLine(c, emits[i].rec)
  }

  /** A whole response body, read by a browser, dispatches exactly the
      expected messages in order and leaves the reader idle. */
  lemma WireReadsBack(c: Codec, emits: seq<Emit>, r: Reader)
    requires DumpsOneLine(c) && Sendable(c, emits) && Idle(r)
    ensures Idle(Feed(r, Wire(c, emits)))
    ensures Feed(r, Wire(c, emits)).dispatched == r.dispatched + Expected(c, emits)
  {
    var xs := Chunks(c, emits);
    var ms := ExpectedEach(c, emits);
    forall i | 0 <= i < |emits| ensures ReadsAs(xs[i], ms[i]) {
      EmitReadsAs(c, emits[i]);
    }
    assert EachReadsAs(xs, ms);
    FeedConcat(r, xs, ms);
  }

  lemma LookupCanonical(fs: seq<(string, Json)>, key: string)
    requires Canonical(Obj(fs)) && Lookup(fs, key).Some?
    ensures Canonical(Lookup(fs, key).value)
  {
  }

  /** Decoding a message's data gives back the record's topic, its data, and
      the retain flag exactly when the record has a truthy `retain`. */
  lemma PayloadReadsBack(c: Codec, rec: Json)
    requires Lawful(c) && rec.Obj? && Canonical(rec)
    ensures c.loads(MessageOf(c, rec).data) == Some(Payload(TopicOf(rec), DataOf(rec), RetainOf(rec)))
  {
    var fs := rec.fields;
    if Lookup(fs, "topic").Some? { LookupCanonical(fs, "topic"); }
    if Lookup(fs, "data").Some? { LookupCanonical(fs, "data"); }
    PayloadCanonical(TopicOf(rec), DataOf(rec), RetainOf(rec));
  }
}

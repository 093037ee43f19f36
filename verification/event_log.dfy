/** The file-backed part of the SSE hub: the sequence counter (`seq.txt`),
    the append-only event log (`pan-events.ndjson`, one JSON record per
    line), the replay of the log, and the validation of a POST. */
module EventLog {
  import opened Wrappers
  import opened Text
  import opened Json
  import opened Topics
  import opened SseFormat

  // ---------------------------------------------------------------- the counter

  /** `int(text.strip() or '0')`; `None` is the `ValueError` of `int()`. */
  function CounterValue(text: string): (r: Option<int>)
    ensures Strip(text) == [] ==> r == Some(0)
    ensures r.Some? && Strip(text) != [] ==> ParseInt(Strip(text)) == r
  {
    var s := Strip(text);
    if s == [] then Some(0) else ParseInt(s)
  }

  /** What `get_next_id` writes: `f'{next_id}\n'`. */
  function CounterText(n: int): string {
    Decimal(n) + "\n"
  }

  /** The counter file reads back as the value last written to it. */
  lemma CounterRoundTrip(n: int)
    ensures CounterValue(CounterText(n)) == Some(n)
  {
    var d := Decimal(n);
    assert !IsSpace(d[0]) && !IsSpace(d[|d| - 1]);
    StripLine(d);
    DecimalRoundTrip(n);
  }

  /** A line that `str.strip()` reduces to nothing. */
  predicate Blank(line: string) {
    forall i :: 0 <= i < |line| ==> IsSpace(line[i])
  }

  /** Every line from `lo` up to `hi` is blank. */
  predicate BlankFrom(lines: seq<string>, lo: nat, hi: nat)
    requires lo <= hi <= |lines|
  {
    forall k :: lo <= k < hi ==> Blank(lines[k])
  }

  /** The position of the last line before `n` that is not blank. */
  function LastFilled(lines: seq<string>, n: nat): (r: Option<nat>)
    requires n <= |lines|
    ensures r.None? <==> BlankFrom(lines, 0, n)
    ensures r.Some? ==> r.value < n && !Blank(lines[r.value]) && BlankFrom(lines, r.value + 1, n)
    decreases n
  {
    if n == 0 then None
    else if !Blank(lines[n - 1]) then Some(n - 1)
    else LastFilled(lines, n - 1)
  }

  /** Line `i` is the last line that is not blank, and `v` is what is left
      of it after the `strip()` of the whole text: its trailing whitespace
      goes, and its leading whitespace too when no line before it holds
      anything but whitespace. */
  predicate LastLineAt(lines: seq<string>, i: nat, v: string) {
    && i < |lines| && !Blank(lines[i]) && BlankFrom(lines, i + 1, |lines|)
    && v == if BlankFrom(lines, 0, i) then Strip(lines[i]) else StripRight(lines[i])
  }

  /** `lines[-1]` of `[l for l in content.strip().split('\n') if l]`. */
  function LastLine(lines: seq<string>): (r: Option<string>)
    ensures r.None? <==> BlankFrom(lines, 0, |lines|)
    ensures r.Some? ==> exists i :: LastLineAt(lines, i, r.value)
  {
    match LastFilled(lines, |lines|)
    case None => None
    case Some(i) =>
      var v := if LastFilled(lines, i).None? then Strip(lines[i]) else StripRight(lines[i]);
      assert LastLineAt(lines, i, v);
      Some(v)
  }

  /** Blank lines after the last record do not change which line is last. */
  lemma {:induction false} LastFilledBlank(lines: seq<string>, l: string, n: nat)
    requires Blank(l) && n <= |lines|
    ensures LastFilled(lines + [l], n) == LastFilled(lines, n)
    decreases n
  {
    if n > 0 {
      assert (lines + [l])[n - 1] == lines[n - 1];
      LastFilledBlank(lines, l, n - 1);
    }
  }

  lemma LastLineBlank(lines: seq<string>, l: string)
    requires Blank(l)
    ensures LastLine(lines + [l]) == LastLine(lines)
  {
    var m := lines + [l];
    assert LastFilled(m, |m|) == LastFilled(lines, |lines|) by {
      assert m[|lines|] == l;
      LastFilledBlank(lines, l, |lines|);
    }
    match LastFilled(lines, |lines|)
    case None =>
    case Some(i) =>
      assert LastFilled(m, i) == LastFilled(lines, i) by {
        LastFilledBlank(lines, l, i);
      }
      assert m[i] == lines[i];
  }

  /** The fallback of `get_next_id` when the counter cannot be used: the id of
      the last record in the log plus one, where a missing id counts as 0 and
      every failure (no log, no line, a line that does not parse, a record
      that is not an object, an id that `+ 1` rejects) gives 1. */
  function FallbackId(c: Codec, logOk: bool, lines: seq<string>): (id: int)
    ensures !logOk || LastLine(lines).None? ==> id == 1
    ensures logOk && LastLine(lines).Some? ==>
      var rec := c.loads(LastLine(lines).value);
      (rec.None? || !rec.value.Obj? ==> id == 1) &&
      (rec.Some? && rec.value.Obj? && Lookup(rec.value.fields, "id").None? ==> id == 1) &&
      (rec.Some? && rec.value.Obj? && AsInt(IdOf(rec.value)).None? ==> id == 1) &&
      (rec.Some? && rec.value.Obj? && AsInt(IdOf(rec.value)).Some? ==> id == AsInt(IdOf(rec.value)).value + 1)
  {
    if !logOk then 1
    else match LastLine(lines)
      case None => 1
      case Some(line) =>
        match c.loads(line)
        case None => 1
        case Some(rec) =>
          if rec.Obj? && AsInt(IdOf(rec)).Some? then AsInt(IdOf(rec)).value + 1 else 1
  }

  /** `get_next_id`: the id drawn and the counter file afterwards. With a
      usable counter, the stored value plus one, written back so that it
      reads back as the id just drawn; otherwise the fallback, with the
      counter file untouched. */
  function DrawId(c: Codec, seqOk: bool, seqText: string, logOk: bool, lines: seq<string>): (r: (int, string))
    ensures seqOk && CounterValue(seqText).Some? ==>
      r.0 == CounterValue(seqText).value + 1 && CounterValue(r.1) == Some(r.0)
    ensures !(seqOk && CounterValue(seqText).Some?) ==> r == (FallbackId(c, logOk, lines), seqText)
  {
    if seqOk && CounterValue(seqText).Some? then
      var next := CounterValue(seqText).value + 1;
      CounterRoundTrip(next);
      (next, CounterText(next))
    else (FallbackId(c, logOk, lines), seqText)
  }

  // ---------------------------------------------------------------- records

  /** The record `append_event` writes: `id`, `ts`, `topic` and `data`, and
      `retain: true` only when `retain` is truthy. */
  function Record(id: int, now: int, topic: Json, data: Json, retain: Json): (rec: Json)
    ensures rec.Obj?
    ensures forall key :: Lookup(rec.fields, key) == RecordMember(id, now, topic, data, retain, key)
  {
    forall key ensures Lookup(RecordFields(id, now, topic, data, retain), key)
      == RecordMember(id, now, topic, data, retain, key)
    {
      RecordLookup(id, now, topic, data, retain, key);
    }
    Obj(RecordFields(id, now, topic, data, retain))
  }

  function RecordFields(id: int, now: int, topic: Json, data: Json, retain: Json): seq<(string, Json)> {
    var base := [("id", Num(id))] + [("ts", Num(now))] + [("topic", topic)] + [("data", data)];
    if Truthy(retain) then base + [("retain", Bool(true))] else base
  }

  /** The value the record holds under `key`. */
  function RecordMember(id: int, now: int, topic: Json, data: Json, retain: Json, key: string): Option<Json> {
    if key == "retain" && Truthy(retain) then Some(Bool(true))
    else if key == "data" then Some(data)
    else if key == "topic" then Some(topic)
    else if key == "ts" then Some(Num(now))
    else if key == "id" then Some(Num(id))
    else None
  }

  lemma RecordLookup(id: int, now: int, topic: Json, data: Json, retain: Json, key: string)
    ensures Lookup(RecordFields(id, now, topic, data, retain), key) == RecordMember(id, now, topic, data, retain, key)
  {
    var f0: seq<(string, Json)> := [];
    var f1 := [("id", Num(id))];
    var f2 := f1 + [("ts", Num(now))];
    var f3 := f2 + [("topic", topic)];
    var base := f3 + [("data", data)];
    assert f1 == f0 + [("id", Num(id))];
    LookupSnoc(f0, "id", Num(id), key);
    LookupSnoc(f1, "ts", Num(now), key);
    LookupSnoc(f2, "topic", topic, key);
    LookupSnoc(f3, "data", data, key);
    LookupSnoc(base, "retain", Bool(true), key);
  }

  lemma RecordCanonical(id: int, now: int, topic: Json, data: Json, retain: Json)
    requires Canonical(topic) && Canonical(data)
    ensures Canonical(Record(id, now, topic, data, retain))
  {
    var fs := Record(id, now, topic, data, retain).fields;
    assert fs[0] == ("id", Num(id)) && fs[1] == ("ts", Num(now));
    assert fs[2] == ("topic", topic) && fs[3] == ("data", data);
    assert |fs| == 5 ==> fs[4] == ("retain", Bool(true));
    assert 4 <= |fs| <= 5;
  }

  // ---------------------------------------------------------------- replay

  /** The two filters of `read_events`: an object (anything else makes
      `rec.get` raise), an id above `last_id` when one is given (an id that
      cannot be compared with an int raises), and a topic that
      `topic_matches` accepts without raising. */
  predicate Accepts(rec: Json, lastId: Option<int>, patterns: seq<string>) {
    && rec.Obj?
    && (lastId.Some? ==> AsInt(IdOf(rec)).Some? && AsInt(IdOf(rec)).value > lastId.value)
    && MatchesValue(TopicOf(rec), patterns) == Some(true)
  }

  /** What one line of the log contributes: the empty line is filtered out,
      a line that does not parse is skipped, a record is kept when accepted. */
  function Pick(c: Codec, line: string, lastId: Option<int>, patterns: seq<string>): seq<Json> {
    if line != [] && c.loads(line).Some? && Accepts(c.loads(line).value, lastId, patterns)
    then [c.loads(line).value] else []
  }

  /** What each line contributes, in log order. */
  function Gather(lines: seq<string>, pick: string -> seq<Json>): seq<Json> {
    if lines == [] then []
    else Gather(lines[..|lines| - 1], pick) + pick(lines[|lines| - 1])
  }

  lemma {:induction false} GatherAppend(a: seq<string>, b: seq<string>, pick: string -> seq<Json>)
    ensures Gather(a + b, pick) == Gather(a, pick) + Gather(b, pick)
    decreases |b|
  {
    if b == [] {
      assert a + b == a;
    } else {
      var b' := b[..|b| - 1];
      assert (a + b)[..|a + b| - 1] == a + b';
      GatherAppend(a, b', pick);
    }
  }

  lemma {:induction false} GatherWitness(lines: seq<string>, pick: string -> seq<Json>, x: Json) returns (i: nat)
    requires x in Gather(lines, pick)
    ensures i < |lines| && x in pick(lines[i])
  {
    var n := |lines| - 1;
    var init := lines[..n];
    if x in Gather(init, pick) {
      i := GatherWitness(init, pick, x);
      assert init[i] == lines[i];
    } else {
      i := n;
    }
  }

  lemma {:induction false} GatherComplete(lines: seq<string>, pick: string -> seq<Json>, x: Json, i: nat)
    requires i < |lines| && x in pick(lines[i])
    ensures x in Gather(lines, pick)
  {
    var n := |lines| - 1;
    var init := lines[..n];
    if i < n {
      assert init[i] == lines[i];
      GatherComplete(init, pick, x, i);
    }
  }

  function PickOf(c: Codec, lastId: Option<int>, patterns: seq<string>): string -> seq<Json> {
    line => Pick(c, line, lastId, patterns)
  }

  /** The records `read_events` returns for a readable log, in log order. */
  function Select(c: Codec, lines: seq<string>, lastId: Option<int>, patterns: seq<string>): seq<Json> {
    Gather(lines, PickOf(c, lastId, patterns))
  }

  /** Replaying two stretches of log is replaying each in turn. */
  lemma SelectAppend(c: Codec, a: seq<string>, b: seq<string>, lastId: Option<int>, patterns: seq<string>)
    ensures Select(c, a + b, lastId, patterns) == Select(c, a, lastId, patterns) + Select(c, b, lastId, patterns)
  {
    GatherAppend(a, b, PickOf(c, lastId, patterns));
  }

  /** The line is not empty, parses to `rec`, and `rec` passes both filters. */
  predicate Yields(c: Codec, line: string, rec: Json, lastId: Option<int>, patterns: seq<string>) {
    line != [] && c.loads(line) == Some(rec) && Accepts(rec, lastId, patterns)
  }

  /** A record is replayed exactly when some non-empty line of the log parses
      to it and it passes both filters. */
  lemma SelectMembers(c: Codec, lines: seq<string>, lastId: Option<int>, patterns: seq<string>, rec: Json)
    ensures rec in Select(c, lines, lastId, patterns) <==>
      exists i :: 0 <= i < |lines| && Yields(c, lines[i], rec, lastId, patterns)
  {
    var pick := PickOf(c, lastId, patterns);
    if rec in Select(c, lines, lastId, patterns) {
      var i := GatherWitness(lines, pick, rec);
      PickYields(c, lines[i], rec, lastId, patterns);
    }
    if exists i :: 0 <= i < |lines| && Yields(c, lines[i], rec, lastId, patterns) {
      var i :| 0 <= i < |lines| && Yields(c, lines[i], rec, lastId, patterns);
      PickYields(c, lines[i], rec, lastId, patterns);
      GatherComplete(lines, pick, rec, i);
    }
  }

  lemma PickYields(c: Codec, line: string, rec: Json, lastId: Option<int>, patterns: seq<string>)
    ensures rec in Pick(c, line, lastId, patterns) <==> Yields(c, line, rec, lastId, patterns)
  {
  }

  /** Every replayed record passes the filters: its id is above `last_id`, and
      a string topic is one the patterns accept. */
  lemma SelectFilters(c: Codec, lines: seq<string>, lastId: Option<int>, patterns: seq<string>, rec: Json)
    requires rec in Select(c, lines, lastId, patterns)
    ensures rec.Obj?
    ensures lastId.Some? ==> AsInt(IdOf(rec)).Some? && AsInt(IdOf(rec)).value > lastId.value
    ensures TopicOf(rec).Str? ==> TopicMatches(TopicOf(rec).s, patterns)
  {
    SelectMembers(c, lines, lastId, patterns, rec);
  }

  /** A record just appended is replayed after everything before it, exactly
      when it passes the filters. */
  lemma AppendedIsReplayed(c: Codec, lines: seq<string>, rec: Json, lastId: Option<int>, patterns: seq<string>)
    requires Lawful(c) && Canonical(rec)
    ensures Select(c, lines + [c.dumps(rec)], lastId, patterns)
      == Select(c, lines, lastId, patterns) + (if Accepts(rec, lastId, patterns) then [rec] else [])
  {
    var l := lines + [c.dumps(rec)];
    assert l[..|l| - 1] == lines;
  }

  /** After a record with an int id was appended, the fallback of
      `get_next_id` continues right after it. */
  lemma FallbackAfterAppend(c: Codec, lines: seq<string>, rec: Json, n: int)
    requires Lawful(c) && Canonical(rec) && rec.Obj? && IdOf(rec) == Num(n)
    ensures FallbackId(c, true, lines + [c.dumps(rec)]) == n + 1
  {
    var d := c.dumps(rec);
    assert LastLine(lines + [d]) == Some(d) by {
      assert d != [] && !IsSpace(d[0]) && !IsSpace(d[|d| - 1]);
      LastLineAppend(lines, d);
    }
    assert c.loads(d) == Some(rec);
    FallbackReadsLast(c, lines + [d], rec, n);
  }

  /** The fallback adds one to the id of the record on the last line. */
  lemma FallbackReadsLast(c: Codec, lines: seq<string>, rec: Json, n: int)
    requires LastLine(lines).Some? && c.loads(LastLine(lines).value) == Some(rec)
    requires rec.Obj? && IdOf(rec) == Num(n)
    ensures FallbackId(c, true, lines) == n + 1
  {
  }

  /** A line with no whitespace at either end, appended to the log, is what
      the fallback reads as the last line. */
  lemma LastLineAppend(lines: seq<string>, d: string)
    requires d != [] && !IsSpace(d[0]) && !IsSpace(d[|d| - 1])
    ensures LastLine(lines + [d]) == Some(d)
  {
    var l := lines + [d];
    assert l[|lines|] == d && !Blank(d);
    assert LastFilled(l, |l|) == Some(|lines|);
    StripClean(d);
    StripRightClean(d);
  }

  /** A whitespace-only line at the end of the log leaves the fallback id as
      it was: the `strip()` of the log's text removes it. */
  lemma FallbackIgnoresBlank(c: Codec, lines: seq<string>, l: string)
    requires Blank(l)
    ensures FallbackId(c, true, lines + [l]) == FallbackId(c, true, lines)
  {
    LastLineBlank(lines, l);
  }

  // ---------------------------------------------------------------- POST

  /** The outcome of `handle_post`. */
  datatype PostReply =
    | Posted(id: int)      // 200 {ok: True, id}
    | InvalidPayload       // 400 'invalid-payload: require {topic, data?}'
    | AppendError          // 500 {ok: False, error: str(e)} from append_event
    | InternalError        // 500 'Internal server error'

  function Status(reply: PostReply): int {
    match reply
    case Posted(_) => 200
    case InvalidPayload => 400
    case AppendError => 500
    case InternalError => 500
  }

  /** What `handle_post` makes of the body before appending. */
  datatype Validated = Malformed | NoTopic | Event(topic: Json, data: Json, retain: Json)

  /** `request.get_json() or {}` and `if not data.get('topic')`: a body that
      does not decode (`None` here) or is not an object once falsy bodies are
      replaced by `{}` raises and is an internal error; an object without a
      truthy `topic` is rejected; otherwise the topic, `data` (default
      `None`) and `retain` (default `False`). */
  function Validate(body: Option<Json>): (v: Validated)
    ensures v.Event? ==> Truthy(v.topic)
    ensures body.Some? && !Truthy(body.value) ==> v == NoTopic
    ensures body.Some? && body.value.Obj? && !Truthy(Get(body.value.fields, "topic", Null)) ==> v == NoTopic
    ensures v.Malformed? <==> body.None? || (Truthy(body.value) && !body.value.Obj?)
    ensures v.Event? ==> (body.Some? && body.value.Obj?
      && Lookup(body.value.fields, "topic") == Some(v.topic)
      && v.data == Get(body.value.fields, "data", Null)
      && v.retain == Get(body.value.fields, "retain", Bool(false)))
  {
    match body
    case None => Malformed
    case Some(j) =>
      var data := if Truthy(j) then j else Obj([]);
      if !data.Obj? then Malformed
      else if !Truthy(Get(data.fields, "topic", Null)) then NoTopic
      else Event(Lookup(data.fields, "topic").value, Get(data.fields, "data", Null), Get(data.fields, "retain", Bool(false)))
  }

  // ---------------------------------------------------------------- the hub

  /** The hub's runtime directory: the counter file and the log, each of
      which may be unusable (`seqOk`, `logOk` false), in which case reading
      or writing it raises. */
  class EventHub {
    var seqText: string
    var seqOk: bool
    var lines: seq<string>
    var logOk: bool
    const codec: Codec

    /** Start-up: a missing counter file is created holding `0`, a missing
        log is created empty. */
    constructor (codec: Codec, seqFile: Option<string>, logFile: Option<seq<string>>)
      ensures this.codec == codec && seqOk && logOk
      ensures seqText == seqFile.GetOr(CounterText(0)) && lines == logFile.GetOr([])
    {
      this.codec := codec;
      seqText := seqFile.GetOr(CounterText(0));
      lines := logFile.GetOr([]);
      seqOk, logOk := true, true;
    }

    /** `get_next_id`. */
    method NextId() returns (id: int)
      modifies this
      ensures (id, seqText) == DrawId(codec, seqOk, old(seqText), logOk, lines)
      ensures lines == old(lines) && seqOk == old(seqOk) && logOk == old(logOk)
    {
      var v := if seqOk then CounterValue(seqText) else None;
      if v.Some? {
        id := v.value + 1;
        seqText := CounterText(id);
      } else {
        assert DrawId(codec, seqOk, seqText, logOk, lines) == (FallbackId(codec, logOk, lines), seqText);
        id := FallbackId(codec, logOk, lines);
      }
    }

    /** `append_event`: draws an id (even when the write then fails) and, when
        the log can be written, adds exactly the record's line at its end. */
    method AppendEvent(topic: Json, data: Json, retain: Json, now: int) returns (id: int, ok: bool)
      modifies this
      ensures (id, seqText) == DrawId(codec, seqOk, old(seqText), logOk, old(lines))
      ensures ok == logOk && seqOk == old(seqOk) && logOk == old(logOk)
      ensures lines == if ok then old(lines) + [codec.dumps(Record(id, now, topic, data, retain))] else old(lines)
    {
      id := NextId();
      var rec := Record(id, now, topic, data, retain);
      ok := logOk;
      if ok {
        lines := lines + [codec.dumps(rec)];
      }
    }

    /** `read_events(last_id, patterns)`. */
    method ReadEvents(lastId: Option<int>, patterns: seq<string>) returns (events: seq<Json>)
      ensures events == if logOk then Select(codec, lines, lastId, patterns) else []
    {
      events := [];
      if !logOk {
        return;
      }
      var i := 0;
      while i < |lines|
        invariant 0 <= i <= |lines|
        invariant events == Select(codec, lines[..i], lastId, patterns)
      {
        assert lines[..i + 1][..i] == lines[..i];
        var line := lines[i];
        if line != [] {
          var rec := codec.loads(line);
          if rec.Some? && rec.value.Obj? {
            var r := rec.value;
            var newer := true;
            if lastId.Some? {
              var n := AsInt(IdOf(r));
              newer := n.Some? && n.value > lastId.value;
            }
            if newer && MatchesValue(TopicOf(r), patterns) == Some(true) {
              events := events + [r];
            }
          }
        }
        i := i + 1;
      }
      assert lines[..i] == lines;
    }

    /** `handle_post`: nothing is drawn or written unless the body carries a
        truthy topic. */
    method HandlePost(body: Option<Json>, now: int) returns (reply: PostReply)
      modifies this
      ensures seqOk == old(seqOk) && logOk == old(logOk)
      ensures !Validate(body).Event? ==> seqText == old(seqText) && lines == old(lines)
      ensures Validate(body).Malformed? ==> reply == InternalError
      ensures Validate(body).NoTopic? ==> reply == InvalidPayload
      ensures Validate(body).Event? ==>
        var v := Validate(body);
        var (id, text) := DrawId(codec, seqOk, old(seqText), logOk, old(lines));
        && seqText == text
        && lines == (if logOk then old(lines) + [codec.dumps(Record(id, now, v.topic, v.data, v.retain))] else old(lines))
        && reply == if logOk then Posted(id) else AppendError
      ensures Status(reply) == if Validate(body).NoTopic? then 400
                               else if Validate(body).Event? && logOk then 200 else 500
    {
      var v := Validate(body);
      match v
      case Malformed =>
        reply := InternalError;
      case NoTopic =>
        reply := InvalidPayload;
      case Event(topic, data, retain) =>
        var id, ok := AppendEvent(topic, data, retain, now);
        reply := if ok then Posted(id) else AppendError;
    }
  }
}

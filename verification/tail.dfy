/** The body of `handle_get`'s `generate`: replay the log, then tail it with
    a cursor until the session's five minutes are up. The cursor counts log
    lines where the hub counts bytes. */
module Tail {
  import opened Wrappers
  import opened Json
  import opened Topics
  import opened SseFormat
  import opened EventLog

  /** How long a subscription lasts, in seconds. */
  const SessionSeconds: int := 300

  /** `yield format_sse_event(rec)` for each record in turn. */
  function Frames(recs: seq<Json>): (es: seq<Emit>)
    ensures |es| == |recs| && forall i :: 0 <= i < |recs| ==> es[i] == Frame(recs[i])
  {
    seq(|recs|, i requires 0 <= i < |recs| => Frame(recs[i]))
  }

  /** The records of the frames a session yielded, keepalives left out. */
  function Records(es: seq<Emit>): seq<Json> {
    if es == [] then []
    else (if es[0].Frame? then [es[0].rec] else []) + Records(es[1..])
  }

  lemma {:induction false} RecordsAppend(a: seq<Emit>, b: seq<Emit>)
    ensures Records(a + b) == Records(a) + Records(b)
  {
    if a != [] {
      assert (a + b)[0] == a[0] && (a + b)[1..] == a[1..] + b;
      RecordsAppend(a[1..], b);
    } else {
      assert a + b == b;
    }
  }

  lemma {:induction false} RecordsFrames(recs: seq<Json>)
    ensures Records(Frames(recs)) == recs
  {
    if recs != [] {
      assert Frames(recs)[1..] == Frames(recs[1..]);
      RecordsFrames(recs[1..]);
    }
  }

  /** One pass of the tail loop over a readable log: the new cursor and what
      is yielded. A log shorter than the cursor restarts it at 0; a log longer
      than the (possibly restarted) cursor yields the frames of every matching
      record from the cursor on and moves the cursor to the end; otherwise a
      keepalive is yielded and the cursor stays. Either way the cursor ends at
      the end of the log. */
  function Tick(c: Codec, patterns: seq<string>, lines: seq<string>, cursor: nat): (r: (nat, seq<Emit>))
    ensures r.0 == |lines|
    ensures |lines| < cursor ==> r == Tick(c, patterns, lines, 0)
    ensures cursor < |lines| ==> r.1 == Frames(Select(c, lines[cursor..], None, patterns))
    ensures cursor == |lines| ==> r.1 == [KeepaliveComment]
  {
    var start := if |lines| < cursor then 0 else cursor;
    if |lines| > start then (|lines|, Frames(Select(c, lines[start..], None, patterns)))
    else (start, [KeepaliveComment])
  }

  /** The log as a session sees it at each pass: each snapshot extends the one
      before, the first extends `base`. */
  predicate Grows(base: seq<string>, snapshots: seq<seq<string>>)
    decreases |snapshots|
  {
    snapshots == [] || (base <= snapshots[0] && Grows(snapshots[0], snapshots[1..]))
  }

  /** Everything the passes over `snapshots` yield, starting from `cursor`. */
  function Passes(c: Codec, patterns: seq<string>, cursor: nat, snapshots: seq<seq<string>>): seq<Emit>
    decreases |snapshots|
  {
    if snapshots == [] then []
    else
      var (next, emitted) := Tick(c, patterns, snapshots[0], cursor);
      emitted + Passes(c, patterns, next, snapshots[1..])
  }

  lemma {:induction false} GrowsLast(base: seq<string>, snapshots: seq<seq<string>>)
    requires Grows(base, snapshots) && snapshots != []
    ensures base <= snapshots[|snapshots| - 1]
    decreases |snapshots|
  {
    if |snapshots| > 1 {
      GrowsLast(snapshots[0], snapshots[1..]);
      assert snapshots[1..][|snapshots| - 2] == snapshots[|snapshots| - 1];
    }
  }

  /** A pass from the end of `base` over a log that extends it yields the
      frames of the matching appended records (or only a keepalive). */
  lemma TickFromEnd(c: Codec, patterns: seq<string>, base: seq<string>, s: seq<string>)
    requires base <= s
    ensures Tick(c, patterns, s, |base|).0 == |s|
    ensures Records(Tick(c, patterns, s, |base|).1) == Select(c, s[|base|..], None, patterns)
  {
    if |base| < |s| {
      RecordsFrames(Select(c, s[|base|..], None, patterns));
    } else {
      assert s[|base|..] == [];
    }
  }

  /** The lines appended after `base` are those appended up to `s` and
      then those appended after `s`. */
  lemma SelectSplit(c: Codec, patterns: seq<string>, base: seq<string>, s: seq<string>, last: seq<string>)
    requires base <= s <= last
    ensures Select(c, last[|base|..], None, patterns)
      == Select(c, s[|base|..], None, patterns) + Select(c, last[|s|..], None, patterns)
  {
    assert last[|base|..|s|] == s[|base|..];
    assert last[|base|..] == last[|base|..|s|] + last[|s|..];
    SelectAppend(c, s[|base|..], last[|s|..], None, patterns);
  }

  /** No gap and no repeat: while the log only grows, the passes of a session
      that starts at the end of `base` yield, across all passes, exactly the
      matching records of the lines appended after `base`, in log order. */
  lemma {:induction false} PassesDeliverAppended(c: Codec, patterns: seq<string>, base: seq<string>,
                                                 snapshots: seq<seq<string>>)
    requires Grows(base, snapshots) && snapshots != []
    ensures var last := snapshots[|snapshots| - 1];
      |base| <= |last| && Records(Passes(c, patterns, |base|, snapshots)) == Select(c, last[|base|..], None, patterns)
    decreases |snapshots|
  {
    GrowsLast(base, snapshots);
    var s := snapshots[0];
    var rest := snapshots[1..];
    var last := snapshots[|snapshots| - 1];
    TickFromEnd(c, patterns, base, s);
    var emitted := Tick(c, patterns, s, |base|).1;
    var later := Passes(c, patterns, |s|, rest);
    assert Passes(c, patterns, |base|, snapshots) == emitted + later;
    if rest == [] {
      assert last == s && s[|base|..] + [] == s[|base|..];
      RecordsGlue(emitted, later, Select(c, s[|base|..], None, patterns), []);
    } else {
      PassesDeliverAppended(c, patterns, s, rest);
      assert rest[|rest| - 1] == last;
      GrowsLast(s, rest);
      SelectSplit(c, patterns, base, s, last);
      RecordsGlue(emitted, later, Select(c, s[|base|..], None, patterns), Select(c, last[|s|..], None, patterns));
    }
  }

  lemma RecordsGlue(x: seq<Emit>, y: seq<Emit>, a: seq<Json>, b: seq<Json>)
    requires Records(x) == a && Records(y) == b
    ensures Records(x + y) == a + b
  {
    RecordsAppend(x, y);
  }

  /** Everything a session yields: the replay of the log as `read_events`
      read it, then the passes of the tail loop from `cursor`. */
  function Stream(c: Codec, read: seq<string>, lastId: Option<int>, patterns: seq<string>, cursor: nat,
                  snapshots: seq<seq<string>>): seq<Emit> {
    Frames(Select(c, read, lastId, patterns)) + Passes(c, patterns, cursor, snapshots)
  }

  /** As written, the cursor starts where the log ends when `stat` runs,
      after the replay has been read and yielded: the lines appended in
      between are neither replayed nor tailed. The session delivers the
      replay and then only what was appended after `stat`. */
  lemma StatAfterReplayLosesGap(c: Codec, patterns: seq<string>, lastId: Option<int>, read: seq<string>,
                                stat: seq<string>, snapshots: seq<seq<string>>)
    requires read <= stat && Grows(stat, snapshots) && snapshots != []
    ensures var last := snapshots[|snapshots| - 1];
      |stat| <= |last| && Records(Stream(c, read, lastId, patterns, |stat|, snapshots))
        == Select(c, read, lastId, patterns) + Select(c, last[|stat|..], None, patterns)
  {
    RecordsAppend(Frames(Select(c, read, lastId, patterns)), Passes(c, patterns, |stat|, snapshots));
    RecordsFrames(Select(c, read, lastId, patterns));
    PassesDeliverAppended(c, patterns, stat, snapshots);
  }

  /** The lost record: the log is empty when it is read, one record is
      appended before `stat`, and no pass ever yields it although every
      topic is subscribed to. */
  lemma GapExample(c: Codec, d: string, rec: Json)
    requires Yields(c, d, rec, None, [])
    ensures Select(c, [d], None, []) == [rec]
    ensures Records(Stream(c, [], None, [], |[d]|, [[d]])) == []
  {
    assert [d][..0] == [];
    StatAfterReplayLosesGap(c, [], None, [], [d], [[d]]);
    assert [d][1..] == [];
  }

  /** Corrected: with the cursor at the end of the log the replay read, the
      session delivers the replay and then exactly the matching records of
      every line appended after it, in log order. */
  lemma ReplayThenTailHasNoGap(c: Codec, patterns: seq<string>, lastId: Option<int>, read: seq<string>,
                               snapshots: seq<seq<string>>)
    requires Grows(read, snapshots) && snapshots != []
    ensures var last := snapshots[|snapshots| - 1];
      |read| <= |last| && Records(Stream(c, read, lastId, patterns, |read|, snapshots))
        == Select(c, read, lastId, patterns) + Select(c, last[|read|..], None, patterns)
  {
    StatAfterReplayLosesGap(c, patterns, lastId, read, read, snapshots);
  }

  /** Corrected, without `last_id`: the session delivers every matching
      record of the final log exactly once, in log order. */
  lemma {:induction false} FreshSessionDeliversAll(c: Codec, patterns: seq<string>, read: seq<string>,
                                                   snapshots: seq<seq<string>>)
    requires Grows(read, snapshots) && snapshots != []
    ensures Records(Stream(c, read, None, patterns, |read|, snapshots))
      == Select(c, snapshots[|snapshots| - 1], None, patterns)
  {
    var last := snapshots[|snapshots| - 1];
    GrowsLast(read, snapshots);
    ReplayThenTailHasNoGap(c, patterns, None, read, snapshots);
    assert last == read + last[|read|..];
    SelectAppend(c, read, last[|read|..], None, patterns);
  }

  /** The `for rec in past: yield format_sse_event(rec)` loop. */
  method Replay(past: seq<Json>) returns (emitted: seq<Emit>)
    ensures emitted == Frames(past)
  {
    emitted := [];
    for i := 0 to |past|
      invariant emitted == Frames(past[..i])
    {
      emitted := emitted + [Frame(past[i])];
    }
    assert past[..|past|] == past;
  }

  /** A subscription: the patterns it filters by, its deadline, the cursor
      into the log, whether the stream has ended, and every chunk yielded. */
  class Session {
    const patterns: seq<string>
    const deadline: int
    var cursor: nat
    var closed: bool
    var out: seq<Emit>

    /** The opening of `generate` as written: the replay is every record
        `read_events(last_id, patterns)` returns for the log as it reads it;
        the cursor is then set from `stat`, which sees the log later, after
        the replay was yielded (`stat` is `None` when the log is missing,
        and its error ends the stream). */
    constructor Open(hub: EventHub, lastId: Option<int>, patterns: seq<string>, now: int, stat: Option<seq<string>>)
      ensures this.patterns == patterns && deadline == now + SessionSeconds
      ensures out == Frames(if hub.logOk then Select(hub.codec, hub.lines, lastId, patterns) else [])
      ensures closed == stat.None?
      ensures cursor == if stat.Some? then |stat.value| else 0
    {
      var past := hub.ReadEvents(lastId, patterns);
      var emitted := Replay(past);
      this.patterns := patterns;
      deadline := now + SessionSeconds;
      out := emitted;
      cursor := if stat.Some? then |stat.value| else 0;
      closed := stat.None?;
    }

    /** The corrected opening: the cursor is the end of the log the replay
        read, so that no line falls between the replay and the tail. */
    constructor OpenAtRead(hub: EventHub, lastId: Option<int>, patterns: seq<string>, now: int)
      ensures this.patterns == patterns && deadline == now + SessionSeconds
      ensures out == Frames(if hub.logOk then Select(hub.codec, hub.lines, lastId, patterns) else [])
      ensures closed == !hub.logOk
      ensures cursor == if hub.logOk then |hub.lines| else 0
    {
      var past := hub.ReadEvents(lastId, patterns);
      var emitted := Replay(past);
      this.patterns := patterns;
      deadline := now + SessionSeconds;
      out := emitted;
      cursor := if hub.logOk then |hub.lines| else 0;
      closed := !hub.logOk;
    }

    /** One turn of `while time.time() < deadline`: past the deadline the
        stream ends; a log that cannot be read changes nothing; otherwise one
        pass of the tail loop. */
    method Poll(hub: EventHub, now: int)
      modifies this
      ensures old(closed) || now >= deadline || !hub.logOk ==>
        cursor == old(cursor) && out == old(out) && closed == (old(closed) || now >= deadline)
      ensures !old(closed) && now < deadline && hub.logOk ==>
        var (next, emitted) := Tick(hub.codec, patterns, hub.lines, old(cursor));
        !closed && cursor == next && out == old(out) + emitted
    {
      if closed {
        return;
      }
      if now >= deadline {
        closed := true;
        return;
      }
      if !hub.logOk {
        return;
      }
      var lines := hub.lines;
      if |lines| < cursor {
        cursor := 0;
      }
      if |lines| > cursor {
        var emitted := Scan(hub.codec, lines[cursor..]);
        cursor := |lines|;
        out := out + emitted;
      } else {
        out := out + [KeepaliveComment];
      }
    }

    /** The `for line in new_lines` loop: frames for the records among the
        new lines whose topic matches, skipping blank lines, lines that do not
        parse and records that `rec.get` or `topic_matches` raise on. */
    method Scan(c: Codec, chunk: seq<string>) returns (emitted: seq<Emit>)
      ensures emitted == Frames(Select(c, chunk, None, patterns))
    {
      emitted := [];
      var k := 0;
      while k < |chunk|
        invariant 0 <= k <= |chunk|
        invariant emitted == Frames(Select(c, chunk[..k], None, patterns))
      {
        assert chunk[..k + 1][..k] == chunk[..k];
        var line := chunk[k];
        if line != [] {
          var rec := c.loads(line);
          if rec.Some? && rec.value.Obj? && MatchesValue(TopicOf(rec.value), patterns) == Some(true) {
            emitted := emitted + [Frame(rec.value)];
          }
        }
        k := k + 1;
      }
      assert chunk[..k] == chunk;
    }
  }
}

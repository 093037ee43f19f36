/** The PAN topic matcher of the SSE hub (`topic_matches`): a pattern is a
    topic in which each `*` stands for a non-empty run of characters without
    a dot, matched against the whole topic (which may carry one trailing
    newline, as `$` allows); a list of patterns accepts a topic when any one
    does. */
module Topics {
  import opened Wrappers
  import opened Json

  /** The anchored regex `^escape(p)$` with every `\*` turned into `[^.]+`
      matches `t`: each `*` consumes one or more characters other than `.`,
      every other pattern character matches itself. */
  predicate Match(p: string, t: string)
    decreases |p|
  {
    if p == [] then t == []
    else if p[0] == '*' then
      exists k | 1 <= k <= |t| :: '.' !in t[..k] && Match(p[1..], t[k..])
    else t != [] && t[0] == p[0] && Match(p[1..], t[1..])
  }

  /** `re.match(f'^{regex}$', t)`: without `re.MULTILINE`, `$` matches at
      the end of the topic and also just before a newline that ends it. */
  predicate Anchored(p: string, t: string) {
    Match(p, t) || (t != [] && t[|t| - 1] == '\n' && Match(p, t[..|t| - 1]))
  }

  /** A pattern that short-circuits to "match everything". */
  predicate MatchesAll(p: string) {
    p == "" || p == "*"
  }

  /** The loop over the pattern list: the first pattern that is match-all or
      matches ends it with true. */
  predicate AnyMatch(topic: string, patterns: seq<string>) {
    patterns != [] &&
    (MatchesAll(patterns[0]) || Anchored(patterns[0], topic) || AnyMatch(topic, patterns[1..]))
  }

  /** `topic_matches(topic, patterns)` for a string topic. */
  predicate TopicMatches(topic: string, patterns: seq<string>) {
    patterns == [] || AnyMatch(topic, patterns)
  }

  /** `topic_matches` applied to whatever a record holds under `topic`.
      `None` is the `TypeError` that `re.match` raises when it reaches a
      non-string topic, which happens only after the match-all patterns
      in front of it have been passed. */
  function MatchesValue(topic: Json, patterns: seq<string>): (r: Option<bool>)
    ensures topic.Str? ==> r == Some(TopicMatches(topic.s, patterns))
    ensures r.None? ==> !topic.Str?
  {
    if patterns == [] then Some(true) else ScanValue(topic, patterns)
  }

  function ScanValue(topic: Json, patterns: seq<string>): (r: Option<bool>)
    ensures topic.Str? ==> r == Some(AnyMatch(topic.s, patterns))
    ensures r.None? ==> !topic.Str?
  {
    if patterns == [] then Some(false)
    else if MatchesAll(patterns[0]) then Some(true)
    else if !topic.Str? then None
    else if Anchored(patterns[0], topic.s) then Some(true)
    else ScanValue(topic, patterns[1..])
  }

  // ---------------------------------------------------------------- the pattern list

  /** The whole behaviour of `topic_matches`: an empty list, an empty pattern
      or a bare `*` accepts every topic; otherwise the topic is accepted
      exactly when some pattern matches all of it. */
  lemma {:induction false} TopicMatchesIff(topic: string, patterns: seq<string>)
    ensures TopicMatches(topic, patterns) <==>
      (patterns == [] || "" in patterns || "*" in patterns
       || exists i :: 0 <= i < |patterns| && Anchored(patterns[i], topic))
  {
    if patterns != [] {
      AnyMatchIff(topic, patterns);
    }
  }

  lemma {:induction false} AnyMatchIff(topic: string, patterns: seq<string>)
    ensures AnyMatch(topic, patterns) <==>
      ("" in patterns || "*" in patterns
       || exists i :: 0 <= i < |patterns| && Anchored(patterns[i], topic))
  {
    if patterns != [] {
      var rest := patterns[1..];
      AnyMatchIff(topic, rest);
      assert patterns == [patterns[0]] + rest;
      assert forall i :: 0 <= i < |rest| ==> rest[i] == patterns[i + 1];
      if exists i :: 0 <= i < |patterns| && Anchored(patterns[i], topic) {
        var i :| 0 <= i < |patterns| && Anchored(patterns[i], topic);
        if i > 0 { assert Anchored(rest[i - 1], topic); }
      }
    }
  }

  // ---------------------------------------------------------------- one pattern

  /** A pattern without `*` matches only the topic it spells. */
  lemma {:induction false} MatchLiteral(p: string, t: string)
    requires '*' !in p
    ensures Match(p, t) <==> t == p
  {
    if p != [] {
      assert '*' !in p[1..];
      if t != [] {
        MatchLiteral(p[1..], t[1..]);
        assert t == [t[0]] + t[1..];
        assert p == [p[0]] + p[1..];
      }
    }
  }

  /** A literal prefix is matched character for character before the rest
      of the pattern takes over. */
  lemma {:induction false} MatchLiteralPrefix(q: string, rest: string, t: string)
    requires '*' !in q
    ensures Match(q + rest, t) <==> (|q| <= |t| && t[..|q|] == q && Match(rest, t[|q|..]))
  {
    if q != [] {
      var p := q + rest;
      assert p[0] == q[0] && p[1..] == q[1..] + rest;
      assert '*' !in q[1..];
      if t != [] {
        MatchLiteralPrefix(q[1..], rest, t[1..]);
        if |q| <= |t| {
          assert t[..|q|] == [t[0]] + t[1..][..|q| - 1];
          assert t[|q|..] == t[1..][|q| - 1..];
        }
      }
    } else {
      assert q + rest == rest;
    }
  }

  /** A bare `*` matches exactly one non-empty, dot-free segment. */
  lemma StarMatchesSegment(w: string)
    ensures Match("*", w) <==> (w != [] && '.' !in w)
  {
    if w != [] && '.' !in w {
      assert w[..|w|] == w;
      assert Match("", w[|w|..]);
    }
  }

  /** `q.*` matches exactly the topics that extend the literal `q.` by one
      non-empty, dot-free segment. */
  lemma PrefixStar(q: string, t: string)
    requires '*' !in q
    ensures Match(q + "*", t) <==> (|q| < |t| && t[..|q|] == q && '.' !in t[|q|..])
  {
    MatchLiteralPrefix(q, "*", t);
    if |q| <= |t| {
      var w := t[|q|..];
      StarMatchesSegment(w);
      assert w != [] <==> |q| < |t|;
    }
  }

  function Dots(s: string): nat {
    if s == [] then 0 else (if s[0] == '.' then 1 else 0) + Dots(s[1..])
  }

  lemma {:induction false} DotsAppend(a: string, b: string)
    ensures Dots(a + b) == Dots(a) + Dots(b)
  {
    if a != [] {
      assert (a + b)[1..] == a[1..] + b;
      DotsAppend(a[1..], b);
    } else {
      assert a + b == b;
    }
  }

  lemma {:induction false} NoDots(s: string)
    requires '.' !in s
    ensures Dots(s) == 0
  {
    if s != [] {
      assert '.' !in s[1..];
      NoDots(s[1..]);
    }
  }

  /** A wildcard never swallows a `.`, so a topic a pattern matches has
      exactly as many segments as the pattern. */
  lemma {:induction false} MatchKeepsSegments(p: string, t: string)
    requires Match(p, t)
    ensures Dots(t) == Dots(p)
  {
    if p != [] {
      if p[0] == '*' {
        var k :| 1 <= k <= |t| && '.' !in t[..k] && Match(p[1..], t[k..]);
        MatchKeepsSegments(p[1..], t[k..]);
        assert t == t[..k] + t[k..];
        DotsAppend(t[..k], t[k..]);
        NoDots(t[..k]);
      } else {
        MatchKeepsSegments(p[1..], t[1..]);
      }
    }
  }

  /** Examples of segment matching: `a.*` accepts `a.b` and `a.x`, but not
      `a.b.c` (one segment too many) or `b.a` (wrong first segment). */
  lemma SegmentExamples()
    ensures Match("a.*", "a.b") && Match("a.*", "a.x")
    ensures !Match("a.*", "a.b.c") && !Match("a.*", "b.a")
    ensures TopicMatches("a.b.c", ["*"]) && TopicMatches("b.a", [])
  {
    assert "a.*" == "a." + "*";
    PrefixStar("a.", "a.b");
    PrefixStar("a.", "a.x");
    PrefixStar("a.", "a.b.c");
    assert "a.b.c"[2..] == "b.c" && "b.c"[1] == '.';
    PrefixStar("a.", "b.a");
    assert "b.a"[..2] != "a.";
  }

  /** A pattern without `*` accepts the topic it spells, and that topic
      followed by one newline, and nothing else. */
  lemma AnchoredLiteral(p: string, t: string)
    requires '*' !in p
    ensures Anchored(p, t) <==> t == p || t == p + "\n"
  {
    MatchLiteral(p, t);
    if t != [] && t[|t| - 1] == '\n' {
      MatchLiteral(p, t[..|t| - 1]);
      assert t == t[..|t| - 1] + "\n";
    }
    if t == p + "\n" {
      assert t[..|t| - 1] == p;
    }
  }

  /** A topic a pattern accepts has as many dots as the pattern: the newline
      `$` lets through is not a segment separator. */
  lemma AnchoredKeepsSegments(p: string, t: string)
    requires Anchored(p, t)
    ensures Dots(t) == Dots(p)
  {
    if Match(p, t) {
      MatchKeepsSegments(p, t);
    } else {
      var u := t[..|t| - 1];
      MatchKeepsSegments(p, u);
      assert t == u + "\n";
      DotsAppend(u, "\n");
    }
  }

  /** `^a$` accepts `a\n` although the topic is not `a`. */
  lemma TrailingNewline()
    ensures Anchored("a", "a\n") && !Match("a", "a\n")
    ensures TopicMatches("a.b\n", ["a.b"])
  {
    AnchoredLiteral("a", "a\n");
    MatchLiteral("a", "a\n");
    AnchoredLiteral("a.b", "a.b\n");
  }
}

/** String helpers with Python's meaning: `in` on strings, `str.strip()`,
    `str.split(sep)`, `sep.join(xs)`, `str(int)`, `int(str)`, and the ASCII
    case-insensitive search that the `re.IGNORECASE` substitutions perform. */
module Text {
  import opened Wrappers

  /** Python's `str.isspace()` set, which is also what `\s` and `strip()` use. */
  predicate IsSpace(c: char) {
    var n := c as int;
    (0x09 <= n <= 0x0D) || (0x1C <= n <= 0x20) || n == 0x85 || n == 0xA0 || n == 0x1680
    || (0x2000 <= n <= 0x200A) || n == 0x2028 || n == 0x2029 || n == 0x202F || n == 0x205F
    || n == 0x3000
  }

  // ---------------------------------------------------------------- strip

  function StripLeft(s: string): (r: string)
    ensures |r| <= |s| && r == s[|s| - |r|..]
    ensures r == [] || !IsSpace(r[0])
    ensures forall i :: 0 <= i < |s| - |r| ==> IsSpace(s[i])
  {
    if s != [] && IsSpace(s[0]) then StripLeft(s[1..]) else s
  }

  function StripRight(s: string): (r: string)
    ensures |r| <= |s| && r == s[..|r|]
    ensures r == [] || !IsSpace(r[|r| - 1])
    ensures forall i :: |r| <= i < |s| ==> IsSpace(s[i])
  {
    if s != [] && IsSpace(s[|s| - 1]) then StripRight(s[..|s| - 1]) else s
  }

  /** `r` sits at offset `a` of `s` and only whitespace surrounds it. */
  ghost predicate StrippedAt(s: string, r: string, a: int) {
    && 0 <= a <= |s| - |r| && r == s[a..a + |r|]
    && (forall i :: 0 <= i < a ==> IsSpace(s[i]))
    && (forall i :: a + |r| <= i < |s| ==> IsSpace(s[i]))
  }

  /** `s.strip()`: the longest infix of `s` that neither starts nor ends with
      whitespace; everything cut away is whitespace. */
  function Strip(s: string): (r: string)
    ensures exists a :: StrippedAt(s, r, a)
    ensures r == [] || (!IsSpace(r[0]) && !IsSpace(r[|r| - 1]))
  {
    var l := StripLeft(s);
    var r := StripRight(l);
    StrippedFrom(s, l, r);
    r
  }

  /** Cutting whitespace off the front and then off the back leaves an infix
      surrounded by whitespace only. */
  lemma StrippedFrom(s: string, l: string, r: string)
    requires |l| <= |s| && l == s[|s| - |l|..] && forall i :: 0 <= i < |s| - |l| ==> IsSpace(s[i])
    requires |r| <= |l| && r == l[..|r|] && forall i :: |r| <= i < |l| ==> IsSpace(l[i])
    ensures StrippedAt(s, r, |s| - |l|)
  {
    var a := |s| - |l|;
    assert r == s[a..a + |r|];
    forall i | a + |r| <= i < |s| ensures IsSpace(s[i]) {
      assert s[i] == l[i - a];
    }
  }

  /** A string that neither starts nor ends with whitespace is its own strip. */
  lemma StripRightClean(s: string)
    requires s != [] && !IsSpace(s[|s| - 1])
    ensures StripRight(s) == s
  {
  }

  lemma StripClean(s: string)
    requires s != [] && !IsSpace(s[0]) && !IsSpace(s[|s| - 1])
    ensures Strip(s) == s
  {
    var r := Strip(s);
    var a :| StrippedAt(s, r, a);
    assert !IsSpace(s[0]) && !IsSpace(s[|s| - 1]);
    assert a == 0 && a + |r| == |s|;
    assert r == s[0..|s|];
  }

  /** A line that neither starts nor ends with whitespace loses exactly its
      line feed to `strip()`. */
  lemma StripLine(s: string)
    requires s != [] && !IsSpace(s[0]) && !IsSpace(s[|s| - 1])
    ensures Strip(s + "\n") == s
  {
    var t := s + "\n";
    assert StripLeft(t) == t;
    assert t[..|t| - 1] == s;
    assert StripRight(t) == StripRight(s);
  }

  // ---------------------------------------------------------------- search

  /** The position of the first `c` in `s`. */
  function IndexOf(s: string, c: char): (k: nat)
    requires c in s
    ensures k < |s| && s[k] == c && c !in s[..k]
  {
    if s[0] == c then 0 else 1 + IndexOf(s[1..], c)
  }

  /** The first `c` is the one at `k` when none comes before it. */
  lemma {:induction false} IndexOfIs(s: string, c: char, k: nat)
    requires k < |s| && s[k] == c && c !in s[..k]
    ensures IndexOf(s, c) == k
  {
    if k > 0 {
      assert s[0] == s[..k][0];
      assert s[1..][..k - 1] == s[..k][1..];
      IndexOfIs(s[1..], c, k - 1);
    }
  }

  predicate OccursAt(s: string, sub: string, i: int) {
    0 <= i && i + |sub| <= |s| && s[i..i + |sub|] == sub
  }

  /** Python's `sub in s`. */
  predicate Contains(s: string, sub: string) {
    exists i | 0 <= i <= |s| - |sub| :: OccursAt(s, sub, i)
  }

  lemma ContainsWhole(m: string)
    ensures Contains(m, m)
  {
    assert OccursAt(m, m, 0);
  }

  /** What a piece holds, the whole holds. */
  lemma ContainsInfix(a: string, b: string, c: string, m: string)
    requires Contains(b, m)
    ensures Contains(a + b + c, m)
  {
    var i :| 0 <= i <= |b| - |m| && OccursAt(b, m, i);
    var s := a + b + c;
    assert s[|a| + i..|a| + i + |m|] == b[i..i + |m|];
    assert OccursAt(s, m, |a| + i);
  }

  /** A string lacking one of the characters of `sub` does not contain it. */
  lemma AbsentChar(s: string, sub: string, k: nat)
    requires k < |sub| && sub[k] !in s
    ensures !Contains(s, sub)
  {
    forall i | 0 <= i <= |s| - |sub| ensures !OccursAt(s, sub, i) {
      assert s[i..i + |sub|][k] == s[i + k] && s[i + k] in s;
    }
  }

  /** Inserting text at `i` keeps every occurrence of `m` when the character
      at `i` is not one of `m`'s (so no occurrence spans the cut). */
  lemma InsertKeeps(s: string, i: nat, line: string, m: string)
    requires i <= |s| && Contains(s, m) && (i < |s| ==> s[i] !in m)
    ensures Contains(s[..i] + line + s[i..], m)
  {
    var j :| 0 <= j <= |s| - |m| && OccursAt(s, m, j);
    var t := s[..i] + line + s[i..];
    if j + |m| <= i {
      assert t[j..j + |m|] == s[j..j + |m|];
      assert OccursAt(t, m, j);
    } else {
      assert forall p :: j <= p < j + |m| ==> s[p] in m by {
        forall p | j <= p < j + |m| ensures s[p] in m {
          assert s[p] == s[j..j + |m|][p - j];
        }
      }
      assert j >= i;
      assert t[j + |line|..j + |line| + |m|] == s[j..j + |m|];
      assert OccursAt(t, m, j + |line|);
    }
  }

  /** ASCII lower-casing, the only case mapping the modelled tags need. */
  function Lower(c: char): char {
    if 'A' <= c <= 'Z' then (c as int + 32) as char else c
  }

  function LowerStr(s: string): (r: string)
    ensures |r| == |s| && forall i :: 0 <= i < |s| ==> r[i] == Lower(s[i])
  {
    if s == [] then [] else [Lower(s[0])] + LowerStr(s[1..])
  }

  /** Text without capitals lowers to itself. */
  lemma LowerFixed(s: string)
    requires forall ch | ch in s :: !('A' <= ch <= 'Z')
    ensures LowerStr(s) == s
  {
    assert forall i :: 0 <= i < |s| ==> s[i] in s;
  }

  /** `sub` occurs at `i` when case is ignored. */
  predicate OccursAtCi(s: string, sub: string, i: int) {
    0 <= i && i + |sub| <= |s| && forall k :: 0 <= k < |sub| ==> Lower(s[i + k]) == Lower(sub[k])
  }

  /** The first case-insensitive occurrence of `sub` at or after `from`. */
  function FindCiFrom(s: string, sub: string, from: nat): (r: Option<nat>)
    decreases |s| - from
    ensures r.Some? ==> from <= r.value && OccursAtCi(s, sub, r.value)
    ensures forall j :: from <= j && (r.None? || j < r.value) ==> !OccursAtCi(s, sub, j)
  {
    if from + |sub| > |s| then None
    else if OccursAtCi(s, sub, from) then Some(from)
    else FindCiFrom(s, sub, from + 1)
  }

  /** The first case-insensitive occurrence of `sub` in `s`, which is where
      `re.sub(..., flags=re.IGNORECASE, count=1)` substitutes. */
  function FindCi(s: string, sub: string): (r: Option<nat>)
    ensures r.Some? ==> OccursAtCi(s, sub, r.value)
    ensures forall j :: (r.None? || j < r.value) ==> !OccursAtCi(s, sub, j)
  {
    FindCiFrom(s, sub, 0)
  }

  /** When `sub` has no letters other than ASCII ones folded by `Lower`,
      a case-insensitive occurrence is an occurrence in the lowered text:
      the `'<head>' in content.lower()` test and the IGNORECASE search agree. */
  lemma {:induction false} LowerContains(s: string, sub: string)
    requires LowerStr(sub) == sub
    ensures Contains(LowerStr(s), sub) <==> FindCi(s, sub).Some?
  {
    var ls := LowerStr(s);
    if Contains(ls, sub) {
      var i :| 0 <= i <= |ls| - |sub| && OccursAt(ls, sub, i);
      LowerOccurs(s, sub, i);
    }
    if FindCi(s, sub).Some? {
      LowerOccurs(s, sub, FindCi(s, sub).value);
    }
  }

  lemma LowerOccurs(s: string, sub: string, i: nat)
    requires LowerStr(sub) == sub
    ensures OccursAt(LowerStr(s), sub, i) <==> OccursAtCi(s, sub, i)
  {
    var ls := LowerStr(s);
    if i + |sub| <= |s| {
      assert forall k :: 0 <= k < |sub| ==> Lower(sub[k]) == sub[k] by {
        forall k | 0 <= k < |sub| ensures Lower(sub[k]) == sub[k] {
          assert LowerStr(sub)[k] == Lower(sub[k]);
        }
      }
      var w := ls[i..i + |sub|];
      assert forall k :: 0 <= k < |sub| ==> w[k] == Lower(s[i + k]);
    }
  }

  // ---------------------------------------------------------------- split / join

  /** `s.split(sep)` for a one-character separator: never empty, and no part
      holds the separator. */
  function Split(s: string, sep: char): (parts: seq<string>)
    ensures |parts| >= 1
    ensures forall i :: 0 <= i < |parts| ==> sep !in parts[i]
    decreases |s|
  {
    if sep !in s then [s]
    else
      var k := IndexOf(s, sep);
      [s[..k]] + Split(s[k + 1..], sep)
  }

  /** `sep.join(xs)`. */
  function Join(xs: seq<string>, sep: string): string {
    if |xs| == 0 then ""
    else if |xs| == 1 then xs[0]
    else xs[0] + sep + Join(xs[1..], sep)
  }

  /** Joining the parts of a split gives the string back. */
  lemma {:induction false} JoinSplit(s: string, sep: char)
    ensures Join(Split(s, sep), [sep]) == s
    decreases |s|
  {
    if sep in s {
      var k := IndexOf(s, sep);
      JoinSplit(s[k + 1..], sep);
      assert s == s[..k] + [sep] + s[k + 1..];
    }
  }

  /** Splitting a join gives the parts back when no part holds the separator. */
  lemma {:induction false} SplitJoin(xs: seq<string>, sep: char)
    requires |xs| >= 1
    requires forall i :: 0 <= i < |xs| ==> sep !in xs[i]
    ensures Split(Join(xs, [sep]), sep) == xs
  {
    if |xs| > 1 {
      SplitJoin(xs[1..], sep);
      var s := Join(xs, [sep]);
      assert s == xs[0] + [sep] + Join(xs[1..], [sep]);
      assert s[|xs[0]|] == sep;
      assert s[..|xs[0]|] == xs[0];
      assert s[..|xs[0]|] == xs[0];
      IndexOfIs(s, sep, |xs[0]|);
      assert s[|xs[0]| + 1..] == Join(xs[1..], [sep]);
    }
  }

  // ---------------------------------------------------------------- integers

  function DigitChar(d: nat): char
    requires d < 10
  {
    ('0' as int + d) as char
  }

  predicate IsDigit(c: char) {
    '0' <= c <= '9'
  }

  function DigitsOf(n: nat): (r: string)
    ensures |r| >= 1 && forall i :: 0 <= i < |r| ==> IsDigit(r[i])
  {
    if n < 10 then [DigitChar(n)] else DigitsOf(n / 10) + [DigitChar(n % 10)]
  }

  /** Python's `str(n)` for an integer. */
  function Decimal(n: int): (r: string)
    ensures r != [] && (n >= 0 ==> IsDigit(r[0])) && (n < 0 ==> r[0] == '-')
    ensures forall i :: 0 < i < |r| ==> IsDigit(r[i])
  {
    if n < 0 then "-" + DigitsOf(-n) else DigitsOf(n)
  }

  function ValueOfDigits(s: string): nat
    requires forall i :: 0 <= i < |s| ==> IsDigit(s[i])
  {
    if s == [] then 0
    else
      var last := s[|s| - 1];
      assert IsDigit(last);
      10 * ValueOfDigits(s[..|s| - 1]) + (last as int - '0' as int)
  }

  /** Python's `int(s)` on an already stripped string of ASCII digits with an
      optional sign; `None` is the `ValueError` it raises otherwise. */
  function ParseInt(s: string): (r: Option<int>)
    ensures r.Some? ==> s != []
  {
    if s == [] then None
    else
      var neg := s[0] == '-';
      var body := if s[0] == '-' || s[0] == '+' then s[1..] else s;
      if body == [] || exists i :: 0 <= i < |body| && !IsDigit(body[i]) then None
      else
        var v: int := ValueOfDigits(body);
        Some(if neg then -v else v)
  }

  lemma {:induction false} DigitsValue(n: nat)
    ensures ValueOfDigits(DigitsOf(n)) == n
  {
    if n >= 10 {
      DigitsValue(n / 10);
      var d := DigitsOf(n / 10) + [DigitChar(n % 10)];
      assert d[..|d| - 1] == DigitsOf(n / 10);
    }
  }

  /** What `str(n)` writes, `int()` reads back. */
  lemma DecimalRoundTrip(n: int)
    ensures ParseInt(Decimal(n)) == Some(n)
  {
    if n < 0 {
      DigitsValue(-n);
      assert Decimal(n)[1..] == DigitsOf(-n);
    } else {
      DigitsValue(n);
    }
  }
}

/** The bulk dark-mode fixer for HTML pages: the tests it makes on a page,
    the guarded insertions before `</body>`, the `<head>` insertion of the
    theme script, and the per-file decision with its three counters. Pages
    are strings; the file system is a map from path to contents. */
module DarkMode {
  import opened Wrappers
  import opened Text

  // ---------------------------------------------------------------- tests

  /** `has_theme_init`. */
  predicate HasThemeInit(content: string) {
    Contains(content, "theme-init.js")
  }

  /** `tag`, ignoring case, at `i` and followed by `>` or whitespace: a match
      of `tag + r'[>\s]'` under `re.IGNORECASE`. */
  predicate TagAt(s: string, tag: string, i: int) {
    OccursAtCi(s, tag, i) && i + |tag| < |s| && (s[i + |tag|] == '>' || IsSpace(s[i + |tag|]))
  }

  /** `re.search`: the first position at or after `from` where the tag
      pattern matches. */
  function SearchTag(s: string, tag: string, from: nat): (r: Option<nat>)
    ensures r.Some? ==> from <= r.value && TagAt(s, tag, r.value)
    ensures forall j :: from <= j && (r.None? || j < r.value) ==> !TagAt(s, tag, j)
    decreases |s| - from
  {
    if from + |tag| >= |s| then None
    else if TagAt(s, tag, from) then Some(from)
    else SearchTag(s, tag, from + 1)
  }

  /** `has_head_tag`: `<head` then `>` or whitespace, ignoring case. */
  function HasHeadTag(content: string): (b: bool)
    ensures b <==> exists i :: TagAt(content, "<head", i)
  {
    SearchTag(content, "<head", 0).Some?
  }

  /** `has_body_tag`: `<body` then `>` or whitespace, ignoring case. */
  function HasBodyTag(content: string): (b: bool)
    ensures b <==> exists i :: TagAt(content, "<body", i)
  {
    SearchTag(content, "<body", 0).Some?
  }

  /** A character that does not fold to the one at `k` of `sub` rules out
      every case-insensitive occurrence of `sub`. */
  lemma CiAbsent(s: string, sub: string, k: nat)
    requires k < |sub| && forall ch | ch in s :: Lower(ch) != Lower(sub[k])
    ensures forall i :: !OccursAtCi(s, sub, i)
  {
    forall i | 0 <= i && i + |sub| <= |s| ensures !OccursAtCi(s, sub, i) {
      assert s[i + k] in s;
    }
  }

  /** `<header>` is not a head tag, while a head tag with attributes is. */
  lemma HeadTagExamples()
    ensures !HasHeadTag("<header>")
    ensures HasHeadTag("<HEAD>") && HasHeadTag("<head lang=\"en\">")
  {
    var h := "<header>";
    forall i | 0 <= i < 3 ensures !TagAt(h, "<head", i) {
      if i == 0 {
        assert h[5] == 'e';
      } else if i == 1 {
        assert Lower(h[1]) != Lower("<head"[0]);
      } else {
        assert Lower(h[2]) != Lower("<head"[0]);
      }
    }
    var u := "<HEAD>";
    assert TagAt(u, "<head", 0);
    var a := "<head lang=\"en\">";
    assert TagAt(a, "<head", 0);
  }

  // ---------------------------------------------------------------- insertions before </body>

  /** Insert `line` before the first `</body>` (ignoring case) unless the page
      already holds `marker`; without a `</body>` nothing changes. */
  function Guarded(content: string, marker: string, line: string): (r: string)
    ensures Contains(content, marker) || FindCi(content, "</body>").None? ==> r == content
    ensures !Contains(content, marker) && FindCi(content, "</body>").Some? ==>
      var i := FindCi(content, "</body>").value;
      r == content[..i] + line + content[i..]
  {
    if Contains(content, marker) then content
    else match FindCi(content, "</body>")
      case None => content
      case Some(i) => content[..i] + line + content[i..]
  }

  /** After the insertion the page holds the marker exactly when it held it
      already or has a `</body>` to insert before. */
  lemma GuardedMarker(content: string, marker: string, line: string)
    requires Contains(line, marker)
    ensures Contains(Guarded(content, marker, line), marker)
      <==> Contains(content, marker) || FindCi(content, "</body>").Some?
  {
    if !Contains(content, marker) && FindCi(content, "</body>").Some? {
      var i := FindCi(content, "</body>").value;
      ContainsInfix(content[..i], line, content[i..], marker);
    }
  }

  /** A second insertion finds the marker the first one wrote. */
  lemma GuardedIdempotent(content: string, marker: string, line: string)
    requires Contains(line, marker)
    ensures Guarded(Guarded(content, marker, line), marker, line) == Guarded(content, marker, line)
  {
    GuardedMarker(content, marker, line);
  }

  /** The insertion moves the first `</body>` past the inserted line. */
  lemma GuardedKeepsBody(content: string, marker: string, line: string)
    requires FindCi(content, "</body>").Some?
    ensures FindCi(Guarded(content, marker, line), "</body>").Some?
  {
    if !Contains(content, marker) {
      var i := FindCi(content, "</body>").value;
      var r := Guarded(content, marker, line);
      assert r[i + |line|..] == content[i..];
      assert OccursAtCi(r, "</body>", i + |line|);
    }
  }

  /** Only `<` folds to `<`. */
  lemma FoldsToOpen(ch: char)
    requires Lower(ch) == '<'
    ensures ch == '<'
  {
  }

  /** An insertion keeps a marker that holds no `<`. */
  lemma GuardedKeeps(content: string, marker: string, line: string, m: string)
    requires Contains(content, m) && '<' !in m
    ensures Contains(Guarded(content, marker, line), m)
  {
    if !Contains(content, marker) && FindCi(content, "</body>").Some? {
      var i := FindCi(content, "</body>").value;
      assert Lower(content[i]) == Lower("</body>"[0]);
      FoldsToOpen(content[i]);
      InsertKeeps(content, i, line, m);
    }
  }

  const ProviderMarker: string := "pan-theme-provider"
  const ProviderLine: string := "  <" + ProviderMarker + "></pan-theme-provider>\n"
  const BusMarker: string := "pan-bus"
  const BusLine: string := "  <" + BusMarker + " debug=\"false\"></pan-bus>\n"

  lemma LinesHoldMarkers()
    ensures Contains(ProviderLine, ProviderMarker) && Contains(BusLine, BusMarker)
  {
    ContainsWhole(ProviderMarker);
    ContainsInfix("  <", ProviderMarker, "></pan-theme-provider>\n", ProviderMarker);
    ContainsWhole(BusMarker);
    ContainsInfix("  <", BusMarker, " debug=\"false\"></pan-bus>\n", BusMarker);
  }

  /** `add_theme_provider`. */
  function AddThemeProvider(content: string): string {
    Guarded(content, ProviderMarker, ProviderLine)
  }

  /** `ensure_pan_bus`. */
  function EnsurePanBus(content: string): string {
    Guarded(content, BusMarker, BusLine)
  }

  /** Applying either insertion twice is applying it once. */
  lemma InsertionsIdempotent(content: string)
    ensures AddThemeProvider(AddThemeProvider(content)) == AddThemeProvider(content)
    ensures EnsurePanBus(EnsurePanBus(content)) == EnsurePanBus(content)
  {
    LinesHoldMarkers();
    GuardedIdempotent(content, ProviderMarker, ProviderLine);
    GuardedIdempotent(content, BusMarker, BusLine);
  }

  /** A page with a `</body>` ends up with both the bus and the provider,
      whatever it held before. */
  lemma BodyGetsBoth(content: string)
    requires FindCi(content, "</body>").Some?
    ensures var r := AddThemeProvider(EnsurePanBus(content));
      Contains(r, BusMarker) && Contains(r, ProviderMarker)
  {
    LinesHoldMarkers();
    var c1 := EnsurePanBus(content);
    GuardedMarker(content, BusMarker, BusLine);
    GuardedKeepsBody(content, BusMarker, BusLine);
    GuardedMarker(c1, ProviderMarker, ProviderLine);
    GuardedKeeps(c1, ProviderMarker, ProviderLine, BusMarker);
  }

  // ---------------------------------------------------------------- theme script

  /** `THEME_INIT_TEMPLATE.format(theme_path=...)`. */
  function ScriptTag(themePath: string): string {
    "  <!-- CRITICAL: Load theme BEFORE CSS to prevent flash -->\n  <script src=\"" + themePath + "\"></script>\n"
  }

  const MetaLine: string := "\n  <meta charset=\"UTF-8\">\n"

  /** `add_theme_init`. A page whose lowered text holds `<meta charset=` is
      handed to `meta`, the meta-charset substitution, with the script tag;
      otherwise, when it holds `<head>`, a charset line and the script tag go
      right after the first `<head>` (ignoring case); otherwise nothing
      changes. The path must hold no backslash: `re.sub` would read it as a
      template escape. */
  function AddThemeInit(content: string, themePath: string, meta: (string, string) -> string): (r: string)
    requires '\\' !in themePath
    ensures Contains(LowerStr(content), "<meta charset=") ==> r == meta(content, ScriptTag(themePath))
    ensures !Contains(LowerStr(content), "<meta charset=") ==>
      match FindCi(content, "<head>")
      case None => r == content
      case Some(i) => r == content[..i + 6] + MetaLine + ScriptTag(themePath) + content[i + 6..]
  {
    assert LowerStr("<head>") == "<head>";
    LowerContains(content, "<head>");
    if Contains(LowerStr(content), "<meta charset=") then meta(content, ScriptTag(themePath))
    else if Contains(LowerStr(content), "<head>") then
      var i := FindCi(content, "<head>").value;
      content[..i + 6] + MetaLine + ScriptTag(themePath) + content[i + 6..]
    else content
  }

  /** Without a meta charset, a page that lacked the theme script has it
      afterwards exactly when it has a `<head>` to insert after (the path
      names `theme-init.js`, as every path the fixer computes does). */
  lemma ThemeInitInserted(content: string, themePath: string, meta: (string, string) -> string)
    requires '\\' !in themePath && Contains(themePath, "theme-init.js") && !HasThemeInit(content)
    requires !Contains(LowerStr(content), "<meta charset=")
    ensures HasThemeInit(AddThemeInit(content, themePath, meta)) <==> FindCi(content, "<head>").Some?
  {
    var pre := "  <!-- CRITICAL: Load theme BEFORE CSS to prevent flash -->\n  <script src=\"";
    ContainsInfix(pre, themePath, "\"></script>\n", "theme-init.js");
    assert ScriptTag(themePath) == pre + themePath + "\"></script>\n";
    if FindCi(content, "<head>").Some? {
      var i := FindCi(content, "<head>").value;
      ContainsInfix(content[..i + 6] + MetaLine, ScriptTag(themePath), content[i + 6..], "theme-init.js");
    }
  }

  // ---------------------------------------------------------------- process_file

  /** The rewrites `process_file` applies to a page it does not skip; `media`
      is `update_media_query`. */
  function Rewrite(content: string, themePath: string, meta: (string, string) -> string,
                   media: string -> string): string
    requires '\\' !in themePath
  {
    var c := media(AddThemeInit(content, themePath, meta));
    if HasBodyTag(c) then AddThemeProvider(EnsurePanBus(c)) else c
  }

  /** What happens to one readable page. */
  datatype Outcome = Skipped | Fixed(content: string)

  /** The decision AS WRITTEN: skip a page with the script or without a head
      tag, count every other page as fixed. */
  function PlanAsWritten(content: string, themePath: string, meta: (string, string) -> string,
                         media: string -> string): (o: Outcome)
    requires '\\' !in themePath
    ensures o.Skipped? <==> HasThemeInit(content) || !HasHeadTag(content)
  {
    if HasThemeInit(content) || !HasHeadTag(content) then Skipped
    else Fixed(Rewrite(content, themePath, meta, media))
  }

  /** A page with a head tag that carries attributes and no meta charset:
      the script is not inserted (the `<head>` branch looks for the bare
      tag), yet the page is written back and counted as fixed. */
  lemma AttributedHeadCountedFixed(meta: (string, string) -> string, media: string -> string)
    requires media(AttributedHead) == AttributedHead
    ensures PlanAsWritten(AttributedHead, "../playground/theme-init.js", meta, media) == Fixed(AttributedHead)
    ensures !HasThemeInit(AttributedHead)
  {
    var path := "../playground/theme-init.js";
    assert '\\' !in path;
    AttributedHeadUntouched(path, meta);
    AttributedHeadFacts();
    UntouchedCountedFixed(AttributedHead, path, meta, media);
  }

  /** A page the rewrites leave as it is still counts as fixed. */
  lemma UntouchedCountedFixed(content: string, path: string, meta: (string, string) -> string,
                              media: string -> string)
    requires '\\' !in path && !HasThemeInit(content) && HasHeadTag(content) && !HasBodyTag(content)
    requires AddThemeInit(content, path, meta) == content && media(content) == content
    ensures PlanAsWritten(content, path, meta, media) == Fixed(content)
  {
  }

  /** The page of the counterexample. */
  const AttributedHead: string := "<head lang=\"en\">"

  /** A string whose first character appears nowhere else holds `sub` (which
      starts with that character) at most at 0. */
  lemma FirstOnly(s: string, sub: string)
    requires sub != [] && s != [] && sub[0] !in s[1..] && !OccursAt(s, sub, 0)
    ensures !Contains(s, sub)
  {
    forall i | 0 < i <= |s| - |sub| ensures !OccursAt(s, sub, i) {
      assert s[i..i + |sub|][0] == s[i] == s[1..][i - 1];
    }
  }

  lemma AttributedHeadFacts()
    ensures !HasThemeInit(AttributedHead) && HasHeadTag(AttributedHead) && !HasBodyTag(AttributedHead)
    ensures LowerStr(AttributedHead) == AttributedHead
    ensures !Contains(AttributedHead, "<meta charset=") && !Contains(AttributedHead, "<head>")
  {
    AttributedHeadTags();
    AttributedHeadText();
  }

  lemma AttributedHeadTags()
    ensures HasHeadTag(AttributedHead) && !HasBodyTag(AttributedHead)
  {
    assert TagAt(AttributedHead, "<head", 0);
    CiAbsent(AttributedHead, "<body", 1);
  }

  lemma AttributedHeadText()
    ensures !HasThemeInit(AttributedHead) && LowerStr(AttributedHead) == AttributedHead
    ensures !Contains(AttributedHead, "<meta charset=") && !Contains(AttributedHead, "<head>")
  {
    AttributedHeadNoScript();
    AttributedHeadLower();
    AttributedHeadNoMeta();
    AttributedHeadNoBareHead();
  }

  lemma AttributedHeadNoScript()
    ensures !HasThemeInit(AttributedHead)
  {
    AbsentChar(AttributedHead, "theme-init.js", 0);
  }

  lemma AttributedHeadLower()
    ensures LowerStr(AttributedHead) == AttributedHead
  {
    LowerFixed(AttributedHead);
  }

  lemma AttributedHeadNoMeta()
    ensures !Contains(AttributedHead, "<meta charset=")
  {
    AbsentChar(AttributedHead, "<meta charset=", 1);
  }

  lemma AttributedHeadNoBareHead()
    ensures !Contains(AttributedHead, "<head>")
  {
    var page := AttributedHead;
    assert page[0..6][5] == ' ';
    FirstOnly(page, "<head>");
  }

  lemma AttributedHeadUntouched(path: string, meta: (string, string) -> string)
    requires '\\' !in path
    ensures AddThemeInit(AttributedHead, path, meta) == AttributedHead
  {
    AttributedHeadFacts();
    assert LowerStr("<head>") == "<head>";
    LowerContains(AttributedHead, "<head>");
  }

  /** The corrected decision: a page counts as fixed only when the rewrites
      put the script in; one they cannot fix is skipped and left alone. A
      page is fixed exactly when the as-written decision would fix it and its
      rewrite loads the script, and then both decisions write the same page. */
  function Plan(content: string, themePath: string, meta: (string, string) -> string,
                media: string -> string): (o: Outcome)
    requires '\\' !in themePath
    ensures o.Fixed? ==> HasThemeInit(o.content)
    ensures o.Fixed? <==> (!HasThemeInit(content) && HasHeadTag(content)
                           && HasThemeInit(Rewrite(content, themePath, meta, media)))
    ensures o.Fixed? ==> PlanAsWritten(content, themePath, meta, media) == o
  {
    var o := PlanAsWritten(content, themePath, meta, media);
    if o.Fixed? && HasThemeInit(o.content) then o else Skipped
  }

  /** The checks and rewrites of `process_file`, in its order: a page that
      already loads the script or has no `<head>` is skipped before any
      rewrite; otherwise the script, the media queries and (with a `<body>`)
      the bus and the provider go in, and the page is fixed only if the
      script is then present. */
  method Decide(content: string, themePath: string, meta: (string, string) -> string,
                media: string -> string) returns (o: Outcome)
    requires '\\' !in themePath
    ensures o == Plan(content, themePath, meta, media)
  {
    if HasThemeInit(content) || !HasHeadTag(content) {
      return Skipped;
    }
    var page := AddThemeInit(content, themePath, meta);
    page := media(page);
    if HasBodyTag(page) {
      page := EnsurePanBus(page);
      page := AddThemeProvider(page);
    }
    assert page == Rewrite(content, themePath, meta, media);
    if !HasThemeInit(page) {
      return Skipped;
    }
    o := Fixed(page);
  }

  /** The fixer's state: the three counters of `stats` and the files. */
  class Fixer {
    var fixed: nat
    var skipped: nat
    var errors: nat
    var files: map<string, string>

    constructor (files: map<string, string>)
      ensures fixed == 0 && skipped == 0 && errors == 0 && this.files == files
    {
      fixed, skipped, errors := 0, 0, 0;
      this.files := files;
    }

    /** `process_file` with the corrected decision: an unreadable page is an
        error; a skipped page is neither backed up nor written; a fixed page
        is backed up to `path + ".bak"` and rewritten, except in a dry run.
        Exactly one counter grows, by one. */
    method ProcessFile(path: string, themePath: string, meta: (string, string) -> string,
                       media: string -> string, dryRun: bool)
      requires '\\' !in themePath
      modifies this
      ensures fixed + skipped + errors == old(fixed + skipped + errors) + 1
      ensures fixed >= old(fixed) && skipped >= old(skipped) && errors >= old(errors)
      ensures path !in old(files) ==> errors == old(errors) + 1 && files == old(files)
      ensures path in old(files) ==> errors == old(errors)
      ensures path in old(files) ==> match Plan(old(files)[path], themePath, meta, media)
        case Skipped => skipped == old(skipped) + 1 && files == old(files)
        case Fixed(page) =>
          fixed == old(fixed) + 1
          && files == if dryRun then old(files) else old(files)[path + ".bak" := old(files)[path]][path := page]
    {
      if path !in files {
        errors := errors + 1;
        return;
      }
      var content := files[path];
      var o := Decide(content, themePath, meta, media);
      Record(path, content, o, dryRun);
    }

    /** The counters and the files after the decision `o` on the page at
        `path`, whose text was `content`. */
    method Record(path: string, content: string, o: Outcome, dryRun: bool)
      modifies this
      ensures errors == old(errors)
      ensures o.Skipped? ==> fixed == old(fixed) && skipped == old(skipped) + 1 && files == old(files)
      ensures o.Fixed? ==> fixed == old(fixed) + 1 && skipped == old(skipped)
      ensures o.Fixed? ==> files == if dryRun then old(files) else old(files)[path + ".bak" := content][path := o.content]
    {
      match o
      case Skipped =>
        skipped := skipped + 1;
      case Fixed(page) =>
        if !dryRun {
          files := files[path + ".bak" := content];
          files := files[path := page];
        }
        fixed := fixed + 1;
    }
  }
}

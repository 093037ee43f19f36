/** The read side of the generic REST endpoint: the resource and field
    whitelists, `get_data`'s choice of columns, its `WHERE` clause built from
    the `filters` parameter, its paging arithmetic, and `list_fields`. The
    database itself is not modelled: a query is described by what would be
    sent to it. */
module Resources {
  import opened Wrappers
  import opened Text
  import opened Json

  /** An entry of `ALLOWED_RESOURCES`. */
  datatype Resource = Resource(table: string, pk: string)

  const AllowedResources: map<string, Resource> := map[
    "users" := Resource("users", "userID"),
    "posts" := Resource("posts", "postID"),
    "comments" := Resource("comments", "commentID"),
    "products" := Resource("products", "productID"),
    "orders" := Resource("orders", "orderID")]

  const AllowedFields: map<string, seq<string>> := map[
    "users" := ["userID", "username", "email", "created_at", "updated_at"],
    "posts" := ["postID", "title", "content", "userID", "created_at"],
    "comments" := ["commentID", "content", "postID", "userID", "created_at"],
    "products" := ["productID", "name", "description", "price", "stock", "category", "created_at", "updated_at"],
    "orders" := ["orderID", "userID", "total", "status", "created_at", "updated_at"]]

  /** The query string, `request.args.to_dict()`. */
  type Params = map<string, string>

  function Param(params: Params, key: string): Option<string> {
    if key in params then Some(params[key]) else None
  }

  /** `params.get('rsc', '')`. */
  function ResourceName(params: Params): string {
    Param(params, "rsc").GetOr("")
  }

  // ---------------------------------------------------------------- whitelists

  predicate NameChar(ch: char) {
    'a' <= ch <= 'z' || 'A' <= ch <= 'Z' || ch == '_'
  }

  /** A column name made of letters and underscores only. */
  predicate Clean(name: string) {
    name != [] && forall i :: 0 <= i < |name| ==> NameChar(name[i])
  }

  predicate CleanAll(names: seq<string>) {
    forall i :: 0 <= i < |names| ==> Clean(names[i])
  }

  /** Both whitelists name the same resources; every field list is non-empty,
      starts with the resource's primary key and holds only clean names. */
  lemma WhitelistsAgree(rsc: string)
    requires rsc in AllowedResources
    ensures rsc in AllowedFields && AllowedFields[rsc] != []
    ensures AllowedFields[rsc][0] == AllowedResources[rsc].pk
    ensures CleanAll(AllowedFields[rsc])
  {
    var fs := AllowedFields[rsc];
    forall i | 0 <= i < |fs| ensures Clean(fs[i]) {
      var f := fs[i];
      assert forall k :: 0 <= k < |f| ==> NameChar(f[k]);
    }
  }

  lemma CleanNotSpace(name: string)
    requires Clean(name)
    ensures Strip(name) == name && ',' !in name && '?' !in name && '`' !in name
  {
    assert NameChar(name[0]) && NameChar(name[|name| - 1]);
    StripClean(name);
  }

  // ---------------------------------------------------------------- field selection

  /** The names of `names` that are whitelisted, in the order given. */
  function Whitelisted(names: seq<string>, allowed: seq<string>): (kept: seq<string>)
    ensures |kept| <= |names|
    ensures forall x :: x in kept <==> x in names && x in allowed
  {
    if names == [] then []
    else (if names[0] in allowed then [names[0]] else []) + Whitelisted(names[1..], allowed)
  }

  /** The filter keeps the request's order and its repeats: it works name by
      name. */
  lemma {:induction false} WhitelistedAppend(a: seq<string>, b: seq<string>, allowed: seq<string>)
    ensures Whitelisted(a + b, allowed) == Whitelisted(a, allowed) + Whitelisted(b, allowed)
  {
    if a != [] {
      assert (a + b)[0] == a[0] && (a + b)[1..] == a[1..] + b;
      WhitelistedAppend(a[1..], b, allowed);
    } else {
      assert a + b == b;
    }
  }

  lemma WhitelistedOne(x: string, allowed: seq<string>)
    ensures Whitelisted([x], allowed) == if x in allowed then [x] else []
  {
    assert [x][1..] == [];
  }

  lemma {:induction false} WhitelistedAll(names: seq<string>, allowed: seq<string>)
    requires forall x :: x in names ==> x in allowed
    ensures Whitelisted(names, allowed) == names
  {
    if names != [] {
      WhitelistedAll(names[1..], allowed);
      assert [names[0]] + names[1..] == names;
    }
  }

  /** `[f.strip() for f in s.split(',')]`. */
  function StrippedParts(s: string): (names: seq<string>)
    ensures |names| == |Split(s, ',')| && forall i :: 0 <= i < |names| ==> names[i] == Strip(Split(s, ',')[i])
  {
    var parts := Split(s, ',');
    seq(|parts|, i requires 0 <= i < |parts| => Strip(parts[i]))
  }

  /** The columns `get_data` selects: the whitelisted names of the `fields`
      parameter (stripped, in order), or the whole whitelist when none
      qualifies or the parameter is absent. Never empty, never outside the
      whitelist. */
  function SelectFields(requested: Option<string>, allowed: seq<string>): (fields: seq<string>)
    requires allowed != []
    ensures fields != [] && forall f :: f in fields ==> f in allowed
    ensures requested.Some? ==>
      var kept := Whitelisted(StrippedParts(requested.value), allowed);
      (kept != [] ==> fields == kept) && (kept == [] ==> fields == allowed)
  {
    var kept := Whitelisted(StrippedParts(requested.GetOr(Join(allowed, ","))), allowed);
    if kept == [] then allowed else kept
  }

  /** Without a `fields` parameter the whole whitelist is selected, in its
      own order: joining it with commas and splitting again loses nothing. */
  lemma DefaultFields(allowed: seq<string>)
    requires allowed != [] && CleanAll(allowed)
    ensures SelectFields(None, allowed) == allowed
  {
    var names := StrippedParts(Join(allowed, ","));
    NamesReadBack(allowed);
    WhitelistedAll(names, allowed);
  }

  /** Clean names joined with commas come back, split and stripped, as the
      same names. */
  lemma NamesReadBack(xs: seq<string>)
    requires xs != [] && CleanAll(xs)
    ensures StrippedParts(Join(xs, ",")) == xs
  {
    forall i | 0 <= i < |xs| ensures ',' !in xs[i] && Strip(xs[i]) == xs[i] {
      CleanNotSpace(xs[i]);
    }
    SplitJoin(xs, ',');
  }

  /** `fields=content,title` selects those two columns in the order asked
      for, whatever the whitelist's order (`posts` lists `title` first). */
  lemma FieldsInRequestOrder(allowed: seq<string>)
    requires "content" in allowed && "title" in allowed
    ensures SelectFields(Some("content,title"), allowed) == ["content", "title"]
  {
    var xs := ["content", "title"];
    assert Join(xs, ",") == "content,title";
    assert CleanAll(xs) by {
      assert forall k :: 0 <= k < |xs[0]| ==> NameChar(xs[0][k]);
      assert forall k :: 0 <= k < |xs[1]| ==> NameChar(xs[1][k]);
    }
    NamesReadBack(xs);
    WhitelistedAll(xs, allowed);
  }

  /** `fields=x`, when `x` is not a column, falls back to the whole
      whitelist. */
  lemma FieldsFallBack(allowed: seq<string>)
    requires allowed != [] && "x" !in allowed
    ensures SelectFields(Some("x"), allowed) == allowed
  {
    assert Join(["x"], ",") == "x";
    assert CleanAll(["x"]) by { assert NameChar('x'); }
    NamesReadBack(["x"]);
    WhitelistedOne("x", allowed);
  }

  // ---------------------------------------------------------------- filters

  /** The number of `?` placeholders in a piece of SQL. */
  function Placeholders(s: string): nat {
    if s == [] then 0 else (if s[0] == '?' then 1 else 0) + Placeholders(s[1..])
  }

  lemma {:induction false} PlaceholdersAppend(a: string, b: string)
    ensures Placeholders(a + b) == Placeholders(a) + Placeholders(b)
  {
    if a != [] {
      assert (a + b)[0] == a[0] && (a + b)[1..] == a[1..] + b;
      PlaceholdersAppend(a[1..], b);
    } else {
      assert a + b == b;
    }
  }

  lemma {:induction false} PlaceholdersNone(s: string)
    requires '?' !in s
    ensures Placeholders(s) == 0
  {
    if s != [] {
      assert '?' !in s[1..];
      PlaceholdersNone(s[1..]);
    }
  }

  /** A whitelisted filter: the column and its `LIKE` pattern. */
  datatype Clause = Clause(column: string, pattern: string)

  /** What the loop does with one filter object: a clause when its `key` is a
      whitelisted column, with the pattern `%value%` (`value` defaulting to
      the empty string), and nothing otherwise. */
  function ClauseOf(c: Codec, f: Json, allowed: seq<string>): (cl: seq<Clause>)
    requires f.Obj?
    ensures |cl| <= 1 && forall i :: 0 <= i < |cl| ==> cl[i].column in allowed
    ensures cl != [] <==> Get(f.fields, "key", Str("")).Str? && Get(f.fields, "key", Str("")).s in allowed
  {
    var key := Get(f.fields, "key", Str(""));
    if key.Str? && key.s in allowed then
      [Clause(key.s, "%" + Show(c, Get(f.fields, "value", Str(""))) + "%")]
    else []
  }

  /** Every filter is an object; any other item makes `f.get` raise. */
  predicate AllObjects(items: seq<Json>) {
    forall i :: 0 <= i < |items| ==> items[i].Obj?
  }

  /** The clauses the loop has collected when it stops: those of the filters
      before the first one that is not an object (of all of them when each is
      one). Every column is whitelisted. */
  function Clauses(c: Codec, items: seq<Json>, allowed: seq<string>): (cls: seq<Clause>)
    ensures forall i :: 0 <= i < |cls| ==> cls[i].column in allowed
  {
    if items == [] then []
    else
      var init := items[..|items| - 1];
      var last := items[|items| - 1];
      if AllObjects(init) && last.Obj? then Clauses(c, init, allowed) + ClauseOf(c, last, allowed)
      else Clauses(c, init, allowed)
  }

  /** Once a filter has raised, the ones after it change nothing. */
  lemma {:induction false} ClausesStop(c: Codec, xs: seq<Json>, ys: seq<Json>, allowed: seq<string>)
    requires !AllObjects(xs)
    ensures !AllObjects(xs + ys) && Clauses(c, xs + ys, allowed) == Clauses(c, xs, allowed)
    decreases |ys|
  {
    if ys == [] {
      assert xs + ys == xs;
    } else {
      var init := (xs + ys)[..|xs + ys| - 1];
      assert init == xs + ys[..|ys| - 1];
      ClausesStop(c, xs, ys[..|ys| - 1], allowed);
      var i :| 0 <= i < |xs| && !xs[i].Obj?;
      assert (xs + ys)[i] == xs[i];
    }
  }

  /** The loop body's appends for one object filter are those of its clause. */
  lemma ClauseAppends(c: Codec, f: Json, allowed: seq<string>)
    requires f.Obj?
    ensures var key := Get(f.fields, "key", Str(""));
      var hit := key.Str? && key.s in allowed;
      && Conditions(ClauseOf(c, f, allowed)) == (if hit then ["`" + key.s + "` LIKE ?"] else [])
      && Patterns(ClauseOf(c, f, allowed))
        == (if hit then ["%" + Show(c, Get(f.fields, "value", Str(""))) + "%"] else [])
  {
  }

  /** The first filter that is not an object ends the clauses. */
  lemma StopsAt(c: Codec, items: seq<Json>, i: nat, allowed: seq<string>)
    requires i < |items| && !items[i].Obj?
    ensures !AllObjects(items) && Clauses(c, items, allowed) == Clauses(c, items[..i], allowed)
  {
    var xs := items[..i + 1];
    assert xs[..|xs| - 1] == items[..i] && xs[|xs| - 1] == items[i];
    assert !xs[i].Obj?;
    assert xs + items[i + 1..] == items;
    ClausesStop(c, xs, items[i + 1..], allowed);
  }

  /** One more object filter adds its clause. */
  lemma ClausesGrow(c: Codec, items: seq<Json>, i: nat, allowed: seq<string>)
    requires i < |items| && AllObjects(items[..i]) && items[i].Obj?
    ensures AllObjects(items[..i + 1])
    ensures Clauses(c, items[..i + 1], allowed) == Clauses(c, items[..i], allowed) + ClauseOf(c, items[i], allowed)
  {
    var xs := items[..i + 1];
    assert xs[..|xs| - 1] == items[..i] && xs[|xs| - 1] == items[i];
  }

  lemma ConditionsAppend(a: seq<Clause>, b: seq<Clause>)
    ensures Conditions(a + b) == Conditions(a) + Conditions(b)
  {
  }

  lemma PatternsAppend(a: seq<Clause>, b: seq<Clause>)
    ensures Patterns(a + b) == Patterns(a) + Patterns(b)
  {
  }

  /** `f"`{key}` LIKE ?"`. */
  function Condition(cl: Clause): string {
    "`" + cl.column + "` LIKE ?"
  }

  function Conditions(cls: seq<Clause>): (ws: seq<string>)
    ensures |ws| == |cls| && forall i :: 0 <= i < |cls| ==> ws[i] == Condition(cls[i])
  {
    seq(|cls|, i requires 0 <= i < |cls| => Condition(cls[i]))
  }

  function Patterns(cls: seq<Clause>): (ps: seq<string>)
    ensures |ps| == |cls| && forall i :: 0 <= i < |cls| ==> ps[i] == cls[i].pattern
  {
    seq(|cls|, i requires 0 <= i < |cls| => cls[i].pattern)
  }

  /** `' WHERE ' + ' AND '.join(wheres)`, or nothing without conditions. */
  function WhereOf(wheres: seq<string>): string {
    if wheres == [] then "" else " WHERE " + Join(wheres, " AND ")
  }

  /** The decoded `filters` parameter as the code sees it: a non-empty list.
      `None` stands for a missing or empty parameter and for one that
      `json.loads` rejects, which the code treats alike. */
  function FilterItems(filters: Option<Json>): seq<Json> {
    if filters.Some? && filters.value.Arr? then filters.value.items else []
  }

  /** `where` and `where_params` after the filter block AS WRITTEN: when a
      filter raises, `where` stays empty but the patterns appended before it
      stay in `where_params`. */
  function FiltersAsWritten(c: Codec, filters: Option<Json>, allowed: seq<string>): (string, seq<string>) {
    var items := FilterItems(filters);
    var cls := Clauses(c, items, allowed);
    if AllObjects(items) then (WhereOf(Conditions(cls)), Patterns(cls)) else ("", Patterns(cls))
  }

  /** The filter block with the conditions and their patterns committed
      together: a filter list that raises is ignored as a whole. */
  function Filters(c: Codec, filters: Option<Json>, allowed: seq<string>): (string, seq<string>) {
    var items := FilterItems(filters);
    var cls := Clauses(c, items, allowed);
    if AllObjects(items) then (WhereOf(Conditions(cls)), Patterns(cls)) else ("", [])
  }

  /** A condition on a clean column holds exactly one placeholder. */
  lemma ConditionPlaceholders(cl: Clause)
    requires Clean(cl.column)
    ensures Placeholders(Condition(cl)) == 1
  {
    CleanNotSpace(cl.column);
    PlaceholdersAppend("`" + cl.column, "` LIKE ?");
    PlaceholdersAppend("`", cl.column);
    PlaceholdersNone(cl.column);
  }

  lemma {:induction false} JoinPlaceholders(ws: seq<string>)
    requires forall i :: 0 <= i < |ws| ==> Placeholders(ws[i]) == 1
    ensures Placeholders(Join(ws, " AND ")) == |ws|
  {
    if |ws| > 1 {
      JoinPlaceholders(ws[1..]);
      PlaceholdersAppend(ws[0] + " AND ", Join(ws[1..], " AND "));
      PlaceholdersAppend(ws[0], " AND ");
    }
  }

  /** The corrected filter block binds exactly one pattern per placeholder,
      so both queries it is used in receive the right number of parameters. */
  lemma FiltersBalanced(c: Codec, filters: Option<Json>, allowed: seq<string>)
    requires CleanAll(allowed)
    ensures var (where, ps) := Filters(c, filters, allowed); Placeholders(where) == |ps|
  {
    var items := FilterItems(filters);
    var cls := Clauses(c, items, allowed);
    var ws := Conditions(cls);
    forall i | 0 <= i < |ws| ensures Placeholders(ws[i]) == 1 {
      assert cls[i].column in allowed;
      ConditionPlaceholders(cls[i]);
    }
    if ws != [] {
      JoinPlaceholders(ws);
      PlaceholdersAppend(" WHERE ", Join(ws, " AND "));
    }
  }

  /** With every filter an object both blocks agree. */
  lemma FiltersAgreeWhenWellFormed(c: Codec, filters: Option<Json>, allowed: seq<string>)
    requires AllObjects(FilterItems(filters))
    ensures FiltersAsWritten(c, filters, allowed) == Filters(c, filters, allowed)
  {
  }

  /** A whitelisted filter followed by a number: the block as written leaves
      one pattern for a clause with no placeholder, so `COUNT(*)` is executed
      with more parameters than placeholders and the request fails instead
      of ignoring the bad filter. */
  lemma FiltersMismatch(c: Codec)
    ensures var f := Obj([("key", Str("title")), ("value", Str("x"))]);
      var (where, ps) := FiltersAsWritten(c, Some(Arr([f, Num(5)])), AllowedFields["posts"]);
      where == "" && ps == ["%x%"] && Placeholders(where) != |ps|
  {
    var f := Obj([("key", Str("title")), ("value", Str("x"))]);
    var items := [f, Num(5)];
    var allowed := AllowedFields["posts"];
    assert allowed[1] == "title";
    assert items[..1] == [f] && [f][..0] == [] && AllObjects([f]);
    assert f.fields[1].0 != "key" && f.fields[0].0 == "key";
    assert LookupBefore(f.fields, "key", 1) == Some(Str("title"));
    assert Get(f.fields, "key", Str("")) == Str("title");
    assert Show(c, Get(f.fields, "value", Str(""))) == "x";
    assert "%" + "x" + "%" == "%x%";
    assert ClauseOf(c, f, allowed) == [Clause("title", "%x%")];
    assert Clauses(c, [f], allowed) == [Clause("title", "%x%")];
    assert !items[1].Obj?;
    assert Clauses(c, items, allowed) == [Clause("title", "%x%")];
  }

  /** The filter loop as written: walk the list, stop at the first item that
      raises, and keep whatever patterns were appended. */
  method BuildFiltersAsWritten(c: Codec, filters: Option<Json>, allowed: seq<string>)
    returns (where: string, whereParams: seq<string>)
    ensures (where, whereParams) == FiltersAsWritten(c, filters, allowed)
  {
    where := "";
    whereParams := [];
    var items := FilterItems(filters);
    var wheres: seq<string> := [];
    var i := 0;
    ghost var cls: seq<Clause> := [];
    while i < |items|
      invariant 0 <= i <= |items| && AllObjects(items[..i])
      invariant cls == Clauses(c, items[..i], allowed)
      invariant wheres == Conditions(cls) && whereParams == Patterns(cls)
    {
      var f := items[i];
      assert items[..i + 1][..i] == items[..i];
      if !f.Obj? {
        StopsAt(c, items, i, allowed);
        return;
      }
      ClausesGrow(c, items, i, allowed);
      ClauseAppends(c, f, allowed);
      ConditionsAppend(cls, ClauseOf(c, f, allowed));
      PatternsAppend(cls, ClauseOf(c, f, allowed));
      var key := Get(f.fields, "key", Str(""));
      var value := Get(f.fields, "value", Str(""));
      if key.Str? && key.s in allowed {
        wheres := wheres + ["`" + key.s + "` LIKE ?"];
        whereParams := whereParams + ["%" + Show(c, value) + "%"];
      }
      cls := cls + ClauseOf(c, f, allowed);
      i := i + 1;
    }
    assert items[..i] == items;
    if wheres != [] {
      where := " WHERE " + Join(wheres, " AND ");
    }
  }

  /** The filter loop with its results committed only once it completes. */
  method BuildFilters(c: Codec, filters: Option<Json>, allowed: seq<string>)
    returns (where: string, whereParams: seq<string>)
    ensures (where, whereParams) == Filters(c, filters, allowed)
  {
    where := "";
    whereParams := [];
    var items := FilterItems(filters);
    var wheres: seq<string> := [];
    var patterns: seq<string> := [];
    var i := 0;
    ghost var cls: seq<Clause> := [];
    while i < |items|
      invariant 0 <= i <= |items| && AllObjects(items[..i])
      invariant cls == Clauses(c, items[..i], allowed)
      invariant wheres == Conditions(cls) && patterns == Patterns(cls)
    {
      var f := items[i];
      assert items[..i + 1][..i] == items[..i];
      if !f.Obj? {
        assert !AllObjects(items) by { assert !items[i].Obj?; }
        return;
      }
      ClausesGrow(c, items, i, allowed);
      ClauseAppends(c, f, allowed);
      ConditionsAppend(cls, ClauseOf(c, f, allowed));
      PatternsAppend(cls, ClauseOf(c, f, allowed));
      var key := Get(f.fields, "key", Str(""));
      var value := Get(f.fields, "value", Str(""));
      if key.Str? && key.s in allowed {
        wheres := wheres + ["`" + key.s + "` LIKE ?"];
        patterns := patterns + ["%" + Show(c, value) + "%"];
      }
      cls := cls + ClauseOf(c, f, allowed);
      i := i + 1;
    }
    assert items[..i] == items;
    if wheres != [] {
      where := " WHERE " + Join(wheres, " AND ");
    }
    whereParams := patterns;
  }

  // ---------------------------------------------------------------- paging

  /** `int(s)` on a query-string value, which strips whitespace first. */
  function IntParam(raw: Option<string>, default: int): Option<int> {
    if raw.None? then Some(default) else ParseInt(Strip(raw.value))
  }

  /** `max(1, min(int(params.get('page_size', 20)), 100))`; `None` when
      `int()` raises. */
  function PageSize(raw: Option<string>): (r: Option<int>)
    ensures r.Some? <==> IntParam(raw, 20).Some?
    ensures r.Some? ==> 1 <= r.value <= 100
    ensures r.Some? && 1 <= IntParam(raw, 20).value <= 100 ==> r.value == IntParam(raw, 20).value
    ensures r.Some? && IntParam(raw, 20).value > 100 ==> r.value == 100
    ensures r.Some? && IntParam(raw, 20).value < 1 ==> r.value == 1
  {
    match IntParam(raw, 20)
    case None => None
    case Some(n) => Some(if n > 100 then 100 else if n < 1 then 1 else n)
  }

  /** `max(0, int(params.get('start', 0)))`; `None` when `int()` raises. */
  function Start(raw: Option<string>): (r: Option<int>)
    ensures r.Some? <==> IntParam(raw, 0).Some?
    ensures r.Some? ==> r.value >= 0 && (IntParam(raw, 0).value >= 0 ==> r.value == IntParam(raw, 0).value)
    ensures r.Some? && IntParam(raw, 0).value < 0 ==> r.value == 0
  {
    match IntParam(raw, 0)
    case None => None
    case Some(n) => Some(if n < 0 then 0 else n)
  }

  /** `(total + page_size - 1) // page_size`: the number of pages needed to
      show `total` rows, `page_size` to a page. */
  function Pages(total: nat, pageSize: int): (pages: nat)
    requires pageSize >= 1
    ensures pages * pageSize >= total
    ensures total > 0 ==> (pages - 1) * pageSize < total
    ensures total == 0 ==> pages == 0
  {
    var q := (total + pageSize - 1) / pageSize;
    var r := (total + pageSize - 1) % pageSize;
    assert q * pageSize + r == total + pageSize - 1 && 0 <= r < pageSize;
    assert (q - 1) * pageSize == q * pageSize - pageSize;
    q
  }

  /** `start // page_size + 1`: the (1-based) page the row at offset `start`
      falls on. */
  function PageOf(start: nat, pageSize: int): (page: nat)
    requires pageSize >= 1
    ensures page >= 1 && (page - 1) * pageSize <= start < page * pageSize
  {
    var q := start / pageSize;
    assert q * pageSize + start % pageSize == start;
    assert (q + 1) * pageSize == q * pageSize + pageSize;
    q + 1
  }

  /** The first row of a page that exists lies within the total. */
  lemma PageWithinTotal(total: nat, start: nat, pageSize: int)
    requires pageSize >= 1
    ensures start < total ==> PageOf(start, pageSize) <= Pages(total, pageSize)
  {
    if start < total {
      MulMonotone(PageOf(start, pageSize) - 1, Pages(total, pageSize), pageSize);
    }
  }

  /** From `x * k < y * k` with a positive `k`. */
  lemma MulMonotone(x: int, y: int, k: int)
    requires k >= 1 && x * k < y * k
    ensures x < y
  {
    assert (y - x) * k == y * k - x * k;
    assert (y - x) * k > 0;
    assert y - x > 0;
  }

  // ---------------------------------------------------------------- get_data

  /** What `get_data` sends to the database, or the error it replies with. */
  datatype Query =
    | InvalidResource
      /** `int()` raised on `page_size` or `start`. */
    | BadNumber
    | ById(table: string, pk: string, fields: seq<string>, id: string)
    | Listing(table: string, fields: seq<string>, where: string, whereParams: seq<string>,
              pageSize: int, start: int)

  /** The decoded `filters` parameter: nothing when it is missing or empty,
      or when `json.loads` raises on it. */
  function FiltersParam(c: Codec, params: Params): (f: Option<Json>)
    ensures f.Some? ==> "filters" in params && params["filters"] != [] && c.loads(params["filters"]) == f
    ensures "filters" in params && params["filters"] != [] ==> f == c.loads(params["filters"])
  {
    if "filters" in params && params["filters"] != [] then c.loads(params["filters"]) else None
  }

  /** `get_data(params)` up to the database calls. A non-empty `id` selects
      one row by primary key; otherwise the listing is paged and filtered. */
  function GetData(c: Codec, params: Params): (q: Query)
    ensures q.InvalidResource? <==> ResourceName(params) !in AllowedResources
    ensures !q.InvalidResource? ==> ResourceName(params) in AllowedFields
    ensures q.ById? || q.Listing? ==>
      var rsc := ResourceName(params);
      q.table == AllowedResources[rsc].table && q.fields != []
      && forall f :: f in q.fields ==> f in AllowedFields[rsc]
    ensures q.ById? || q.Listing? ==>
      q.fields == SelectFields(Param(params, "fields"), AllowedFields[ResourceName(params)])
    ensures q.ById? <==> !q.InvalidResource? && Param(params, "id").Some? && Param(params, "id").value != []
    ensures q.ById? ==> q.pk == AllowedResources[ResourceName(params)].pk && q.id == params["id"]
    ensures q.Listing? ==> 1 <= q.pageSize <= 100 && q.start >= 0 && Placeholders(q.where) == |q.whereParams|
    ensures q.BadNumber? <==>
              !q.InvalidResource? && !q.ById? &&
              (PageSize(Param(params, "page_size")).None? || Start(Param(params, "start")).None?)
    ensures q.Listing? ==>
      q.pageSize == PageSize(Param(params, "page_size")).value && q.start == Start(Param(params, "start")).value &&
      (q.where, q.whereParams) == Filters(c, FiltersParam(c, params), AllowedFields[ResourceName(params)])
  {
    var rsc := ResourceName(params);
    if rsc !in AllowedResources then InvalidResource
    else
      WhitelistsAgree(rsc);
      var res := AllowedResources[rsc];
      var allowed := AllowedFields[rsc];
      var fields := SelectFields(Param(params, "fields"), allowed);
      if "id" in params && params["id"] != [] then ById(res.table, res.pk, fields, params["id"])
      else
        var pageSize := PageSize(Param(params, "page_size"));
        var start := Start(Param(params, "start"));
        if pageSize.None? || start.None? then BadNumber
        else
          var filters := FiltersParam(c, params);
          FiltersBalanced(c, filters, allowed);
          var (where, whereParams) := Filters(c, filters, allowed);
          Listing(res.table, fields, where, whereParams, pageSize.value, start.value)
  }

  /** The reply to a listing once the database has counted `total` rows and
      returned `count` of them: total, start, count, pages and page. */
  datatype PageReply = PageReply(total: nat, start: nat, count: nat, pages: nat, page: nat)

  function Reply(total: nat, start: nat, pageSize: int, count: nat): (r: PageReply)
    requires pageSize >= 1
    ensures r.total == total && r.start == start && r.count == count
    ensures r.pages * pageSize >= total && r.page >= 1
    ensures start < total ==> r.page <= r.pages
    ensures r.pages == Pages(total, pageSize) && r.page == PageOf(start, pageSize)
  {
    PageWithinTotal(total, start, pageSize);
    PageReply(total, start, count, Pages(total, pageSize), PageOf(start, pageSize))
  }

  // ---------------------------------------------------------------- list_fields

  /** `list_fields(params)`: the resource, its primary key and its whitelist,
      or `None` for the "Invalid resource" error. */
  function ListFields(params: Params): (r: Option<(string, string, seq<string>)>)
    ensures r.None? <==> ResourceName(params) !in AllowedResources
    ensures r.Some? ==> r.value.0 == ResourceName(params) && r.value.2 != [] && r.value.1 == r.value.2[0]
    ensures r.Some? ==> r.value.1 == AllowedResources[r.value.0].pk && r.value.2 == AllowedFields[r.value.0]
  {
    var rsc := ResourceName(params);
    if rsc !in AllowedResources then None
    else
      WhitelistsAgree(rsc);
      Some((rsc, AllowedResources[rsc].pk, AllowedFields[rsc]))
  }

  /** The two endpoints share one whitelist: they reject the same resources,
      `get_data` only ever selects columns `list_fields` lists, and without a
      `fields` parameter it selects all of them. */
  lemma SameWhitelist(c: Codec, params: Params)
    ensures GetData(c, params).InvalidResource? <==> ListFields(params).None?
    ensures var q := GetData(c, params); q.ById? || q.Listing? ==>
      forall f :: f in q.fields ==> f in ListFields(params).value.2
    ensures var q := GetData(c, params); (q.ById? || q.Listing?) && "fields" !in params ==>
      q.fields == ListFields(params).value.2
  {
    var rsc := ResourceName(params);
    if rsc in AllowedResources {
      WhitelistsAgree(rsc);
      if "fields" !in params {
        DefaultFields(AllowedFields[rsc]);
      }
    }
  }
}

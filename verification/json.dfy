/** The JSON values that the hub stores and forwards, with the pieces of
    Python's dictionary and truth-value semantics that the handlers rely on.
    `json.dumps`, `json.loads` and Python's `str()` of a list or dict are
    foreign formats: a `Codec` carries them as functions, and `Lawful` states
    what the rest of the model assumes about them. */
module Json {
  import opened Wrappers
  import opened Text

  /** A decoded JSON document. An object keeps its members in insertion order,
      which is the order `json.dumps` writes a Python dict in. Numbers are
      integers only. */
  datatype Json =
    | Null
    | Bool(b: bool)
    | Num(n: int)
    | Str(s: string)
    | Arr(items: seq<Json>)
    | Obj(fields: seq<(string, Json)>)

  /** `d.get(key)` on the dict a JSON object decodes to: when a key repeats,
      the last member wins, as in `json.loads`. */
  function Lookup(fields: seq<(string, Json)>, key: string): (r: Option<Json>)
    ensures r.None? <==> forall i :: 0 <= i < |fields| ==> fields[i].0 != key
    ensures r.Some? ==> exists i :: (0 <= i < |fields| && fields[i] == (key, r.value)
      && forall k :: i < k < |fields| ==> fields[k].0 != key)
  {
    LookupBefore(fields, key, |fields|)
  }

  /** The value of the last member before position `n` with the key. */
  function LookupBefore(fields: seq<(string, Json)>, key: string, n: nat): (r: Option<Json>)
    requires n <= |fields|
    ensures r.None? <==> forall i :: 0 <= i < n ==> fields[i].0 != key
    ensures r.Some? ==> exists i :: (0 <= i < n && fields[i] == (key, r.value)
      && forall k :: i < k < n ==> fields[k].0 != key)
    decreases n
  {
    if n == 0 then None
    else if fields[n - 1].0 == key then Some(fields[n - 1].1)
    else LookupBefore(fields, key, n - 1)
  }

  /** Adding a member at the end binds its key and leaves the others alone. */
  lemma LookupSnoc(fields: seq<(string, Json)>, k: string, v: Json, key: string)
    ensures Lookup(fields + [(k, v)], key) == if key == k then Some(v) else Lookup(fields, key)
  {
    var fs := fields + [(k, v)];
    assert fs[..|fs| - 1] == fields;
  }

  /** `d.get(key, default)`. */
  function Get(fields: seq<(string, Json)>, key: string, default: Json): Json {
    Lookup(fields, key).GetOr(default)
  }

  /** Python's truth value of the decoded document. */
  predicate Truthy(j: Json) {
    match j
    case Null => false
    case Bool(b) => b
    case Num(n) => n != 0
    case Str(s) => s != []
    case Arr(xs) => xs != []
    case Obj(fs) => fs != []
  }

  /** The integer a value stands for in `+ 1` and `<=`: ints, and booleans as
      0 and 1. `None` is the `TypeError` Python raises for anything else. */
  function AsInt(j: Json): (r: Option<int>)
    ensures r.Some? <==> j.Num? || j.Bool?
    ensures j.Num? ==> r == Some(j.n)
  {
    match j
    case Num(n) => Some(n)
    case Bool(b) => Some(if b then 1 else 0)
    case _ => None
  }

  /** What a document looks like after `json.loads`: object keys are distinct
      at every level. */
  ghost predicate Canonical(j: Json)
    decreases j
  {
    match j
    case Arr(xs) => forall i :: 0 <= i < |xs| ==> Canonical(xs[i])
    case Obj(fs) =>
      (forall i, k :: 0 <= i < k < |fs| ==> fs[i].0 != fs[k].0)
      && forall i :: 0 <= i < |fs| ==> Canonical(fs[i].1)
    case _ => true
  }

  /** `json.dumps`, `json.loads`, and Python's `str()` of a list or dict. */
  datatype Codec = Codec(dumps: Json -> string, loads: string -> Option<Json>, repr: Json -> string)

  /** What Python's `json` module guarantees and the model relies on: loading
      what was dumped gives the document back; a dump is one non-empty line
      without carriage returns and without whitespace at either end; whatever loads successfully is canonical. */
  ghost predicate Lawful(c: Codec) {
    && (forall j :: Canonical(j) ==> c.loads(c.dumps(j)) == Some(j))
    && (forall j :: c.dumps(j) != [] && '\n' !in c.dumps(j) && '\r' !in c.dumps(j)
                    && !IsSpace(c.dumps(j)[0]) && !IsSpace(c.dumps(j)[|c.dumps(j)| - 1]))
    && (forall s :: c.loads(s).Some? ==> Canonical(c.loads(s).value))
  }

  /** How an f-string prints a decoded value (`str(value)`). */
  function Show(c: Codec, j: Json): string {
    match j
    case Str(s) => s
    case Num(n) => Decimal(n)
    case Bool(b) => if b then "True" else "False"
    case Null => "None"
    case _ => c.repr(j)
  }
}

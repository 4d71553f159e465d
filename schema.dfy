/**
 * The parts of zod's object schemas that the files under lib/validations use.
 * A schema applied to a value either aborts (a value of the wrong type,
 * after which enclosing objects, arrays and refinements stop) or yields a
 * value together with the non-fatal issues found (a failed `min`, `max`,
 * `regex` or `email` check). `parse` succeeds when no issue was found.
 * An issue is recorded by its path.
 */
module Schema {
  import opened Wrappers
  import opened Json

  datatype Seg = Key(name: string) | Index(i: nat)
  type Path = seq<Seg>

  datatype Checked<+T> = Aborted(issues: seq<Path>) | Parsed(value: T, issues: seq<Path>)

  /** The outcome of `schema.safeParse`: the value, or every issue found. */
  function Outcome<T>(c: Checked<T>): (r: Result<T, seq<Path>>)
    ensures r.Ok? <==> c.Parsed? && c.issues == []
    ensures r.Ok? ==> r.value == c.value
    ensures r.Err? ==> r.error == c.issues
  {
    if c.Parsed? && c.issues == [] then Ok(c.value) else Err(c.issues)
  }

  /** `z.string()` with one check `ok` (`min(n)`, `email()`, `regex(...)`). */
  function CheckedString(v: JsValue, at: Path, ok: string -> bool): (c: Checked<string>)
    ensures c.Parsed? <==> v.Str?
    ensures c.Aborted? ==> c.issues == [at]
    ensures c.Parsed? ==> c.value == v.s && (c.issues == [] <==> ok(v.s))
    ensures c.Parsed? && !ok(v.s) ==> c.issues == [at]
  {
    if v.Str? then Parsed(v.s, if ok(v.s) then [] else [at]) else Aborted([at])
  }

  /** `z.string().min(n)`; the length is the number of characters. */
  function StringMin(v: JsValue, at: Path, n: nat): (c: Checked<string>)
    ensures c.Parsed? <==> v.Str?
    ensures c.Aborted? ==> c.issues == [at]
    ensures c.Parsed? ==> c.value == v.s && (c.issues == [] <==> |v.s| >= n)
  {
    CheckedString(v, at, s => |s| >= n)
  }

  /** `z.string()` without checks. */
  function AnyString(v: JsValue, at: Path): (c: Checked<string>)
    ensures c.Parsed? <==> v.Str?
    ensures c.Parsed? ==> c.value == v.s && c.issues == []
    ensures c.Aborted? ==> c.issues == [at]
  {
    CheckedString(v, at, s => true)
  }

  /** `z.string().optional()`. */
  function OptionalString(v: JsValue, at: Path): (c: Checked<Option<string>>)
    ensures c.Parsed? <==> v.Undefined? || v.Str?
    ensures c.Parsed? ==> c.issues == [] && (c.value.Some? <==> v.Str?)
    ensures c.Parsed? && v.Str? ==> c.value == Some(v.s)
    ensures c.Aborted? ==> c.issues == [at]
  {
    match v
    case Undefined => Parsed(None, [])
    case Str(s) => Parsed(Some(s), [])
    case _ => Aborted([at])
  }

  /** `z.boolean()`. */
  function Boolean(v: JsValue, at: Path): (c: Checked<bool>)
    ensures c.Parsed? <==> v.Bool?
    ensures c.Parsed? ==> c.issues == [] && c.value == v.b
    ensures c.Aborted? ==> c.issues == [at]
  {
    if v.Bool? then Parsed(v.b, []) else Aborted([at])
  }

  /** `z.boolean().default(d)`. */
  function BooleanDefault(v: JsValue, at: Path, d: bool): (c: Checked<bool>)
    ensures c.Parsed? <==> v.Undefined? || v.Bool?
    ensures c.Parsed? ==> c.issues == [] && c.value == (if v.Bool? then v.b else d)
    ensures c.Aborted? ==> c.issues == [at]
  {
    match v
    case Undefined => Parsed(d, [])
    case Bool(b) => Parsed(b, [])
    case _ => Aborted([at])
  }

  /** `z.number().min(m)`; the bound is inclusive. */
  function NumberMin(v: JsValue, at: Path, m: real): (c: Checked<real>)
    ensures c.Parsed? <==> v.Num?
    ensures c.Parsed? ==> c.value == v.n && (c.issues == [] <==> v.n >= m)
    ensures c.Aborted? ==> c.issues == [at]
  {
    if v.Num? then Parsed(v.n, if v.n >= m then [] else [at]) else Aborted([at])
  }

  /**
   * The elements of an array, each checked by `f` at its own index, from
   * index `offset` on. Any aborted element aborts the array.
   */
  function Elements<T>(items: seq<JsValue>, at: Path, offset: nat, f: (JsValue, Path) -> Checked<T>): (c: Checked<seq<T>>)
    ensures c.Parsed? <==> forall i :: 0 <= i < |items| ==> f(items[i], at + [Index(offset + i)]).Parsed?
    ensures c.Parsed? ==> (|c.value| == |items| &&
      forall i :: 0 <= i < |items| ==> c.value[i] == f(items[i], at + [Index(offset + i)]).value)
    ensures c.issues == [] <==> forall i :: 0 <= i < |items| ==> f(items[i], at + [Index(offset + i)]).issues == []
    decreases |items|
  {
    if |items| == 0 then Parsed([], [])
    else
      var head := f(items[0], at + [Index(offset)]);
      var tail := Elements(items[1..], at, offset + 1, f);
      assert forall i :: 1 <= i < |items| ==> items[i] == items[1..][i - 1] && offset + i == (offset + 1) + (i - 1);
      if head.Aborted? || tail.Aborted? then Aborted(head.issues + tail.issues)
      else Parsed([head.value] + tail.value, head.issues + tail.issues)
  }

  /**
   * `z.array(element)` with optional `.min(lo)` and `.max(hi)`: the length
   * checks come first and are non-fatal; then the elements.
   */
  function ArrayOf<T>(v: JsValue, at: Path, lo: nat, hi: Option<nat>, f: (JsValue, Path) -> Checked<T>): (c: Checked<seq<T>>)
    ensures c.Parsed? <==> v.Arr? && forall i :: 0 <= i < |v.items| ==> f(v.items[i], at + [Index(i)]).Parsed?
    ensures c.Parsed? ==> (|c.value| == |v.items| &&
      forall i :: 0 <= i < |v.items| ==> c.value[i] == f(v.items[i], at + [Index(i)]).value)
    ensures c.Parsed? ==> (c.issues == [] <==>
      lo <= |v.items| && (hi.Some? ==> |v.items| <= hi.value) &&
      forall i :: 0 <= i < |v.items| ==> f(v.items[i], at + [Index(i)]).issues == [])
    ensures !v.Arr? ==> c == Aborted([at])
  {
    if !v.Arr? then Aborted([at])
    else
      var short := if |v.items| < lo then [at] else [];
      var long := if hi.Some? && |v.items| > hi.value then [at] else [];
      var elements := Elements(v.items, at, 0, f);
      if elements.Aborted? then Aborted(short + long + elements.issues)
      else Parsed(elements.value, short + long + elements.issues)
  }

  /** `schema.refine(ok, { path })`: runs unless the schema aborted. */
  function Refine<T>(c: Checked<T>, ok: T -> bool, at: Path): (r: Checked<T>)
    ensures r.Parsed? <==> c.Parsed?
    ensures r.Aborted? ==> r == c
    ensures r.Parsed? ==> r.value == c.value && r.issues == c.issues + (if ok(c.value) then [] else [at])
  {
    if c.Aborted? then c
    else if ok(c.value) then c
    else Parsed(c.value, c.issues + [at])
  }
}

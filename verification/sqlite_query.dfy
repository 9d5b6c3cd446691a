/**
 * The prepared query (`tim::sqlite_query`): compiling with busy-retry, stepping
 * through rows with busy-retry, binding parameters by position or by name, the
 * JSON binding rule, and reading columns back.
 */
module SqliteQuery {
  import opened Retry
  import opened Wrappers
  import Text

  type int32 = x: int | -0x8000_0000 <= x < 0x8000_0000
  type int64 = x: int | -0x8000_0000_0000_0000 <= x < 0x8000_0000_0000_0000
  type uint64 = x: int | 0 <= x < 0x1_0000_0000_0000_0000

  /** A value handed to one of `sqlite3_bind_int`, `_int64`, `_double` or `_text`. */
  datatype Value = IntValue(i: int32) | Int64Value(l: int64) | DoubleValue(x: real) | TextValue(s: string)

  /**
   * A query: its SQL text, its parameters by position (`Some(name)` for a named
   * one, `None` for an anonymous `?`), whether it is compiled, and the values bound
   * so far by 1-based index.
   */
  datatype Query = Query(sql: string, params: seq<Option<string>>, prepared: bool, bindings: map<int, Value>)

  /** A freshly constructed query: not compiled, nothing bound. */
  function NewQuery(sql: string, params: seq<Option<string>>): (q: Query)
    requires |sql| > 0
    ensures q.sql == sql && q.params == params
    ensures !q.prepared && q.bindings == map[]
  {
    Query(sql, params, false, map[])
  }

  // ---------------------------------------------------------------------------
  // prepare, next, exec

  datatype Prepared = Prepared(ok: bool, query: Query, attempts: nat)

  /**
   * `prepare()` on a query that is not compiled yet: `SQLITE_OK` marks it prepared,
   * `SQLITE_BUSY` is retried up to `tries` times, any other code fails and leaves
   * it unprepared.
   */
  function Prepare(q: Query, answer: Answers, tries: nat): (r: Prepared)
    requires !q.prepared
    ensures r.query == q.(prepared := r.ok)
    ensures r.attempts <= tries
    ensures forall j :: 0 <= j < r.attempts - 1 ==> answer(j) == Busy
    ensures r.ok <==> 1 <= r.attempts && answer(r.attempts - 1) == Ok
    ensures !r.ok && r.attempts < tries ==> 1 <= r.attempts && answer(r.attempts - 1) != Busy
  {
    var o := Run(StatementVerdict, answer, tries);
    Prepared(o.success, q.(prepared := o.success), o.attempts)
  }

  /** The result of `next(&done)`, with `done` the caller's flag afterwards. */
  datatype Stepped = Stepped(ok: bool, done: bool, attempts: nat)

  /**
   * `next(&done)`: SQLITE_ROW succeeds with `done` false, SQLITE_DONE succeeds with
   * `done` true, SQLITE_MISUSE fails at once, SQLITE_BUSY is retried up to `tries`
   * times, any other code fails; on failure the caller's flag is left as it was.
   */
  function Next(q: Query, done: bool, answer: Answers, tries: nat): (r: Stepped)
    requires q.prepared
    ensures r.attempts <= tries
    ensures forall j :: 0 <= j < r.attempts - 1 ==> answer(j) == Busy
    ensures r.ok <==> 1 <= r.attempts && (answer(r.attempts - 1) == Row || answer(r.attempts - 1) == Done)
    ensures r.ok ==> (r.done <==> answer(r.attempts - 1) == Done)
    ensures !r.ok ==> r.done == done
    ensures 1 <= tries && answer(0) == Misuse ==> r == Stepped(false, done, 1)
    ensures !r.ok && r.attempts < tries ==> 1 <= r.attempts && answer(r.attempts - 1) != Busy
  {
    var o := Run(StepVerdict, answer, tries);
    Stepped(o.success, if o.success then o.last == Done else done, o.attempts)
  }

  datatype Executed = Executed(ok: bool, attempts: nat)

  /** `exec()` is `next()` without the `done` flag. */
  function Exec(q: Query, answer: Answers, tries: nat): (r: Executed)
    requires q.prepared
    ensures forall done: bool :: r.ok == Next(q, done, answer, tries).ok
    ensures forall done: bool :: r.attempts == Next(q, done, answer, tries).attempts
  {
    var n := Next(q, false, answer, tries);
    Executed(n.ok, n.attempts)
  }

  // ---------------------------------------------------------------------------
  // Binding

  datatype Bound = Bound(ok: bool, query: Query)

  /**
   * `bind(index, value)` on a compiled query: the engine accepts indexes 1 to the
   * number of parameters and answers SQLITE_RANGE otherwise, which fails the call
   * and binds nothing.
   */
  function Bind(q: Query, index: int, v: Value): (r: Bound)
    requires q.prepared
    ensures r.ok <==> 1 <= index <= |q.params|
    ensures r.ok ==> r.query == q.(bindings := q.bindings[index := v])
    ensures !r.ok ==> r.query == q
  {
    if 1 <= index <= |q.params| then Bound(true, q.(bindings := q.bindings[index := v]))
    else Bound(false, q)
  }

  /** `bind(index, bool)`: binds the integer 1 or 0. */
  function BindBool(q: Query, index: int, b: bool): (r: Bound)
    requires q.prepared
    ensures r.ok <==> 1 <= index <= |q.params|
    ensures r.ok ==> index in r.query.bindings && r.query.bindings[index].IntValue?
    ensures r.ok ==> (r.query.bindings[index].i == 1 <==> b)
    ensures r.ok ==> 0 <= r.query.bindings[index].i <= 1
  {
    Bind(q, index, IntValue(if b then 1 else 0))
  }

  /**
   * `sqlite3_bind_parameter_index`: the 1-based position of the first parameter
   * with that name, or 0 when there is none.
   */
  function ParameterIndex(params: seq<Option<string>>, key: string): (r: nat)
    ensures r == 0 <==> Some(key) !in params
    ensures r != 0 ==> r <= |params| && params[r - 1] == Some(key)
    ensures r != 0 ==> forall i :: 0 <= i < r - 1 ==> params[i] != Some(key)
    decreases |params|
  {
    if |params| == 0 then 0
    else if params[0] == Some(key) then 1
    else
      var k := ParameterIndex(params[1..], key);
      assert Some(key) in params ==> Some(key) in params[1..] by {
        if Some(key) in params {
          var i :| 0 <= i < |params| && params[i] == Some(key);
          assert params[1..][i - 1] == Some(key);
        }
      }
      if k == 0 then 0 else k + 1
  }

  /**
   * `bind(key, value)`: resolves the name to an index first; an unknown name
   * resolves to 0, which the engine rejects.
   */
  function BindNamed(q: Query, key: string, v: Value): (r: Bound)
    requires q.prepared
    ensures r.ok <==> Some(key) in q.params
    ensures r.ok ==> r.query.bindings == q.bindings[ParameterIndex(q.params, key) := v]
    ensures r.ok ==> q.params[ParameterIndex(q.params, key) - 1] == Some(key)
    ensures !r.ok ==> r.query == q
  {
    Bind(q, ParameterIndex(q.params, key), v)
  }

  // ---------------------------------------------------------------------------
  // JSON values

  /** The kinds of a JSON value the binding rule tells apart; arrays and objects carry their serialised text. */
  datatype Json =
    | JInteger(i: int64)
    | JUnsigned(u: uint64)
    | JFloat(x: real)
    | JBoolean(b: bool)
    | JNull
    | JString(s: string)
    | JCompound(serialised: string)

  /** The signed 64-bit integer with the same bit pattern as `u` (`(std::int64_t)u`). */
  function WrapInt64(u: uint64): (l: int64)
    ensures (l - u) % 0x1_0000_0000_0000_0000 == 0
  {
    if u < 0x8000_0000_0000_0000 then u else u - 0x1_0000_0000_0000_0000
  }

  function HexDigit(d: nat): (c: char)
    requires d < 16
  {
    if d < 10 then (('0' as int) + d) as char else (('a' as int) + d - 10) as char
  }

  function HexValue(c: char): nat {
    if '0' <= c <= '9' then (c as int) - ('0' as int)
    else if 'a' <= c <= 'f' then (c as int) - ('a' as int) + 10
    else 0
  }

  const Backspace: char := 8 as char
  const FormFeed: char := 12 as char

  /** One character of a JSON string as the serialiser writes it. */
  function EscapeChar(c: char): (e: string)
    ensures 1 <= |e|
    ensures |e| == 1 <==> e == [c]
  {
    if c == '"' then "\\\""
    else if c == '\\' then "\\\\"
    else if c == Backspace then "\\b"
    else if c == FormFeed then "\\f"
    else if c == '\n' then "\\n"
    else if c == '\r' then "\\r"
    else if c == '\t' then "\\t"
    else if (c as int) < 0x20 then "\\u00" + [HexDigit((c as int) / 16), HexDigit((c as int) % 16)]
    else [c]
  }

  function Escape(s: string): (e: string)
    ensures |s| <= |e|
    decreases |s|
  {
    if |s| == 0 then "" else EscapeChar(s[0]) + Escape(s[1..])
  }

  /** Reads back the characters `Escape` wrote. */
  function Unescape(e: string): string
    decreases |e|
  {
    if |e| == 0 then ""
    else if e[0] != '\\' || |e| == 1 then [e[0]] + Unescape(e[1..])
    else if e[1] == 'u' && 6 <= |e| then
      [(HexValue(e[4]) * 16 + HexValue(e[5])) as char] + Unescape(e[6..])
    else
      var c :=
        if e[1] == 'b' then Backspace
        else if e[1] == 'f' then FormFeed
        else if e[1] == 'n' then '\n'
        else if e[1] == 'r' then '\r'
        else if e[1] == 't' then '\t'
        else e[1];
      [c] + Unescape(e[2..])
  }

  lemma EscapeCharReadsBack(c: char, rest: string)
    ensures Unescape(EscapeChar(c) + rest) == [c] + Unescape(rest)
  {
    var e := EscapeChar(c) + rest;
    if c == '"' || c == '\\' || c == Backspace || c == FormFeed || c == '\n' || c == '\r' || c == '\t' {
      assert e[2..] == rest;
    } else if (c as int) < 0x20 {
      assert e[6..] == rest;
      assert HexValue(HexDigit((c as int) / 16)) == (c as int) / 16;
      assert HexValue(HexDigit((c as int) % 16)) == (c as int) % 16;
    } else {
      assert e[1..] == rest;
    }
  }

  /** Escaping loses nothing: the serialised text of a string reads back as the string. */
  lemma {:induction false} EscapeRoundTrip(s: string)
    ensures Unescape(Escape(s)) == s
    decreases |s|
  {
    if |s| > 0 {
      EscapeCharReadsBack(s[0], Escape(s[1..]));
      EscapeRoundTrip(s[1..]);
    }
  }

  /** `json::dump()` for the kinds bound as their serialised text. */
  function Dump(j: Json): (r: string)
    requires j.JNull? || j.JString? || j.JCompound?
    ensures j.JString? ==> 2 + |j.s| <= |r| && r[0] == '"' && r[|r| - 1] == '"'
  {
    match j
    case JNull => "null"
    case JString(s) => "\"" + Escape(s) + "\""
    case JCompound(t) => t
  }

  /**
   * The value `bind(index, json)` hands to the engine: a signed integer as a
   * 64-bit integer, an unsigned one reinterpreted as signed 64-bit, a float as a
   * double, a boolean as the text "true" or "false", and anything else as its
   * serialised text.
   */
  function JsonValue(j: Json): (v: Value)
    ensures j.JInteger? ==> v == Int64Value(j.i)
    ensures j.JUnsigned? ==> v.Int64Value? && (j.u < 0x8000_0000_0000_0000 <==> v.l == j.u)
    ensures j.JUnsigned? && 0x8000_0000_0000_0000 <= j.u ==> v.l < 0
    ensures j.JFloat? ==> v == DoubleValue(j.x)
    ensures j.JBoolean? ==> v == TextValue(if j.b then "true" else "false")
    ensures j.JNull? ==> v == TextValue("null")
    ensures j.JCompound? ==> v == TextValue(j.serialised)
    ensures v.TextValue? <==> !(j.JInteger? || j.JUnsigned? || j.JFloat?)
  {
    match j
    case JInteger(i) => Int64Value(i)
    case JUnsigned(u) => Int64Value(WrapInt64(u))
    case JFloat(x) => DoubleValue(x)
    case JBoolean(b) => TextValue(if b then "true" else "false")
    case _ => TextValue(Dump(j))
  }

  /** `bind(index, json)`: binds the value the JSON binding rule selects. */
  function BindJson(q: Query, index: int, j: Json): (r: Bound)
    requires q.prepared
    ensures r.ok <==> 1 <= index <= |q.params|
    ensures r.ok ==> r.query.bindings == q.bindings[index := JsonValue(j)]
  {
    Bind(q, index, JsonValue(j))
  }

  /**
   * A JSON string is bound as its quoted, escaped form, never as the bare string;
   * stripping the quotes and unescaping gives the string back.
   */
  lemma JsonStringBindsQuoted(s: string)
    ensures JsonValue(JString(s)).TextValue?
    ensures var t := JsonValue(JString(s)).s;
            2 <= |t| && t[0] == '"' && t[|t| - 1] == '"' && t != s && Unescape(t[1..|t| - 1]) == s
  {
    var t := JsonValue(JString(s)).s;
    assert t == "\"" + Escape(s) + "\"";
    assert t[1..|t| - 1] == Escape(s);
    EscapeRoundTrip(s);
  }

  /**
   * A boolean bound directly is the integer 1 or 0, while the same boolean inside a
   * JSON value is the text "true" or "false".
   */
  lemma BoolBindingsDiffer(q: Query, index: int, b: bool)
    requires q.prepared && 1 <= index <= |q.params|
    ensures BindBool(q, index, b).query.bindings[index].IntValue?
    ensures BindJson(q, index, JBoolean(b)).query.bindings[index].TextValue?
  {
  }

  // ---------------------------------------------------------------------------
  // Reading columns

  /** `std::max(0, n)` on a count reported by the engine, as a `size_t`. */
  function ClampCount(n: int32): (c: nat)
    ensures 0 <= n ==> c == n
    ensures n < 0 ==> c == 0
  {
    if n < 0 then 0 else n
  }

  /** The clamped count is `std::max(0, n)`: the least natural number not below `n`. */
  lemma ClampCountLeast(n: int32, m: nat)
    requires n <= m
    ensures n <= ClampCount(n) <= m
  {
  }

  /** A column value as the engine stores it; real-valued columns are not modelled. */
  datatype Column = NullColumn | IntegerColumn(i: int64) | TextColumn(t: string) | BlobColumn(b: string)

  /** The characters before the first NUL: what `std::string` keeps of a C string. */
  function CString(s: string): (r: string)
    ensures '\0' !in r
    ensures Text.StartsWith(s, r)
    ensures '\0' !in s ==> r == s
    ensures |r| < |s| ==> s[|r|] == '\0'
    decreases |s|
  {
    if |s| == 0 || s[0] == '\0' then "" else [s[0]] + CString(s[1..])
  }

  /** Signed decimal rendering, as the engine converts an integer column to text. */
  function SignedDecimal(i: int): string {
    if i < 0 then "-" + Text.ToDecimal(-i) else Text.ToDecimal(i)
  }

  /**
   * `to_string(index)`: the column's text up to its first NUL, with a NULL column
   * read as the empty string.
   */
  function ToString(c: Column): (s: string)
    ensures c.NullColumn? ==> s == ""
    ensures '\0' !in s
    ensures c.TextColumn? ==> Text.StartsWith(c.t, s) && ('\0' !in c.t ==> s == c.t)
    ensures c.BlobColumn? ==> Text.StartsWith(c.b, s)
  {
    match c
    case NullColumn => ""
    case IntegerColumn(i) => CString(SignedDecimal(i))
    case TextColumn(t) => CString(t)
    case BlobColumn(b) => CString(b)
  }

  /**
   * `to_json(index, &ok)`: parses the column's text; on a parse failure `ok` is
   * false and the value is JSON null. The parser is a parameter.
   */
  function ToJson(c: Column, parse: string -> Option<Json>): (r: (Json, bool))
    ensures r.1 <==> parse(ToString(c)).Some?
    ensures r.1 ==> r.0 == parse(ToString(c)).value
    ensures !r.1 ==> r.0 == JNull
  {
    match parse(ToString(c))
    case Some(j) => (j, true)
    case None => (JNull, false)
  }
}

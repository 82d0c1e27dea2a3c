/** The dot-path JSON query of pkg/jsonquery/jsonqury.go. A document is the
    tree json.Unmarshal builds into `any`; a query expression is split on
    "." by the quote-aware splitter (quotes stripped), and each segment
    either indexes an array ("[n]") or looks up an object key. Decoding
    JSON text and reading files are not modelled: a document is given as a
    value. */
module JsonQuery {
  import opened Wrappers
  import opened GoStrings
  import opened Splitters

  /** A decoded JSON value: nil, bool, float64, string, []any, map[string]any. */
  datatype Json =
    | JNull
    | JBool(b: bool)
    | JNumber(n: real)
    | JString(s: string)
    | JArray(items: seq<Json>)
    | JObject(fields: map<string, Json>)

  /** The kind a typed accessor expects. */
  datatype Kind = ObjectKind | ArrayKind | StringKind | NumberKind | BoolKind

  datatype QueryError =
    | InvalidArrayIndex(path: string, cause: NumError)
    | NotAnArray(path: string)
    | IndexOutOfRange(index: int, path: string)
    | NotAnObject(path: string)
    | MissingKey(path: string)
    | QueryFailed(inner: QueryError)
    | WrongType(exp: string, expected: Kind)
    | IntConversion(cause: NumError)
    | NotIntCompatible(value: Json)

  /** isArrayPath: the segment starts with '[' and ends with ']'. A single
      character cannot do both, so an array path has at least two. */
  predicate IsArrayPath(path: string)
    ensures IsArrayPath(path) ==> |path| >= 2
  {
    |path| >= 1 && path[0] == '[' && path[|path| - 1] == ']'
  }

  /** The text between the brackets of an array path. */
  function Inner(path: string): (s: string)
    requires IsArrayPath(path)
    ensures "[" + s + "]" == path
  {
    path[1..|path| - 1]
  }

  /** parseArrayIndex: strconv.Atoi of the text between the brackets. */
  function ParseArrayIndex(path: string): (r: Result<int, NumError>)
    requires IsArrayPath(path)
    ensures r.Success? <==> |Unsigned(Inner(path))| > 0 && AllDigits(Unsigned(Inner(path)))
                            && MinInt64 <= SignedValue(Inner(path)) <= MaxInt64
    ensures r.Success? ==> r.value == SignedValue(Inner(path))
  {
    ParseInt(Inner(path))
  }

  /** One step of Query: the value `path` selects in `context`, with a
      negative index reported as out of range (see SegmentAsWritten). */
  function Segment(context: Json, path: string): (r: Result<Json, QueryError>)
    ensures !IsArrayPath(path) ==>
      (r.Success? <==> context.JObject? && path in context.fields)
      && (r.Success? ==> r.value == context.fields[path])
      && (!context.JObject? ==> r == Failure(NotAnObject(path)))
      && (context.JObject? && path !in context.fields ==> r == Failure(MissingKey(path)))
    ensures IsArrayPath(path) ==>
      (r.Success? <==> ParseArrayIndex(path).Success? && context.JArray?
                       && 0 <= ParseArrayIndex(path).value < |context.items|)
      && (r.Success? ==> r.value == context.items[ParseArrayIndex(path).value])
      && (ParseArrayIndex(path).Failure? ==> r == Failure(InvalidArrayIndex(path, ParseArrayIndex(path).error)))
      && (ParseArrayIndex(path).Success? && !context.JArray? ==> r == Failure(NotAnArray(path)))
      && (ParseArrayIndex(path).Success? && context.JArray?
          && !(0 <= ParseArrayIndex(path).value < |context.items|) ==>
            r == Failure(IndexOutOfRange(ParseArrayIndex(path).value, path)))
  {
    if IsArrayPath(path) then
      match ParseArrayIndex(path)
      case Failure(e) => Failure(InvalidArrayIndex(path, e))
      case Success(index) =>
        if !context.JArray? then Failure(NotAnArray(path))
        else if index < 0 || index >= |context.items| then Failure(IndexOutOfRange(index, path))
        else Success(context.items[index])
    else if !context.JObject? then Failure(NotAnObject(path))
    else if path !in context.fields then Failure(MissingKey(path))
    else Success(context.fields[path])
  }

  /** The segments applied in order; the first failing one decides. */
  function Walk(context: Json, paths: seq<string>): Result<Json, QueryError>
    decreases |paths|
  {
    if |paths| == 0 then Success(context)
    else match Segment(context, paths[0])
      case Failure(e) => Failure(e)
      case Success(next) => Walk(next, paths[1..])
  }

  /** The segments of a query expression: split on "." without quotes. */
  function Segments(exp: string): seq<string>
  {
    Tokens(exp, ".", false, "").value
  }

  /** What Query returns for `exp` on `doc`. */
  function Eval(doc: Json, exp: string): Result<Json, QueryError>
  {
    if exp == "." then Success(doc) else Walk(doc, Segments(exp))
  }

  /** JQ: a query handle on one decoded document. */
  class JQ {
    const data: Json

    /** NewQuery */
    constructor (jsonObject: Json)
      ensures data == jsonObject
    {
      data := jsonObject;
    }

    /** Query: walks the segments, replacing the context at each step. */
    method Query(exp: string) returns (r: Result<Json, QueryError>)
      ensures r == Eval(data, exp)
    {
      if exp == "." {
        return Success(data);
      }
      // The separator is not empty, so the splitter cannot fail here.
      var split := SplitArgs(exp, ".", false);
      var paths := split.value;
      var context := data;
      for i := 0 to |paths|
        invariant Walk(data, paths) == Walk(context, paths[i..])
      {
        var path := paths[i];
        assert paths[i..][0] == path && paths[i..][1..] == paths[i + 1..];
        if IsArrayPath(path) {
          var index := ParseArrayIndex(path);
          if index.Failure? {
            return Failure(InvalidArrayIndex(path, index.error));
          }
          if !context.JArray? {
            return Failure(NotAnArray(path));
          }
          var arr := context.items;
          if index.value < 0 || index.value >= |arr| {
            return Failure(IndexOutOfRange(index.value, path));
          }
          context := arr[index.value];
        } else {
          if !context.JObject? {
            return Failure(NotAnObject(path));
          }
          if path !in context.fields {
            return Failure(MissingKey(path));
          }
          context := context.fields[path];
        }
      }
      return Success(context);
    }

    /** QueryToMap */
    method QueryToMap(exp: string) returns (r: Result<map<string, Json>, QueryError>)
      ensures r.Success? <==> Eval(data, exp).Success? && Eval(data, exp).value.JObject?
      ensures r.Success? ==> r.value == Eval(data, exp).value.fields
      ensures Eval(data, exp).Failure? ==> r == Failure(QueryFailed(Eval(data, exp).error))
      ensures Eval(data, exp).Success? && !Eval(data, exp).value.JObject? ==> r == Failure(WrongType(exp, ObjectKind))
    {
      var result := Query(exp);
      if result.Failure? {
        return Failure(QueryFailed(result.error));
      }
      if !result.value.JObject? {
        return Failure(WrongType(exp, ObjectKind));
      }
      return Success(result.value.fields);
    }

    /** QueryToArray */
    method QueryToArray(exp: string) returns (r: Result<seq<Json>, QueryError>)
      ensures r.Success? <==> Eval(data, exp).Success? && Eval(data, exp).value.JArray?
      ensures r.Success? ==> r.value == Eval(data, exp).value.items
      ensures Eval(data, exp).Failure? ==> r == Failure(QueryFailed(Eval(data, exp).error))
      ensures Eval(data, exp).Success? && !Eval(data, exp).value.JArray? ==> r == Failure(WrongType(exp, ArrayKind))
    {
      var result := Query(exp);
      if result.Failure? {
        return Failure(QueryFailed(result.error));
      }
      if !result.value.JArray? {
        return Failure(WrongType(exp, ArrayKind));
      }
      return Success(result.value.items);
    }

    /** QueryToString */
    method QueryToString(exp: string) returns (r: Result<string, QueryError>)
      ensures r.Success? <==> Eval(data, exp).Success? && Eval(data, exp).value.JString?
      ensures r.Success? ==> r.value == Eval(data, exp).value.s
      ensures Eval(data, exp).Failure? ==> r == Failure(QueryFailed(Eval(data, exp).error))
      ensures Eval(data, exp).Success? && !Eval(data, exp).value.JString? ==> r == Failure(WrongType(exp, StringKind))
    {
      var result := Query(exp);
      if result.Failure? {
        return Failure(QueryFailed(result.error));
      }
      if !result.value.JString? {
        return Failure(WrongType(exp, StringKind));
      }
      return Success(result.value.s);
    }

    /** QueryToFloat64, with a number as an exact real. */
    method QueryToFloat64(exp: string) returns (r: Result<real, QueryError>)
      ensures r.Success? <==> Eval(data, exp).Success? && Eval(data, exp).value.JNumber?
      ensures r.Success? ==> r.value == Eval(data, exp).value.n
      ensures Eval(data, exp).Failure? ==> r == Failure(QueryFailed(Eval(data, exp).error))
      ensures Eval(data, exp).Success? && !Eval(data, exp).value.JNumber? ==> r == Failure(WrongType(exp, NumberKind))
    {
      var result := Query(exp);
      if result.Failure? {
        return Failure(QueryFailed(result.error));
      }
      if !result.value.JNumber? {
        return Failure(WrongType(exp, NumberKind));
      }
      return Success(result.value.n);
    }

    /** QueryToBool */
    method QueryToBool(exp: string) returns (r: Result<bool, QueryError>)
      ensures r.Success? <==> Eval(data, exp).Success? && Eval(data, exp).value.JBool?
      ensures r.Success? ==> r.value == Eval(data, exp).value.b
      ensures Eval(data, exp).Failure? ==> r == Failure(QueryFailed(Eval(data, exp).error))
      ensures Eval(data, exp).Success? && !Eval(data, exp).value.JBool? ==> r == Failure(WrongType(exp, BoolKind))
    {
      var result := Query(exp);
      if result.Failure? {
        return Failure(QueryFailed(result.error));
      }
      if !result.value.JBool? {
        return Failure(WrongType(exp, BoolKind));
      }
      return Success(result.value.b);
    }

    /** QueryToInt64: a number is truncated toward zero; a string is parsed
        as a base-10 int64; anything else is an error. */
    method QueryToInt64(exp: string) returns (r: Result<int, QueryError>)
      ensures Eval(data, exp).Failure? ==> r == Failure(QueryFailed(Eval(data, exp).error))
      ensures Eval(data, exp).Success? && Eval(data, exp).value.JNumber? ==>
        r == Success(Truncate(Eval(data, exp).value.n))
      ensures Eval(data, exp).Success? && Eval(data, exp).value.JString? ==>
        var p := ParseInt(Eval(data, exp).value.s);
        (r.Success? <==> p.Success?)
        && (r.Success? ==> r.value == p.value && MinInt64 <= r.value <= MaxInt64)
        && (p.Failure? ==> r == Failure(IntConversion(p.error)))
      ensures Eval(data, exp).Success? && !Eval(data, exp).value.JNumber? && !Eval(data, exp).value.JString? ==>
        r == Failure(NotIntCompatible(Eval(data, exp).value))
    {
      var result := Query(exp);
      if result.Failure? {
        return Failure(QueryFailed(result.error));
      }
      match result.value
      case JNumber(v) =>
        return Success(Truncate(v));
      case JString(v) =>
        var ret := ParseInt(v);
        if ret.Failure? {
          return Failure(IntConversion(ret.error));
        }
        return Success(ret.value);
      case _ =>
        return Failure(NotIntCompatible(result.value));
    }
  }

  /** Go's conversion of a float64 to an integer, which truncates toward zero. */
  function Truncate(x: real): (t: int)
    ensures x >= 0.0 ==> 0 <= t && t as real <= x < t as real + 1.0
    ensures x < 0.0 ==> t <= 0 && t as real - 1.0 < x <= t as real
  {
    if x >= 0.0 then x.Floor else -((-x).Floor)
  }

  // ---------------------------------------------------------------------
  // Properties of the query language

  /** Walking a path is walking its first part, then the rest from where it ended. */
  lemma {:induction false} WalkAppend(context: Json, p: seq<string>, q: seq<string>)
    ensures Walk(context, p + q) ==
      match Walk(context, p)
      case Failure(e) => Failure(e)
      case Success(mid) => Walk(mid, q)
    decreases |p|
  {
    if |p| == 0 {
      assert p + q == q;
    } else {
      assert (p + q)[0] == p[0] && (p + q)[1..] == p[1..] + q;
      match Segment(context, p[0])
      case Failure(e) =>
      case Success(next) =>
        WalkAppend(next, p[1..], q);
    }
  }

  /** "." and the empty expression both select the whole document. */
  lemma WholeDocument(doc: Json)
    ensures Eval(doc, ".") == Success(doc)
    ensures Eval(doc, "") == Success(doc)
  {
    assert Segments("") == [];
  }

  /** A key path written with dots selects through the keys in order. */
  lemma EvalPath(doc: Json, keys: seq<string>)
    requires |keys| >= 1 && keys[|keys| - 1] != ""
    requires forall i :: 0 <= i < |keys| ==> '.' !in keys[i] && '\'' !in keys[i] && '"' !in keys[i]
    ensures Eval(doc, Join(keys, ".")) == Walk(doc, keys)
  {
    SplitArgsJoin(keys, '.', false);
    assert Join(keys, ".") != "." by {
      JoinNotSeparator(keys, '.');
    }
  }

  /** Joining parts whose last one is non-empty and free of `c` never gives just `c`. */
  lemma JoinNotSeparator(parts: seq<string>, c: char)
    requires |parts| >= 1 && parts[|parts| - 1] != "" && c !in parts[|parts| - 1]
    ensures Join(parts, [c]) != [c]
  {
    var n := |parts|;
    if n >= 2 {
      assert parts == parts[..n - 1] + [parts[n - 1]];
      JoinAppend(parts[..n - 1], parts[n - 1], [c]);
    }
  }

  /** A leading "." looks up the empty key before the next segment. */
  lemma LeadingDot(doc: Json, k: string)
    requires k != "" && '.' !in k && '\'' !in k && '"' !in k
    ensures Eval(doc, "." + k) == Walk(doc, ["", k])
  {
    EvalPath(doc, ["", k]);
    assert Join(["", k], ".") == "." + k;
  }

  /** A quoted segment is one key, dots included, with the quotes removed. */
  lemma QuotedKey(doc: Json, k: string)
    requires k != "" && '\'' !in k
    ensures Eval(doc, "'" + k + "'") == Segment(doc, k)
  {
    var exp := "'" + k + "'";
    QuotedWhole(k, ".");
    assert |exp| >= 3;
    assert Segments(exp) == [k];
    WalkOne(doc, k);
  }

  lemma WalkOne(context: Json, path: string)
    ensures Walk(context, [path]) == Segment(context, path)
  {
    assert [path][0] == path && [path][1..] == [];
    match Segment(context, path)
    case Failure(e) =>
    case Success(v) => assert Walk(v, []) == Success(v);
  }

  /** "[i]" selects element i of an array, for every index in range. */
  lemma IndexSelects(items: seq<Json>, i: int)
    requires 0 <= i < |items| && i <= MaxInt64
    ensures Segment(JArray(items), "[" + Itoa(i) + "]") == Success(items[i])
  {
    var path := "[" + Itoa(i) + "]";
    assert IsArrayPath(path);
    assert Inner(path) == Itoa(i);
    ParseItoa(i);
  }

  /** An index at or past the end is out of range. */
  lemma IndexPastEnd(items: seq<Json>, i: int)
    requires |items| <= i <= MaxInt64
    ensures Segment(JArray(items), "[" + Itoa(i) + "]") == Failure(IndexOutOfRange(i, "[" + Itoa(i) + "]"))
  {
    var path := "[" + Itoa(i) + "]";
    assert IsArrayPath(path);
    assert Inner(path) == Itoa(i);
    ParseItoa(i);
  }

  // ---------------------------------------------------------------------
  // The index check as written

  /** One step of Query as the Go code runs it: a negative index passes the
      `index >= len(arr)` test and then panics on `arr[index]`. */
  datatype GoStep = Next(value: Json) | Err(error: QueryError) | Panic

  function SegmentAsWritten(context: Json, path: string): (r: GoStep)
    ensures r == Panic <==> IsArrayPath(path) && ParseArrayIndex(path).Success?
                            && context.JArray? && ParseArrayIndex(path).value < 0
  {
    if IsArrayPath(path) then
      match ParseArrayIndex(path)
      case Failure(e) => Err(InvalidArrayIndex(path, e))
      case Success(index) =>
        if !context.JArray? then Err(NotAnArray(path))
        else if index >= |context.items| then Err(IndexOutOfRange(index, path))
        else if index < 0 then Panic
        else Next(context.items[index])
    else if !context.JObject? then Err(NotAnObject(path))
    else if path !in context.fields then Err(MissingKey(path))
    else Next(context.fields[path])
  }

  /** Outside the panicking case the code as written and Segment agree. */
  lemma SegmentAgrees(context: Json, path: string)
    requires SegmentAsWritten(context, path) != Panic
    ensures Segment(context, path).Success? ==> SegmentAsWritten(context, path) == Next(Segment(context, path).value)
    ensures Segment(context, path).Failure? ==> SegmentAsWritten(context, path) == Err(Segment(context, path).error)
  {
  }

  /** "[-n]" on any array panics as written, and is out of range in Segment. */
  lemma NegativeIndexPanics(items: seq<Json>, n: int)
    requires MinInt64 <= n < 0
    ensures SegmentAsWritten(JArray(items), "[" + Itoa(n) + "]") == Panic
    ensures Segment(JArray(items), "[" + Itoa(n) + "]") == Failure(IndexOutOfRange(n, "[" + Itoa(n) + "]"))
  {
    var path := "[" + Itoa(n) + "]";
    assert IsArrayPath(path);
    assert Inner(path) == Itoa(n);
    ParseItoa(n);
  }
}

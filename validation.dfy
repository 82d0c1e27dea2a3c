/** Validation-error reporting of pkg/utils/validation.go: the message for
    one failed validation rule, the map from Go field names to JSON names
    built over a struct, and the loop that files each error under its JSON
    name. The validator library and reflection are not modelled: a failed
    rule is given as its field, tag and parameter, and a struct value as a
    tree of fields. */
module Validation {
  import opened Wrappers
  import opened GoStrings

  // ---------------------------------------------------------------------
  // FormatErrorMessage

  /** validator.FieldError: the failing field's Go name, the rule's tag and its parameter. */
  datatype FieldError = FieldError(field: string, tag: string, param: string)

  /** The text that follows the field name: either fixed, or surrounding the rule's parameter. */
  datatype Template = Fixed(text: string) | Around(before: string, after: string)

  /** The message table of the switch on the tag. */
  function Templates(): map<string, Template>
  {
    map[
      "required" := Fixed(" is required"),
      "max" := Around(" cannot be longer than ", " characters"),
      "min" := Around(" must be at least ", " characters long"),
      "email" := Fixed(" must be a valid email address"),
      "boolean" := Fixed(" must be a boolean value"),
      "numeric" := Fixed(" must be a numeric value"),
      "gte" := Around(" must be greater than or equal to ", ""),
      "lte" := Around(" must be less than or equal to ", ""),
      "gt" := Around(" must be greater than ", ""),
      "lt" := Around(" must be less than ", ""),
      "len" := Around(" must be exactly ", " characters long"),
      "oneof" := Around(" must be one of [", "]"),
      "alphanum" := Fixed(" must contain only alphanumeric characters"),
      "url" := Fixed(" must be a valid URL"),
      "uuid" := Fixed(" must be a valid UUID"),
      "hexadecimal" := Fixed(" must be a valid hexadecimal value"),
      "base64" := Fixed(" must be a valid base64 encoded string"),
      "contains" := Around(" must contain the substring '", "'"),
      "excludes" := Around(" must not contain the substring '", "'"),
      "excludesall" := Around(" must not contain any of the characters '", "'"),
      "excludesrune" := Around(" must not contain the rune '", "'"),
      "startswith" := Around(" must start with '", "'"),
      "endswith" := Around(" must end with '", "'"),
      "datetime" := Around(" must be a valid datetime matching the format '", "'")
    ]
  }

  /** The template for `tag`; None for an unlisted tag. */
  function TemplateOf(tag: string): Option<Template>
  {
    if tag in Templates() then Some(Templates()[tag]) else None
  }

  /** The tags whose message quotes the rule's parameter. */
  predicate HasParam(tag: string)
  {
    TemplateOf(tag).Some? && TemplateOf(tag).value.Around?
  }

  /** FormatErrorMessage: the field name, then the tag's text with the
      parameter in its place; "<field> is invalid" for an unlisted tag. */
  function FormatErrorMessage(field: string, err: FieldError): (r: string)
    ensures |r| > |field| && r[..|field|] == field
    ensures TemplateOf(err.tag) == None ==> r == field + " is invalid"
    ensures HasParam(err.tag) ==>
      var k := |field| + |TemplateOf(err.tag).value.before|;
      k + |err.param| <= |r| && r[k..k + |err.param|] == err.param
  {
    match TemplateOf(err.tag)
    case None => field + " is invalid"
    case Some(Fixed(text)) => field + text
    case Some(Around(before, after)) =>
      var r := field + before + err.param + after;
      assert r[|field| + |before|..|field| + |before| + |err.param|] == err.param;
      r
  }

  /** Exactly these fifteen rules quote their parameter. */
  lemma ParamTags(tag: string)
    ensures HasParam(tag) <==>
      tag in ["max", "min", "gte", "lte", "gt", "lt", "len", "oneof", "contains",
              "excludes", "excludesall", "excludesrune", "startswith", "endswith", "datetime"]
  {
  }

  /** The other rules' messages do not depend on the parameter. */
  lemma ParamIgnored(field: string, tag: string, p: string, p': string)
    requires !HasParam(tag)
    ensures FormatErrorMessage(field, FieldError("", tag, p)) == FormatErrorMessage(field, FieldError("", tag, p'))
  {
  }

  /** The message mentions the field it is filed under, never the failing field's Go name. */
  lemma MessageIgnoresGoName(field: string, e: FieldError, goName: string)
    ensures FormatErrorMessage(field, e) == FormatErrorMessage(field, e.(field := goName))
  {
  }

  // ---------------------------------------------------------------------
  // GetJSONFieldMap over a struct tree

  /** A value as reflection sees it: a struct, a pointer, or something else. */
  datatype Value =
    | Struct(fields: seq<StructField>)
    | Pointer(target: Value)
    | NilPointer
    | Other

  /** One struct field: its Go name, its `json` tag, whether it is exported, its value. */
  datatype StructField = StructField(name: string, jsonTag: string, exported: bool, value: Value)

  /** A field left out of the map, and not looked into. */
  predicate Skipped(f: StructField)
  {
    !f.exported || f.jsonTag == "-"
  }

  /** The name a field gets in the map: the tag's text before the first ',',
      or the Go name when there is no tag, after "<parent>." inside a nested struct. */
  function JsonName(f: StructField, parent: string): string
  {
    var base := if f.jsonTag != "" then Split(f.jsonTag, ',')[0] else f.name;
    if parent != "" then parent + "." + base else base
  }

  /** The (Go name, JSON name) pairs in the order extractFields writes them. */
  function Visited(fields: seq<StructField>, parent: string): seq<(string, string)>
    decreases fields
  {
    if |fields| == 0 then []
    else VisitedField(fields[0], parent) + Visited(fields[1..], parent)
  }

  function VisitedField(f: StructField, parent: string): seq<(string, string)>
    decreases f
  {
    if Skipped(f) then []
    else
      var name := JsonName(f, parent);
      [(f.name, name)] + (if f.value.Struct? then Visited(f.value.fields, name) else [])
  }

  /** The map after writing the pairs in order: a later pair for a key overwrites. */
  function Assign(m: map<string, string>, pairs: seq<(string, string)>): (r: map<string, string>)
    decreases |pairs|
  {
    if |pairs| == 0 then m
    else Assign(m, pairs[..|pairs| - 1])[pairs[|pairs| - 1].0 := pairs[|pairs| - 1].1]
  }

  /** The keys after the writes are the old keys and the written ones; a key
      takes the value of its last write, or keeps its old value. */
  lemma {:induction false} AssignContents(m: map<string, string>, pairs: seq<(string, string)>, k: string)
    ensures k in Assign(m, pairs) <==> k in m || exists i :: 0 <= i < |pairs| && pairs[i].0 == k
    ensures (forall i :: 0 <= i < |pairs| ==> pairs[i].0 != k) && k in m ==> Assign(m, pairs)[k] == m[k]
    ensures forall i :: 0 <= i < |pairs| && pairs[i].0 == k && (forall j :: i < j < |pairs| ==> pairs[j].0 != k) ==>
      Assign(m, pairs)[k] == pairs[i].1
    decreases |pairs|
  {
    if |pairs| > 0 {
      var n := |pairs| - 1;
      AssignContents(m, pairs[..n], k);
      assert forall i :: 0 <= i < n ==> pairs[..n][i] == pairs[i];
    }
  }

  lemma {:induction false} AssignAppend(m: map<string, string>, a: seq<(string, string)>, b: seq<(string, string)>)
    ensures Assign(m, a + b) == Assign(Assign(m, a), b)
    decreases |b|
  {
    if |b| == 0 {
      assert a + b == a;
    } else {
      var n := |b| - 1;
      assert (a + b)[..|a + b| - 1] == a + b[..n];
      AssignAppend(m, a, b[..n]);
    }
  }

  /** extractFields: the loop over one struct's fields, recursing into nested structs. */
  method ExtractFields(v: Value, parent: string, fieldMap: map<string, string>)
    returns (r: map<string, string>)
    requires v.Struct?
    ensures r == Assign(fieldMap, Visited(v.fields, parent))
    decreases v
  {
    var fields := v.fields;
    r := fieldMap;
    for i := 0 to |fields|
      invariant r == Assign(fieldMap, Visited(fields[..i], parent))
    {
      var field := fields[i];
      VisitedSnoc(fields, i, parent);
      if !field.exported || field.jsonTag == "-" {
        assert VisitedField(field, parent) == [];
        assert Visited(fields[..i], parent) + [] == Visited(fields[..i], parent);
        continue;
      }
      var jsonFieldName := field.name;
      if field.jsonTag != "" {
        jsonFieldName := Split(field.jsonTag, ',')[0];
      }
      if parent != "" {
        jsonFieldName := parent + "." + jsonFieldName;
      }
      assert jsonFieldName == JsonName(field, parent);
      var nested := if field.value.Struct? then Visited(field.value.fields, jsonFieldName) else [];
      assert VisitedField(field, parent) == [(field.name, jsonFieldName)] + nested;
      AssignAppend(fieldMap, Visited(fields[..i], parent), VisitedField(field, parent));
      AssignAppend(r, [(field.name, jsonFieldName)], nested);
      assert Assign(r, [(field.name, jsonFieldName)]) == r[field.name := jsonFieldName] by {
        assert [(field.name, jsonFieldName)][..0] == [];
      }
      r := r[field.name := jsonFieldName];
      if field.value.Struct? {
        assert field.value < v by {
          assert field == v.fields[i];
        }
        r := ExtractFields(field.value, jsonFieldName, r);
      } else {
        assert Assign(r, []) == r;
      }
    }
    assert fields[..|fields|] == fields;
  }

  lemma VisitedSnoc(fields: seq<StructField>, i: int, parent: string)
    requires 0 <= i < |fields|
    ensures Visited(fields[..i + 1], parent) == Visited(fields[..i], parent) + VisitedField(fields[i], parent)
  {
    VisitedAppend(fields[..i], [fields[i]], parent);
    assert fields[..i] + [fields[i]] == fields[..i + 1];
    assert [fields[i]][1..] == [];
  }

  lemma {:induction false} VisitedAppend(a: seq<StructField>, b: seq<StructField>, parent: string)
    ensures Visited(a + b, parent) == Visited(a, parent) + Visited(b, parent)
    decreases |a|
  {
    if |a| == 0 {
      assert a + b == b;
    } else {
      assert (a + b)[0] == a[0] && (a + b)[1..] == a[1..] + b;
      VisitedAppend(a[1..], b, parent);
    }
  }

  /** GetJSONFieldMap: for a struct, or a pointer to one, the Go field
      names mapped to their JSON names; an empty map for anything else. */
  method GetJSONFieldMap(obj: Value) returns (r: map<string, string>)
    ensures r == FieldMap(obj)
  {
    var val := obj;
    if val.Pointer? {
      val := val.target;
    }
    if !val.Struct? {
      return map[];
    }
    r := ExtractFields(val, "", map[]);
  }

  /** The map GetJSONFieldMap builds. */
  function FieldMap(obj: Value): (r: map<string, string>)
    ensures !obj.Struct? && !(obj.Pointer? && obj.target.Struct?) ==> r == map[]
  {
    var val := if obj.Pointer? then obj.target else obj;
    if val.Struct? then Assign(map[], Visited(val.fields, "")) else map[]
  }

  /** An exported top-level field with a tag "name,options" maps to "name". */
  lemma TaggedName(f: StructField, name: string, options: string)
    requires ',' !in name && f.jsonTag == name + "," + options
    ensures JsonName(f, "") == name
  {
    SplitAtFirst(name, options, ',');
  }

  /** A field inside a nested struct is named after the struct's JSON name. */
  lemma NestedName(f: StructField, parent: string)
    requires parent != "" && f.jsonTag == ""
    ensures JsonName(f, parent) == parent + "." + f.name
  {
  }

  /** A skipped field writes nothing, and nothing below it is visited. */
  lemma SkippedContributesNothing(f: StructField, parent: string)
    requires Skipped(f)
    ensures VisitedField(f, parent) == []
  {
  }

  // ---------------------------------------------------------------------
  // ValidateAndCollectErrors

  /** The key an error is filed under: its JSON name, or its Go name when the map has none. */
  function ErrorKey(fieldMap: map<string, string>, e: FieldError): string
  {
    if e.field in fieldMap then fieldMap[e.field] else e.field
  }

  /** The (key, message) pairs the loop writes, in order, when `format` makes
      the message from the key and the error. */
  function EntriesWith(fieldMap: map<string, string>, errs: seq<FieldError>, format: (string, FieldError) -> string)
    : (ps: seq<(string, string)>)
    ensures |ps| == |errs|
  {
    if |errs| == 0 then []
    else
      var e := errs[|errs| - 1];
      EntriesWith(fieldMap, errs[..|errs| - 1], format) + [(ErrorKey(fieldMap, e), format(ErrorKey(fieldMap, e), e))]
  }

  /** The (key, message) pairs ValidateAndCollectErrors writes, in order. */
  function ErrorEntries(fieldMap: map<string, string>, errs: seq<FieldError>): seq<(string, string)>
  {
    EntriesWith(fieldMap, errs, FormatErrorMessage)
  }

  lemma EntriesSnoc(fieldMap: map<string, string>, errs: seq<FieldError>, i: int, format: (string, FieldError) -> string)
    requires 0 <= i < |errs|
    ensures EntriesWith(fieldMap, errs[..i + 1], format) ==
      EntriesWith(fieldMap, errs[..i], format) + [(ErrorKey(fieldMap, errs[i]), format(ErrorKey(fieldMap, errs[i]), errs[i]))]
  {
    assert errs[..i + 1][..i] == errs[..i];
  }

  lemma AssignSnoc(m: map<string, string>, pairs: seq<(string, string)>, p: (string, string))
    ensures Assign(m, pairs + [p]) == Assign(m, pairs)[p.0 := p.1]
  {
    assert (pairs + [p])[..|pairs|] == pairs;
  }

  /** Entry i is error i's key with the message made for that key. */
  lemma {:induction false} EntriesPointwise(fieldMap: map<string, string>, errs: seq<FieldError>, i: int,
                                            format: (string, FieldError) -> string)
    requires 0 <= i < |errs|
    ensures EntriesWith(fieldMap, errs, format)[i] == (ErrorKey(fieldMap, errs[i]), format(ErrorKey(fieldMap, errs[i]), errs[i]))
    decreases |errs|
  {
    var n := |errs| - 1;
    if i < n {
      EntriesPointwise(fieldMap, errs[..n], i, format);
      assert errs[..n][i] == errs[i];
    }
  }

  /** The caller's error map, which ValidateAndCollectErrors fills in. */
  class ErrorMap {
    var entries: map<string, string>

    constructor (entries: map<string, string>)
      ensures this.entries == entries
    {
      this.entries := entries;
    }
  }

  /** ValidateAndCollectErrors: one entry per error, under the error's key;
      keys no error maps to keep their entries. */
  method ValidateAndCollectErrors(errors: ErrorMap, errs: seq<FieldError>, obj: Value) returns (r: ErrorMap)
    modifies errors
    ensures r == errors
    ensures errors.entries == Assign(old(errors.entries), ErrorEntries(FieldMap(obj), errs))
  {
    var fieldMap := GetJSONFieldMap(obj);
    for i := 0 to |errs|
      invariant errors.entries == Assign(old(errors.entries), ErrorEntries(fieldMap, errs[..i]))
    {
      var err := errs[i];
      var jsonField := err.field;
      if err.field in fieldMap {
        jsonField := fieldMap[err.field];
      }
      var message := FormatErrorMessage(jsonField, err);
      EntriesSnoc(fieldMap, errs, i, FormatErrorMessage);
      AssignSnoc(old(errors.entries), ErrorEntries(fieldMap, errs[..i]), (jsonField, message));
      errors.entries := errors.entries[jsonField := message];
    }
    assert errs[..|errs|] == errs;
    return errors;
  }

  /** After collecting, each error's key holds the message of the last error
      filed under it, and every other key keeps its old entry. */
  lemma Collected(before: map<string, string>, fieldMap: map<string, string>, errs: seq<FieldError>, k: string)
    ensures var after := Assign(before, ErrorEntries(fieldMap, errs));
      && (k in after <==> k in before || exists i :: 0 <= i < |errs| && ErrorKey(fieldMap, errs[i]) == k)
      && ((forall i :: 0 <= i < |errs| ==> ErrorKey(fieldMap, errs[i]) != k) && k in before ==> after[k] == before[k])
      && (forall i :: 0 <= i < |errs| && ErrorKey(fieldMap, errs[i]) == k
                      && (forall j :: i < j < |errs| ==> ErrorKey(fieldMap, errs[j]) != k) ==>
            after[k] == FormatErrorMessage(k, errs[i]))
  {
    CollectedWith(before, fieldMap, errs, k, FormatErrorMessage);
  }

  lemma CollectedWith(before: map<string, string>, fieldMap: map<string, string>, errs: seq<FieldError>, k: string,
                      format: (string, FieldError) -> string)
    ensures var after := Assign(before, EntriesWith(fieldMap, errs, format));
      && (k in after <==> k in before || exists i :: 0 <= i < |errs| && ErrorKey(fieldMap, errs[i]) == k)
      && ((forall i :: 0 <= i < |errs| ==> ErrorKey(fieldMap, errs[i]) != k) && k in before ==> after[k] == before[k])
      && (forall i :: 0 <= i < |errs| && ErrorKey(fieldMap, errs[i]) == k
                      && (forall j :: i < j < |errs| ==> ErrorKey(fieldMap, errs[j]) != k) ==>
            after[k] == format(k, errs[i]))
  {
    var ps := EntriesWith(fieldMap, errs, format);
    AssignContents(before, ps, k);
    forall i | 0 <= i < |errs|
      ensures ps[i] == (ErrorKey(fieldMap, errs[i]), format(ErrorKey(fieldMap, errs[i]), errs[i]))
    {
      EntriesPointwise(fieldMap, errs, i, format);
    }
  }
}

/** cmd/schema.go: compiling a tagged struct type into JSON Schema. */
module SchemaGen {
  import opened Stages
  import opened Text
  import opened Reflect
  import opened JsonSchema

  const INT_MAX := 0x7FFF_FFFF_FFFF_FFFF

  /** strconv.Atoi on a 64-bit platform. */
  function Atoi(s: string): Option<int> {
    var negative := s != "" && s[0] == '-';
    var digits := if s != "" && (s[0] == '-' || s[0] == '+') then s[1..] else s;
    if digits == "" || !AllDigits(digits) then None
    else
      var magnitude: int := Text.Value(digits);
      var n := if negative then -magnitude else magnitude;
      if -INT_MAX - 1 <= n <= INT_MAX then Some(n) else None
  }

  /** What Atoi reads: a decimal number with or without a sign, within 64 bits. */
  lemma AtoiReadsDecimals(s: string, n: nat)
    requires s != "" && Denotes(s, n)
    ensures Atoi(s) == (if n <= 9223372036854775807 then Some(n) else None)
    ensures Atoi("+" + s) == (if n <= 9223372036854775807 then Some(n) else None)
    ensures Atoi("-" + s).Some? <==> n <= 9223372036854775808
    ensures Atoi("-" + s).Some? ==> Atoi("-" + s).value == 0 - n
  {
    hide Text.Value;
    assert ("+" + s)[1..] == s && ("-" + s)[1..] == s;
  }

  /** And nothing else is read: what is left after a sign must be digits. */
  lemma AtoiReadsNothingElse(s: string)
    requires s == "" || (s[0] != '-' && s[0] != '+')
    ensures !AllDigits(s) || s == "" ==> Atoi(s) == None && Atoi("-" + s) == None && Atoi("+" + s) == None
  {
    hide Text.Value;
    assert ("+" + s)[1..] == s && ("-" + s)[1..] == s;
  }

  /** strconv.ParseBool */
  function ParseBool(s: string): Option<bool> {
    if s in ["1", "t", "T", "true", "TRUE", "True"] then Some(true)
    else if s in ["0", "f", "F", "false", "FALSE", "False"] then Some(false)
    else None
  }

  function FieldPath(path: string, name: string): string {
    if path != "" then path + "." + name else name
  }

  // ----- the constraints no single field expresses -----

  const SAVE := "save"
  const ENCRYPT := "encrypt"
  const KEY_FILE := "public_key_file"
  const KEY_STRING := "public_key_string"
  const KEY_FINGERPRINT := "public_key_fingerprint"

  const TwoKeySources: Schema := Anything.(anyOf := [
    Requiring([KEY_FILE, KEY_STRING]),
    Requiring([KEY_FILE, KEY_FINGERPRINT]),
    Requiring([KEY_STRING, KEY_FINGERPRINT])])

  /** schemaOverrides: keyed by the dotted path of the object. */
  function Overridden(path: string, s: Schema): Schema {
    if path == SAVE then s.(minProperties := Some(1))
    else if path == ENCRYPT then s.(negated := Some(TwoKeySources))
    else s
  }

  // ----- compiling -----

  /** Whether a field must be present: the required tag wins over omitempty. None is an
      unparseable tag. */
  function Required(f: Field): Option<bool> {
    if f.required != "" then ParseBool(f.required) else Some(!OmitEmpty(f))
  }

  function Texts(values: seq<string>): seq<Json> {
    seq(|values|, i requires 0 <= i < |values| => JString(values[i]))
  }

  /** applyTags, as one update. */
  function WithTags(s: Schema, f: Field): Schema {
    s.(enum := if f.enum != [] then Some(Texts(f.enum)) else s.enum,
       pattern := if f.pattern != "" then Some(f.pattern) else s.pattern,
       minimum := if f.min != "" && Atoi(f.min).Some? then Atoi(f.min) else s.minimum,
       maximum := if f.max != "" && Atoi(f.max).Some? then Atoi(f.max) else s.maximum,
       default := if f.default == "" then s.default
                  else if s.kind == Some(IntegerType) && Atoi(f.default).Some?
                    then Some(JNumber(Atoi(f.default).value as real))
                  else Some(JString(f.default)))
  }

  method ApplyTags(s: Schema, f: Field) returns (schema: Schema)
    ensures schema == WithTags(s, f)
  {
    hide Atoi;
    schema := s;
    if f.enum != [] {
      var values: seq<Json>, i := [], 0;
      while i < |f.enum|
        invariant 0 <= i <= |f.enum|
        invariant values == Texts(f.enum)[..i]
      {
        values := values + [JString(f.enum[i])];
        i := i + 1;
      }
      assert values == Texts(f.enum);
      schema := schema.(enum := Some(values));
    }
    if f.pattern != "" {
      schema := schema.(pattern := Some(f.pattern));
    }
    if f.min != "" {
      var n := Atoi(f.min);
      if n.Some? {
        schema := schema.(minimum := n);
      }
    }
    if f.max != "" {
      var n := Atoi(f.max);
      if n.Some? {
        schema := schema.(maximum := n);
      }
    }
    if f.default != "" {
      if schema.kind == Some(IntegerType) {
        var n := Atoi(f.default);
        if n.Some? {
          return schema.(default := Some(JNumber(n.value as real)));
        }
      }
      schema := schema.(default := Some(JString(f.default)));
    }
  }

  /** The properties and the required names gathered from the first `n` fields. */
  function FieldSchemas(fields: seq<Field>, path: string, n: nat): Option<(map<string, Schema>, seq<string>)>
    requires n <= |fields|
    decreases fields, n
  {
    if n == 0 then Some((map[], []))
    else
      var front, f := FieldSchemas(fields, path, n - 1), fields[n - 1];
      if front.None? || Skipped(f) then front
      else
        var s := TypeSchema(f.typ, FieldPath(path, Name(f)));
        if s.None? || Required(f).None? then None
        else Some((front.value.0[Name(f) := WithTags(s.value, f)],
                   front.value.1 + if Required(f).value then [Name(f)] else []))
  }

  function ObjectSchema(path: string, properties: map<string, Schema>, required: seq<string>): Schema {
    Overridden(path, Of(ObjectType).(properties := properties, required := required, closed := true))
  }

  function TypeSchema(t: Type, path: string): Option<Schema>
    decreases t, 0
  {
    match t
    case TPointer(elem) => TypeSchema(elem, path)
    case TString => Some(Of(StringType))
    case TInt => Some(Of(IntegerType))
    case TBool => Some(Of(BooleanType))
    case TStruct(fields) =>
      var r := FieldSchemas(fields, path, |fields|);
      if r.None? then None else Some(ObjectSchema(path, r.value.0, r.value.1))
    case TOther => None
  }

  /** structSchema: fills the property map and the required list field by field. */
  method StructSchema(t: Type, path: string) returns (r: Option<Schema>)
    ensures r == if t.TStruct? then TypeSchema(t, path) else None
    decreases t, 1
  {
    hide WithTags, Required, FieldPath, TypeSchema, ObjectSchema;
    if !t.TStruct? {
      return None;
    }
    StructCase(t.fields, path);
    var properties: map<string, Schema>, required: seq<string> := map[], [];
    var i := 0;
    while i < |t.fields|
      invariant 0 <= i <= |t.fields|
      invariant FieldSchemas(t.fields, path, i) == Some((properties, required))
    {
      var f := t.fields[i];
      i := i + 1;
      if Skipped(f) {
        continue;
      }
      var s := FieldSchema(f.typ, FieldPath(path, Name(f)));
      if s.None? {
        FailureStays(t.fields, path, i, |t.fields|);
        return None;
      }
      var tagged := ApplyTags(s.value, f);
      properties := properties[Name(f) := tagged];
      var isRequired := Required(f);
      if isRequired.None? {
        FailureStays(t.fields, path, i, |t.fields|);
        return None;
      }
      assert required + [] == required;
      if isRequired.value {
        required := required + [Name(f)];
      }
    }
    return Some(ObjectSchema(path, properties, required));
  }

  lemma StructCase(fields: seq<Field>, path: string)
    ensures TypeSchema(TStruct(fields), path) ==
            var r := FieldSchemas(fields, path, |fields|);
            if r.None? then None else Some(ObjectSchema(path, r.value.0, r.value.1))
  {
  }

  lemma {:induction false} FailureStays(fields: seq<Field>, path: string, i: nat, n: nat)
    requires i <= n <= |fields| && FieldSchemas(fields, path, i).None?
    ensures FieldSchemas(fields, path, n).None?
    decreases n
  {
    if i < n {
      FailureStays(fields, path, i, n - 1);
    }
  }

  method FieldSchema(t: Type, path: string) returns (r: Option<Schema>)
    ensures r == TypeSchema(t, path)
    decreases t, 2
  {
    match t
    case TPointer(elem) => r := FieldSchema(elem, path);
    case TString => return Some(Of(StringType));
    case TInt => return Some(Of(IntegerType));
    case TBool => return Some(Of(BooleanType));
    case TStruct(_) => r := StructSchema(t, path);
    case TOther => return None;
  }

  // ----- what the type means -----

  /** What the tags of a field say about its value. */
  predicate TagAllows(re: Matcher, f: Field, j: Json) {
    && (f.enum != [] ==> j.JString? && j.s in f.enum)
    && (f.pattern != "" && j.JString? ==> re(f.pattern, j.s))
    && (j.JNumber? && f.min != "" && Atoi(f.min).Some? ==> j.r >= Atoi(f.min).value as real)
    && (j.JNumber? && f.max != "" && Atoi(f.max).Some? ==> j.r <= Atoi(f.max).value as real)
  }

  /** At least one destination, and at most one key source. */
  predicate CrossField(path: string, members: map<string, Json>) {
    && (path == SAVE ==> members != map[])
    && (path == ENCRYPT ==> AtMostOne(KEY_FILE in members, KEY_STRING in members, KEY_FINGERPRINT in members))
  }

  predicate AtMostOne(a: bool, b: bool, c: bool) { !(a && b) && !(a && c) && !(b && c) }

  /** From the tags alone: a field may be missing when its required tag is a false word, or
      when it has none and its yaml tag says omitempty. */
  predicate MayBeAbsent(f: Field) {
    || f.required in ["0", "f", "F", "false", "FALSE", "False"]
    || (f.required == "" && exists i :: 1 <= i < |f.yaml| && f.yaml[i] == "omitempty")
  }

  /** The required tag is absent or a truth value. */
  predicate RequiredTagParses(f: Field) {
    || f.required == ""
    || f.required in ["1", "t", "T", "true", "TRUE", "True", "0", "f", "F", "false", "FALSE", "False"]
  }

  lemma RequiredFromTags(f: Field)
    ensures Required(f).Some? <==> RequiredTagParses(f)
    ensures Required(f).Some? ==> (Required(f) == Some(true) <==> !MayBeAbsent(f))
  {
    TagWords(f.required);
    var options := f.yaml[if f.yaml == [] then 0 else 1..];
    assert f.yaml != [] ==> forall i | 1 <= i < |f.yaml| :: f.yaml[i] == options[i - 1];
    assert OmitEmpty(f) <==> exists i :: 1 <= i < |f.yaml| && f.yaml[i] == "omitempty" by {
      if OmitEmpty(f) {
        var k :| 0 <= k < |options| && options[k] == "omitempty";
        assert f.yaml[k + 1] == "omitempty";
      }
    }
    hide ParseBool, OmitEmpty;
  }

  lemma TagWords(s: string)
    ensures ParseBool(s) == Some(true) <==> s in ["1", "t", "T", "true", "TRUE", "True"]
    ensures ParseBool(s) == Some(false) <==> s in ["0", "f", "F", "false", "FALSE", "False"]
    ensures s == "" ==> ParseBool(s) == None
  {
    assert forall x | x in ["1", "t", "T", "true", "TRUE", "True"] :: x != "" && x[0] in ['1', 't', 'T'];
    assert forall x | x in ["0", "f", "F", "false", "FALSE", "False"] :: x != "" && x[0] in ['0', 'f', 'F'];
  }

  /** A document of the type: the right kind, every required field, no unknown key, and
      every field a document of its own type that its tags allow. */
  predicate Conforms(re: Matcher, t: Type, path: string, j: Json)
    decreases t, 0
  {
    match t
    case TString => j.JString?
    case TInt => j.JNumber? && IsInteger(j.r)
    case TBool => j.JBool?
    case TPointer(elem) => Conforms(re, elem, path, j)
    case TOther => false
    case TStruct(fields) =>
      && j.JObject?
      && (forall name | name in j.members :: IsName(fields, name))
      && FieldsConform(re, fields, path, j.members, |fields|)
      && CrossField(path, j.members)
  }

  predicate IsName(fields: seq<Field>, name: string) {
    exists i :: 0 <= i < |fields| && !Skipped(fields[i]) && Name(fields[i]) == name
  }

  predicate FieldsConform(re: Matcher, fields: seq<Field>, path: string, members: map<string, Json>, n: nat)
    requires n <= |fields|
    decreases fields, n
  {
    n == 0 || (FieldsConform(re, fields, path, members, n - 1) && FieldConforms(re, fields[n - 1], path, members))
  }

  predicate FieldConforms(re: Matcher, f: Field, path: string, members: map<string, Json>)
    decreases f, 0
  {
    Skipped(f) ||
    if Name(f) in members then
      Conforms(re, f.typ, FieldPath(path, Name(f)), members[Name(f)]) && TagAllows(re, f, members[Name(f)])
    else
      MayBeAbsent(f)
  }

  /** Distinct names in every struct of the type. */
  predicate Unambiguous(t: Type) {
    match t
    case TStruct(fields) => DistinctNames(fields) && FieldsUnambiguous(fields, |fields|)
    case TPointer(elem) => Unambiguous(elem)
    case _ => true
  }

  predicate FieldsUnambiguous(fields: seq<Field>, n: nat)
    requires n <= |fields|
    decreases fields, n
  {
    n == 0 || (FieldsUnambiguous(fields, n - 1) && Unambiguous(fields[n - 1].typ))
  }

  // ----- compilation preserves meaning -----

  /** Tags on top of a type's schema restrict it by exactly what they say. */
  lemma TagsRestrict(re: Matcher, s: Schema, f: Field, j: Json)
    requires s.enum.None? && s.pattern.None? && s.minimum.None? && s.maximum.None?
    ensures Accepts(re, WithTags(s, f), j) <==> Accepts(re, s, j) && TagAllows(re, f, j)
  {
    hide Atoi;
    assert f.enum != [] ==> (j in Texts(f.enum) <==> j.JString? && j.s in f.enum) by {
      if j.JString? && j.s in f.enum {
        var i :| 0 <= i < |f.enum| && f.enum[i] == j.s;
        assert Texts(f.enum)[i] == j;
      }
    }
  }

  /** A default is published as a number for an integer and as text otherwise, and nothing
      else about the schema depends on it. */
  lemma DefaultsArePublished(s: Schema, f: Field)
    ensures f.default == "" ==> WithTags(s, f).default == s.default
    ensures f.default != "" && (s.kind != Some(IntegerType) || Atoi(f.default).None?) ==>
              WithTags(s, f).default == Some(JString(f.default))
    ensures f.default != "" && s.kind == Some(IntegerType) && Atoi(f.default).Some? ==>
              WithTags(s, f).default == Some(JNumber(Atoi(f.default).value as real))
  {
  }

  /** The compiled schema of a type carries none of the tag keywords itself. */
  lemma {:induction false} Untagged(t: Type, path: string)
    requires TypeSchema(t, path).Some?
    ensures var s := TypeSchema(t, path).value; s.enum.None? && s.pattern.None? && s.minimum.None? && s.maximum.None?
    decreases t
  {
    if t.TPointer? {
      Untagged(t.elem, path);
    }
  }

  lemma TwoSourcesMeansNotAtMostOne(re: Matcher, members: map<string, Json>)
    ensures Accepts(re, TwoKeySources, JObject(members)) <==>
            !AtMostOne(KEY_FILE in members, KEY_STRING in members, KEY_FINGERPRINT in members)
  {
    var j := JObject(members);
    var any := TwoKeySources.anyOf;
    RequiringTwo(re, KEY_FILE, KEY_STRING, members);
    RequiringTwo(re, KEY_FILE, KEY_FINGERPRINT, members);
    RequiringTwo(re, KEY_STRING, KEY_FINGERPRINT, members);
    assert Accepts(re, TwoKeySources, j) <==>
           Accepts(re, any[0], j) || Accepts(re, any[1], j) || Accepts(re, any[2], j);
  }

  lemma RequiringTwo(re: Matcher, a: string, b: string, members: map<string, Json>)
    ensures Accepts(re, Requiring([a, b]), JObject(members)) <==> a in members && b in members
  {
    assert a in [a, b] && b in [a, b];
  }

  lemma {:induction false} SchemaNames(fields: seq<Field>, path: string, n: nat, name: string)
    requires n <= |fields| && FieldSchemas(fields, path, n).Some?
    ensures var (properties, required) := FieldSchemas(fields, path, n).value;
            && (name in properties <==> exists i :: 0 <= i < n && !Skipped(fields[i]) && Name(fields[i]) == name)
            && (name in required ==> name in properties)
  {
    hide TypeSchema, Required, FieldPath, WithTags;
    if n > 0 {
      SchemaNames(fields, path, n - 1, name);
      var (before, _) := FieldSchemas(fields, path, n - 1).value;
      if name in before {
        var i :| 0 <= i < n - 1 && !Skipped(fields[i]) && Name(fields[i]) == name;
        assert i < n && !Skipped(fields[i]) && Name(fields[i]) == name;
      }
    }
  }

  /** A field without a yaml tag, or with the tag "-", is passed over, whatever its type and
      its other tags are. */
  lemma {:induction false} UntaggedFieldIsPassedOver(fields: seq<Field>, path: string, i: nat, n: nat)
    requires i < n <= |fields| && (fields[i].yaml == [] || fields[i].yaml == ["-"])
    ensures FieldSchemas(fields, path, n) == FieldSchemas(fields[..i] + fields[i + 1..], path, n - 1)
    decreases n
  {
    hide TypeSchema, Required, FieldPath, WithTags;
    var rest := fields[..i] + fields[i + 1..];
    if i < n - 1 {
      UntaggedFieldIsPassedOver(fields, path, i, n - 1);
      assert rest[n - 2] == fields[n - 1];
    } else {
      SamePrefix(fields, rest, path, i);
    }
  }

  lemma {:induction false} SamePrefix(a: seq<Field>, b: seq<Field>, path: string, n: nat)
    requires n <= |a| && n <= |b| && forall i | 0 <= i < n :: a[i] == b[i]
    ensures FieldSchemas(a, path, n) == FieldSchemas(b, path, n)
    decreases n
  {
    hide TypeSchema, Required, FieldPath, WithTags;
    if n > 0 {
      SamePrefix(a, b, path, n - 1);
    }
  }

  /** Any other field has a property under the first word of its tag. */
  lemma TaggedFieldHasProperty(fields: seq<Field>, path: string, i: nat)
    requires i < |fields| && FieldSchemas(fields, path, |fields|).Some?
    requires fields[i].yaml != [] && fields[i].yaml != ["-"]
    ensures fields[i].yaml[0] in FieldSchemas(fields, path, |fields|).value.0
  {
    SchemaNames(fields, path, |fields|, Name(fields[i]));
  }

  /** What is compiled for field `i` stays under its name. */
  lemma {:induction false} SchemaOfField(fields: seq<Field>, path: string, n: nat, i: nat)
    requires i < n <= |fields| && FieldSchemas(fields, path, n).Some?
    requires DistinctNames(fields) && !Skipped(fields[i])
    ensures TypeSchema(fields[i].typ, FieldPath(path, Name(fields[i]))).Some? && Required(fields[i]).Some?
    ensures var (properties, required) := FieldSchemas(fields, path, n).value;
            && Name(fields[i]) in properties
            && properties[Name(fields[i])] ==
               WithTags(TypeSchema(fields[i].typ, FieldPath(path, Name(fields[i]))).value, fields[i])
            && (Name(fields[i]) in required <==> Required(fields[i]) == Some(true))
    decreases n
  {
    hide TypeSchema, Required, FieldPath, WithTags;
    if i < n - 1 {
      SchemaOfField(fields, path, n - 1, i);
    } else {
      SchemaNames(fields, path, n - 1, Name(fields[i]));
    }
  }

  lemma {:induction false} ConformAt(re: Matcher, fields: seq<Field>, path: string, members: map<string, Json>, n: nat)
    requires n <= |fields|
    ensures FieldsConform(re, fields, path, members, n) <==>
            forall i | 0 <= i < n :: FieldConforms(re, fields[i], path, members)
  {
    hide FieldConforms;
    if n > 0 {
      ConformAt(re, fields, path, members, n - 1);
    }
  }

  lemma {:induction false} UnambiguousAt(fields: seq<Field>, n: nat, i: nat)
    requires i < n <= |fields| && FieldsUnambiguous(fields, n)
    ensures Unambiguous(fields[i].typ)
  {
    if i < n - 1 {
      UnambiguousAt(fields, n - 1, i);
    }
  }

  /** The object schema, keyword by keyword, for an object instance. */
  lemma ObjectAccepts(
    re: Matcher, path: string, properties: map<string, Schema>, required: seq<string>, members: map<string, Json>)
    ensures Accepts(re, ObjectSchema(path, properties, required), JObject(members)) <==>
            && (forall name | name in required :: name in members)
            && (forall name | name in members && name in properties :: Accepts(re, properties[name], members[name]))
            && (forall name | name in members :: name in properties)
            && CrossField(path, members)
  {
    TwoSourcesMeansNotAtMostOne(re, members);
    assert SAVE != ENCRYPT;
    assert members != map[] <==> |members| >= 1;
    hide TwoKeySources, AtMostOne;
  }

  lemma {:induction false} CompiledMeans(re: Matcher, t: Type, path: string, j: Json)
    requires Unambiguous(t) && TypeSchema(t, path).Some?
    ensures Accepts(re, TypeSchema(t, path).value, j) <==> Conforms(re, t, path, j)
    decreases t, 1
  {
    match t
    case TPointer(elem) => CompiledMeans(re, elem, path, j);
    case TStruct(fields) =>
      if j.JObject? {
        StructMeans(re, fields, path, j.members);
      }
    case _ =>
  }

  lemma {:induction false} StructMeans(re: Matcher, fields: seq<Field>, path: string, members: map<string, Json>)
    requires DistinctNames(fields) && FieldsUnambiguous(fields, |fields|)
    requires FieldSchemas(fields, path, |fields|).Some?
    ensures var (properties, required) := FieldSchemas(fields, path, |fields|).value;
            Accepts(re, ObjectSchema(path, properties, required), JObject(members)) <==>
            && (forall name | name in members :: IsName(fields, name))
            && FieldsConform(re, fields, path, members, |fields|)
            && CrossField(path, members)
    decreases fields, 1
  {
    hide Accepts, Conforms, CrossField, FieldPath, TypeSchema, WithTags, Required, TagAllows, Unambiguous,
         ObjectSchema, FieldSchemas, MayBeAbsent;
    var (properties, required) := FieldSchemas(fields, path, |fields|).value;
    ObjectAccepts(re, path, properties, required, members);
    ConformAt(re, fields, path, members, |fields|);
    forall i | 0 <= i < |fields| && !Skipped(fields[i])
      ensures Name(fields[i]) in properties
      ensures Name(fields[i]) in required <==> !MayBeAbsent(fields[i])
      ensures Name(fields[i]) in members ==>
                (Accepts(re, properties[Name(fields[i])], members[Name(fields[i])]) <==>
                   FieldConforms(re, fields[i], path, members))
    {
      SchemaOfField(fields, path, |fields|, i);
      RequiredFromTags(fields[i]);
      FieldMeans(re, fields, path, members, i);
    }
    forall name: string
      ensures name in properties <==> IsName(fields, name)
      ensures name in required ==> name in properties
    {
      SchemaNames(fields, path, |fields|, name);
    }
  }

  lemma {:induction false} FieldMeans(re: Matcher, fields: seq<Field>, path: string, members: map<string, Json>, i: nat)
    requires i < |fields| && !Skipped(fields[i]) && DistinctNames(fields) && FieldsUnambiguous(fields, |fields|)
    requires TypeSchema(fields[i].typ, FieldPath(path, Name(fields[i]))).Some?
    ensures Name(fields[i]) in members ==>
              (Accepts(re, WithTags(TypeSchema(fields[i].typ, FieldPath(path, Name(fields[i]))).value, fields[i]),
                 members[Name(fields[i])])
               <==> FieldConforms(re, fields[i], path, members))
    decreases fields, 0
  {
    hide Accepts, TypeSchema, WithTags, TagAllows, Unambiguous, FieldPath;
    if Name(fields[i]) in members {
      var f, p, j := fields[i], FieldPath(path, Name(fields[i])), members[Name(fields[i])];
      assert f.typ < f;
      UnambiguousAt(fields, |fields|, i);
      CompiledMeans(re, f.typ, p, j);
      Untagged(f.typ, p);
      TagsRestrict(re, TypeSchema(f.typ, p).value, f, j);
    }
  }

  // ----- when compilation succeeds -----

  /** Supported kinds and parseable required tags throughout. */
  predicate Supported(t: Type) {
    match t
    case TStruct(fields) => FieldsSupported(fields, |fields|)
    case TPointer(elem) => Supported(elem)
    case TOther => false
    case _ => true
  }

  predicate FieldsSupported(fields: seq<Field>, n: nat)
    requires n <= |fields|
    decreases fields, n
  {
    n == 0 ||
    (FieldsSupported(fields, n - 1) &&
     (Skipped(fields[n - 1]) || (Supported(fields[n - 1].typ) && RequiredTagParses(fields[n - 1]))))
  }

  lemma {:induction false} CompilesIffSupported(t: Type, path: string)
    ensures TypeSchema(t, path).Some? <==> Supported(t)
    decreases t, 1
  {
    match t
    case TPointer(elem) => CompilesIffSupported(elem, path);
    case TStruct(fields) => FieldsCompileIffSupported(fields, path, |fields|);
    case _ =>
  }

  lemma {:induction false} FieldsCompileIffSupported(fields: seq<Field>, path: string, n: nat)
    requires n <= |fields|
    ensures FieldSchemas(fields, path, n).Some? <==> FieldsSupported(fields, n)
    decreases fields, n
  {
    if n > 0 {
      FieldsCompileIffSupported(fields, path, n - 1);
      assert fields[n - 1].typ < fields[n - 1];
      RequiredFromTags(fields[n - 1]);
      CompilesIffSupported(fields[n - 1].typ, FieldPath(path, Name(fields[n - 1])));
    }
  }

  /** For every struct type with distinct names, supported kinds and parseable tags, the
      compiled schema accepts a document exactly when it is a document of the type. */
  lemma SchemaPreservesMeaning(re: Matcher, t: Type, path: string, j: Json)
    requires Unambiguous(t) && Supported(t)
    ensures TypeSchema(t, path).Some?
    ensures Accepts(re, TypeSchema(t, path).value, j) <==> Conforms(re, t, path, j)
  {
    CompilesIffSupported(t, path);
    CompiledMeans(re, t, path, j);
  }
}

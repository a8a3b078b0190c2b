/** The generated config schema against the printed configs: cmd/schema.go meets
    cmd/configfile.go. */
module ConfigSchema {
  import opened Stages
  import opened Reflect
  import opened JsonSchema
  import opened SchemaGen
  import opened ConfigFiles
  import opened Envelopes

  // ----- documents as JSON instances -----

  function ToJson(n: Node): Json
    decreases n, 0
  {
    match n
    case NNull => JNull
    case NString(s) => JString(s)
    case NInt(i) => JNumber(i as real)
    case NBool(b) => JBool(b)
    case NMap(entries) => JObject(ToMembers(entries, |entries|))
  }

  function ToMembers(entries: seq<(string, Node)>, n: nat): map<string, Json>
    requires n <= |entries|
    decreases entries, n
  {
    if n == 0 then map[]
    else
      var e := entries[n - 1];
      assert e.1 < e;
      ToMembers(entries, n - 1)[e.0 := ToJson(e.1)]
  }

  lemma {:induction false} MembersPrefix(a: seq<(string, Node)>, b: seq<(string, Node)>, n: nat)
    requires n <= |a| && n <= |b| && a[..n] == b[..n]
    ensures ToMembers(a, n) == ToMembers(b, n)
  {
    if n > 0 {
      assert a[..n - 1] == a[..n][..n - 1] && b[..n - 1] == b[..n][..n - 1];
      assert a[n - 1] == a[..n][n - 1] == b[..n][n - 1];
      MembersPrefix(a, b, n - 1);
    }
  }

  /** A member is there exactly when its key is found, with the value found last. */
  lemma {:induction false} MembersAreLookups(entries: seq<(string, Node)>, key: string)
    ensures key in ToMembers(entries, |entries|) <==> Lookup(entries, key).Some?
    ensures Lookup(entries, key).Some? ==> ToMembers(entries, |entries|)[key] == ToJson(Lookup(entries, key).value)
    decreases |entries|
  {
    hide ToJson;
    if entries != [] {
      var front := entries[..|entries| - 1];
      MembersAreLookups(front, key);
      MembersPrefix(entries, front, |front|);
    }
  }

  // ----- GenerateConfigSchema -----

  const VersionSchema: Schema := Of(IntegerType).(enum := Some([JNumber(LATEST_CONFIG_VERSION as real)]))

  method GenerateConfigSchema() returns (schema: Option<Schema>)
    ensures schema == TypeSchemaWithVersion()
  {
    var cfg := StructSchema(ConfigV1Type, "");
    if cfg.None? {
      return None;
    }
    var properties := cfg.value.properties[VERSION := VersionSchema];
    var required := [VERSION] + cfg.value.required;
    return Some(cfg.value.(properties := properties, required := required));
  }

  function TypeSchemaWithVersion(): Option<Schema> {
    var cfg := TypeSchema(ConfigV1Type, "");
    if cfg.None? then None
    else Some(cfg.value.(properties := cfg.value.properties[VERSION := VersionSchema],
                         required := [VERSION] + cfg.value.required))
  }

  /** A struct without required tags is supported when its field types are. */
  lemma Untagged(fields: seq<Field>)
    requires forall i | 0 <= i < |fields| ::
            fields[i].required == "" && Supported(fields[i].typ) && Unambiguous(fields[i].typ)
    requires DistinctNames(fields)
    ensures Supported(TStruct(fields)) && Unambiguous(TStruct(fields))
  {
    hide Supported, Unambiguous, ParseBool, OmitEmpty;
    SupportedFromEach(fields, |fields|);
    StructSupported(fields);
  }

  lemma StructSupported(fields: seq<Field>)
    requires FieldsSupported(fields, |fields|) && FieldsUnambiguous(fields, |fields|) && DistinctNames(fields)
    ensures Supported(TStruct(fields)) && Unambiguous(TStruct(fields))
  {
  }

  lemma LoginSupported()
    ensures Supported(TStruct(LoginFields)) && Unambiguous(TStruct(LoginFields))
  {
    IMAPRegular();
    Untagged(IMAPFields);
    assert ParseBool("true") == Some(true);
    var t := LoginFields[0].typ;
    assert Supported(t) && Unambiguous(t);
    SupportedFromEach(LoginFields, 1);
    StructSupported(LoginFields);
  }

  lemma EncryptSupported()
    ensures Supported(TPointer(TStruct(EncryptFields))) && Unambiguous(TPointer(TStruct(EncryptFields)))
  {
    EncryptRegular();
    Untagged(EncryptFields);
  }

  lemma SaveSupported()
    ensures Supported(TStruct(SaveFields)) && Unambiguous(TStruct(SaveFields))
  {
    S3Regular();
    Untagged(S3Fields);
    Untagged(LocalFields);
    Untagged(TarFields);
    SaveRegular();
    PointersSupported();
    Untagged(SaveFields);
  }

  lemma PointersSupported()
    requires forall fields | fields == LocalFields || fields == S3Fields || fields == TarFields ::
               Supported(TStruct(fields)) && Unambiguous(TStruct(fields))
    ensures forall i | 0 <= i < |SaveFields| :: Supported(SaveFields[i].typ) && Unambiguous(SaveFields[i].typ)
  {
  }

  /** The version 1 type compiles. */
  lemma ConfigSupported()
    ensures Supported(ConfigV1Type) && Unambiguous(ConfigV1Type)
  {
    LoginSupported();
    EncryptSupported();
    SaveSupported();
    ConfigRegular();
    hide Supported, Unambiguous;
    Untagged(ConfigFields);
  }

  lemma {:induction false} SupportedFromEach(fields: seq<Field>, n: nat)
    requires n <= |fields|
    requires forall i | 0 <= i < n ::
            Supported(fields[i].typ) && RequiredTagParses(fields[i]) && Unambiguous(fields[i].typ)
    ensures FieldsSupported(fields, n) && FieldsUnambiguous(fields, n)
  {
    hide Supported, RequiredTagParses, Unambiguous;
    if n > 0 {
      SupportedFromEach(fields, n - 1);
    }
  }

  /** The generated schema accepts a document exactly when its version is 1 and the rest
      is a document of the version 1 type. */
  lemma GeneratedMeans(re: Matcher, j: Json)
    ensures TypeSchemaWithVersion().Some?
    ensures Accepts(re, TypeSchemaWithVersion().value, j) <==>
            && j.JObject? && VERSION in j.members && j.members[VERSION] == JNumber(1.0)
            && Conforms(re, ConfigV1Type, "", JObject(j.members - {VERSION}))
  {
    hide Accepts, Conforms, FieldSchemas, Supported, Unambiguous, CrossField;
    ConfigSupported();
    CompilesIffSupported(ConfigV1Type, "");
    var (properties, required) := FieldSchemas(ConfigFields, "", |ConfigFields|).value;
    var more, names := properties[VERSION := VersionSchema], [VERSION] + required;
    assert TypeSchemaWithVersion().value == ObjectSchema("", more, names);
    if j.JObject? {
      var rest := j.members - {VERSION};
      ObjectAccepts(re, "", more, names, j.members);
      ObjectAccepts(re, "", properties, required, rest);
      CompiledMeans(re, ConfigV1Type, "", JObject(rest));
      assert TypeSchema(ConfigV1Type, "").value == ObjectSchema("", properties, required);
      VersionIsForeign(properties, required);
      if VERSION in j.members {
        VersionAccepted(re, j.members[VERSION]);
      }
      NoCrossField(j.members, rest);
      WithVersion(re, properties, required, j.members);
    } else {
      NotAnObject(re, more, names, j);
    }
  }

  lemma NoCrossField(a: map<string, Json>, b: map<string, Json>)
    ensures CrossField("", a) && CrossField("", b)
  {
  }

  lemma NotAnObject(re: Matcher, properties: map<string, Schema>, required: seq<string>, j: Json)
    requires !j.JObject?
    ensures !Accepts(re, ObjectSchema("", properties, required), j)
  {
  }

  lemma VersionAccepted(re: Matcher, j: Json)
    ensures Accepts(re, VersionSchema, j) <==> j == JNumber(1.0)
  {
    assert j in [JNumber(LATEST_CONFIG_VERSION as real)] <==> j == JNumber(1.0);
  }

  lemma VersionIsForeign(properties: map<string, Schema>, required: seq<string>)
    requires FieldSchemas(ConfigFields, "", |ConfigFields|) == Some((properties, required))
    ensures VERSION !in properties && VERSION !in required
  {
    hide FieldSchemas;
    NoVersionField();
    SchemaNames(ConfigFields, "", |ConfigFields|, VERSION);
  }

  /** Adding a required property to a closed object schema. */
  lemma WithVersion(re: Matcher, properties: map<string, Schema>, required: seq<string>, members: map<string, Json>)
    requires VERSION !in properties && VERSION !in required
    ensures var more, names, rest := properties[VERSION := VersionSchema], [VERSION] + required, members - {VERSION};
            ((forall name | name in names :: name in members)
             && (forall name | name in members && name in more :: Accepts(re, more[name], members[name]))
             && (forall name | name in members :: name in more))
            <==>
            && VERSION in members && Accepts(re, VersionSchema, members[VERSION])
            && (forall name | name in required :: name in rest)
            && (forall name | name in rest && name in properties :: Accepts(re, properties[name], rest[name]))
            && (forall name | name in rest :: name in properties)
  {
    hide Accepts;
    var more, names, rest := properties[VERSION := VersionSchema], [VERSION] + required, members - {VERSION};
    if (forall name | name in names :: name in members) {
      assert VERSION in names;
      forall name | name in required ensures name in rest {
        assert name in names;
      }
    }
    if VERSION in members && forall name | name in required :: name in rest {
      forall name | name in names ensures name in members {
      }
    }
  }

  // ----- what a printed struct looks like to the schema -----

  predicate PrintedFieldOk(re: Matcher, f: Field, path: string, v: Value)
    requires HasType(f.typ, v)
  {
    Skipped(f) ||
    if Printed(f, v) then
      var j := ToJson(Encode(f.typ, v));
      Conforms(re, f.typ, FieldPath(path, Name(f)), j) && TagAllows(re, f, j)
    else MayBeAbsent(f)
  }

  function MembersOf(fields: seq<Field>, vs: seq<Value>): map<string, Json>
    requires |vs| == |fields| && FieldsHaveType(fields, vs, |fields|)
  {
    var entries := EncodeFields(fields, vs, |fields|);
    ToMembers(entries, |entries|)
  }

  /** A printed struct conforms exactly when each of its fields does and its members
      pass the cross-field rules; a name is a member exactly when its field is printed. */
  lemma PrintedStruct(re: Matcher, fields: seq<Field>, path: string, vs: seq<Value>)
    requires |vs| == |fields| && FieldsHaveType(fields, vs, |fields|) && DistinctNames(fields)
    ensures forall i | 0 <= i < |fields| :: HasType(fields[i].typ, vs[i])
    ensures forall i | 0 <= i < |fields| && !Skipped(fields[i]) ::
            Name(fields[i]) in MembersOf(fields, vs) <==> Printed(fields[i], vs[i])
    ensures Conforms(re, TStruct(fields), path, JObject(MembersOf(fields, vs))) <==>
            (forall i | 0 <= i < |fields| ::
               PrintedFieldOk(re, fields[i], path, vs[i])) && CrossField(path, MembersOf(fields, vs))
  {
    hide HasType, Encode, EncodeFields, ToMembers, ToJson, FieldPath, TagAllows, CrossField, IsZero, MayBeAbsent,
         FieldsConform;
    var members, entries := MembersOf(fields, vs), EncodeFields(fields, vs, |fields|);
    EncodedKeys(fields, vs, |fields|);
    forall i | 0 <= i < |fields|
      ensures HasType(fields[i].typ, vs[i])
      ensures !Skipped(fields[i]) ==> (Name(fields[i]) in members <==> Printed(fields[i], vs[i]))
      ensures FieldConforms(re, fields[i], path, members) <==> PrintedFieldOk(re, fields[i], path, vs[i])
    {
      FieldAt(fields, vs, |fields|, i);
      if !Skipped(fields[i]) {
        EncodedLookup(fields, vs, |fields|, i);
        MembersAreLookups(entries, Name(fields[i]));
      }
    }
    forall name | name in members ensures IsName(fields, name) {
      MembersAreLookups(entries, name);
      FoundIsKey(entries, name);
    }
    ConformAt(re, fields, path, members, |fields|);
  }

  lemma {:induction false} FoundIsKey(entries: seq<(string, Node)>, key: string)
    requires Lookup(entries, key).Some?
    ensures exists k :: 0 <= k < |entries| && entries[k].0 == key
    decreases |entries|
  {
    if entries[|entries| - 1].0 != key {
      FoundIsKey(entries[..|entries| - 1], key);
      var k :| 0 <= k < |entries| - 1 && entries[..|entries| - 1][k].0 == key;
      assert entries[k].0 == key;
    }
  }

  lemma StructAsJson(fields: seq<Field>, vs: seq<Value>)
    requires HasType(TStruct(fields), VStruct(vs))
    ensures ToJson(Encode(TStruct(fields), VStruct(vs))) == JObject(MembersOf(fields, vs))
  {
  }
}

/** The documents config.schema.json accepts, key by key: the grammar of the config file
    written out without the struct tags it is generated from. */
module ConfigDocuments {
  import opened Stages
  import opened Reflect
  import opened JsonSchema
  import opened SchemaGen
  import opened ConfigFiles
  import opened Envelopes
  import opened ConfigSchema
  import opened Agreement
  import Text

  // ----- the grammar -----

  type Members = map<string, Json>

  predicate KeysAmong(m: Members, keys: seq<string>) { forall key | key in m :: key in keys }

  predicate HasText(m: Members, key: string) { key in m && m[key].JString? }
  predicate MayHaveText(m: Members, key: string) { key in m ==> m[key].JString? }
  predicate MayHaveBool(m: Members, key: string) { key in m ==> m[key].JBool? }

  predicate IsWhole(j: Json, n: int) { j == JNumber(n as real) }

  /** A whole number between the bounds. */
  ghost predicate HasNumber(m: Members, key: string, lo: int, hi: int) {
    key in m && exists n: int :: lo <= n <= hi && IsWhole(m[key], n)
  }

  const IMAPKeys := ["host", "port", "username", "password", "tls", "ca_cert_file", "ignore_server_cert", "mailbox"]
  const EncryptKeys := ["public_key_file", "public_key_string", "public_key_fingerprint", "public_key_server"]
  const S3Keys := ["bucket", "region", "access_key_id", "secret_access_key", "endpoint", "prefix"]

  ghost predicate IsIMAP(j: Json) {
    && j.JObject?
    && var m := j.members;
    && KeysAmong(m, IMAPKeys)
    && HasText(m, "host") && HasNumber(m, "port", 0, 65535) && HasText(m, "username") && HasText(m, "password")
    && ("tls" in m ==> m["tls"] in [JString("STARTTLS"), JString("SSL"), JString("NONE")])
    && MayHaveText(m, "ca_cert_file") && MayHaveBool(m, "ignore_server_cert") && MayHaveText(m, "mailbox")
  }

  ghost predicate IsLogin(j: Json) {
    j.JObject? && KeysAmong(j.members, ["imap"]) && "imap" in j.members && IsIMAP(j.members["imap"])
  }

  predicate IsEncrypt(re: Matcher, j: Json) {
    && j.JObject?
    && var m := j.members;
    && KeysAmong(m, EncryptKeys)
    && MayHaveText(m, "public_key_file") && MayHaveText(m, "public_key_string")
    && MayHaveText(m, "public_key_fingerprint") && MayHaveText(m, "public_key_server")
    && ("public_key_fingerprint" in m ==> re("^[0-9A-Fa-f ]{40,}$", m["public_key_fingerprint"].s))
    && !("public_key_file" in m && "public_key_string" in m)
    && !("public_key_file" in m && "public_key_fingerprint" in m)
    && !("public_key_string" in m && "public_key_fingerprint" in m)
  }

  predicate IsLocal(j: Json) {
    j.JObject? && KeysAmong(j.members, ["directory"]) && HasText(j.members, "directory")
  }

  predicate IsS3(j: Json) {
    && j.JObject?
    && var m := j.members;
    && KeysAmong(m, S3Keys)
    && HasText(m, "bucket") && MayHaveText(m, "region") && MayHaveText(m, "access_key_id")
    && MayHaveText(m, "secret_access_key") && MayHaveText(m, "endpoint") && MayHaveText(m, "prefix")
  }

  predicate IsTar(j: Json) {
    j.JObject? && KeysAmong(j.members, ["path"]) && HasText(j.members, "path")
  }

  predicate IsSave(j: Json) {
    && j.JObject?
    && var m := j.members;
    && KeysAmong(m, ["local", "s3", "tar"]) && ("local" in m || "s3" in m || "tar" in m)
    && ("local" in m ==> IsLocal(m["local"])) && ("s3" in m ==> IsS3(m["s3"])) && ("tar" in m ==> IsTar(m["tar"]))
  }

  /** A config file: version 1, a login and a destination, and perhaps encryption. */
  ghost predicate IsConfig(re: Matcher, j: Json) {
    && j.JObject?
    && var m := j.members;
    && KeysAmong(m, ["version", "login", "encrypt", "save"])
    && "version" in m && m["version"] == JNumber(1.0)
    && "login" in m && IsLogin(m["login"])
    && ("encrypt" in m ==> IsEncrypt(re, m["encrypt"]))
    && "save" in m && IsSave(m["save"])
  }

  // ----- one struct at a time -----

  /** `keys` are the names of the fields. */
  predicate Names(fields: seq<Field>, keys: seq<string>) {
    |fields| == |keys| && forall i | 0 <= i < |fields| :: !Skipped(fields[i]) && Name(fields[i]) == keys[i]
  }

  lemma StructMembers(re: Matcher, fields: seq<Field>, keys: seq<string>, path: string, members: Members)
    requires Names(fields, keys)
    ensures Conforms(re, TStruct(fields), path, JObject(members)) <==>
            && KeysAmong(members, keys)
            && (forall i | 0 <= i < |fields| :: FieldConforms(re, fields[i], path, members))
            && CrossField(path, members)
  {
    hide FieldConforms, CrossField, FieldsConform;
    ConformAt(re, fields, path, members, |fields|);
    forall name: string ensures IsName(fields, name) <==> name in keys {
      if name in keys {
        var i :| 0 <= i < |keys| && keys[i] == name;
        assert Name(fields[i]) == name;
      }
    }
  }

  lemma PlainField(re: Matcher, t: Type, name: string, path: string, members: Members)
    requires name != "-"
    ensures FieldConforms(re, Plain(t, name), path, members) <==>
            name in members && Conforms(re, t, FieldPath(path, name), members[name])
  {
    hide Conforms;
  }

  lemma OptionalField(re: Matcher, t: Type, name: string, path: string, members: Members)
    requires name != "-"
    ensures FieldConforms(re, Optional(t, name), path, members) <==>
            (name in members ==> Conforms(re, t, FieldPath(path, name), members[name]))
  {
    hide Conforms;
    assert Optional(t, name).yaml[1] == "omitempty";
  }

  lemma PortField(re: Matcher, path: string, members: Members)
    ensures FieldConforms(re, IMAPFields[1], path, members) <==> HasNumber(members, "port", 0, 65535)
  {
    hide Atoi;
    PortBounds();
    if "port" in members && members["port"].JNumber? && IsInteger(members["port"].r) {
      var n := members["port"].r.Floor;
      assert IsWhole(members["port"], n);
    }
  }

  lemma TLSField(re: Matcher, path: string, members: Members)
    ensures FieldConforms(re, IMAPFields[4], path, members) <==>
            ("tls" in members ==> members["tls"] in [JString("STARTTLS"), JString("SSL"), JString("NONE")])
  {
    assert IMAPFields[4].yaml[1] == "omitempty";
  }

  lemma FingerprintField(re: Matcher, path: string, members: Members)
    ensures FieldConforms(re, EncryptFields[2], path, members) <==>
            ("public_key_fingerprint" in members ==>
               members["public_key_fingerprint"].JString? &&
               re("^[0-9A-Fa-f ]{40,}$", members["public_key_fingerprint"].s))
  {
    assert EncryptFields[2].yaml[1] == "omitempty";
  }

  lemma ServerField(re: Matcher, path: string, members: Members)
    ensures FieldConforms(re, EncryptFields[3], path, members) <==> MayHaveText(members, "public_key_server")
  {
    assert EncryptFields[3].yaml[1] == "omitempty";
  }

  lemma IMAPNames()
    ensures Names(IMAPFields, IMAPKeys)
  {
  }

  lemma IMAPFieldsMean(re: Matcher, path: string, m: Members)
    ensures var f := IMAPFields;
            && |f| == 8
            && (FieldConforms(re, f[0], path, m) <==> HasText(m, "host"))
            && (FieldConforms(re, f[1], path, m) <==> HasNumber(m, "port", 0, 65535))
            && (FieldConforms(re, f[2], path, m) <==> HasText(m, "username"))
            && (FieldConforms(re, f[3], path, m) <==> HasText(m, "password"))
            && (FieldConforms(re, f[4], path, m) <==>
                  ("tls" in m ==> m["tls"] in [JString("STARTTLS"), JString("SSL"), JString("NONE")]))
            && (FieldConforms(re, f[5], path, m) <==> MayHaveText(m, "ca_cert_file"))
            && (FieldConforms(re, f[6], path, m) <==> MayHaveBool(m, "ignore_server_cert"))
            && (FieldConforms(re, f[7], path, m) <==> MayHaveText(m, "mailbox"))
  {
    hide FieldConforms;
    PlainField(re, TString, "host", path, m);
    PortField(re, path, m);
    PlainField(re, TString, "username", path, m);
    PlainField(re, TString, "password", path, m);
    TLSField(re, path, m);
    OptionalField(re, TString, "ca_cert_file", path, m);
    OptionalField(re, TBool, "ignore_server_cert", path, m);
    OptionalField(re, TString, "mailbox", path, m);
  }

  lemma EachOfEight(re: Matcher, f: seq<Field>, path: string, m: Members)
    requires |f| == 8
    ensures (forall i | 0 <= i < |f| :: FieldConforms(re, f[i], path, m)) <==>
            && FieldConforms(re, f[0], path, m) && FieldConforms(re, f[1], path, m) && FieldConforms(re, f[2], path, m)
            && FieldConforms(re, f[3], path, m) && FieldConforms(re, f[4], path, m) && FieldConforms(re, f[5], path, m)
            && FieldConforms(re, f[6], path, m) && FieldConforms(re, f[7], path, m)
  {
    hide FieldConforms;
  }

  lemma IMAPMembersMean(re: Matcher, path: string, m: Members)
    requires OrdinaryPath(path)
    ensures Conforms(re, TStruct(IMAPFields), path, JObject(m)) <==> IsIMAP(JObject(m))
  {
    IMAPNames();
    IMAPFieldsMean(re, path, m);
    hide FieldConforms, Conforms, IMAPFields, IMAPKeys, HasText, HasNumber, MayHaveText, MayHaveBool, Names, KeysAmong;
    EachOfEight(re, IMAPFields, path, m);
    StructMembers(re, IMAPFields, IMAPKeys, path, m);
  }

  lemma IMAPMeans(re: Matcher, path: string, j: Json)
    requires OrdinaryPath(path)
    ensures Conforms(re, TStruct(IMAPFields), path, j) <==> IsIMAP(j)
  {
    if j.JObject? {
      IMAPMembersMean(re, path, j.members);
    }
  }

  lemma LoginMeans(re: Matcher, j: Json)
    ensures Conforms(re, TStruct(LoginFields), "login", j) <==> IsLogin(j)
  {
    hide FieldConforms, IsIMAP;
    if j.JObject? {
      var m := j.members;
      StructMembers(re, LoginFields, ["imap"], "login", m);
      LoginField(re, m);
    }
  }

  lemma LoginField(re: Matcher, m: Members)
    ensures FieldConforms(re, LoginFields[0], "login", m) <==> "imap" in m && IsIMAP(m["imap"])
  {
    hide IsIMAP;
    assert FieldPath("login", "imap") == "login.imap";
    if "imap" in m {
      IMAPMeans(re, "login.imap", m["imap"]);
    }
  }

  lemma EncryptNames()
    ensures Names(EncryptFields, EncryptKeys)
  {
  }

  lemma EncryptFieldsMean(re: Matcher, path: string, m: Members)
    ensures var f := EncryptFields;
            && |f| == 4
            && (FieldConforms(re, f[0], path, m) <==> MayHaveText(m, "public_key_file"))
            && (FieldConforms(re, f[1], path, m) <==> MayHaveText(m, "public_key_string"))
            && (FieldConforms(re, f[2], path, m) <==>
                  ("public_key_fingerprint" in m ==>
                     m["public_key_fingerprint"].JString? &&
                     re("^[0-9A-Fa-f ]{40,}$", m["public_key_fingerprint"].s)))
            && (FieldConforms(re, f[3], path, m) <==> MayHaveText(m, "public_key_server"))
  {
    hide FieldConforms;
    OptionalField(re, TString, "public_key_file", path, m);
    OptionalField(re, TString, "public_key_string", path, m);
    FingerprintField(re, path, m);
    ServerField(re, path, m);
  }

  lemma KeySourceRule(m: Members)
    ensures CrossField("encrypt", m) <==>
            && !("public_key_file" in m && "public_key_string" in m)
            && !("public_key_file" in m && "public_key_fingerprint" in m)
            && !("public_key_string" in m && "public_key_fingerprint" in m)
  {
    assert SAVE != ENCRYPT;
  }

  lemma EncryptMeans(re: Matcher, j: Json)
    ensures Conforms(re, TStruct(EncryptFields), "encrypt", j) <==> IsEncrypt(re, j)
  {
    EncryptNames();
    if j.JObject? {
      EncryptFieldsMean(re, "encrypt", j.members);
      KeySourceRule(j.members);
      hide FieldConforms, Conforms, CrossField, EncryptFields, EncryptKeys, Names, KeysAmong;
      StructMembers(re, EncryptFields, EncryptKeys, "encrypt", j.members);
    }
  }

  lemma LocalMeans(re: Matcher, path: string, j: Json)
    requires OrdinaryPath(path)
    ensures Conforms(re, TStruct(LocalFields), path, j) <==> IsLocal(j)
  {
    hide FieldConforms;
    if j.JObject? {
      StructMembers(re, LocalFields, ["directory"], path, j.members);
      PlainField(re, TString, "directory", path, j.members);
    }
  }

  lemma TarMeans(re: Matcher, path: string, j: Json)
    requires OrdinaryPath(path)
    ensures Conforms(re, TStruct(TarFields), path, j) <==> IsTar(j)
  {
    hide FieldConforms;
    if j.JObject? {
      StructMembers(re, TarFields, ["path"], path, j.members);
      PlainField(re, TString, "path", path, j.members);
    }
  }

  lemma S3Names()
    ensures Names(S3Fields, S3Keys)
  {
  }

  lemma S3FieldsMean(re: Matcher, path: string, m: Members)
    ensures var f := S3Fields;
            && |f| == 6
            && (FieldConforms(re, f[0], path, m) <==> HasText(m, "bucket"))
            && (FieldConforms(re, f[1], path, m) <==> MayHaveText(m, "region"))
            && (FieldConforms(re, f[2], path, m) <==> MayHaveText(m, "access_key_id"))
            && (FieldConforms(re, f[3], path, m) <==> MayHaveText(m, "secret_access_key"))
            && (FieldConforms(re, f[4], path, m) <==> MayHaveText(m, "endpoint"))
            && (FieldConforms(re, f[5], path, m) <==> MayHaveText(m, "prefix"))
  {
    hide FieldConforms;
    PlainField(re, TString, "bucket", path, m);
    OptionalField(re, TString, "region", path, m);
    OptionalField(re, TString, "access_key_id", path, m);
    OptionalField(re, TString, "secret_access_key", path, m);
    OptionalField(re, TString, "endpoint", path, m);
    OptionalField(re, TString, "prefix", path, m);
  }

  lemma S3MembersMean(re: Matcher, path: string, m: Members)
    requires OrdinaryPath(path)
    ensures Conforms(re, TStruct(S3Fields), path, JObject(m)) <==> IsS3(JObject(m))
  {
    S3Names();
    S3FieldsMean(re, path, m);
    assert CrossField(path, m);
    hide FieldConforms, Conforms, CrossField, S3Fields, S3Keys, HasText, MayHaveText, Names, KeysAmong;
    StructMembers(re, S3Fields, S3Keys, path, m);
  }

  lemma S3Means(re: Matcher, path: string, j: Json)
    requires OrdinaryPath(path)
    ensures Conforms(re, TStruct(S3Fields), path, j) <==> IsS3(j)
  {
    if j.JObject? {
      S3MembersMean(re, path, j.members);
    }
  }

  lemma SaveNames()
    ensures Names(SaveFields, ["local", "s3", "tar"])
    ensures |SaveFields| == 3
  {
  }

  /** Among the known destinations, one is given unless none is. */
  lemma DestinationRule(m: Members)
    requires KeysAmong(m, ["local", "s3", "tar"])
    ensures CrossField("save", m) <==> "local" in m || "s3" in m || "tar" in m
  {
    assert SAVE != ENCRYPT;
    assert m != map[] <==> exists key :: key in m;
  }

  lemma SaveMembersMean(re: Matcher, m: Members)
    ensures Conforms(re, TStruct(SaveFields), "save", JObject(m)) <==> IsSave(JObject(m))
  {
    SaveNames();
    SaveFieldsMean(re, m);
    if KeysAmong(m, ["local", "s3", "tar"]) {
      DestinationRule(m);
    }
    hide FieldConforms, Conforms, CrossField, SaveFields, IsLocal, IsS3, IsTar, Names, KeysAmong;
    StructMembers(re, SaveFields, ["local", "s3", "tar"], "save", m);
  }

  lemma SaveMeans(re: Matcher, j: Json)
    ensures Conforms(re, TStruct(SaveFields), "save", j) <==> IsSave(j)
  {
    if j.JObject? {
      SaveMembersMean(re, j.members);
    }
  }

  lemma SaveFieldsMean(re: Matcher, m: Members)
    ensures FieldConforms(re, SaveFields[0], "save", m) <==> ("local" in m ==> IsLocal(m["local"]))
    ensures FieldConforms(re, SaveFields[1], "save", m) <==> ("s3" in m ==> IsS3(m["s3"]))
    ensures FieldConforms(re, SaveFields[2], "save", m) <==> ("tar" in m ==> IsTar(m["tar"]))
  {
    hide FieldConforms, IsLocal, IsS3, IsTar;
    assert FieldPath("save", "local") == "save.local" && FieldPath("save", "s3") == "save.s3";
    assert FieldPath("save", "tar") == "save.tar";
    OptionalField(re, TPointer(TStruct(LocalFields)), "local", "save", m);
    OptionalField(re, TPointer(TStruct(S3Fields)), "s3", "save", m);
    OptionalField(re, TPointer(TStruct(TarFields)), "tar", "save", m);
    if "local" in m {
      LocalMeans(re, "save.local", m["local"]);
      ThroughPointer(re, LocalFields, "save.local", m["local"]);
    }
    if "s3" in m {
      S3Means(re, "save.s3", m["s3"]);
      ThroughPointer(re, S3Fields, "save.s3", m["s3"]);
    }
    if "tar" in m {
      TarMeans(re, "save.tar", m["tar"]);
      ThroughPointer(re, TarFields, "save.tar", m["tar"]);
    }
  }

  lemma ThroughPointer(re: Matcher, fields: seq<Field>, path: string, j: Json)
    ensures Conforms(re, TPointer(TStruct(fields)), path, j) <==> Conforms(re, TStruct(fields), path, j)
  {
  }

  lemma BodyFieldsMean(re: Matcher, m: Members)
    ensures Names(ConfigFields, ["login", "encrypt", "save"]) && |ConfigFields| == 3
    ensures FieldConforms(re, ConfigFields[0], "", m) <==> "login" in m && IsLogin(m["login"])
    ensures FieldConforms(re, ConfigFields[1], "", m) <==> ("encrypt" in m ==> IsEncrypt(re, m["encrypt"]))
    ensures FieldConforms(re, ConfigFields[2], "", m) <==> "save" in m && IsSave(m["save"])
  {
    hide FieldConforms, IsLogin, IsEncrypt, IsSave, LoginFields, EncryptFields, SaveFields;
    PlainField(re, TStruct(LoginFields), "login", "", m);
    OptionalField(re, TPointer(TStruct(EncryptFields)), "encrypt", "", m);
    PlainField(re, TStruct(SaveFields), "save", "", m);
    assert FieldPath("", "login") == "login" && FieldPath("", "encrypt") == "encrypt";
    assert FieldPath("", "save") == "save";
    if "login" in m {
      LoginMeans(re, m["login"]);
    }
    if "encrypt" in m {
      EncryptMeans(re, m["encrypt"]);
      ThroughPointer(re, EncryptFields, "encrypt", m["encrypt"]);
    }
    if "save" in m {
      SaveMeans(re, m["save"]);
    }
  }

  lemma BodyMeans(re: Matcher, m: Members)
    ensures Conforms(re, ConfigV1Type, "", JObject(m)) <==>
            && KeysAmong(m, ["login", "encrypt", "save"])
            && "login" in m && IsLogin(m["login"])
            && ("encrypt" in m ==> IsEncrypt(re, m["encrypt"]))
            && "save" in m && IsSave(m["save"])
  {
    BodyFieldsMean(re, m);
    NoCrossField(m, m);
    hide FieldConforms, Conforms, IsLogin, IsEncrypt, IsSave, CrossField, ConfigFields, Names, KeysAmong;
    StructMembers(re, ConfigFields, ["login", "encrypt", "save"], "", m);
  }

  /** The generated schema accepts exactly the documents of the grammar. */
  lemma SchemaIsGrammar(re: Matcher, j: Json)
    ensures TypeSchemaWithVersion().Some?
    ensures Accepts(re, TypeSchemaWithVersion().value, j) <==> IsConfig(re, j)
  {
    hide Accepts, Conforms, TypeSchemaWithVersion, IsLogin, IsEncrypt, IsSave;
    GeneratedMeans(re, j);
    if j.JObject? {
      var m := j.members;
      BodyMeans(re, m - {VERSION});
      WithoutVersionKey(m);
    }
  }

  lemma WithoutVersionKey(m: Members)
    ensures KeysAmong(m, ["version", "login", "encrypt", "save"]) <==>
            KeysAmong(m - {VERSION}, ["login", "encrypt", "save"])
    ensures forall key | key in ["login", "encrypt", "save"] :: key != VERSION
  {
    assert "version"[0] == 'v' && "login"[0] == 'l' && "encrypt"[0] == 'e' && "save"[0] == 's';
    forall key: string
      ensures key in ["version", "login", "encrypt", "save"] <==> key == VERSION || key in ["login", "encrypt", "save"]
    {
    }
    var rest := m - {VERSION};
    assert forall key :: key in m && key != VERSION <==> key in rest;
  }

  // ----- the defaults it publishes -----

  /** The schema of field `i` of a compiled struct. */
  lemma PropertyOf(fields: seq<Field>, path: string, i: nat)
    requires i < |fields| && DistinctNames(fields) && !Skipped(fields[i]) && TypeSchema(TStruct(fields), path).Some?
    ensures var properties, name := TypeSchema(TStruct(fields), path).value.properties, Name(fields[i]);
            && name in properties && TypeSchema(fields[i].typ, FieldPath(path, name)).Some?
            && properties[name] == WithTags(TypeSchema(fields[i].typ, FieldPath(path, name)).value, fields[i])
  {
    hide WithTags, FieldPath;
    SchemaOfField(fields, path, |fields|, i);
  }

  /** Tags leave the properties of a compiled type alone. */
  lemma PropertiesOf(fields: seq<Field>, path: string, i: nat)
    requires i < |fields| && DistinctNames(fields) && !Skipped(fields[i]) && TypeSchema(TStruct(fields), path).Some?
    ensures var properties, name := TypeSchema(TStruct(fields), path).value.properties, Name(fields[i]);
            && name in properties && TypeSchema(fields[i].typ, FieldPath(path, name)).Some?
            && properties[name].properties == TypeSchema(fields[i].typ, FieldPath(path, name)).value.properties
  {
    PropertyOf(fields, path, i);
    hide TypeSchema, FieldPath, Atoi;
  }

  lemma PortPublished()
    requires TypeSchema(TStruct(IMAPFields), "login.imap").Some?
    ensures var properties := TypeSchema(TStruct(IMAPFields), "login.imap").value.properties;
            "port" in properties && properties["port"].default == Some(JNumber(993.0))
  {
    DefaultPort();
    IMAPRegular();
    hide Atoi, FieldPath;
    PropertyOf(IMAPFields, "login.imap", 1);
    DefaultsArePublished(Of(IntegerType), IMAPFields[1]);
  }

  lemma ServerPublished()
    requires TypeSchema(TStruct(EncryptFields), "encrypt").Some?
    ensures var properties := TypeSchema(TStruct(EncryptFields), "encrypt").value.properties;
            && "public_key_server" in properties
            && properties["public_key_server"].default == Some(JString("keys.openpgp.org"))
  {
    hide Atoi, FieldPath;
    PropertyOf(EncryptFields, "encrypt", 3);
    DefaultsArePublished(Of(StringType), EncryptFields[3]);
  }

  lemma CompiledProperties(properties: map<string, Schema>)
    requires TypeSchema(ConfigV1Type, "").Some? && properties == TypeSchema(ConfigV1Type, "").value.properties
    ensures "login" in properties && TypeSchema(TStruct(LoginFields), "login").Some?
    ensures properties["login"].properties == TypeSchema(TStruct(LoginFields), "login").value.properties
    ensures "encrypt" in properties && TypeSchema(TStruct(EncryptFields), "encrypt").Some?
    ensures properties["encrypt"].properties == TypeSchema(TStruct(EncryptFields), "encrypt").value.properties
  {
    PropertiesOf(ConfigFields, "", 0);
    PropertiesOf(ConfigFields, "", 1);
    assert FieldPath("", "login") == "login" && FieldPath("", "encrypt") == "encrypt";
    hide TypeSchema;
    ThroughPointerCompiled(EncryptFields, "encrypt");
  }

  lemma LoginProperties(properties: map<string, Schema>)
    requires TypeSchema(TStruct(LoginFields), "login").Some?
    requires properties == TypeSchema(TStruct(LoginFields), "login").value.properties
    ensures "imap" in properties && TypeSchema(TStruct(IMAPFields), "login.imap").Some?
    ensures properties["imap"].properties == TypeSchema(TStruct(IMAPFields), "login.imap").value.properties
  {
    PropertiesOf(LoginFields, "login", 0);
    assert FieldPath("login", "imap") == "login.imap";
    hide TypeSchema;
    ThroughPointerCompiled(IMAPFields, "login.imap");
  }

  /** The generated schema publishes the default of login.imap.port and that of
      encrypt.public_key_server. */
  lemma PublishedDefaults()
    ensures TypeSchemaWithVersion().Some?
    ensures var properties := TypeSchemaWithVersion().value.properties;
            && "login" in properties && "imap" in properties["login"].properties
            && "port" in properties["login"].properties["imap"].properties
            && properties["login"].properties["imap"].properties["port"].default == Some(JNumber(993.0))
            && "encrypt" in properties && "public_key_server" in properties["encrypt"].properties
            && properties["encrypt"].properties["public_key_server"].default == Some(JString("keys.openpgp.org"))
  {
    ConfigSupported();
    CompilesIffSupported(ConfigV1Type, "");
    hide TypeSchema, Supported, Unambiguous, ConfigV1Type;
    var properties := TypeSchema(ConfigV1Type, "").value.properties;
    CompiledProperties(properties);
    LoginProperties(properties["login"].properties);
    PortPublished();
    ServerPublished();
    assert "version"[0] == 'v' && "login"[0] == 'l' && "encrypt"[0] == 'e';
    assert "login" != VERSION && "encrypt" != VERSION;
  }

  lemma ThroughPointerCompiled(fields: seq<Field>, path: string)
    ensures TypeSchema(TPointer(TStruct(fields)), path) == TypeSchema(TStruct(fields), path)
  {
  }

  lemma DefaultPort()
    ensures Atoi("993") == Some(993)
  {
    assert Text.Value("9") == 9 by { assert "9"[..0] == ""; }
    assert Text.Value("99") == 99 by { assert "99"[..1] == "9"; }
    assert Text.Value("993") == 993 by { assert "993"[..2] == "99"; }
  }
}

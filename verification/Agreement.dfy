/** Validation, printer and generated schema speak of one language: which printed
    configs the schema accepts. */
module Agreement {
  import opened Stages
  import opened Runes
  import opened Reflect
  import opened JsonSchema
  import opened SchemaGen
  import opened ConfigFiles
  import opened Envelopes
  import opened Validation
  import opened ConfigSchema

  // ----- single fields -----

  lemma PlainStringOk(re: Matcher, path: string, name: string, s: string)
    ensures PrintedFieldOk(re, Plain(TString, name), path, VString(s))
  {
  }

  lemma OptionalStringOk(re: Matcher, path: string, name: string, s: string)
    ensures PrintedFieldOk(re, Optional(TString, name), path, VString(s))
  {
  }

  lemma OptionalBoolOk(re: Matcher, path: string, name: string, b: bool)
    ensures PrintedFieldOk(re, Optional(TBool, name), path, VBool(b))
  {
  }

  lemma PortBounds()
    ensures Atoi("0") == Some(0) && Atoi("65535") == Some(65535)
  {
    assert Text.Value("6") == 6 by { assert "6"[..0] == ""; }
    assert Text.Value("65") == 65 by { assert "65"[..1] == "6"; }
    assert Text.Value("655") == 655 by { assert "655"[..2] == "65"; }
    assert Text.Value("6553") == 6553 by { assert "6553"[..3] == "655"; }
    assert Text.Value("65535") == 65535 by { assert "65535"[..4] == "6553"; }
    assert Text.Value("0") == 0 by { assert "0"[..0] == ""; }
  }

  lemma PortOk(re: Matcher, path: string, port: int)
    ensures PrintedFieldOk(re, IMAPFields[1], path, VInt(port)) <==> 0 <= port <= 65535
  {
    hide Atoi;
    PortBounds();
    assert IsInteger(port as real);
  }

  lemma TLSOk(re: Matcher, path: string, tls: string)
    ensures PrintedFieldOk(re, IMAPFields[4], path, VString(tls)) <==> CanonicalTLS(tls)
  {
  }

  lemma FingerprintOk(re: Matcher, path: string, fingerprint: string)
    ensures PrintedFieldOk(re, EncryptFields[2], path, VString(fingerprint)) <==>
            fingerprint == "" || re(FINGERPRINT_PATTERN, fingerprint)
  {
  }

  lemma ServerOk(re: Matcher, path: string, server: string)
    ensures PrintedFieldOk(re, EncryptFields[3], path, VString(server))
  {
  }

  // ----- the structs -----

  predicate OrdinaryPath(path: string) { path != SAVE && path != ENCRYPT }

  lemma IMAPFieldsOk(re: Matcher, path: string, i: IMAPLogin)
    ensures var fields, vs := IMAPFields, IMAPValue(i).fields;
            && (PrintedFieldOk(re, fields[1], path, vs[1]) <==> 0 <= i.port <= 65535)
            && (PrintedFieldOk(re, fields[4], path, vs[4]) <==> CanonicalTLS(i.tls))
            && forall k | 0 <= k < 8 && k != 1 && k != 4 :: PrintedFieldOk(re, fields[k], path, vs[k])
  {
    hide PrintedFieldOk, CanonicalTLS;
    PlainStringOk(re, path, "host", i.host);
    PortOk(re, path, i.port);
    PlainStringOk(re, path, "username", i.username);
    PlainStringOk(re, path, "password", i.password);
    TLSOk(re, path, i.tls);
    OptionalStringOk(re, path, "ca_cert_file", i.caCertFile);
    OptionalBoolOk(re, path, "ignore_server_cert", i.ignoreServerCert);
    OptionalStringOk(re, path, "mailbox", i.mailbox);
  }

  lemma IMAPOk(re: Matcher, path: string, i: IMAPLogin)
    requires OrdinaryPath(path)
    ensures HasType(TStruct(IMAPFields), IMAPValue(i))
    ensures Conforms(re, TStruct(IMAPFields), path, ToJson(Encode(TStruct(IMAPFields), IMAPValue(i)))) <==>
            0 <= i.port <= 65535 && CanonicalTLS(i.tls)
  {
    hide Conforms, Encode, EncodeFields, ToJson, MembersOf, PrintedFieldOk, CanonicalTLS, FieldsHaveType;
    var fields, vs := IMAPFields, IMAPValue(i).fields;
    assert |fields| == 8;
    IMAPTyped(i);
    IMAPRegular();
    hide IMAPFields;
    FieldsTyped(fields, vs);
    StructAsJson(fields, vs);
    PrintedStruct(re, fields, path, vs);
    IMAPFieldsOk(re, path, i);
    AllEight(re, fields, path, vs);
  }

  lemma FieldsTyped(fields: seq<Field>, vs: seq<Value>)
    requires HasType(TStruct(fields), VStruct(vs))
    ensures |vs| == |fields| && FieldsHaveType(fields, vs, |fields|)
  {
  }

  lemma AllEight(re: Matcher, fields: seq<Field>, path: string, vs: seq<Value>)
    requires |fields| == |vs| == 8 && forall i | 0 <= i < 8 :: HasType(fields[i].typ, vs[i])
    ensures (forall i | 0 <= i < |fields| :: PrintedFieldOk(re, fields[i], path, vs[i])) <==>
            && PrintedFieldOk(re, fields[0], path, vs[0]) && PrintedFieldOk(re, fields[1], path, vs[1])
            && PrintedFieldOk(re, fields[2], path, vs[2]) && PrintedFieldOk(re, fields[3], path, vs[3])
            && PrintedFieldOk(re, fields[4], path, vs[4]) && PrintedFieldOk(re, fields[5], path, vs[5])
            && PrintedFieldOk(re, fields[6], path, vs[6]) && PrintedFieldOk(re, fields[7], path, vs[7])
  {
    hide PrintedFieldOk, HasType;
  }

  lemma LoginOk(re: Matcher, l: Login)
    ensures HasType(TStruct(LoginFields), LoginValue(l))
    ensures Conforms(re, TStruct(LoginFields), "login", ToJson(Encode(TStruct(LoginFields), LoginValue(l)))) <==>
            l.imapLogin.Some? && 0 <= l.imapLogin.value.port <= 65535 && CanonicalTLS(l.imapLogin.value.tls)
  {
    hide Conforms, Encode, EncodeFields, ToJson, MembersOf, PrintedFieldOk, CanonicalTLS, FieldsHaveType;
    var fields, vs := LoginFields, LoginValue(l).fields;
    LoginTyped(l);
    FieldsTyped(fields, vs);
    StructAsJson(fields, vs);
    PrintedStruct(re, fields, "login", vs);
    LoginFieldOk(re, l);
    assert OrdinaryPath("login");
  }

  lemma LoginFieldOk(re: Matcher, l: Login)
    ensures HasType(LoginFields[0].typ, LoginValue(l).fields[0])
    ensures PrintedFieldOk(re, LoginFields[0], "login", LoginValue(l).fields[0]) <==>
            l.imapLogin.Some? && 0 <= l.imapLogin.value.port <= 65535 && CanonicalTLS(l.imapLogin.value.tls)
  {
    hide CanonicalTLS, IMAPValue;
    var f, v := LoginFields[0], LoginValue(l).fields[0];
    assert FieldPath("login", "imap") == "login.imap";
    if l.imapLogin.Some? {
      IMAPOk(re, "login.imap", l.imapLogin.value);
      PointerOk(re, IMAPFields, f, "login", IMAPValue(l.imapLogin.value));
    } else {
      assert ParseBool("true") == Some(true);
    }
  }

  /** A pointer field without value tags, when set, is its struct at the field's path. */
  lemma PointerOk(re: Matcher, fields: seq<Field>, f: Field, path: string, v: Value)
    requires f.typ == TPointer(TStruct(fields)) && !Skipped(f) &&
            f.enum == [] && f.pattern == "" && f.min == "" && f.max == ""
    requires HasType(TStruct(fields), v)
    ensures HasType(f.typ, VPointer(Some(v)))
    ensures PrintedFieldOk(re, f, path, VPointer(Some(v))) <==>
            Conforms(re, TStruct(fields), FieldPath(path, Name(f)), ToJson(Encode(TStruct(fields), v)))
  {
    var t, j := TStruct(fields), ToJson(Encode(TStruct(fields), v));
    assert Encode(f.typ, VPointer(Some(v))) == Encode(t, v);
    assert Conforms(re, TPointer(t), FieldPath(path, Name(f)), j) == Conforms(re, t, FieldPath(path, Name(f)), j);
  }

  /** An optional pointer field that is nil is left out, and may be. */
  lemma NilPointerOk(re: Matcher, t: Type, name: string, path: string)
    ensures PrintedFieldOk(re, Optional(TPointer(t), name), path, VPointer(None))
  {
  }

  lemma EncryptOk(re: Matcher, e: Encrypt)
    ensures HasType(TStruct(EncryptFields), EncryptValue(e))
    ensures Conforms(re, TStruct(EncryptFields), ENCRYPT, ToJson(Encode(TStruct(EncryptFields), EncryptValue(e)))) <==>
            && AtMostOne(e.publicKeyFile != "", e.publicKeyString != "", e.publicKeyFingerprint != "")
            && (e.publicKeyFingerprint == "" || re(FINGERPRINT_PATTERN, e.publicKeyFingerprint))
  {
    hide Conforms, Encode, EncodeFields, ToJson, MembersOf, PrintedFieldOk, FieldsHaveType, AtMostOne;
    var fields, vs := EncryptFields, EncryptValue(e).fields;
    EncryptTyped(e);
    EncryptRegular();
    FieldsTyped(fields, vs);
    StructAsJson(fields, vs);
    PrintedStruct(re, fields, ENCRYPT, vs);
    OptionalStringOk(re, ENCRYPT, KEY_FILE, e.publicKeyFile);
    OptionalStringOk(re, ENCRYPT, KEY_STRING, e.publicKeyString);
    FingerprintOk(re, ENCRYPT, e.publicKeyFingerprint);
    ServerOk(re, ENCRYPT, e.publicKeyServer);
    assert fields[0] == Optional(TString, KEY_FILE) && fields[1] == Optional(TString, KEY_STRING);
    assert vs[0] == VString(e.publicKeyFile) && vs[1] == VString(e.publicKeyString);
    assert vs[2] == VString(e.publicKeyFingerprint) && vs[3] == VString(e.publicKeyServer);
    assert Name(fields[0]) == KEY_FILE && Name(fields[1]) == KEY_STRING && Name(fields[2]) == KEY_FINGERPRINT;
    assert SAVE != ENCRYPT;
    KeySourcesPrinted(e);
  }

  lemma KeySourcesPrinted(e: Encrypt)
    ensures var fields, vs := EncryptFields, EncryptValue(e).fields;
            && !Skipped(fields[0]) && !Skipped(fields[1]) && !Skipped(fields[2])
            && (Printed(fields[0], vs[0]) <==> e.publicKeyFile != "")
            && (Printed(fields[1], vs[1]) <==> e.publicKeyString != "")
            && (Printed(fields[2], vs[2]) <==> e.publicKeyFingerprint != "")
  {
  }

  lemma LocalOk(re: Matcher, path: string, l: SaveLocal)
    requires OrdinaryPath(path)
    ensures HasType(TStruct(LocalFields), LocalValue(l))
    ensures Conforms(re, TStruct(LocalFields), path, ToJson(Encode(TStruct(LocalFields), LocalValue(l))))
  {
    hide Conforms, Encode, EncodeFields, ToJson, MembersOf, PrintedFieldOk, FieldsHaveType;
    var fields, vs := LocalFields, LocalValue(l).fields;
    HaveTypeFromEach(fields, vs, 1);
    OneField(fields, vs);
    StructAsJson(fields, vs);
    PrintedStruct(re, fields, path, vs);
    PlainStringOk(re, path, "directory", l.directory);
  }

  lemma OneField(fields: seq<Field>, vs: seq<Value>)
    requires |fields| == |vs| && FieldsHaveType(fields, vs, |fields|)
    ensures HasType(TStruct(fields), VStruct(vs))
  {
  }

  lemma TarOk(re: Matcher, path: string, t: SaveTar)
    requires OrdinaryPath(path)
    ensures HasType(TStruct(TarFields), TarValue(t))
    ensures Conforms(re, TStruct(TarFields), path, ToJson(Encode(TStruct(TarFields), TarValue(t))))
  {
    hide Conforms, Encode, EncodeFields, ToJson, MembersOf, PrintedFieldOk, FieldsHaveType;
    var fields, vs := TarFields, TarValue(t).fields;
    HaveTypeFromEach(fields, vs, 1);
    OneField(fields, vs);
    StructAsJson(fields, vs);
    PrintedStruct(re, fields, path, vs);
    PlainStringOk(re, path, "path", t.path);
  }

  lemma S3FieldsOk(re: Matcher, path: string, s: SaveS3)
    ensures forall i | 0 <= i < 6 :: PrintedFieldOk(re, S3Fields[i], path, S3Value(s).fields[i])
  {
    hide PrintedFieldOk;
    PlainStringOk(re, path, "bucket", s.bucket);
    OptionalStringOk(re, path, "region", s.region);
    OptionalStringOk(re, path, "access_key_id", s.accessKeyID);
    OptionalStringOk(re, path, "secret_access_key", s.secretAccessKey);
    OptionalStringOk(re, path, "endpoint", s.endpoint);
    OptionalStringOk(re, path, "prefix", s.prefix);
  }

  lemma S3Ok(re: Matcher, path: string, s: SaveS3)
    requires OrdinaryPath(path)
    ensures HasType(TStruct(S3Fields), S3Value(s))
    ensures Conforms(re, TStruct(S3Fields), path, ToJson(Encode(TStruct(S3Fields), S3Value(s))))
  {
    hide Conforms, Encode, EncodeFields, ToJson, MembersOf, PrintedFieldOk, FieldsHaveType;
    var fields, vs := S3Fields, S3Value(s).fields;
    assert |fields| == 6;
    S3Typed(s);
    S3Regular();
    hide S3Fields;
    FieldsTyped(fields, vs);
    StructAsJson(fields, vs);
    PrintedStruct(re, fields, path, vs);
    S3FieldsOk(re, path, s);
  }

  lemma SaveFieldsOk(re: Matcher, s: Save)
    ensures var vs := SaveValue(s).fields;
            forall i | 0 <= i < 3 :: HasType(SaveFields[i].typ, vs[i]) && PrintedFieldOk(re, SaveFields[i], SAVE, vs[i])
  {
    hide Conforms, Encode, ToJson, PrintedFieldOk, HasType, LocalValue, S3Value, TarValue;
    var fields, vs := SaveFields, SaveValue(s).fields;
    SaveMemberTypes(s);
    assert FieldPath(SAVE, "local") == "save.local" && FieldPath(SAVE, "s3") == "save.s3" &&
           FieldPath(SAVE, "tar") == "save.tar";
    NilPointerOk(re, TStruct(LocalFields), "local", SAVE);
    NilPointerOk(re, TStruct(S3Fields), "s3", SAVE);
    NilPointerOk(re, TStruct(TarFields), "tar", SAVE);
    if s.local.Some? {
      LocalOk(re, "save.local", s.local.value);
      PointerOk(re, LocalFields, fields[0], SAVE, LocalValue(s.local.value));
    }
    if s.s3.Some? {
      S3Ok(re, "save.s3", s.s3.value);
      PointerOk(re, S3Fields, fields[1], SAVE, S3Value(s.s3.value));
    }
    if s.tar.Some? {
      TarOk(re, "save.tar", s.tar.value);
      PointerOk(re, TarFields, fields[2], SAVE, TarValue(s.tar.value));
    }
  }

  lemma SaveMemberTypes(s: Save)
    ensures forall i | 0 <= i < 3 :: HasType(SaveFields[i].typ, SaveValue(s).fields[i])
  {
    SaveTyped(s);
    FieldAt(SaveFields, SaveValue(s).fields, 3, 0);
    FieldAt(SaveFields, SaveValue(s).fields, 3, 1);
    FieldAt(SaveFields, SaveValue(s).fields, 3, 2);
  }

  lemma SaveOk(re: Matcher, s: Save)
    ensures HasType(TStruct(SaveFields), SaveValue(s))
    ensures Conforms(re, TStruct(SaveFields), SAVE, ToJson(Encode(TStruct(SaveFields), SaveValue(s)))) <==>
            s.local.Some? || s.s3.Some? || s.tar.Some?
  {
    hide Conforms, Encode, EncodeFields, ToJson, PrintedFieldOk, FieldsHaveType, MembersOf;
    var fields, vs := SaveFields, SaveValue(s).fields;
    SaveTyped(s);
    SaveRegular();
    FieldsTyped(fields, vs);
    StructAsJson(fields, vs);
    PrintedStruct(re, fields, SAVE, vs);
    SaveFieldsOk(re, s);
    assert SAVE != ENCRYPT;
    DestinationsPrinted(s);
    SaveMembers(s);
  }

  lemma DestinationsPrinted(s: Save)
    ensures var fields, vs := SaveFields, SaveValue(s).fields;
            && !Skipped(fields[0]) && !Skipped(fields[1]) && !Skipped(fields[2])
            && (Printed(fields[0], vs[0]) <==> s.local.Some?)
            && (Printed(fields[1], vs[1]) <==> s.s3.Some?)
            && (Printed(fields[2], vs[2]) <==> s.tar.Some?)
  {
  }

  lemma SaveMembers(s: Save)
    requires FieldsHaveType(SaveFields, SaveValue(s).fields, 3)
    ensures MembersOf(SaveFields, SaveValue(s).fields) != map[] <==> s.local.Some? || s.s3.Some? || s.tar.Some?
  {
    hide Encode, EncodeFields, FieldsHaveType, ToMembers, HasType, IsZero;
    var fields, vs := SaveFields, SaveValue(s).fields;
    var members, entries := MembersOf(fields, vs), EncodeFields(fields, vs, 3);
    SaveRegular();
    EncodedKeys(fields, vs, 3);
    DestinationsPrinted(s);
    forall i | 0 <= i < 3 ensures Name(fields[i]) in members <==> Printed(fields[i], vs[i]) {
      EncodedLookup(fields, vs, 3, i);
      MembersAreLookups(entries, Name(fields[i]));
    }
    if members != map[] {
      var name :| name in members;
      MembersAreLookups(entries, name);
      FoundIsKey(entries, name);
      assert IsPrintedName(fields, vs, 3, name);
    }
  }

  // ----- the whole document -----

  /** What the schema asks of a config, in the config's own terms. */
  ghost predicate SchemaAsks(re: Matcher, c: ConfigV1) {
    && c.login.imapLogin.Some?
    && 0 <= c.login.imapLogin.value.port <= 65535 && CanonicalTLS(c.login.imapLogin.value.tls)
    && (c.encrypt.Some? ==>
          var e := c.encrypt.value;
          && AtMostOne(e.publicKeyFile != "", e.publicKeyString != "", e.publicKeyFingerprint != "")
          && (e.publicKeyFingerprint == "" || re(FINGERPRINT_PATTERN, e.publicKeyFingerprint)))
    && (c.save.local.Some? || c.save.s3.Some? || c.save.tar.Some?)
  }

  lemma PlainStructOk(re: Matcher, fields: seq<Field>, name: string, v: Value)
    requires HasType(TStruct(fields), v) && name != "-"
    ensures PrintedFieldOk(re, Plain(TStruct(fields), name), "", v) <==>
            Conforms(re, TStruct(fields), name, ToJson(Encode(TStruct(fields), v)))
  {
    assert FieldPath("", name) == name;
    hide Conforms, Encode, ToJson, HasType, Atoi;
  }

  lemma ConfigFieldsOk(re: Matcher, c: ConfigV1)
    ensures var vs := ConfigValue(c).fields;
            && (forall i | 0 <= i < 3 :: HasType(ConfigFields[i].typ, vs[i]))
            && ((forall i | 0 <= i < 3 :: PrintedFieldOk(re, ConfigFields[i], "", vs[i])) <==> SchemaAsks(re, c))
  {
    hide Conforms, Encode, ToJson, PrintedFieldOk, HasType, LoginValue, EncryptValue, SaveValue, CanonicalTLS,
         AtMostOne;
    var fields, vs := ConfigFields, ConfigValue(c).fields;
    LoginOk(re, c.login);
    SaveOk(re, c.save);
    PlainStructOk(re, LoginFields, "login", LoginValue(c.login));
    PlainStructOk(re, SaveFields, SAVE, SaveValue(c.save));
    NilPointerOk(re, TStruct(EncryptFields), ENCRYPT, "");
    NilHasType(EncryptFields);
    assert fields[0] == Plain(TStruct(LoginFields), "login") && vs[0] == LoginValue(c.login);
    assert fields[2] == Plain(TStruct(SaveFields), SAVE) && vs[2] == SaveValue(c.save);
    if c.encrypt.Some? {
      EncryptOk(re, c.encrypt.value);
      PointerOk(re, EncryptFields, fields[1], "", EncryptValue(c.encrypt.value));
      assert Name(fields[1]) == ENCRYPT && FieldPath("", ENCRYPT) == ENCRYPT;
      assert vs[1] == VPointer(Some(EncryptValue(c.encrypt.value)));
    } else {
      assert fields[1] == Optional(TPointer(TStruct(EncryptFields)), ENCRYPT) && vs[1] == VPointer(None);
    }
  }

  lemma NilHasType(fields: seq<Field>)
    ensures HasType(TPointer(TStruct(fields)), VPointer(None))
  {
  }

  lemma BodyConforms(re: Matcher, c: ConfigV1)
    ensures HasType(ConfigV1Type, ConfigValue(c))
    ensures Conforms(re, ConfigV1Type, "", ToJson(Encode(ConfigV1Type, ConfigValue(c)))) <==> SchemaAsks(re, c)
  {
    hide Conforms, Encode, EncodeFields, ToJson, PrintedFieldOk, FieldsHaveType, MembersOf, SchemaAsks;
    var fields, vs := ConfigFields, ConfigValue(c).fields;
    ConfigTyped(c);
    ConfigRegular();
    FieldsTyped(fields, vs);
    StructAsJson(fields, vs);
    PrintedStruct(re, fields, "", vs);
    ConfigFieldsOk(re, c);
    NoCrossField(MembersOf(fields, vs), map[]);
  }

  /** The printed document is the body's members and the version. */
  lemma DocumentMembers(c: VersionedConfig)
    ensures var all, body := ToMembers(Document(c).entries, |Document(c).entries|),
            ToMembers(c.Body().entries, |c.Body().entries|);
            && VERSION in all && all[VERSION] == JNumber(1.0)
            && all - {VERSION} == body
  {
    hide Encode, EncodeFields, ToMembers, ToJson, HasType, ConfigValue, Enveloped, Skipped;
    var body, entries := c.Body().entries, Document(c).entries;
    var all, own := ToMembers(entries, |entries|), ToMembers(body, |body|);
    BodyIsPrinted(c);
    NoVersionField();
    EncodedForeign(ConfigFields, ConfigValue(c.config).fields, |ConfigFields|, VERSION);
    forall key: string
      ensures key in all <==> key == VERSION || key in own
      ensures key in own ==> key != VERSION && all[key] == own[key]
      ensures key == VERSION ==> all[key] == ToJson(NInt(1))
    {
      EnvelopeShape(1, body, key);
      MembersAreLookups(entries, key);
      MembersAreLookups(body, key);
    }
    IntAsJson(1);
  }

  lemma IntAsJson(i: int)
    ensures ToJson(NInt(i)) == JNumber(i as real)
  {
  }

  /** For every config whatsoever, the printed document is accepted by the generated
      schema exactly when the config is what the schema asks. */
  lemma PrintedAcceptedIff(re: Matcher, c: ConfigV1)
    ensures TypeSchemaWithVersion().Some?
    ensures Accepts(re, TypeSchemaWithVersion().value, ToJson(Document(V1(c)))) <==> SchemaAsks(re, c)
  {
    hide Accepts, Conforms, Encode, ToMembers, SchemaAsks, TypeSchemaWithVersion, Document, ConfigValue;
    var j := ToJson(Document(V1(c)));
    GeneratedMeans(re, j);
    DocumentMembers(V1(c));
    BodyConforms(re, c);
    DocumentAsJson(c);
  }

  lemma DocumentAsJson(c: ConfigV1)
    ensures HasType(ConfigV1Type, ConfigValue(c))
    ensures Document(V1(c)).NMap? && ToJson(Document(V1(c))) ==
            JObject(ToMembers(Document(V1(c)).entries, |Document(V1(c)).entries|))
    ensures ToJson(Encode(ConfigV1Type, ConfigValue(c))) ==
            JObject(ToMembers(V1(c).Body().entries, |V1(c).Body().entries|))
  {
    hide Encode, ToMembers, ConfigValue, HasType, Enveloped;
    ConfigTyped(c);
  }

  /** Every valid config prints to a document the schema accepts, exactly when its TLS
      mode is empty or canonical: validation also takes aliases the schema does not
      list. The matcher only has to know the fingerprint pattern. */
  lemma ValidConfigsSatisfySchema(u: Tables, keys: Keys, re: Matcher, c: ConfigV1)
    requires u.Valid() && Valid(u, keys, c)
    requires forall s: string {:trigger re(FINGERPRINT_PATTERN, s)} ::
            re(FINGERPRINT_PATTERN, s) <==> LooksLikeFingerprint(s)
    ensures TypeSchemaWithVersion().Some?
    ensures Accepts(re, TypeSchemaWithVersion().value, ToJson(Document(V1(c)))) <==>
            CanonicalTLS(c.login.imapLogin.value.tls)
  {
    hide Accepts, Document, TypeSchemaWithVersion, ToJson, NormalizeFingerprint, NormalizeTLS, CanonicalTLS,
         LooksLikeFingerprint;
    PrintedAcceptedIff(re, c);
    if c.encrypt.Some? && c.encrypt.value.publicKeyFingerprint != "" {
      AcceptedLooksRight(u, c.encrypt.value.publicKeyFingerprint);
    }
  }

  /** A valid config the schema rejects once printed: the alias "TLS". */
  lemma AliasIsRejected(u: Tables, keys: Keys, re: Matcher)
    requires u.Valid()
    requires forall s: string {:trigger re(FINGERPRINT_PATTERN, s)} ::
            re(FINGERPRINT_PATTERN, s) <==> LooksLikeFingerprint(s)
    ensures var c := ConfigV1(Login(Some(IMAPLogin("h", 993, "u", "", "TLS", "", false, ""))), None,
                              Save(Some(SaveLocal("d")), None, None));
            && Valid(u, keys, c)
            && TypeSchemaWithVersion().Some?
            && !Accepts(re, TypeSchemaWithVersion().value, ToJson(Document(V1(c))))
  {
    hide Accepts, Document, TypeSchemaWithVersion, ToJson, NormalizeTLS;
    var c := ConfigV1(Login(Some(IMAPLogin("h", 993, "u", "", "TLS", "", false, ""))), None,
                      Save(Some(SaveLocal("d")), None, None));
    TLSAliasIsAccepted(u);
    assert Valid(u, keys, c);
    ValidConfigsSatisfySchema(u, keys, re, c);
  }
}

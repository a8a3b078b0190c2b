/** cmd/configfile.go: the version 1 config, its validation, and the versioned envelope
    it is printed in and parsed from. */
module ConfigFiles {
  import opened Stages
  import opened Reflect
  import SchemaGen

  datatype IMAPLogin = IMAPLogin(host: string, port: int, username: string, password: string, tls: string,
                                 caCertFile: string, ignoreServerCert: bool, mailbox: string)
  datatype Login = Login(imapLogin: Option<IMAPLogin>)
  datatype Encrypt = Encrypt(publicKeyFile: string, publicKeyString: string,
                             publicKeyFingerprint: string, publicKeyServer: string)
  datatype SaveLocal = SaveLocal(directory: string)
  datatype SaveS3 = SaveS3(bucket: string, region: string, accessKeyID: string,
                           secretAccessKey: string, endpoint: string, prefix: string)
  datatype SaveTar = SaveTar(path: string)
  datatype Save = Save(local: Option<SaveLocal>, s3: Option<SaveS3>, tar: Option<SaveTar>)
  datatype ConfigV1 = ConfigV1(login: Login, encrypt: Option<Encrypt>, save: Save)

  // ----- the struct tags -----

  const FINGERPRINT_PATTERN := "^[0-9A-Fa-f ]{40,}$"

  function Plain(t: Type, name: string): Field { Field(t, [name], [], "", "", "", "", "") }
  function Optional(t: Type, name: string): Field { Field(t, [name, "omitempty"], [], "", "", "", "", "") }

  const IMAPFields: seq<Field> := [
    Plain(TString, "host"),
    Field(TInt, ["port"], [], "", "0", "65535", "993", ""),
    Plain(TString, "username"),
    Plain(TString, "password"),
    Field(TString, ["tls", "omitempty"], ["STARTTLS", "SSL", "NONE"], "", "", "", "", ""),
    Optional(TString, "ca_cert_file"),
    Optional(TBool, "ignore_server_cert"),
    Optional(TString, "mailbox")]

  const LoginFields: seq<Field> :=
    [Field(TPointer(TStruct(IMAPFields)), ["imap", "omitempty"], [], "", "", "", "", "true")]

  const EncryptFields: seq<Field> := [
    Optional(TString, SchemaGen.KEY_FILE),
    Optional(TString, SchemaGen.KEY_STRING),
    Field(TString, [SchemaGen.KEY_FINGERPRINT, "omitempty"], [], FINGERPRINT_PATTERN, "", "", "", ""),
    Field(TString, ["public_key_server", "omitempty"], [], "", "", "", "keys.openpgp.org", "")]

  const LocalFields: seq<Field> := [Plain(TString, "directory")]

  const S3Fields: seq<Field> := [
    Plain(TString, "bucket"),
    Optional(TString, "region"),
    Optional(TString, "access_key_id"),
    Optional(TString, "secret_access_key"),
    Optional(TString, "endpoint"),
    Optional(TString, "prefix")]

  const TarFields: seq<Field> := [Plain(TString, "path")]

  const SaveFields: seq<Field> := [
    Optional(TPointer(TStruct(LocalFields)), "local"),
    Optional(TPointer(TStruct(S3Fields)), "s3"),
    Optional(TPointer(TStruct(TarFields)), "tar")]

  const ConfigFields: seq<Field> := [
    Plain(TStruct(LoginFields), "login"),
    Optional(TPointer(TStruct(EncryptFields)), SchemaGen.ENCRYPT),
    Plain(TStruct(SaveFields), SchemaGen.SAVE)]

  const ConfigV1Type: Type := TStruct(ConfigFields)

  // ----- reflection -----

  function IMAPValue(i: IMAPLogin): Value {
    VStruct([VString(i.host), VInt(i.port), VString(i.username), VString(i.password), VString(i.tls),
             VString(i.caCertFile), VBool(i.ignoreServerCert), VString(i.mailbox)])
  }

  function EncryptValue(e: Encrypt): Value {
    VStruct([VString(e.publicKeyFile), VString(e.publicKeyString),
             VString(e.publicKeyFingerprint), VString(e.publicKeyServer)])
  }

  function LocalValue(l: SaveLocal): Value { VStruct([VString(l.directory)]) }

  function S3Value(s: SaveS3): Value {
    VStruct([VString(s.bucket), VString(s.region), VString(s.accessKeyID),
             VString(s.secretAccessKey), VString(s.endpoint), VString(s.prefix)])
  }

  function TarValue(t: SaveTar): Value { VStruct([VString(t.path)]) }

  function LoginValue(l: Login): Value {
    VStruct([VPointer(if l.imapLogin.None? then None else Some(IMAPValue(l.imapLogin.value)))])
  }

  function SaveValue(s: Save): Value {
    VStruct([VPointer(if s.local.None? then None else Some(LocalValue(s.local.value))),
             VPointer(if s.s3.None? then None else Some(S3Value(s.s3.value))),
             VPointer(if s.tar.None? then None else Some(TarValue(s.tar.value)))])
  }

  function ConfigValue(c: ConfigV1): Value {
    VStruct([LoginValue(c.login),
             VPointer(if c.encrypt.None? then None else Some(EncryptValue(c.encrypt.value))),
             SaveValue(c.save)])
  }

  // ----- the config struct is regular and typed -----

  lemma {:induction false} HaveTypeFromEach(fields: seq<Field>, vs: seq<Value>, n: nat)
    requires n <= |fields| == |vs| && forall i | 0 <= i < n :: HasType(fields[i].typ, vs[i])
    ensures FieldsHaveType(fields, vs, n)
  {
    hide HasType;
    if n > 0 {
      HaveTypeFromEach(fields, vs, n - 1);
    }
  }

  lemma {:induction false} RegularFromEach(fields: seq<Field>, n: nat)
    requires n <= |fields| && forall i | 0 <= i < n :: !Skipped(fields[i]) && Regular(fields[i].typ)
    ensures FieldsRegular(fields, n)
  {
    hide Regular, Skipped;
    if n > 0 {
      RegularFromEach(fields, n - 1);
    }
  }

  lemma IMAPTyped(i: IMAPLogin)
    ensures HasType(TStruct(IMAPFields), IMAPValue(i))
  {
    HaveTypeFromEach(IMAPFields, IMAPValue(i).fields, 8);
  }

  lemma EncryptTyped(e: Encrypt)
    ensures HasType(TStruct(EncryptFields), EncryptValue(e))
  {
    HaveTypeFromEach(EncryptFields, EncryptValue(e).fields, 4);
  }

  lemma S3Typed(s: SaveS3)
    ensures HasType(TStruct(S3Fields), S3Value(s))
  {
    HaveTypeFromEach(S3Fields, S3Value(s).fields, 6);
  }

  lemma SaveTyped(s: Save)
    ensures HasType(TStruct(SaveFields), SaveValue(s))
  {
    if s.local.Some? {
      HaveTypeFromEach(LocalFields, LocalValue(s.local.value).fields, 1);
    }
    if s.s3.Some? {
      S3Typed(s.s3.value);
    }
    if s.tar.Some? {
      HaveTypeFromEach(TarFields, TarValue(s.tar.value).fields, 1);
    }
    HaveTypeFromEach(SaveFields, SaveValue(s).fields, 3);
  }

  lemma LoginTyped(l: Login)
    ensures HasType(TStruct(LoginFields), LoginValue(l))
  {
    if l.imapLogin.Some? {
      IMAPTyped(l.imapLogin.value);
    }
    HaveTypeFromEach(LoginFields, LoginValue(l).fields, 1);
  }

  lemma ConfigTyped(c: ConfigV1)
    ensures HasType(ConfigV1Type, ConfigValue(c))
  {
    LoginTyped(c.login);
    SaveTyped(c.save);
    if c.encrypt.Some? {
      EncryptTyped(c.encrypt.value);
    }
    HaveTypeFromEach(ConfigFields, ConfigValue(c).fields, 3);
  }

  lemma IMAPRegular()
    ensures DistinctNames(IMAPFields) && Regular(TStruct(IMAPFields))
  {
    var f := IMAPFields;
    assert Name(f[0]) == "host" && Name(f[1]) == "port" && Name(f[2]) == "username" && Name(f[3]) == "password";
    assert Name(f[4]) == "tls" && Name(f[5]) == "ca_cert_file" &&
           Name(f[6]) == "ignore_server_cert" && Name(f[7]) == "mailbox";
    assert "host"[0] != "port"[0];
    RegularFromEach(f, 8);
  }

  lemma EncryptRegular()
    ensures DistinctNames(EncryptFields) && Regular(TStruct(EncryptFields))
  {
    var f := EncryptFields;
    assert "public_key_string"[12] == 't' && "public_key_server"[12] == 'e';
    RegularFromEach(f, 4);
  }

  lemma S3Regular()
    ensures DistinctNames(S3Fields) && Regular(TStruct(S3Fields))
  {
    var f := S3Fields;
    assert "bucket"[0] == 'b' && "region"[0] == 'r' && "prefix"[0] == 'p';
    RegularFromEach(f, 6);
  }

  lemma SaveRegular()
    ensures DistinctNames(SaveFields) && Regular(TStruct(SaveFields))
  {
    var f := SaveFields;
    assert "tar"[0] == 't' && "s3"[0] == 's';
    S3Regular();
    RegularFromEach(LocalFields, 1);
    RegularFromEach(TarFields, 1);
    RegularFromEach(f, 3);
  }

  /** The version 1 type survives a round trip: distinct names, no pointer to pointer. */
  lemma ConfigRegular()
    ensures DistinctNames(ConfigFields) && Regular(ConfigV1Type)
  {
    IMAPRegular();
    RegularFromEach(LoginFields, 1);
    EncryptRegular();
    SaveRegular();
    assert Regular(TStruct(LoginFields));
    RegularFromEach(ConfigFields, 3);
  }
}

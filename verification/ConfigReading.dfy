/** What a config file means, key by key: the reading of a document written out without
    the struct tags the parser and the printer go by. */
module ConfigReadings {
  import opened Stages
  import opened Reflect
  import opened ConfigFiles
  import opened Envelopes

  // ----- reading -----

  function Get(n: Node, key: string): Option<Node> {
    if n.NMap? then Lookup(n.entries, key) else None
  }

  /** The text under a key, "" when there is none. */
  function TextOf(n: Node, key: string): string {
    match Get(n, key)
    case Some(NString(s)) => s
    case _ => ""
  }

  function NumberOf(n: Node, key: string): int {
    match Get(n, key)
    case Some(NInt(i)) => i
    case _ => 0
  }

  function FlagOf(n: Node, key: string): bool {
    match Get(n, key)
    case Some(NBool(b)) => b
    case _ => false
  }

  /** The block under a key; an absent one and a null one are none. */
  function BlockOf(n: Node, key: string): Option<Node> {
    match Get(n, key)
    case Some(NNull) => None
    case found => found
  }

  function ReadIMAP(n: Node): IMAPLogin {
    IMAPLogin(
      host := TextOf(n, "host"), port := NumberOf(n, "port"),
      username := TextOf(n, "username"), password := TextOf(n, "password"), tls := TextOf(n, "tls"),
      caCertFile := TextOf(n, "ca_cert_file"), ignoreServerCert := FlagOf(n, "ignore_server_cert"),
      mailbox := TextOf(n, "mailbox"))
  }

  function ReadEncrypt(n: Node): Encrypt {
    Encrypt(
      publicKeyFile := TextOf(n, "public_key_file"), publicKeyString := TextOf(n, "public_key_string"),
      publicKeyFingerprint := TextOf(n, "public_key_fingerprint"), publicKeyServer := TextOf(n, "public_key_server"))
  }

  function ReadS3(n: Node): SaveS3 {
    SaveS3(
      bucket := TextOf(n, "bucket"), region := TextOf(n, "region"), accessKeyID := TextOf(n, "access_key_id"),
      secretAccessKey := TextOf(n, "secret_access_key"), endpoint := TextOf(n, "endpoint"),
      prefix := TextOf(n, "prefix"))
  }

  function ReadLogin(n: Node): Login {
    Login(match BlockOf(n, "imap") case None => None case Some(b) => Some(ReadIMAP(b)))
  }

  function ReadSave(n: Node): Save {
    Save(
      local := match BlockOf(n, "local") case None => None case Some(b) => Some(SaveLocal(TextOf(b, "directory"))),
      s3 := match BlockOf(n, "s3") case None => None case Some(b) => Some(ReadS3(b)),
      tar := match BlockOf(n, "tar") case None => None case Some(b) => Some(SaveTar(TextOf(b, "path"))))
  }

  function ReadConfig(n: Node): ConfigV1 {
    ConfigV1(
      login := match BlockOf(n, "login") case None => Login(None) case Some(b) => ReadLogin(b),
      encrypt := match BlockOf(n, "encrypt") case None => None case Some(b) => Some(ReadEncrypt(b)),
      save := match BlockOf(n, "save") case None => Save(None, None, None) case Some(b) => ReadSave(b))
  }

  // ----- which documents can be read -----

  predicate IsMapping(n: Node) { n.NMap? && DistinctKeys(n.entries) }

  predicate MayBeText(n: Node, key: string) {
    Get(n, key).Some? ==> Get(n, key).value.NNull? || Get(n, key).value.NString?
  }

  predicate MayBeNumber(n: Node, key: string) {
    Get(n, key).Some? ==> Get(n, key).value.NNull? || Get(n, key).value.NInt?
  }

  predicate MayBeFlag(n: Node, key: string) {
    Get(n, key).Some? ==> Get(n, key).value.NNull? || Get(n, key).value.NBool?
  }

  predicate ReadableIMAP(n: Node) {
    && IsMapping(n) && MayBeText(n, "host") && MayBeNumber(n, "port") && MayBeText(n, "username")
    && MayBeText(n, "password") && MayBeText(n, "tls") && MayBeText(n, "ca_cert_file")
    && MayBeFlag(n, "ignore_server_cert") && MayBeText(n, "mailbox")
  }

  predicate ReadableEncrypt(n: Node) {
    && IsMapping(n) && MayBeText(n, "public_key_file") && MayBeText(n, "public_key_string")
    && MayBeText(n, "public_key_fingerprint") && MayBeText(n, "public_key_server")
  }

  predicate ReadableS3(n: Node) {
    && IsMapping(n) && MayBeText(n, "bucket") && MayBeText(n, "region") && MayBeText(n, "access_key_id")
    && MayBeText(n, "secret_access_key") && MayBeText(n, "endpoint") && MayBeText(n, "prefix")
  }

  predicate ReadableLocal(n: Node) { IsMapping(n) && MayBeText(n, "directory") }
  predicate ReadableTar(n: Node) { IsMapping(n) && MayBeText(n, "path") }

  predicate ReadableLogin(n: Node) {
    IsMapping(n) && (BlockOf(n, "imap").Some? ==> ReadableIMAP(BlockOf(n, "imap").value))
  }

  predicate ReadableSave(n: Node) {
    && IsMapping(n)
    && (BlockOf(n, "local").Some? ==> ReadableLocal(BlockOf(n, "local").value))
    && (BlockOf(n, "s3").Some? ==> ReadableS3(BlockOf(n, "s3").value))
    && (BlockOf(n, "tar").Some? ==> ReadableTar(BlockOf(n, "tar").value))
  }

  /** A mapping whose version is 1 and whose known keys hold what they should. */
  predicate Readable(n: Node) {
    && IsMapping(n) && Get(n, "version") == Some(NInt(1))
    && (BlockOf(n, "login").Some? ==> ReadableLogin(BlockOf(n, "login").value))
    && (BlockOf(n, "encrypt").Some? ==> ReadableEncrypt(BlockOf(n, "encrypt").value))
    && (BlockOf(n, "save").Some? ==> ReadableSave(BlockOf(n, "save").value))
  }

  // ----- one field at a time -----

  predicate Named(f: Field, name: string) { !Skipped(f) && Name(f) == name }

  lemma TextField(f: Field, name: string, n: Node)
    requires Named(f, name) && f.typ == TString && n.NMap?
    ensures DecodeField(f, n.entries) == if MayBeText(n, name) then Some(VString(TextOf(n, name))) else None
  {
  }

  lemma NumberField(f: Field, name: string, n: Node)
    requires Named(f, name) && f.typ == TInt && n.NMap?
    ensures DecodeField(f, n.entries) == if MayBeNumber(n, name) then Some(VInt(NumberOf(n, name))) else None
  {
  }

  lemma FlagField(f: Field, name: string, n: Node)
    requires Named(f, name) && f.typ == TBool && n.NMap?
    ensures DecodeField(f, n.entries) == if MayBeFlag(n, name) then Some(VBool(FlagOf(n, name))) else None
  {
  }

  /** A pointer to a struct: nil for an absent or null block. */
  lemma PointerField(f: Field, name: string, fields: seq<Field>, n: Node)
    requires Named(f, name) && f.typ == TPointer(TStruct(fields)) && n.NMap?
    ensures var block := BlockOf(n, name);
            DecodeField(f, n.entries) ==
            if block.None? then Some(VPointer(None))
            else
              var v := Decode(TStruct(fields), block.value);
              if v.None? then None else Some(VPointer(v))
  {
    hide DecodeFields, DistinctKeys;
    var block := BlockOf(n, name);
    if block.Some? {
      assert !block.value.NNull?;
      assert Decode(TPointer(TStruct(fields)), block.value) ==
             var v := Decode(TStruct(fields), block.value);
             if v.None? then None else Some(VPointer(v));
    }
  }

  /** A struct held in place: zero for an absent or null block. */
  lemma StructField(f: Field, name: string, fields: seq<Field>, n: Node)
    requires Named(f, name) && f.typ == TStruct(fields) && n.NMap?
    ensures var block := BlockOf(n, name);
            DecodeField(f, n.entries) ==
            if block.None? then Some(ZeroOf(TStruct(fields))) else Decode(TStruct(fields), block.value)
  {
  }

  lemma {:induction false} FieldsRead(fields: seq<Field>, entries: Entries, n: nat)
    requires n <= |fields|
    ensures DecodeFields(fields, entries, n).Some? <==> forall i | 0 <= i < n :: DecodeField(fields[i], entries).Some?
    ensures DecodeFields(fields, entries, n).Some? ==>
              var vs := DecodeFields(fields, entries, n).value;
              |vs| == n && forall i | 0 <= i < n :: DecodeField(fields[i], entries) == Some(vs[i])
  {
    hide DecodeField;
    if n > 0 {
      FieldsRead(fields, entries, n - 1);
    }
  }

  /** A struct is read from a mapping, field by field. */
  lemma StructRead(fields: seq<Field>, n: Node)
    requires !n.NNull?
    ensures Decode(TStruct(fields), n).Some? <==>
            IsMapping(n) && forall i | 0 <= i < |fields| :: DecodeField(fields[i], n.entries).Some?
    ensures Decode(TStruct(fields), n).Some? ==>
              var v := Decode(TStruct(fields), n).value;
              && v.VStruct? && |v.fields| == |fields|
              && forall i | 0 <= i < |fields| :: DecodeField(fields[i], n.entries) == Some(v.fields[i])
  {
    hide DecodeField;
    if n.NMap? {
      FieldsRead(fields, n.entries, |fields|);
    }
  }

  // ----- one struct at a time -----

  lemma IMAPFieldsRead(n: Node)
    requires n.NMap?
    ensures var f, e := IMAPFields, n.entries;
            && |f| == 8
            && DecodeField(f[0], e) == (if MayBeText(n, "host") then Some(VString(TextOf(n, "host"))) else None)
            && DecodeField(f[1], e) == (if MayBeNumber(n, "port") then Some(VInt(NumberOf(n, "port"))) else None)
            && DecodeField(f[2], e) == (if MayBeText(n, "username") then Some(VString(TextOf(n, "username"))) else None)
            && DecodeField(f[3], e) == (if MayBeText(n, "password") then Some(VString(TextOf(n, "password"))) else None)
            && DecodeField(f[4], e) == (if MayBeText(n, "tls") then Some(VString(TextOf(n, "tls"))) else None)
            && DecodeField(f[5], e) ==
               (if MayBeText(n, "ca_cert_file") then Some(VString(TextOf(n, "ca_cert_file"))) else None)
            && DecodeField(f[6], e) ==
               (if MayBeFlag(n, "ignore_server_cert") then Some(VBool(FlagOf(n, "ignore_server_cert"))) else None)
            && DecodeField(f[7], e) == (if MayBeText(n, "mailbox") then Some(VString(TextOf(n, "mailbox"))) else None)
  {
    hide DecodeField, MayBeText, MayBeNumber, MayBeFlag, TextOf, NumberOf, FlagOf;
    var f := IMAPFields;
    TextField(f[0], "host", n);
    NumberField(f[1], "port", n);
    TextField(f[2], "username", n);
    TextField(f[3], "password", n);
    TextField(f[4], "tls", n);
    TextField(f[5], "ca_cert_file", n);
    FlagField(f[6], "ignore_server_cert", n);
    TextField(f[7], "mailbox", n);
  }

  lemma IMAPRead(n: Node)
    requires !n.NNull?
    ensures var v := Decode(TStruct(IMAPFields), n);
            if ReadableIMAP(n) then v.Some? && IMAPOf(v.value) == ReadIMAP(n) else v.None?
  {
    StructRead(IMAPFields, n);
    if n.NMap? {
      IMAPFieldsRead(n);
    }
    hide DecodeField, Decode, MayBeText, MayBeNumber, MayBeFlag, TextOf, NumberOf, FlagOf, IMAPFields, DistinctKeys;
  }

  lemma EncryptFieldsRead(n: Node)
    requires n.NMap?
    ensures var f, e := EncryptFields, n.entries;
            && |f| == 4
            && DecodeField(f[0], e) ==
               (if MayBeText(n, "public_key_file") then Some(VString(TextOf(n, "public_key_file"))) else None)
            && DecodeField(f[1], e) ==
               (if MayBeText(n, "public_key_string") then Some(VString(TextOf(n, "public_key_string"))) else None)
            && DecodeField(f[2], e) ==
               (if MayBeText(n, "public_key_fingerprint")
                then Some(VString(TextOf(n, "public_key_fingerprint"))) else None)
            && DecodeField(f[3], e) ==
               (if MayBeText(n, "public_key_server") then Some(VString(TextOf(n, "public_key_server"))) else None)
  {
    hide DecodeField, MayBeText, TextOf;
    var f := EncryptFields;
    TextField(f[0], "public_key_file", n);
    TextField(f[1], "public_key_string", n);
    TextField(f[2], "public_key_fingerprint", n);
    TextField(f[3], "public_key_server", n);
  }

  lemma EncryptRead(n: Node)
    requires !n.NNull?
    ensures var v := Decode(TStruct(EncryptFields), n);
            if ReadableEncrypt(n) then v.Some? && EncryptOf(v.value) == ReadEncrypt(n) else v.None?
  {
    StructRead(EncryptFields, n);
    if n.NMap? {
      EncryptFieldsRead(n);
    }
    hide DecodeField, Decode, MayBeText, TextOf, EncryptFields, DistinctKeys;
  }

  lemma S3FieldsRead(n: Node)
    requires n.NMap?
    ensures var f, e := S3Fields, n.entries;
            && |f| == 6
            && DecodeField(f[0], e) == (if MayBeText(n, "bucket") then Some(VString(TextOf(n, "bucket"))) else None)
            && DecodeField(f[1], e) == (if MayBeText(n, "region") then Some(VString(TextOf(n, "region"))) else None)
            && DecodeField(f[2], e) ==
               (if MayBeText(n, "access_key_id") then Some(VString(TextOf(n, "access_key_id"))) else None)
            && DecodeField(f[3], e) ==
               (if MayBeText(n, "secret_access_key") then Some(VString(TextOf(n, "secret_access_key"))) else None)
            && DecodeField(f[4], e) == (if MayBeText(n, "endpoint") then Some(VString(TextOf(n, "endpoint"))) else None)
            && DecodeField(f[5], e) == (if MayBeText(n, "prefix") then Some(VString(TextOf(n, "prefix"))) else None)
  {
    hide DecodeField, MayBeText, TextOf;
    var f := S3Fields;
    TextField(f[0], "bucket", n);
    TextField(f[1], "region", n);
    TextField(f[2], "access_key_id", n);
    TextField(f[3], "secret_access_key", n);
    TextField(f[4], "endpoint", n);
    TextField(f[5], "prefix", n);
  }

  lemma S3Read(n: Node)
    requires !n.NNull?
    ensures var v := Decode(TStruct(S3Fields), n);
            if ReadableS3(n) then v.Some? && S3Of(v.value) == ReadS3(n) else v.None?
  {
    StructRead(S3Fields, n);
    if n.NMap? {
      S3FieldsRead(n);
    }
    hide DecodeField, Decode, MayBeText, TextOf, S3Fields, DistinctKeys;
  }

  /** The structs of one text field. */
  lemma OneTextRead(fields: seq<Field>, name: string, n: Node)
    requires fields == [Plain(TString, name)] && name != "-" && !n.NNull?
    ensures var v := Decode(TStruct(fields), n);
            if IsMapping(n) && MayBeText(n, name) then v.Some? && StringAt(v.value, 0) == TextOf(n, name) else v.None?
  {
    StructRead(fields, n);
    if n.NMap? {
      TextField(fields[0], name, n);
    }
    hide DecodeField, Decode, MayBeText, TextOf, DistinctKeys;
  }

  lemma LoginRead(n: Node)
    requires !n.NNull?
    ensures var v := Decode(TStruct(LoginFields), n);
            if ReadableLogin(n) then v.Some? && LoginOf(v.value) == ReadLogin(n) else v.None?
  {
    StructRead(LoginFields, n);
    if n.NMap? {
      PointerField(LoginFields[0], "imap", IMAPFields, n);
      if BlockOf(n, "imap").Some? {
        IMAPRead(BlockOf(n, "imap").value);
      }
    }
    hide DecodeField, Decode, DistinctKeys, IMAPFields, ReadIMAP, IMAPOf, ReadableIMAP;
  }

  lemma SaveFieldsRead(n: Node)
    requires n.NMap?
    ensures |SaveFields| == 3
    ensures var v, b := DecodeField(SaveFields[0], n.entries), BlockOf(n, "local");
            if b.None? then v == Some(VPointer(None))
            else if ReadableLocal(b.value) then
              v.Some? && v.value.VPointer? && v.value.target.Some? &&
              StringAt(v.value.target.value, 0) == TextOf(b.value, "directory")
            else v.None?
    ensures var v, b := DecodeField(SaveFields[1], n.entries), BlockOf(n, "s3");
            if b.None? then v == Some(VPointer(None))
            else if ReadableS3(b.value) then
              v.Some? && v.value.VPointer? && v.value.target.Some? && S3Of(v.value.target.value) == ReadS3(b.value)
            else v.None?
    ensures var v, b := DecodeField(SaveFields[2], n.entries), BlockOf(n, "tar");
            if b.None? then v == Some(VPointer(None))
            else if ReadableTar(b.value) then
              v.Some? && v.value.VPointer? && v.value.target.Some? &&
              StringAt(v.value.target.value, 0) == TextOf(b.value, "path")
            else v.None?
  {
    hide DecodeField, Decode, DistinctKeys, MayBeText, TextOf, S3Fields, ReadS3, S3Of, ReadableS3, StringAt;
    PointerField(SaveFields[0], "local", LocalFields, n);
    PointerField(SaveFields[1], "s3", S3Fields, n);
    PointerField(SaveFields[2], "tar", TarFields, n);
    if BlockOf(n, "local").Some? {
      OneTextRead(LocalFields, "directory", BlockOf(n, "local").value);
    }
    if BlockOf(n, "s3").Some? {
      S3Read(BlockOf(n, "s3").value);
    }
    if BlockOf(n, "tar").Some? {
      OneTextRead(TarFields, "path", BlockOf(n, "tar").value);
    }
  }

  lemma SaveRead(n: Node)
    requires !n.NNull?
    ensures var v := Decode(TStruct(SaveFields), n);
            if ReadableSave(n) then v.Some? && SaveOf(v.value) == ReadSave(n) else v.None?
  {
    StructRead(SaveFields, n);
    if n.NMap? {
      SaveFieldsRead(n);
    }
    hide DecodeField, Decode, DistinctKeys, ReadableLocal, ReadableS3, ReadableTar, TextOf, ReadS3, S3Of, StringAt,
         SaveFields, BlockOf;
  }

  lemma ZeroBlocks()
    ensures LoginOf(ZeroOf(TStruct(LoginFields))) == Login(None)
    ensures SaveOf(ZeroOf(TStruct(SaveFields))) == Save(None, None, None)
  {
    ZeroFieldsAt(LoginFields, 1, 0);
    ZeroFieldsAt(SaveFields, 3, 0);
    ZeroFieldsAt(SaveFields, 3, 1);
    ZeroFieldsAt(SaveFields, 3, 2);
  }

  lemma {:induction false} ZeroFieldsAt(fields: seq<Field>, n: nat, i: nat)
    requires i < n <= |fields|
    ensures ZeroFields(fields, n)[i] == ZeroOf(fields[i].typ)
  {
    if i < n - 1 {
      ZeroFieldsAt(fields, n - 1, i);
    }
  }

  lemma ConfigFieldsRead(n: Node)
    requires n.NMap?
    ensures |ConfigFields| == 3
    ensures var v, b := DecodeField(ConfigFields[0], n.entries), BlockOf(n, "login");
            if b.None? then v.Some? && LoginOf(v.value) == Login(None)
            else if ReadableLogin(b.value) then v.Some? && LoginOf(v.value) == ReadLogin(b.value)
            else v.None?
    ensures var v, b := DecodeField(ConfigFields[1], n.entries), BlockOf(n, "encrypt");
            if b.None? then v == Some(VPointer(None))
            else if ReadableEncrypt(b.value) then
              v.Some? && v.value.VPointer? && v.value.target.Some? &&
              EncryptOf(v.value.target.value) == ReadEncrypt(b.value)
            else v.None?
    ensures var v, b := DecodeField(ConfigFields[2], n.entries), BlockOf(n, "save");
            if b.None? then v.Some? && SaveOf(v.value) == Save(None, None, None)
            else if ReadableSave(b.value) then v.Some? && SaveOf(v.value) == ReadSave(b.value)
            else v.None?
  {
    hide DecodeField, Decode, ReadableLogin, ReadLogin, LoginOf, ReadableEncrypt, ReadEncrypt, EncryptOf, ReadableSave,
         ReadSave, SaveOf, LoginFields, EncryptFields, SaveFields, ZeroOf;
    ZeroBlocks();
    StructField(ConfigFields[0], "login", LoginFields, n);
    PointerField(ConfigFields[1], "encrypt", EncryptFields, n);
    StructField(ConfigFields[2], "save", SaveFields, n);
    if BlockOf(n, "login").Some? {
      LoginRead(BlockOf(n, "login").value);
    }
    if BlockOf(n, "encrypt").Some? {
      EncryptRead(BlockOf(n, "encrypt").value);
    }
    if BlockOf(n, "save").Some? {
      SaveRead(BlockOf(n, "save").value);
    }
  }

  lemma BodyRead(n: Node)
    requires IsMapping(n) && Get(n, "version") == Some(NInt(1))
    ensures var v := Decode(ConfigV1Type, n);
            if Readable(n) then v.Some? && ConfigOf(v.value) == ReadConfig(n) else v.None?
  {
    StructRead(ConfigFields, n);
    ConfigFieldsRead(n);
    hide DecodeField, Decode, DistinctKeys, ReadableLogin, ReadLogin, LoginOf, ReadableEncrypt, ReadEncrypt, EncryptOf,
         ReadableSave, ReadSave, SaveOf, ConfigFields, BlockOf;
  }

  lemma VersionRead(n: Node)
    ensures var e := Decode(EnvelopeType, n);
            && (e.Some? && FirstInt(e.value) == Some(1) <==> IsMapping(n) && Get(n, "version") == Some(NInt(1)))
  {
    var f := Plain(TPointer(TInt), VERSION);
    if n.NNull? {
      ZeroFieldsAt([f], 1, 0);
    } else {
      StructRead([f], n);
      if n.NMap? {
        VersionField(f, n);
      }
      hide DecodeField, Decode, DistinctKeys;
    }
  }

  lemma VersionField(f: Field, n: Node)
    requires f == Plain(TPointer(TInt), "version") && n.NMap?
    ensures DecodeField(f, n.entries) == Some(VPointer(Some(VInt(1)))) <==> Get(n, "version") == Some(NInt(1))
  {
  }

  /** A document is parsed exactly when it can be read, and then every setting is the value
      under its key: other versions, keys of the wrong kind and repeated keys are errors. */
  lemma ParsedIsRead(n: Node)
    ensures Parsed(n) == if Readable(n) then Some((1, V1(ReadConfig(n)))) else None
  {
    hide Decode, ReadConfig, ConfigOf, FirstInt;
    VersionRead(n);
    if IsMapping(n) && Get(n, "version") == Some(NInt(1)) {
      BodyRead(n);
    }
  }

  /** And what is printed has every setting under its key: reading it gives the config
      back. */
  lemma PrintedIsRead(c: VersionedConfig)
    ensures Readable(Document(c)) && V1(ReadConfig(Document(c))) == c
  {
    hide Readable, ReadConfig, Document;
    EnvelopeRoundTrips(c);
    ParsedIsRead(Document(c));
  }
}

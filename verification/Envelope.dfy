/** cmd/configfile.go: the envelope around a versioned config, printed and parsed. */
module Envelopes {
  import opened Stages
  import opened Reflect
  import opened ConfigFiles

  const VERSION := "version"
  const LATEST_CONFIG_VERSION := 1

  /** One constructor per config schema. */
  datatype VersionedConfig = V1(config: ConfigV1) {
    function ConfigVersion(): int { 1 }

    /** The config as the document printer sees it. */
    function Body(): Node
      ensures Body().NMap?
    {
      ConfigTyped(config);
      Encode(ConfigV1Type, ConfigValue(config))
    }
  }

  type Entries = seq<(string, Node)>

  /** The entries other than a version, in order. */
  function WithoutVersion(entries: Entries): Entries {
    if entries == [] then []
    else
      var last := entries[|entries| - 1];
      WithoutVersion(entries[..|entries| - 1]) + (if last.0 == VERSION then [] else [last])
  }

  function Enveloped(version: int, body: Entries): Entries {
    [(VERSION, NInt(version))] + WithoutVersion(body)
  }

  /** The document a config prints as. */
  function Document(c: VersionedConfig): Node {
    NMap(Enveloped(c.ConfigVersion(), c.Body().entries))
  }

  const EnvelopeType: Type := TStruct([Plain(TPointer(TInt), VERSION)])

  /** newVersionedConfig knows version 1 only. */
  function NewVersionedConfig(version: int): Option<Type> {
    if version == 1 then Some(ConfigV1Type) else None
  }

  /** The version key selects the schema the whole document is decoded into. */
  function Parsed(node: Node): Option<(int, VersionedConfig)> {
    var envelope := Decode(EnvelopeType, node);
    if envelope.None? then None
    else
      var version := FirstInt(envelope.value);
      if version.None? || NewVersionedConfig(version.value).None? then None
      else
        var v := Decode(NewVersionedConfig(version.value).value, node);
        if v.None? then None else Some((version.value, V1(ConfigOf(v.value))))
  }

  function FirstInt(v: Value): Option<int> {
    if v.VStruct? && |v.fields| > 0 && v.fields[0].VPointer? &&
      v.fields[0].target.Some? && v.fields[0].target.value.VInt?
    then Some(v.fields[0].target.value.i) else None
  }

  // ----- reading a struct back out of its reflection -----

  function StringAt(v: Value, i: nat): string {
    if v.VStruct? && i < |v.fields| && v.fields[i].VString? then v.fields[i].s else ""
  }

  function IntAt(v: Value, i: nat): int {
    if v.VStruct? && i < |v.fields| && v.fields[i].VInt? then v.fields[i].i else 0
  }

  function BoolAt(v: Value, i: nat): bool {
    v.VStruct? && i < |v.fields| && v.fields[i].VBool? && v.fields[i].b
  }

  function TargetAt(v: Value, i: nat): Option<Value> {
    if v.VStruct? && i < |v.fields| && v.fields[i].VPointer? then v.fields[i].target else None
  }

  function BlockAt(v: Value, i: nat): Value {
    if v.VStruct? && i < |v.fields| then v.fields[i] else VStruct([])
  }

  function IMAPOf(v: Value): IMAPLogin {
    IMAPLogin(StringAt(v, 0), IntAt(v, 1), StringAt(v, 2), StringAt(v, 3),
              StringAt(v, 4), StringAt(v, 5), BoolAt(v, 6), StringAt(v, 7))
  }

  function EncryptOf(v: Value): Encrypt {
    Encrypt(StringAt(v, 0), StringAt(v, 1), StringAt(v, 2), StringAt(v, 3))
  }

  function S3Of(v: Value): SaveS3 {
    SaveS3(StringAt(v, 0), StringAt(v, 1), StringAt(v, 2), StringAt(v, 3), StringAt(v, 4), StringAt(v, 5))
  }

  function LoginOf(v: Value): Login {
    var imap' := TargetAt(v, 0);
    Login(if imap'.None? then None else Some(IMAPOf(imap'.value)))
  }

  function SaveOf(v: Value): Save {
    var local, s3, tar := TargetAt(v, 0), TargetAt(v, 1), TargetAt(v, 2);
    Save(if local.None? then None else Some(SaveLocal(StringAt(local.value, 0))),
         if s3.None? then None else Some(S3Of(s3.value)),
         if tar.None? then None else Some(SaveTar(StringAt(tar.value, 0))))
  }

  function ConfigOf(v: Value): ConfigV1 {
    var encrypt := TargetAt(v, 1);
    ConfigV1(LoginOf(BlockAt(v, 0)),
             if encrypt.None? then None else Some(EncryptOf(encrypt.value)),
             SaveOf(BlockAt(v, 2)))
  }

  lemma ConfigOfValue(c: ConfigV1)
    ensures ConfigOf(ConfigValue(c)) == c
  {
  }

  class ConfigFile {
    var version: int
    var config: Option<VersionedConfig>

    constructor ()
      ensures config.None?
    {
      version, config := 0, None;
    }

    /** NewConfigFile */
    constructor New(c: VersionedConfig)
      ensures version == c.ConfigVersion() && config == Some(c)
    {
      version, config := c.ConfigVersion(), Some(c);
    }

    /** The version first, then the body entry by entry, dropping any version of its
        own. A file without a config is an error. */
    method MarshalYAML() returns (r: Option<Node>)
      ensures r == if config.None? then None else Some(Document(config.value))
    {
      if config.None? {
        return None;
      }
      var body := config.value.Body();
      if !body.NMap? {
        return None;
      }
      var out: Entries := [(VERSION, NInt(config.value.ConfigVersion()))];
      var i := 0;
      while i < |body.entries|
        invariant 0 <= i <= |body.entries|
        invariant out == Enveloped(config.value.ConfigVersion(), body.entries[..i])
      {
        assert body.entries[..i + 1][..i] == body.entries[..i];
        if body.entries[i].0 != VERSION {
          out := out + [body.entries[i]];
        }
        i := i + 1;
      }
      assert body.entries[..i] == body.entries;
      return Some(NMap(out));
    }

    /** Sets both fields from the document, or fails and leaves them alone. */
    method UnmarshalYAML(node: Node) returns (ok: bool)
      modifies this
      ensures ok <==> Parsed(node).Some?
      ensures if ok then version == Parsed(node).value.0 && config == Some(Parsed(node).value.1)
              else version == old(version) && config == old(config)
    {
      var envelope := Decode(EnvelopeType, node);
      if envelope.None? {
        return false;
      }
      var v := FirstInt(envelope.value);
      if v.None? {
        return false;
      }
      var schema := NewVersionedConfig(v.value);
      if schema.None? {
        return false;
      }
      var decoded := Decode(schema.value, node);
      if decoded.None? {
        return false;
      }
      version, config := v.value, Some(V1(ConfigOf(decoded.value)));
      return true;
    }
  }

  // ----- the printed document -----

  lemma {:induction false} WithoutVersionEntries(body: Entries, key: string)
    ensures forall k | 0 <= k < |WithoutVersion(body)| ::
            WithoutVersion(body)[k].0 != VERSION && WithoutVersion(body)[k] in body
    ensures key != VERSION ==> Lookup(WithoutVersion(body), key) == Lookup(body, key)
    ensures DistinctKeys(body) ==> DistinctKeys(WithoutVersion(body))
    decreases |body|
  {
    if body != [] {
      var front, last := body[..|body| - 1], body[|body| - 1];
      WithoutVersionEntries(front, key);
      if last.0 != VERSION {
        LookupAppend(WithoutVersion(front), last, key);
        forall k | 0 <= k < |WithoutVersion(front)| && DistinctKeys(body) ensures WithoutVersion(front)[k].0 != last.0 {
          assert WithoutVersion(front)[k] in front;
        }
      }
      assert WithoutVersion(front) + [] == WithoutVersion(front);
    }
  }

  lemma {:induction false} EntriesKeepOrder(a: Entries, b: Entries)
    ensures WithoutVersion(a + b) == WithoutVersion(a) + WithoutVersion(b)
    decreases |b|
  {
    if b == [] {
      assert a + b == a;
    } else {
      assert (a + b)[..|a + b| - 1] == a + b[..|b| - 1];
      EntriesKeepOrder(a, b[..|b| - 1]);
    }
  }

  lemma {:induction false} LookupBehind(e: (string, Node), entries: Entries, key: string)
    ensures Lookup([e] + entries, key) ==
            if Lookup(entries, key).Some? then Lookup(entries, key) else if e.0 == key then Some(e.1) else None
    decreases |entries|
  {
    if entries != [] {
      LookupBehind(e, entries[..|entries| - 1], key);
      assert ([e] + entries)[..|entries|] == [e] + entries[..|entries| - 1];
    } else {
      assert [e] + entries == [e];
      assert [e][..0] == [];
    }
  }

  lemma {:induction false} LookupOfForeign(entries: Entries, key: string)
    requires forall k | 0 <= k < |entries| :: entries[k].0 != key
    ensures Lookup(entries, key).None?
    decreases |entries|
  {
    if entries != [] {
      LookupOfForeign(entries[..|entries| - 1], key);
    }
  }

  /** Whatever the body, even one with a version of its own, the document has one
      version key, first and with the envelope's version; every other key keeps its
      place and its value. */
  lemma EnvelopeShape(version: int, body: Entries, key: string)
    ensures var out := Enveloped(version, body);
            && out[0] == (VERSION, NInt(version))
            && (forall k | 1 <= k < |out| :: out[k].0 != VERSION)
            && Lookup(out, key) == (if key == VERSION then Some(NInt(version)) else Lookup(body, key))
            && (DistinctKeys(body) ==> DistinctKeys(out))
  {
    hide WithoutVersion, Lookup;
    WithoutVersionEntries(body, key);
    var rest := WithoutVersion(body);
    LookupBehind((VERSION, NInt(version)), rest, key);
    if key == VERSION {
      LookupOfForeign(rest, VERSION);
    }
  }

  function Keys(entries: Entries): seq<string> {
    seq(|entries|, i requires 0 <= i < |entries| => entries[i].0)
  }

  /** The keys of a printed config, in order. */
  lemma PrintedKeys(c: VersionedConfig)
    ensures Document(c).NMap?
    ensures Keys(Document(c).entries) ==
            ["version", "login"] + (if c.config.encrypt.Some? then ["encrypt"] else []) + ["save"]
  {
    hide Encode, ConfigValue, HasType, LoginValue, SaveValue;
    BodyIsPrinted(c);
    BodyKeys(c);
    NoVersionField();
    var body := c.Body().entries;
    assert "version"[0] == 'v' && "login"[0] == 'l' && "encrypt"[0] == 'e' && "save"[0] == 's';
    ForeignVersion(body);
    assert Keys([(VERSION, NInt(1))] + body) == ["version"] + Keys(body);
    assert Document(c).entries == [(VERSION, NInt(1))] + body;
  }

  lemma BodyKeys(c: VersionedConfig)
    ensures Keys(c.Body().entries) ==
            ["login"] + (if c.config.encrypt.Some? then ["encrypt"] else []) + ["save"]
  {
    hide Encode, HasType, LoginValue, SaveValue, EncryptValue;
    BodyIsPrinted(c);
    var f, vs := ConfigFields, ConfigValue(c.config).fields;
    HaveTypePrefix(f, vs, 3, 0);
    HaveTypePrefix(f, vs, 3, 1);
    HaveTypePrefix(f, vs, 3, 2);
    assert Printed(f[0], vs[0]) && Printed(f[2], vs[2]);
    assert Printed(f[1], vs[1]) <==> c.config.encrypt.Some?;
    var one, two := EncodeFields(f, vs, 1), EncodeFields(f, vs, 2);
    assert EncodeFields(f, vs, 0) == [];
    assert Keys(one) == ["login"];
    assert Keys(two) == Keys(one) + (if c.config.encrypt.Some? then ["encrypt"] else []);
    assert Keys(EncodeFields(f, vs, 3)) == Keys(two) + ["save"];
  }

  lemma {:induction false} ForeignVersion(body: Entries)
    requires VERSION !in Keys(body)
    ensures WithoutVersion(body) == body
    decreases |body|
  {
    if body != [] {
      var front, last := body[..|body| - 1], body[|body| - 1];
      assert Keys(body) == Keys(front) + [last.0];
      ForeignVersion(front);
    }
  }

  lemma NoVersionField()
    ensures forall i | 0 <= i < |ConfigFields| :: !Skipped(ConfigFields[i]) && Name(ConfigFields[i]) != VERSION
  {
    assert VERSION[0] == 'v' && "login"[0] == 'l' && "encrypt"[0] == 'e' && "save"[0] == 's';
  }

  lemma EnvelopeDecodes(entries: Entries, version: int)
    requires DistinctKeys(entries) && Lookup(entries, VERSION) == Some(NInt(version))
    ensures Decode(EnvelopeType, NMap(entries)) == Some(VStruct([VPointer(Some(VInt(version)))]))
  {
    var f := Plain(TPointer(TInt), VERSION);
    var x, none: seq<Value> := VPointer(Some(VInt(version))), [];
    assert DecodeField(f, entries) == Some(x);
    assert [f][0] == f && none + [x] == [x];
    assert DecodeFields([f], entries, 0) == Some(none);
    assert DecodeFields([f], entries, 1) == Some(none + [x]);
  }

  /** For every config, parsing what it prints as gives back the version and the config:
      nil and empty blocks stay apart, omitted fields come back as zeros. */
  lemma EnvelopeRoundTrips(c: VersionedConfig)
    ensures Parsed(Document(c)) == Some((c.ConfigVersion(), c))
  {
    hide Encode, Decode, HasType, Regular, ConfigValue, ConfigOf, EncodeFields, Skipped;
    var v, body := ConfigValue(c.config), c.Body().entries;
    ConfigTyped(c.config);
    ConfigRegular();
    BodyIsPrinted(c);
    var fields, vs := ConfigFields, v.fields;
    EncodedKeys(fields, vs, |fields|);
    var entries := Enveloped(1, body);
    EnvelopeShape(1, body, VERSION);
    EnvelopeDecodes(entries, 1);
    NoVersionField();
    forall i | 0 <= i < |fields| && !Skipped(fields[i])
      ensures Lookup(entries, Name(fields[i])) == Lookup(body, Name(fields[i]))
    {
      EnvelopeShape(1, body, Name(fields[i]));
    }
    DecodeOfEncodeFields(fields, vs, entries, |fields|);
    assert vs[..|fields|] == vs;
    StructDecodes(fields, entries, vs);
    ConfigOfValue(c.config);
  }

  lemma BodyIsPrinted(c: VersionedConfig)
    ensures var v := ConfigValue(c.config);
            && v.VStruct? && |v.fields| == |ConfigFields| && FieldsHaveType(ConfigFields, v.fields, |ConfigFields|)
            && c.Body().entries == EncodeFields(ConfigFields, v.fields, |ConfigFields|)
            && FieldsRegular(ConfigFields, |ConfigFields|) && DistinctNames(ConfigFields)
  {
    ConfigTyped(c.config);
    ConfigRegular();
  }

  lemma StructDecodes(fields: seq<Field>, entries: Entries, vs: seq<Value>)
    requires DistinctKeys(entries) && DecodeFields(fields, entries, |fields|) == Some(vs)
    ensures Decode(TStruct(fields), NMap(entries)) == Some(VStruct(vs))
  {
  }
}

/** cmd/configfile.go: ConfigV1.Validate, with the two normalisers it uses from
    cmd/config_keys.go and stages/transform/keyserver.go. */
module Validation {
  import opened Stages
  import opened Runes
  import opened Text
  import opened ConfigFiles

  const TLS_STARTTLS := "STARTTLS"
  const TLS_IMPLICIT := "SSL"
  const TLS_NONE := "NONE"

  const TLSAliases: map<string, string> := map[
    "STARTTLS" := TLS_STARTTLS,
    "SMARTTLS" := TLS_STARTTLS,
    "SSL" := TLS_IMPLICIT,
    "TLS" := TLS_IMPLICIT,
    "IMPLICIT" := TLS_IMPLICIT,
    "NONE" := TLS_NONE,
    "" := ""]

  function NormalizeTLS(u: Tables, value: string): Option<string> {
    var key := u.ToUpper(Trim(value, IsSpace));
    if key in TLSAliases then Some(TLSAliases[key]) else None
  }

  /** The values a config may print: nothing, or a canonical name. */
  predicate CanonicalTLS(value: string) {
    value == "" || value == TLS_STARTTLS || value == TLS_IMPLICIT || value == TLS_NONE
  }

  /** strings.ReplaceAll(s, " ", "") over the first `n` runes. */
  function WithoutSpaces(s: string, n: nat): string
    requires n <= |s|
  {
    if n == 0 then "" else WithoutSpaces(s, n - 1) + (if s[n - 1] == ' ' then "" else [s[n - 1]])
  }

  predicate AllHex(s: string) { forall i | 0 <= i < |s| :: IsHex(s[i]) }

  function NormalizeFingerprint(u: Tables, fingerprint: string): Option<string> {
    var cleaned := u.ToUpper(WithoutSpaces(fingerprint, |fingerprint|));
    if |cleaned| == 40 && AllHex(cleaned) then Some(cleaned) else None
  }

  /** The key file contents and whether key material is usable. */
  datatype Keys = Keys(read: string -> Option<string>, usable: string -> bool)

  function Count(e: Encrypt): nat {
    (if e.publicKeyFile != "" then 1 else 0) + (if e.publicKeyString != "" then 1 else 0) +
    (if e.publicKeyFingerprint != "" then 1 else 0)
  }

  predicate ValidLogin(u: Tables, l: Login) {
    && l.imapLogin.Some?
    && var i := l.imapLogin.value;
    && i.host != "" && 0 <= i.port <= 65535 && i.username != "" && NormalizeTLS(u, i.tls).Some?
  }

  predicate ValidEncrypt(u: Tables, keys: Keys, e: Encrypt) {
    && Count(e) <= 1
    && (e.publicKeyServer != "" ==> e.publicKeyFingerprint != "")
    && (e.publicKeyFile != "" ==> keys.read(e.publicKeyFile).Some? && keys.usable(keys.read(e.publicKeyFile).value))
    && (e.publicKeyString != "" ==> keys.usable(e.publicKeyString))
    && (e.publicKeyFingerprint != "" ==> NormalizeFingerprint(u, e.publicKeyFingerprint).Some?)
  }

  predicate ValidSave(s: Save) {
    && (s.local.Some? || s.s3.Some? || s.tar.Some?)
    && (s.local.Some? ==> s.local.value.directory != "")
    && (s.s3.Some? ==> s.s3.value.bucket != "")
    && (s.tar.Some? ==> s.tar.value.path != "")
  }

  predicate Valid(u: Tables, keys: Keys, c: ConfigV1) {
    && ValidLogin(u, c.login)
    && (c.encrypt.Some? ==> ValidEncrypt(u, keys, c.encrypt.value))
    && ValidSave(c.save)
  }

  /** What can be wrong with a config, in the order it is reported. */
  datatype Problem =
    | LoginMissing | HostMissing | PortOutOfRange | UsernameMissing | UnknownTLS
    | SeveralKeySources | ServerWithoutFingerprint
    | KeyFileUnreadable | KeyFileUnusable | KeyTextUnusable | BadFingerprint
    | NoDestination | DirectoryMissing | BucketMissing | PathMissing

  function Rank(p: Problem): nat {
    match p
    case LoginMissing => 0 case HostMissing => 1 case PortOutOfRange => 2 case UsernameMissing => 3 case UnknownTLS => 4
    case SeveralKeySources => 5 case ServerWithoutFingerprint => 6
    case KeyFileUnreadable => 7 case KeyFileUnusable => 8 case KeyTextUnusable => 9 case BadFingerprint => 10
    case NoDestination => 11 case DirectoryMissing => 12 case BucketMissing => 13 case PathMissing => 14
  }

  /** Whether the config has the problem. */
  predicate Has(u: Tables, keys: Keys, c: ConfigV1, p: Problem) {
    match p
    case LoginMissing => c.login.imapLogin == None
    case HostMissing => c.login.imapLogin.Some? && c.login.imapLogin.value.host == ""
    case PortOutOfRange =>
      c.login.imapLogin.Some? && (c.login.imapLogin.value.port < 0 || c.login.imapLogin.value.port > 65535)
    case UsernameMissing => c.login.imapLogin.Some? && c.login.imapLogin.value.username == ""
    case UnknownTLS => c.login.imapLogin.Some? && NormalizeTLS(u, c.login.imapLogin.value.tls) == None
    case SeveralKeySources =>
      c.encrypt.Some? &&
      var e := c.encrypt.value;
      || (e.publicKeyFile != "" && e.publicKeyString != "")
      || (e.publicKeyFile != "" && e.publicKeyFingerprint != "")
      || (e.publicKeyString != "" && e.publicKeyFingerprint != "")
    case ServerWithoutFingerprint =>
      c.encrypt.Some? && c.encrypt.value.publicKeyServer != "" && c.encrypt.value.publicKeyFingerprint == ""
    case KeyFileUnreadable =>
      c.encrypt.Some? && c.encrypt.value.publicKeyFile != "" && keys.read(c.encrypt.value.publicKeyFile) == None
    case KeyFileUnusable =>
      c.encrypt.Some? && c.encrypt.value.publicKeyFile != "" &&
      var text := keys.read(c.encrypt.value.publicKeyFile);
      text.Some? && !keys.usable(text.value)
    case KeyTextUnusable =>
      c.encrypt.Some? && c.encrypt.value.publicKeyString != "" && !keys.usable(c.encrypt.value.publicKeyString)
    case BadFingerprint =>
      c.encrypt.Some? && c.encrypt.value.publicKeyFingerprint != "" &&
      NormalizeFingerprint(u, c.encrypt.value.publicKeyFingerprint) == None
    case NoDestination => c.save == Save(None, None, None)
    case DirectoryMissing => c.save.local == Some(SaveLocal(""))
    case BucketMissing => c.save.s3.Some? && c.save.s3.value.bucket == ""
    case PathMissing => c.save.tar == Some(SaveTar(""))
  }

  lemma LoginProblems(u: Tables, keys: Keys, c: ConfigV1)
    ensures ValidLogin(u, c.login) <==>
            && !Has(u, keys, c, LoginMissing) && !Has(u, keys, c, HostMissing) && !Has(u, keys, c, PortOutOfRange)
            && !Has(u, keys, c, UsernameMissing) && !Has(u, keys, c, UnknownTLS)
  {
    hide NormalizeTLS;
  }

  lemma EncryptProblems(u: Tables, keys: Keys, c: ConfigV1)
    ensures (c.encrypt.Some? ==> ValidEncrypt(u, keys, c.encrypt.value)) <==>
            && !Has(u, keys, c, SeveralKeySources) && !Has(u, keys, c, ServerWithoutFingerprint)
            && !Has(u, keys, c, KeyFileUnreadable) && !Has(u, keys, c, KeyFileUnusable)
            && !Has(u, keys, c, KeyTextUnusable) && !Has(u, keys, c, BadFingerprint)
  {
    hide NormalizeFingerprint;
  }

  lemma SaveProblems(u: Tables, keys: Keys, c: ConfigV1)
    ensures ValidSave(c.save) <==>
            && !Has(u, keys, c, NoDestination) && !Has(u, keys, c, DirectoryMissing)
            && !Has(u, keys, c, BucketMissing) && !Has(u, keys, c, PathMissing)
  {
  }

  /** A config is valid when nothing is wrong with it. */
  lemma ValidIffNoProblem(u: Tables, keys: Keys, c: ConfigV1)
    ensures Valid(u, keys, c) <==> forall p: Problem :: !Has(u, keys, c, p)
  {
    LoginProblems(u, keys, c);
    EncryptProblems(u, keys, c);
    SaveProblems(u, keys, c);
    hide Has, ValidLogin, ValidEncrypt, ValidSave;
    if Valid(u, keys, c) {
      forall p: Problem ensures !Has(u, keys, c, p) {
        match p
        case LoginMissing | HostMissing | PortOutOfRange | UsernameMissing | UnknownTLS =>
        case SeveralKeySources | ServerWithoutFingerprint =>
        case KeyFileUnreadable | KeyFileUnusable | KeyTextUnusable | BadFingerprint =>
        case NoDestination | DirectoryMissing | BucketMissing | PathMissing =>
      }
    }
    if forall p: Problem :: !Has(u, keys, c, p) {
      assert !Has(u, keys, c, LoginMissing) && !Has(u, keys, c, HostMissing) && !Has(u, keys, c, PortOutOfRange);
      assert !Has(u, keys, c, UsernameMissing) && !Has(u, keys, c, UnknownTLS);
      assert !Has(u, keys, c, SeveralKeySources) && !Has(u, keys, c, ServerWithoutFingerprint);
      assert !Has(u, keys, c, KeyFileUnreadable) && !Has(u, keys, c, KeyFileUnusable);
      assert !Has(u, keys, c, KeyTextUnusable) && !Has(u, keys, c, BadFingerprint);
      assert !Has(u, keys, c, NoDestination) && !Has(u, keys, c, DirectoryMissing);
      assert !Has(u, keys, c, BucketMissing) && !Has(u, keys, c, PathMissing);
    }
  }

  /** The first problem in order, None for a valid config. */
  method Validate(u: Tables, keys: Keys, c: ConfigV1) returns (r: Option<Problem>)
    ensures r.None? <==> Valid(u, keys, c)
    ensures r.Some? ==> Has(u, keys, c, r.value) && forall p | Rank(p) < Rank(r.value) :: !Has(u, keys, c, p)
  {
    hide NormalizeTLS, NormalizeFingerprint;
    if c.login.imapLogin.None? {
      return Some(LoginMissing);
    }
    var login := c.login.imapLogin.value;
    if login.host == "" {
      return Some(HostMissing);
    }
    if login.port < 0 || login.port > 65535 {
      return Some(PortOutOfRange);
    }
    if login.username == "" {
      return Some(UsernameMissing);
    }
    if NormalizeTLS(u, login.tls).None? {
      return Some(UnknownTLS);
    }
    if c.encrypt.Some? {
      var e := c.encrypt.value;
      var sources := [e.publicKeyFile, e.publicKeyString, e.publicKeyFingerprint];
      var set', i := 0, 0;
      while i < |sources|
        invariant 0 <= i <= 3
        invariant set' == (if i > 0 && e.publicKeyFile != "" then 1 else 0) +
                          (if i > 1 && e.publicKeyString != "" then 1 else 0) +
                          (if i > 2 && e.publicKeyFingerprint != "" then 1 else 0)
      {
        if sources[i] != "" {
          set' := set' + 1;
        }
        i := i + 1;
      }
      if set' > 1 {
        return Some(SeveralKeySources);
      }
      if e.publicKeyServer != "" && e.publicKeyFingerprint == "" {
        return Some(ServerWithoutFingerprint);
      }
    }
    if c.encrypt.Some? && c.encrypt.value.publicKeyFile != "" {
      var material := keys.read(c.encrypt.value.publicKeyFile);
      if material.None? {
        return Some(KeyFileUnreadable);
      }
      if !keys.usable(material.value) {
        return Some(KeyFileUnusable);
      }
    }
    if c.encrypt.Some? && c.encrypt.value.publicKeyString != "" {
      if !keys.usable(c.encrypt.value.publicKeyString) {
        return Some(KeyTextUnusable);
      }
    }
    if c.encrypt.Some? && c.encrypt.value.publicKeyFingerprint != "" {
      if NormalizeFingerprint(u, c.encrypt.value.publicKeyFingerprint).None? {
        return Some(BadFingerprint);
      }
    }
    if c.save.local.None? && c.save.s3.None? && c.save.tar.None? {
      return Some(NoDestination);
    }
    if c.save.local.Some? && c.save.local.value.directory == "" {
      return Some(DirectoryMissing);
    }
    if c.save.s3.Some? && c.save.s3.value.bucket == "" {
      return Some(BucketMissing);
    }
    if c.save.tar.Some? && c.save.tar.value.path == "" {
      return Some(PathMissing);
    }
    return None;
  }

  // ----- the normalisers -----

  /** Hex digits and spaces only, at least forty runes: the published pattern. */
  predicate LooksLikeFingerprint(s: string) {
    |s| >= 40 && forall i | 0 <= i < |s| :: IsHex(s[i]) || s[i] == ' '
  }

  lemma {:induction false} SpacesOnlyShorten(s: string, n: nat, k: nat)
    requires n <= |s|
    ensures |WithoutSpaces(s, n)| <= n
    ensures k < n && s[k] != ' ' ==> s[k] in WithoutSpaces(s, n)
    ensures forall i | 0 <= i < |WithoutSpaces(s, n)| :: WithoutSpaces(s, n)[i] != ' '
  {
    if n > 0 {
      SpacesOnlyShorten(s, n - 1, if k < n - 1 then k else 0);
    }
  }

  lemma {:induction false} SpacesOnlyRemoved(s: string, n: nat)
    requires n <= |s|
    ensures forall i | 0 <= i < |WithoutSpaces(s, n)| :: WithoutSpaces(s, n)[i] in s[..n]
  {
    if n > 0 {
      SpacesOnlyRemoved(s, n - 1);
      assert s[..n] == s[..n - 1] + [s[n - 1]];
    }
  }

  lemma {:induction false} WithoutSpacesConcat(a: string, b: string, n: nat)
    requires n <= |b|
    ensures WithoutSpaces(a + b, |a| + n) == WithoutSpaces(a, |a|) + WithoutSpaces(b, n)
  {
    if n == 0 {
      WithoutSpacesPrefix(a, b, |a|);
    } else {
      WithoutSpacesConcat(a, b, n - 1);
    }
  }

  lemma {:induction false} WithoutSpacesPrefix(a: string, b: string, n: nat)
    requires n <= |a|
    ensures WithoutSpaces(a + b, n) == WithoutSpaces(a, n)
  {
    if n > 0 {
      WithoutSpacesPrefix(a, b, n - 1);
    }
  }

  /** Each space vanishes and each other rune stays, wherever it stands. */
  lemma OneRuneWithoutSpaces(a: string, c: char, b: string)
    ensures var s := a + [c] + b;
            WithoutSpaces(s, |s|) ==
            WithoutSpaces(a, |a|) + (if c == ' ' then "" else [c]) + WithoutSpaces(b, |b|)
  {
    JoinedWithoutSpaces(a + [c], b);
    JoinedWithoutSpaces(a, [c]);
    assert WithoutSpaces([c], 1) == if c == ' ' then "" else [c] by {
      assert WithoutSpaces([c], 0) == "";
    }
    hide WithoutSpaces;
  }

  lemma JoinedWithoutSpaces(a: string, b: string)
    ensures WithoutSpaces(a + b, |a + b|) == WithoutSpaces(a, |a|) + WithoutSpaces(b, |b|)
  {
    hide WithoutSpaces;
    WithoutSpacesConcat(a, b, |b|);
  }

  /** What an accepted fingerprint becomes: its forty digits, upper-cased, in order; and
      that is a fingerprint that stays as it is. */
  lemma FingerprintIsCleaned(u: Tables, s: string)
    requires u.Valid() && NormalizeFingerprint(u, s).Some?
    ensures var x, w := NormalizeFingerprint(u, s).value, WithoutSpaces(s, |s|);
            && |x| == |w| == 40
            && (forall i | 0 <= i < 40 :: ('0' <= x[i] <= '9' || 'A' <= x[i] <= 'F') && x[i] == AsciiUpper(w[i]))
            && NormalizeFingerprint(u, x) == Some(x)
  {
    var x, w := NormalizeFingerprint(u, s).value, WithoutSpaces(s, |s|);
    forall i | 0 <= i < 40
      ensures ('0' <= x[i] <= '9' || 'A' <= x[i] <= 'F') && x[i] == AsciiUpper(w[i]) && u.upper(x[i]) == x[i]
    {
      UpperIsHex(u, w[i]);
      assert IsAscii(w[i]);
      assert IsAscii(x[i]);
    }
    NoSpacesToDrop(x, |x|);
    assert x[..|x|] == x && u.ToUpper(x) == x;
  }

  lemma {:induction false} NoSpacesToDrop(s: string, n: nat)
    requires n <= |s| && ' ' !in s
    ensures WithoutSpaces(s, n) == s[..n]
  {
    if n > 0 {
      NoSpacesToDrop(s, n - 1);
      assert s[n - 1] in s;
    }
  }

  lemma UpperIsHex(u: Tables, c: char)
    requires u.Valid()
    ensures IsHex(u.upper(c)) <==> IsHex(c)
  {
  }

  /** A fingerprint is accepted exactly when it is forty hex digits with spaces
      anywhere between them. */
  lemma FingerprintAccepted(u: Tables, s: string)
    requires u.Valid()
    ensures NormalizeFingerprint(u, s).Some? <==>
            |WithoutSpaces(s, |s|)| == 40 && forall i | 0 <= i < |s| :: IsHex(s[i]) || s[i] == ' '
  {
    hide Tables.Valid;
    var w := WithoutSpaces(s, |s|);
    forall i | 0 <= i < |w| ensures IsHex(u.ToUpper(w)[i]) <==> IsHex(w[i]) {
      UpperIsHex(u, w[i]);
    }
    SpacesOnlyRemoved(s, |s|);
    assert s[..|s|] == s;
    if AllHex(w) {
      forall i | 0 <= i < |s| ensures IsHex(s[i]) || s[i] == ' ' {
        SpacesOnlyShorten(s, |s|, i);
      }
    }
    if forall i | 0 <= i < |s| :: IsHex(s[i]) || s[i] == ' ' {
      SpacesOnlyShorten(s, |s|, 0);
      forall i | 0 <= i < |w| ensures IsHex(w[i]) {
        assert w[i] in s;
      }
    }
  }

  /** Every accepted fingerprint matches the published pattern. */
  lemma AcceptedLooksRight(u: Tables, s: string)
    requires u.Valid() && NormalizeFingerprint(u, s).Some?
    ensures LooksLikeFingerprint(s)
  {
    FingerprintAccepted(u, s);
    SpacesOnlyShorten(s, |s|, 0);
  }

  predicate IsUpperAscii(s: string) { forall i | 0 <= i < |s| :: 'A' <= s[i] <= 'Z' }

  lemma UpperTextFixed(u: Tables, s: string)
    requires u.Valid() && IsUpperAscii(s)
    ensures u.ToUpper(Trim(s, IsSpace)) == s
  {
    TrimIdentity(s, IsSpace);
    forall i | 0 <= i < |s| ensures u.upper(s[i]) == s[i] {
      assert IsAscii(s[i]);
    }
    assert u.ToUpper(s) == s;
  }

  lemma AliasTable()
    ensures forall key | key in TLSAliases :: CanonicalTLS(TLSAliases[key])
    ensures TLS_STARTTLS in TLSAliases && TLSAliases[TLS_STARTTLS] == TLS_STARTTLS
    ensures TLS_IMPLICIT in TLSAliases && TLSAliases[TLS_IMPLICIT] == TLS_IMPLICIT
    ensures TLS_NONE in TLSAliases && TLSAliases[TLS_NONE] == TLS_NONE
    ensures "" in TLSAliases && TLSAliases[""] == ""
  {
    assert "NONE"[0] == 'N' && "SSL"[0] == 'S' && "TLS"[0] == 'T' &&
           "IMPLICIT"[0] == 'I' && |"STARTTLS"| == |"SMARTTLS"| == 8;
  }

  /** What a TLS mode is read as: spaces around it and case do not matter, three names and
      three aliases are known, and nothing else is. */
  lemma NormalizeTLSReads(u: Tables, before: string, v: string, after: string)
    requires forall c | c in before || c in after :: IsSpace(c)
    requires v != "" ==> !IsSpace(v[0]) && !IsSpace(v[|v| - 1])
    ensures var w := u.ToUpper(v);
            NormalizeTLS(u, before + v + after) ==
            if w == "STARTTLS" || w == "SMARTTLS" then Some("STARTTLS")
            else if w == "SSL" || w == "TLS" || w == "IMPLICIT" then Some("SSL")
            else if w == "NONE" then Some("NONE")
            else if w == "" then Some("")
            else None
  {
    hide Trim, IsSpace;
    TrimPadding(before, v, after, IsSpace);
    AliasTable();
    KnownAliases();
  }

  lemma KnownAliases()
    ensures forall key :: key in TLSAliases <==>
              key in ["STARTTLS", "SMARTTLS", "SSL", "TLS", "IMPLICIT", "NONE", ""]
    ensures TLSAliases["SMARTTLS"] == "STARTTLS" && TLSAliases["TLS"] == "SSL" && TLSAliases["IMPLICIT"] == "SSL"
  {
    assert "NONE"[0] == 'N' && "SSL"[0] == 'S' && "TLS"[0] == 'T' && "IMPLICIT"[0] == 'I' && "SMARTTLS"[1] == 'M';
  }

  /** Normalising gives nothing or a canonical name, and changes neither. */
  lemma NormalizeTLSCanonical(u: Tables, value: string)
    requires u.Valid()
    ensures NormalizeTLS(u, value).Some? ==> CanonicalTLS(NormalizeTLS(u, value).value)
    ensures CanonicalTLS(value) ==> NormalizeTLS(u, value) == Some(value)
  {
    hide TLSAliases;
    AliasTable();
    if CanonicalTLS(value) {
      CanonicalIsUpper(value);
      UpperTextFixed(u, value);
    }
  }

  lemma CanonicalIsUpper(value: string)
    requires CanonicalTLS(value)
    ensures IsUpperAscii(value)
  {
  }

  /** So normalising twice is normalising once. */
  lemma NormalizeTLSIdempotent(u: Tables, value: string)
    requires u.Valid() && NormalizeTLS(u, value).Some?
    ensures NormalizeTLS(u, NormalizeTLS(u, value).value) == NormalizeTLS(u, value)
  {
    NormalizeTLSCanonical(u, value);
    NormalizeTLSCanonical(u, NormalizeTLS(u, value).value);
  }

  /** "TLS" is accepted as an alias, without being canonical. */
  lemma TLSAliasIsAccepted(u: Tables)
    requires u.Valid()
    ensures NormalizeTLS(u, "TLS") == Some(TLS_IMPLICIT) && !CanonicalTLS("TLS")
  {
    UpperTextFixed(u, "TLS");
    assert "TLS"[0] == 'T' && "SSL"[0] == 'S';
  }
}

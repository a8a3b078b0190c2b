/** stages/transform/transform.go and cmd/decrypt.go: what happens to an artifact on
    its way to storage, and where a decrypted file goes. Ciphers are parameters. */
module Transform {
  import opened Text
  import opened Stages
  import opened LocalStore

  datatype Scheme = Age | PGP {
    function Suffix(): string { if Age? then ".age" else ".pgp" }
  }

  /** Stage 2. `seal` may use a fresh nonce per call and may fail; `open` belongs to
      the holder of the private key. */
  datatype Transformer =
    | PassThrough
    | Encryptor(scheme: Scheme, seal: (int, Bytes) -> Option<Bytes>, open: Bytes -> Option<Bytes>)
  {
    ghost predicate Valid() {
      Encryptor? ==> forall nonce, data {:trigger seal(nonce, data)} ::
                       seal(nonce, data).Some? ==> open(seal(nonce, data).value) == Some(data)
    }

    /** Encryption never fails. */
    ghost predicate Total() {
      Encryptor? ==> forall nonce, data {:trigger seal(nonce, data)} :: seal(nonce, data).Some?
    }

    function Suffix(): (x: string)
      ensures '/' !in x
    {
      if PassThrough? then "" else scheme.Suffix()
    }

    /** What the owner of the backup gets back from stored data. */
    function Recover(data: Bytes): Option<Bytes> {
      if PassThrough? then Some(data) else open(data)
    }

    /** `stored` is what `plain` became: same path plus the suffix, and data that
        opens to the original. */
    predicate Carries(plain: Artifact, stored: Artifact) {
      stored.path == plain.path + Suffix() && Recover(stored.data) == Some(plain.data)
    }

    /** Without encryption the artifact passes as it is; with it, the sealed data goes on
        under the scheme's extension, unless sealing fails. */
    lemma TransformSeals(nonce: int, artifact: Artifact)
      requires Valid()
      ensures PassThrough? ==> Transform(nonce, artifact) == Some(artifact)
      ensures Encryptor? ==>
                Transform(nonce, artifact) ==
                match seal(nonce, artifact.data)
                case None => None
                case Some(data) => Some(Artifact(artifact.path + (if scheme == Age then ".age" else ".pgp"), data))
    {
    }

    /** Transformer.Transform */
    function Transform(nonce: int, artifact: Artifact): (r: Option<Artifact>)
      requires Valid()
      ensures r.None? ==> !Total()
      ensures r.Some? ==> Carries(artifact, r.value)
    {
      if PassThrough? then
        assert artifact.path + "" == artifact.path;
        Some(artifact)
      else
        var ciphertext := seal(nonce, artifact.data);
        if ciphertext.None? then None else Some(Sealed(artifact, scheme, ciphertext.value))
    }
  }

  function Sealed(artifact: Artifact, scheme: Scheme, ciphertext: Bytes): Artifact {
    Artifact(artifact.path + scheme.Suffix(), ciphertext)
  }

  /** strings.TrimSuffix */
  function TrimSuffix(s: string, x: string): string {
    if |x| <= |s| && s[|s| - |x|..] == x then s[..|s| - |x|] else s
  }

  /** filepath.Base of a slash-separated name: its last component. */
  function LastName(path: string): string
  {
    var parts := Split(path, '/');
    parts[|parts| - 1]
  }

  /** A file name given as text. */
  function Named(path: string): Location {
    Location(path != "" && path[0] == '/', Split(path, '/'))
  }

  /** Where a decrypted file is written: beside its input, or in `outputDir` under the
      input's last name. */
  function DecryptedPath(path: string, scheme: Scheme, outputDir: Option<Location>): Location {
    var trimmed := TrimSuffix(path, scheme.Suffix());
    var target := if trimmed == path then path + ".decrypted" else trimmed;
    if outputDir.Some? then Joined(outputDir.value, LastName(target))
    else Named(target)
  }

  lemma SuffixTrims(path: string, x: string)
    requires x != ""
    ensures TrimSuffix(path + x, x) == path
    ensures TrimSuffix(path + x, x) != path + x
  {
    assert (path + x)[|path|..] == x;
  }

  /** Decrypting beside its input gives a sealed artifact its own name back. */
  lemma DecryptUndoesSealing(artifact: Artifact, scheme: Scheme, ciphertext: Bytes)
    ensures DecryptedPath(Sealed(artifact, scheme, ciphertext).path, scheme, None) == Named(artifact.path)
  {
    SuffixTrims(artifact.path, scheme.Suffix());
  }

  /** A file without the scheme's extension decrypts beside it, marked as decrypted. */
  lemma ForeignNamesAreMarked(path: string, scheme: Scheme)
    requires |path| < 4 || path[|path| - 4..] != (if scheme == Age then ".age" else ".pgp")
    ensures DecryptedPath(path, scheme, None) == Named(path + ".decrypted")
  {
  }

  /** In an output directory a sealed artifact lands under its last name. */
  lemma DecryptedInDirectory(dir: Location, path: string, scheme: Scheme)
    requires ProperName(LastName(path))
    ensures DecryptedPath(path + scheme.Suffix(), scheme, Some(dir)) ==
            Location(dir.rooted, Clean(dir).parts + [LastName(path)])
  {
    SuffixTrims(path, scheme.Suffix());
    LastNameLands(dir, path);
  }

  /** Without an output directory the input itself is never overwritten. */
  lemma DecryptNeverOverwritesInput(path: string, scheme: Scheme)
    ensures DecryptedPath(path, scheme, None).parts != Named(path).parts
  {
    var t := TrimSuffix(path, scheme.Suffix());
    var target := if t == path then path + ".decrypted" else t;
    assert Join(Split(target, '/'), '/') == target;
    assert Join(Split(path, '/'), '/') == path;
  }

  /** In an output directory sealed artifacts keep only their last names, so two of
      them are written to one file exactly when those are equal: the mailbox and
      month no longer tell them apart. */
  lemma DecryptedTogether(dir: Location, a: string, b: string, scheme: Scheme)
    requires ProperName(LastName(a)) && ProperName(LastName(b))
    ensures DecryptedPath(a + scheme.Suffix(), scheme, Some(dir)) ==
            DecryptedPath(b + scheme.Suffix(), scheme, Some(dir))
            <==> LastName(a) == LastName(b)
  {
    SuffixTrims(a, scheme.Suffix());
    SuffixTrims(b, scheme.Suffix());
    LastNameLands(dir, a);
    LastNameLands(dir, b);
    var c := Clean(dir).parts;
    assert (c + [LastName(a)])[|c|] == LastName(a) && (c + [LastName(b)])[|c|] == LastName(b);
  }

  lemma LastNameLands(dir: Location, a: string)
    requires ProperName(LastName(a))
    ensures Joined(dir, LastName(a)) == Location(dir.rooted, Clean(dir).parts + [LastName(a)])
  {
    hide Split;
    var n := LastName(a);
    SplitPlain(n);
    ProperPathResolves(dir, n);
    ResolveIsContainment(dir, n);
  }
}

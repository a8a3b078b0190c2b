/** stages/store/local.go: the directory sink. File names are lists of components; lexical
    cleaning, joining and relating follow path/filepath. */
module LocalStore {
  import opened Text
  import opened Stages
  import opened Sinks
  import Paths

  type Components = seq<string>

  /** A file name: absolute or not, and its slash-separated components. */
  datatype Location = Location(rooted: bool, parts: Components)

  /** One component pushed onto an already clean prefix. */
  function Push(rooted: bool, clean: Components, c: string): Components {
    if c == "" || c == "." then clean
    else if c == ".." then
      if clean != [] && clean[|clean| - 1] != ".." then clean[..|clean| - 1]
      else if rooted then clean
      else clean + [c]
    else clean + [c]
  }

  /** Cleaning the first `n` components, starting from a clean prefix. */
  function PushAll(rooted: bool, clean: Components, parts: Components, n: nat): Components
    requires n <= |parts|
  {
    if n == 0 then clean else Push(rooted, PushAll(rooted, clean, parts, n - 1), parts[n - 1])
  }

  /** filepath.Clean */
  function Clean(l: Location): Location {
    Location(l.rooted, PushAll(l.rooted, [], l.parts, |l.parts|))
  }

  /** filepath.Join(root, path) */
  function Joined(root: Location, path: string): Location {
    Clean(Location(root.rooted, root.parts + Split(path, '/')))
  }

  function CommonPrefix(a: Components, b: Components, k: nat): (n: nat)
    requires k <= |a| && k <= |b|
    ensures k <= n <= |a| && n <= |b|
    ensures forall i | k <= i < n :: a[i] == b[i]
    ensures n < |a| && n < |b| ==> a[n] != b[n]
    decreases |a| - k
  {
    if k == |a| || k == |b| || a[k] != b[k] then k else CommonPrefix(a, b, k + 1)
  }

  /** filepath.Rel: None when the target cannot be made relative. */
  function Rel(base: Location, target: Location): Option<Components> {
    var b, t := Clean(base), Clean(target);
    if b.rooted != t.rooted then None
    else
      var k := CommonPrefix(b.parts, t.parts, 0);
      if k < |b.parts| && b.parts[k] == ".." then None
      else Some(seq(|b.parts| - k, _ => "..") + t.parts[k..])
  }

  /** Local.resolve: where an artifact path lands, None when that escapes the root. */
  function Resolve(root: Location, path: string): Option<Location> {
    var target := Joined(root, path);
    var rel := Rel(root, target);
    if rel.None? || (rel.value != [] && rel.value[0] == "..") then None else Some(target)
  }

  // ----- what cleaning leaves -----

  predicate ProperName(c: string) { c != "" && c != "." && c != ".." }

  predicate AllProper(parts: Components) {
    forall i | 0 <= i < |parts| :: ProperName(parts[i])
  }

  /** Leading ".." components (none when rooted), then proper names. */
  predicate IsClean(l: Location) {
    && (forall i | 0 <= i < |l.parts| :: l.parts[i] != "" && l.parts[i] != ".")
    && (forall i | 0 <= i < |l.parts| && l.parts[i] == ".." ::
          !l.rooted && forall j | 0 <= j < i :: l.parts[j] == "..")
  }

  lemma {:induction false} PushAllIsClean(rooted: bool, clean: Components, parts: Components, n: nat)
    requires n <= |parts| && IsClean(Location(rooted, clean))
    ensures IsClean(Location(rooted, PushAll(rooted, clean, parts, n)))
  {
    if n > 0 {
      PushAllIsClean(rooted, clean, parts, n - 1);
    }
  }

  lemma {:induction false} PushAllClean(l: Location, n: nat)
    requires IsClean(l) && n <= |l.parts|
    ensures PushAll(l.rooted, [], l.parts, n) == l.parts[..n]
  {
    if n > 0 {
      PushAllClean(l, n - 1);
    }
  }

  /** Clean is the identity exactly on clean names, so it is idempotent. */
  lemma CleanFixedPoints(l: Location)
    ensures Clean(l) == l <==> IsClean(l)
    ensures IsClean(Clean(l))
  {
    PushAllIsClean(l.rooted, [], l.parts, |l.parts|);
    if IsClean(l) {
      PushAllClean(l, |l.parts|);
    }
  }

  lemma {:induction false} PushAllSplits(rooted: bool, clean: Components, a: Components, b: Components, n: nat)
    requires n <= |b|
    ensures PushAll(rooted, clean, a + b, |a| + n) == PushAll(rooted, PushAll(rooted, clean, a, |a|), b, n)
  {
    if n == 0 {
      PushAllPrefix(rooted, clean, a, b, |a|);
    } else {
      PushAllSplits(rooted, clean, a, b, n - 1);
    }
  }

  lemma PushedAndPopped(rooted: bool, clean: Components, name: string)
    requires ProperName(name)
    ensures PushAll(rooted, clean, [name, ".."], 2) == clean
  {
    assert PushAll(rooted, clean, [name, ".."], 1) == clean + [name];
    assert (clean + [name])[..|clean|] == clean;
  }

  /** A name followed by ".." cleans to nothing. */
  lemma UpUndoesName(rooted: bool, a: Components, name: string, b: Components)
    requires ProperName(name)
    ensures Clean(Location(rooted, a + [name, ".."] + b)) == Clean(Location(rooted, a + b))
  {
    hide PushAll;
    var c := PushAll(rooted, [], a, |a|);
    PushAllSplits(rooted, [], a, [name, ".."], 2);
    PushedAndPopped(rooted, c, name);
    PushAllSplits(rooted, [], a + [name, ".."], b, |b|);
    PushAllSplits(rooted, [], a, b, |b|);
  }

  lemma NothingPushed(rooted: bool, clean: Components, c: string)
    requires c == "" || c == "." || (c == ".." && rooted && clean == [])
    ensures PushAll(rooted, clean, [c], 1) == clean
  {
    assert PushAll(rooted, clean, [c], 0) == clean;
  }

  /** Empty components and "." clean to nothing, and so does ".." at the root. */
  lemma NothingToClean(rooted: bool, a: Components, c: string, b: Components)
    requires c == "" || c == "." || (c == ".." && rooted && PushAll(rooted, [], a, |a|) == [])
    ensures Clean(Location(rooted, a + [c] + b)) == Clean(Location(rooted, a + b))
  {
    hide PushAll;
    PushAllSplits(rooted, [], a, [c], 1);
    NothingPushed(rooted, PushAll(rooted, [], a, |a|), c);
    PushAllSplits(rooted, [], a + [c], b, |b|);
    PushAllSplits(rooted, [], a, b, |b|);
  }

  lemma {:induction false} PushAllPrefix(rooted: bool, clean: Components, a: Components, b: Components, n: nat)
    requires n <= |a|
    ensures PushAll(rooted, clean, a + b, n) == PushAll(rooted, clean, a, n)
  {
    if n > 0 {
      PushAllPrefix(rooted, clean, a, b, n - 1);
    }
  }

  lemma {:induction false} PushProper(rooted: bool, clean: Components, parts: Components, n: nat)
    requires n <= |parts| && AllProper(parts)
    ensures PushAll(rooted, clean, parts, n) == clean + parts[..n]
  {
    if n > 0 {
      assert ProperName(parts[n - 1]);
      PushProper(rooted, clean, parts, n - 1);
    }
  }

  // ----- containment -----

  /** At the root or below it: the clean root, then proper names only. */
  predicate Below(root: Location, target: Location) {
    && target.rooted == root.rooted
    && Clean(root).parts <= target.parts
    && AllProper(target.parts[|Clean(root).parts|..])
  }

  /** A path is accepted exactly when its lexical target lies at or below the root. */
  lemma ResolveIsContainment(root: Location, path: string)
    ensures Resolve(root, path).Some? <==> Below(root, Joined(root, path))
    ensures Resolve(root, path).Some? ==> Resolve(root, path).value == Joined(root, path)
  {
    var b, t := Clean(root), Joined(root, path);
    CleanFixedPoints(root);
    CleanFixedPoints(Location(root.rooted, root.parts + Split(path, '/')));
    CleanFixedPoints(t);
    RelOfClean(b, t);
  }

  lemma RelOfClean(b: Location, t: Location)
    requires IsClean(b) && IsClean(t) && b.rooted == t.rooted
    ensures var k := CommonPrefix(b.parts, t.parts, 0);
            var rel := seq(|b.parts| - k, _ => "..") + t.parts[k..];
            var refused := (k < |b.parts| && b.parts[k] == "..") || (rel != [] && rel[0] == "..");
            !refused <==> b.parts <= t.parts && AllProper(t.parts[|b.parts|..])
  {
    var k := CommonPrefix(b.parts, t.parts, 0);
    var rel := seq(|b.parts| - k, _ => "..") + t.parts[k..];
    if k < |b.parts| {
      assert rel[0] == "..";
    } else {
      assert rel == t.parts[k..];
    }
  }

  /** A path of proper names is always accepted, and lands at the clean root followed
      by its own components. */
  lemma ProperPathResolves(root: Location, path: string)
    requires AllProper(Split(path, '/'))
    ensures Resolve(root, path) == Some(Location(root.rooted, Clean(root).parts + Split(path, '/')))
  {
    var parts := Split(path, '/');
    PushAllSplits(root.rooted, [], root.parts, parts, |parts|);
    PushProper(root.rooted, Clean(root).parts, parts, |parts|);
    assert parts[..|parts|] == parts;
    assert Joined(root, path).parts == Clean(root).parts + parts;
    assert Joined(root, path).parts[|Clean(root).parts|..] == parts;
    ResolveIsContainment(root, path);
  }

  /** Different paths of proper names never land on one file. */
  lemma ResolveInjective(root: Location, path: string, path': string)
    requires AllProper(Split(path, '/')) && AllProper(Split(path', '/'))
    requires Resolve(root, path) == Resolve(root, path')
    ensures path == path'
  {
    ProperPathResolves(root, path);
    ProperPathResolves(root, path');
    var c := Clean(root).parts;
    assert (c + Split(path, '/'))[|c|..] == Split(path, '/');
    assert (c + Split(path', '/'))[|c|..] == Split(path', '/');
    assert Join(Split(path, '/'), '/') == path && Join(Split(path', '/'), '/') == path';
  }

  // ----- artifact paths -----

  lemma SplitPlain(s: string)
    requires '/' !in s
    ensures Split(s, '/') == [s]
  {
    SplitOfJoin([s], '/');
  }

  function Directory(p: Platform, m: Message, t: Instant): string {
    Paths.SafePathOf(m.mailbox) + "/" + p.Year(t) + "/" + p.Month(t)
  }

  lemma DirectoryComponents(p: Platform, m: Message, t: Instant)
    requires p.Valid()
    ensures Split(Directory(p, m, t), '/') == Split(Paths.SafePathOf(m.mailbox), '/') + [p.Year(t), p.Month(t)]
  {
    hide Paths.SafePathOf, Split, Pad;
    var a := Paths.SafePathOf(m.mailbox);
    StampHasNo(p, t, '/');
    SplitPlain(p.Year(t));
    SplitPlain(p.Month(t));
    SplitConcat(a, p.Year(t), '/');
    SplitConcat(a + "/" + p.Year(t), p.Month(t), '/');
  }

  lemma SplitSource(dir: string, leaf: string, x: string)
    requires '/' !in leaf && '/' !in x
    ensures Split(dir + "/" + (leaf + ".eml" + x), '/') == Split(dir, '/') + [leaf + ".eml" + x]
  {
    hide Split;
    SplitPlain(leaf + ".eml" + x);
    SplitConcat(dir, leaf + ".eml" + x, '/');
  }

  lemma SplitAttachment(dir: string, leaf: string, name: string, x: string)
    requires '/' !in leaf && '/' !in name && '/' !in x
    ensures Split(dir + "/" + (leaf + ".attachments") + "/" + (name + x), '/') ==
            Split(dir, '/') + [leaf + ".attachments", name + x]
  {
    hide Split;
    SplitPlain(leaf + ".attachments");
    SplitPlain(name + x);
    SplitConcat(dir, leaf + ".attachments", '/');
    SplitConcat(dir + "/" + (leaf + ".attachments"), name + x, '/');
  }

  lemma ArtifactInDirectory(p: Platform, m: Message, i: nat, x: string, now: Instant)
    requires i <= |m.attachments|
    ensures var t := FiledAt(m, now);
            ArtifactsOf(p, m, now)[i].path + x ==
            if i == 0 then Directory(p, m, t) + "/" + (Leaf(p, m, t) + ".eml" + x)
            else Directory(p, m, t) + "/" + (Leaf(p, m, t) + ".attachments") + "/" + (AttachmentName(m, i - 1) + x)
  {
    hide Paths.SafePathOf, Leaf, Pad, AttachmentName, Directory, ArtifactsOf, BasePath;
    var t := FiledAt(m, now);
    assert BasePath(p, m, now) == Directory(p, m, t) + "/" + Leaf(p, m, t) by {
      BaseInDirectory(p, m, now);
    }
    PathIsBaseDotTail(p, m, now, i);
  }

  lemma BaseInDirectory(p: Platform, m: Message, now: Instant)
    ensures BasePath(p, m, now) == Directory(p, m, FiledAt(m, now)) + "/" + Leaf(p, m, FiledAt(m, now))
  {
    hide Paths.SafePathOf, Leaf, Pad;
  }

  /** The components of an artifact path: the mailbox, the year and month of the message's
      date, or of now when it has none, and one or two names derived from the message. */
  lemma ArtifactComponents(p: Platform, m: Message, i: nat, x: string, now: Instant)
    requires p.Valid() && SafeAttachments(m) && i <= |m.attachments| && '/' !in x
    ensures var t := if m.date == ZERO then now else m.date;
            Split(ArtifactsOf(p, m, now)[i].path + x, '/') ==
            Split(Paths.SafePathOf(m.mailbox), '/') + [p.Year(t), p.Month(t)] +
            (if i == 0 then [Leaf(p, m, t) + ".eml" + x]
             else [Leaf(p, m, t) + ".attachments", AttachmentName(m, i - 1) + x])
  {
    hide Paths.SafePathOf, Leaf, Pad, AttachmentName, Split, Directory, ArtifactsOf;
    var t := FiledAt(m, now);
    var dir, leaf := Directory(p, m, t), Leaf(p, m, t);
    ArtifactInDirectory(p, m, i, x, now);
    DirectoryComponents(p, m, t);
    LeafHasNo(p, m, t, '/');
    if i == 0 {
      SplitSource(dir, leaf, x);
    } else {
      NameHasNoSlash(m, i - 1);
      SplitAttachment(dir, leaf, AttachmentName(m, i - 1), x);
    }
  }

  lemma NameIsProper(m: Message, i: nat, x: string)
    requires SafeAttachments(m) && i < |m.attachments|
    ensures ProperName(AttachmentName(m, i) + x)
  {
    hide Decimal;
    var name := AttachmentName(m, i);
    assert Paths.IsSafeName(m.attachments[i].filename);
    assert name != "" && name[0] != '.';
    assert (name + x)[0] == name[0];
  }

  lemma LongIsProper(s: string)
    requires |s| > 2
    ensures ProperName(s)
  {
  }

  lemma MailboxIsProper(name: string)
    ensures AllProper(Split(Paths.SafePathOf(name), '/'))
  {
    hide Paths.SafePathOf;
    Paths.SafePathIsSafe(name);
    var parts := Split(Paths.SafePathOf(name), '/');
    forall i | 0 <= i < |parts| ensures ProperName(parts[i]) {
      assert Paths.IsCleanPart(parts[i]);
      assert Paths.PartRune(parts[i][0]);
    }
  }

  /** Every artifact path, suffixed or not, is made of proper names: the directory
      sink accepts it and stores it under the root. */
  lemma ArtifactPathsAreProper(p: Platform, m: Message, i: nat, x: string, now: Instant)
    requires p.Valid() && SafeAttachments(m) && i <= |m.attachments| && '/' !in x
    ensures AllProper(Split(ArtifactsOf(p, m, now)[i].path + x, '/'))
  {
    hide Paths.SafePathOf, Leaf, AttachmentName, ArtifactsOf, Split;
    var t := if m.date == ZERO then now else m.date;
    ArtifactComponents(p, m, i, x, now);
    MailboxIsProper(m.mailbox);
    PrintedDate(p, t);
    StampHasNo(p, t, '.');
    LongIsProper(p.Year(t));
    assert ProperName(p.Month(t)) by {
      hide Pad;
      assert p.Month(t)[0] != '.';
    }
    LongIsProper(Leaf(p, m, t) + ".eml" + x);
    LongIsProper(Leaf(p, m, t) + ".attachments");
    if i > 0 {
      NameIsProper(m, i - 1, x);
    }
  }

  // ----- the file tree -----

  /** One path is a proper directory prefix of the other. */
  predicate Clash(a: string, b: string) { ProperAncestor(a, b) || ProperAncestor(b, a) }

  /** A component prefix is an ancestor in the path text. */
  lemma PrefixIsAncestor(a: string, b: string)
    requires Split(a, '/') < Split(b, '/')
    ensures ProperAncestor(a, b)
  {
    var ca, cb := Split(a, '/'), Split(b, '/');
    assert cb == ca + cb[|ca|..];
    JoinConcat(ca, cb[|ca|..], '/');
  }

  class Local {
    const root: Location
    var files: map<Components, Bytes>
    var dirs: set<Components>
    /** Every file written, or given up on after its directories were made. */
    ghost var attempted: set<Components>

    function Base(): Components { Clean(root).parts }

    ghost predicate Valid()
      reads this
    {
      files.Keys <= attempted && DirsExplained() && IsTree()
    }

    /** No file is a directory, and every file sits in directories. */
    ghost predicate IsTree()
      reads this`files, this`dirs
    {
      forall f | f in files :: f !in dirs && forall k | 0 <= k < |f| :: f[..k] in dirs
    }

    /** Every directory is the root, above it, or above something attempted. */
    ghost predicate DirsExplained()
      reads this`dirs, this`attempted
    {
      && Base() in dirs
      && (forall d | d in dirs :: d <= Base() || exists t :: t in attempted && d < t)
    }

    /** A file where a directory is needed, or a directory where the file should go. */
    predicate Blocked(target: Components)
      reads this
    {
      FileAbove(target) || target in dirs
    }

    predicate FileAbove(target: Components)
      reads this`files
    {
      exists k | 0 <= k < |target| :: target[..k] in files
    }

    constructor (root: Location)
      ensures Valid() && this.root == root && files == map[] && attempted == {}
    {
      this.root := root;
      files, dirs, attempted := map[], {Clean(root).parts}, {};
    }

    /** Resolve, make the parent directories, write the file. `mkdirWorks` and
        `writeWorks` say whether the disk cooperates, and `partial` what a failing write
        leaves in the file it truncated, if it got that far. Apart from the disk a store
        fails exactly when the path escapes the root or something is in the way, and it
        changes no file but its own. */
    method Store(artifact: Artifact, mkdirWorks: bool, writeWorks: bool, partial: Option<Bytes>) returns (ok: bool)
      requires Valid()
      modifies this
      ensures Valid()
      ensures var r := Resolve(root, artifact.path);
              var reached := r.Some? && mkdirWorks && !old(Blocked(r.value.parts));
              && (ok <==> reached && writeWorks)
              && files == (if ok then old(files)[r.value.parts := artifact.data]
                           else if reached && partial.Some? then old(files)[r.value.parts := partial.value]
                           else old(files))
              && attempted <= old(attempted) + (if r.Some? then {r.value.parts} else {})
    {
      hide Resolve, Clean, FileAbove, DirsExplained;
      var resolved := Resolve(root, artifact.path);
      if resolved.None? {
        return false;
      }
      var target := resolved.value.parts;
      ghost var blocked := Blocked(target);
      if !mkdirWorks || FileAbove(target) {
        return false;
      }
      MakeParents(target);
      assert blocked == (target in dirs);
      if target in dirs {
        return false;
      }
      if !writeWorks {
        if partial.Some? {
          files := files[target := partial.value];
          assert files.Keys == old(files.Keys) + {target};
        }
        return false;
      }
      files := files[target := artifact.data];
      assert files.Keys == old(files.Keys) + {target};
      return true;
    }

    /** os.MkdirAll on the parent of the target, nothing being in its way. */
    method MakeParents(target: Components)
      requires Valid() && !FileAbove(target)
      modifies this`dirs, this`attempted
      ensures Valid() && attempted == old(attempted) + {target}
      ensures target in dirs <==> target in old(dirs)
      ensures forall k | 0 <= k < |target| :: target[..k] in dirs
    {
      hide Clean;
      var parents := set k | 0 <= k < |target| :: target[..k];
      assert target !in parents && forall f | f in files :: f !in parents;
      attempted := attempted + {target};
      dirs := dirs + parents;
    }

    /** Paths of proper names that clash with no path attempted before find nothing in
        the way. */
    lemma NothingInTheWay(paths: set<string>, path: string)
      requires Valid() && AllProper(Split(path, '/'))
      requires forall t | t in attempted :: exists a :: a in paths && t == Base() + Split(a, '/')
      requires forall a | a in paths :: !Clash(a, path)
      ensures !Blocked(Base() + Split(path, '/'))
    {
      var target := Base() + Split(path, '/');
      forall k | 0 <= k < |target| ensures target[..k] !in files {
        if target[..k] in files {
          var a :| a in paths && target[..k] == Base() + Split(a, '/');
          SamePrefix(Base(), Split(a, '/'), Split(path, '/'));
          PrefixIsAncestor(a, path);
        }
      }
      if target in dirs && !(target <= Base()) {
        var t :| t in attempted && target < t;
        var a :| a in paths && t == Base() + Split(a, '/');
        SamePrefix(Base(), Split(path, '/'), Split(a, '/'));
        PrefixIsAncestor(path, a);
      }
    }
  }

  lemma SamePrefix(root: Components, a: Components, b: Components)
    requires root + a < root + b
    ensures a < b
  {
    assert a == (root + a)[|root|..] && b == (root + b)[|root|..];
  }

  /** A path some message's artifact is stored under at some moment, with or without a
      suffix. */
  ghost predicate IsArtifactPath(p: Platform, path: string) {
    exists m: Message, now: Instant, i: nat, x: string ::
      SafeAttachments(m) && i <= |m.attachments| && '/' !in x && path == ArtifactsOf(p, m, now)[i].path + x
  }

  /** Nothing but the files of these artifact paths was ever attempted. */
  ghost predicate OnlyArtifacts(l: Local, p: Platform, paths: set<string>)
    reads l`attempted
  {
    && (forall a | a in paths :: IsArtifactPath(p, a))
    && (forall t | t in l.attempted :: exists a :: a in paths && t == l.Base() + Split(a, '/'))
  }

  /** Whatever artifacts were stored before, in whatever order, the directory sink
      accepts the next one, at the root followed by its components, and nothing is in its
      way. */
  lemma ArtifactsAreNeverBlocked(l: Local, p: Platform, paths: set<string>, path: string)
    requires l.Valid() && p.Valid() && OnlyArtifacts(l, p, paths)
    requires IsArtifactPath(p, path)
    ensures Resolve(l.root, path).Some? && Resolve(l.root, path).value.parts == l.Base() + Split(path, '/')
    ensures !l.Blocked(l.Base() + Split(path, '/'))
  {
    hide Resolve, Split, ArtifactsOf, Clean;
    var m: Message, now: Instant, i: nat, x: string :|
      SafeAttachments(m) && i <= |m.attachments| && '/' !in x && path == ArtifactsOf(p, m, now)[i].path + x;
    ArtifactPathsAreProper(p, m, i, x, now);
    ProperPathResolves(l.root, path);
    forall a | a in paths ensures !Clash(a, path) {
      var m': Message, now': Instant, i': nat, x': string :|
        SafeAttachments(m') && i' <= |m'.attachments| && '/' !in x' && a == ArtifactsOf(p, m', now')[i'].path + x';
      NoFileDirectoryClash(p, m, now, i, x, m', now', i', x');
      NoFileDirectoryClash(p, m', now', i', x', m, now, i, x);
    }
    l.NothingInTheWay(paths, path);
  }

  // ----- the tree as a keyed map -----

  /** The files are the objects of a keyed map, each under the root at its own path. */
  ghost predicate Mirrors(base: Components, files: map<Components, Bytes>, objects: map<string, Bytes>) {
    && (forall k | k in objects :: base + Split(k, '/') in files && files[base + Split(k, '/')] == objects[k])
    && (forall f | f in files :: exists k :: k in objects && f == base + Split(k, '/'))
  }

  lemma SplitInjective(base: Components, a: string, b: string)
    requires base + Split(a, '/') == base + Split(b, '/')
    ensures a == b
  {
    assert (base + Split(a, '/'))[|base|..] == Split(a, '/') && (base + Split(b, '/'))[|base|..] == Split(b, '/');
    assert Join(Split(a, '/'), '/') == a && Join(Split(b, '/'), '/') == b;
  }

  /** Writing one file is updating the keyed map at the artifact's path, and nothing
      else: different paths are different files. */
  lemma FileWriteIsKeyedUpdate(
    base: Components, files: map<Components, Bytes>, objects: map<string, Bytes>, a: Artifact)
    requires Mirrors(base, files, objects)
    ensures Mirrors(base, files[base + Split(a.path, '/') := a.data], objects[a.path := a.data])
  {
    hide Split;
    var target := base + Split(a.path, '/');
    var files', objects' := files[target := a.data], objects[a.path := a.data];
    forall k | k in objects' ensures base + Split(k, '/') in files' && files'[base + Split(k, '/')] == objects'[k] {
      if base + Split(k, '/') == target {
        SplitInjective(base, k, a.path);
      }
    }
    forall f | f in files' ensures exists k :: k in objects' && f == base + Split(k, '/') {
      if f == target {
        assert a.path in objects';
      } else {
        var k :| k in objects && f == base + Split(k, '/');
        assert k in objects';
      }
    }
  }

  /** For artifacts the directory sink is a backend as Sinks.Sink describes one: a store
      succeeds exactly when the disk works, updates the keyed map at the artifact's path,
      and when refused tears at most the object under that path. */
  method StoreKeyed(l: Local, p: Platform, a: Artifact, mkdirWorks: bool, writeWorks: bool, partial: Option<Bytes>,
                    ghost paths: set<string>, ghost objects: Objects)
    returns (ok: bool, ghost torn: seq<Artifact>)
    requires l.Valid() && p.Valid() && OnlyArtifacts(l, p, paths) && IsArtifactPath(p, a.path)
    requires Mirrors(l.Base(), l.files, objects)
    modifies l
    ensures l.Valid() && OnlyArtifacts(l, p, paths + {a.path}) && Torn(a, torn)
    ensures ok <==> mkdirWorks && writeWorks
    ensures Mirrors(l.Base(), l.files, if ok then objects[a.path := a.data] else Replay(objects, torn))
  {
    hide Resolve, Split, Clean, Replay, Mirrors, IsArtifactPath, Local.FileAbove;
    ArtifactsAreNeverBlocked(l, p, paths, a.path);
    ghost var files := l.files;
    ok := l.Store(a, mkdirWorks, writeWorks, partial);
    torn := if !ok && mkdirWorks && partial.Some? then [Artifact(a.path, partial.value)] else [];
    FileWriteIsKeyedUpdate(l.Base(), files, objects, a);
    if partial.Some? {
      FileWriteIsKeyedUpdate(l.Base(), files, objects, Artifact(a.path, partial.value));
      ReplayAppend(objects, [], Artifact(a.path, partial.value));
    }
    ReplayNothing(objects);
    assert [] + torn == torn;
    assert a.path in paths + {a.path};
    assert forall b | b in paths :: b in paths + {a.path};
  }
}

/** stages/paths.go: SafeFilename and SafePath. */
module Paths {
  import opened Text
  import opened Runes

  predicate IsSeparator(c: char) { c == '/' || c == '\\' }

  predicate IsControl(c: char) { c < '\U{20}' || c == '\U{7F}' }

  predicate IsReserved(c: char) {
    c == '<' || c == '>' || c == ':' || c == '"' || c == '|' || c == '?' || c == '*'
  }

  predicate IsDot(c: char) { c == '.' }

  // ----- SafeFilename -----

  /** One past the last separator of either kind among the first `n` runes. */
  function AfterSeparator(name: string, n: nat): (i: nat)
    requires n <= |name|
    ensures i <= n
    ensures forall k | i <= k < n :: !IsSeparator(name[k])
    ensures i > 0 ==> IsSeparator(name[i - 1])
  {
    if n == 0 || IsSeparator(name[n - 1]) then n else AfterSeparator(name, n - 1)
  }

  function BaseName(name: string): (r: string)
    ensures forall i | 0 <= i < |r| :: !IsSeparator(r[i])
  {
    name[AfterSeparator(name, |name|)..]
  }

  /** The base name is what follows the last separator of either kind, or all of a name
      without one. */
  lemma BaseNameIsLastElement(dir: string, c: char, name: string)
    requires '/' !in name && '\\' !in name
    ensures BaseName(name) == name
    ensures c == '/' || c == '\\' ==> BaseName(dir + [c] + name) == name
  {
    AfterIsSuffix(dir, c, name, |name|);
    var full := dir + [c] + name;
    assert full[|dir| + 1..] == name;
  }

  lemma {:induction false} AfterIsSuffix(dir: string, c: char, name: string, n: nat)
    requires n <= |name| && '/' !in name && '\\' !in name
    ensures AfterSeparator(name, n) == 0
    ensures c == '/' || c == '\\' ==> AfterSeparator(dir + [c] + name, |dir| + 1 + n) == |dir| + 1
  {
    var full := dir + [c] + name;
    if n == 0 {
      assert full[|dir|] == c;
    } else {
      assert full[|dir| + n] == name[n - 1] && name[n - 1] in name;
      AfterIsSuffix(dir, c, name, n - 1);
    }
  }

  /** The builder after the first `n` runes: control characters go, reserved ones
      become underscores. */
  function Scrub(name: string, n: nat): string
    requires n <= |name|
  {
    if n == 0 then ""
    else if IsControl(name[n - 1]) then Scrub(name, n - 1)
    else if IsReserved(name[n - 1]) then Scrub(name, n - 1) + ['_']
    else Scrub(name, n - 1) + [name[n - 1]]
  }

  function SafeFilenameOf(name: string): string {
    var base := BaseName(name);
    Trim(Trim(Scrub(base, |base|), IsSpace), IsDot)
  }

  method SafeFilename(name: string) returns (r: string)
    ensures r == SafeFilenameOf(name)
  {
    var base := BaseName(name);
    var b, i := "", 0;
    while i < |base|
      invariant 0 <= i <= |base|
      invariant b == Scrub(base, i)
    {
      var c := base[i];
      if IsControl(c) {
      } else if IsReserved(c) {
        b := b + ['_'];
      } else {
        b := b + [c];
      }
      i := i + 1;
    }
    r := Trim(Trim(b, IsSpace), IsDot);
  }

  predicate CleanRune(c: char) {
    !IsSeparator(c) && !IsControl(c) && !IsReserved(c)
  }

  /** What an attachment filename may be: "" (the caller then names the part by
      position) or one path element that is neither "." nor "..". */
  predicate IsSafeName(r: string) {
    && (forall i | 0 <= i < |r| :: CleanRune(r[i]))
    && (r != "" ==> r[0] != '.' && r[|r| - 1] != '.')
  }

  lemma {:induction false} ScrubIsClean(name: string, n: nat)
    requires n <= |name|
    requires forall i | 0 <= i < |name| :: !IsSeparator(name[i])
    ensures forall i | 0 <= i < |Scrub(name, n)| :: CleanRune(Scrub(name, n)[i])
    ensures '.' !in name ==> '.' !in Scrub(name, n)
  {
    if n > 0 {
      ScrubIsClean(name, n - 1);
    }
  }

  lemma {:induction false} ScrubFixed(name: string, n: nat)
    requires n <= |name|
    requires forall i | 0 <= i < |name| :: CleanRune(name[i])
    ensures Scrub(name, n) == name[..n]
  {
    if n > 0 {
      ScrubFixed(name, n - 1);
    }
  }

  lemma {:induction false} ScrubPrefix(a: string, b: string, n: nat)
    requires n <= |a|
    ensures Scrub(a + b, n) == Scrub(a, n)
  {
    if n > 0 {
      ScrubPrefix(a, b, n - 1);
    }
  }

  lemma {:induction false} ScrubConcat(a: string, b: string, n: nat)
    requires n <= |b|
    ensures Scrub(a + b, |a| + n) == Scrub(a, |a|) + Scrub(b, n)
  {
    if n == 0 {
      ScrubPrefix(a, b, |a|);
    } else {
      ScrubConcat(a, b, n - 1);
    }
  }

  lemma ScrubJoin(a: string, b: string)
    ensures Scrub(a + b, |a + b|) == Scrub(a, |a|) + Scrub(b, |b|)
  {
    hide Scrub;
    ScrubConcat(a, b, |b|);
  }

  lemma ScrubOne(c: char)
    ensures Scrub([c], 1) == if IsControl(c) then "" else if IsReserved(c) then "_" else [c]
  {
    assert Scrub([c], 0) == "";
  }

  /** Each rune is treated on its own, wherever it stands: a control character
      disappears, a reserved one becomes one underscore, any other stays. */
  lemma ScrubRune(a: string, c: char, b: string)
    ensures var s := a + [c] + b;
            Scrub(s, |s|) == Scrub(a, |a|) +
              (if c < ' ' || c == '\U{7F}' then "" else if c in "<>:\"|?*" then "_" else [c]) + Scrub(b, |b|)
  {
    assert IsReserved(c) <==> c in "<>:\"|?*";
    assert IsControl(c) <==> c < ' ' || c == '\U{7F}';
    hide Scrub, IsControl, IsReserved;
    ScrubJoin(a + [c], b);
    ScrubJoin(a, [c]);
    ScrubOne(c);
  }

  /** No traversal: a safe filename is one component, never "." or "..". */
  lemma SafeFilenameIsSafe(name: string)
    ensures IsSafeName(SafeFilenameOf(name))
    ensures SafeFilenameOf(name) != "." && SafeFilenameOf(name) != ".."
    ensures forall c | c in SafeFilenameOf(name) :: c >= ' ' && c != '\U{7F}' && c !in "/\\<>:\"|?*"
  {
    var base := BaseName(name);
    ScrubIsClean(base, |base|);
    var s := Scrub(base, |base|);
    TrimKeeps(s, IsSpace, CleanRune);
    TrimKeeps(Trim(s, IsSpace), IsDot, CleanRune);
    hide Trim, Scrub, BaseName, IsSpace, CleanRune;
    forall c | c in SafeFilenameOf(name) ensures c >= ' ' && c != '\U{7F}' && c !in "/\\<>:\"|?*" {
      CleanRuneIsPlain(c);
    }
  }

  lemma CleanRuneIsPlain(c: char)
    ensures CleanRune(c) <==> c >= ' ' && c != '\U{7F}' && c !in "/\\<>:\"|?*"
  {
  }

  lemma FilenameOfClean(r: string)
    requires forall i | 0 <= i < |r| :: CleanRune(r[i])
    ensures SafeFilenameOf(r) == Trim(Trim(r, IsSpace), IsDot)
  {
    assert BaseName(r) == r;
    ScrubFixed(r, |r|);
    assert r[..|r|] == r;
  }

  lemma TwoTrims(s: string, p: char -> bool, q: char -> bool)
    ensures Trim(Trim(s, p), q) == s <==> Trim(s, p) == s && Trim(s, q) == s
  {
    hide Trim;
    TrimIdentity(s, p);
  }

  /** A second pass over any clean text changes nothing exactly when the text has
      neither spaces nor dots at its ends. */
  lemma FilenameFixedPoints(r: string)
    requires forall i | 0 <= i < |r| :: CleanRune(r[i])
    ensures SafeFilenameOf(r) == r <==>
            r == "" || (!IsSpace(r[0]) && !IsSpace(r[|r| - 1]) && r[0] != '.' && r[|r| - 1] != '.')
  {
    hide SafeFilenameOf, Trim;
    FilenameOfClean(r);
    TwoTrims(r, IsSpace, IsDot);
    TrimIdentity(r, IsSpace);
    TrimIdentity(r, IsDot);
  }

  predicate Spaces(s: string, i: nat, k: nat)
    requires i <= k <= |s|
  {
    forall j | i <= j < k :: IsSpace(s[j])
  }

  predicate Dots(s: string, i: nat, k: nat)
    requires i <= k <= |s|
  {
    forall j | i <= j < k :: s[j] == '.'
  }

  /** Reading `s` from the left, spaces aside, dots come first and then a space with more
      text behind it. */
  predicate LeadingDotsHideSpace(s: string) {
    exists i, k | 0 <= i < k < |s| :: Spaces(s, 0, i) && Dots(s, i, k) && IsSpace(s[k]) && !Spaces(s, k, |s|)
  }

  /** The same from the right. */
  predicate TrailingDotsHideSpace(s: string) {
    exists k, i | 0 < k < i <= |s| :: Dots(s, k, i) && Spaces(s, i, |s|) && IsSpace(s[k - 1]) && !Spaces(s, 0, k)
  }

  /** Trimming spaces leaves what is between `lo` and `hi`, and trimming its dots what is
      between `a` and `b`. */
  ghost predicate Trimmed(s: string, lo: nat, hi: nat, a: nat, b: nat) {
    && lo <= a <= b <= hi <= |s|
    && Trim(Trim(s, IsSpace), IsDot) == s[a..b]
    && Spaces(s, 0, lo) && Spaces(s, hi, |s|)
    && (lo < hi ==> !IsSpace(s[lo]) && !IsSpace(s[hi - 1]))
    && Dots(s, lo, a) && Dots(s, b, hi)
    && (a < b ==> s[a] != '.' && s[b - 1] != '.')
  }

  lemma SliceOfSlice(s: string, lo: nat, hi: nat, a: nat, b: nat)
    requires lo <= hi <= |s| && a <= b <= hi - lo
    ensures s[lo..hi][a..b] == s[lo + a..lo + b]
    ensures forall k | lo <= k < hi :: s[k] == s[lo..hi][k - lo]
  {
    var x, y := s[lo..hi][a..b], s[lo + a..lo + b];
    assert |x| == |y| && forall k | 0 <= k < b - a :: x[k] == s[lo..hi][a + k] == s[lo + a + k] == y[k];
  }

  lemma TrimmedTwice(s: string) returns (lo: nat, hi: nat, a: nat, b: nat)
    ensures Trimmed(s, lo, hi, a, b)
  {
    hide Trim, IsSpace;
    lo, hi := TrimBounds(s, IsSpace);
    var a', b' := TrimBounds(s[lo..hi], IsDot);
    SliceOfSlice(s, lo, hi, a', b');
    a, b := lo + a', lo + b';
  }

  lemma ExposedAtStart(s: string, lo: nat, hi: nat, a: nat, b: nat)
    requires Trimmed(s, lo, hi, a, b)
    ensures LeadingDotsHideSpace(s) <==> a < b && IsSpace(s[a])
  {
    assert !IsSpace('.');
    hide Trim, IsSpace;
    if LeadingDotsHideSpace(s) {
      var i, k :| 0 <= i < k < |s| && Spaces(s, 0, i) && Dots(s, i, k) && IsSpace(s[k]) && !Spaces(s, k, |s|);
      assert !IsSpace(s[i]);
      assert lo == i && k < hi && a == k;
    }
    if a < b && IsSpace(s[a]) {
      assert Spaces(s, 0, lo) && Dots(s, lo, a) && !Spaces(s, a, |s|);
    }
  }

  lemma HiddenAtEnd(s: string, lo: nat, hi: nat, a: nat, b: nat, k: nat, i: nat)
    requires Trimmed(s, lo, hi, a, b)
    requires 0 < k < i <= |s| && Dots(s, k, i) && Spaces(s, i, |s|) && IsSpace(s[k - 1]) && !Spaces(s, 0, k)
    ensures a < b && IsSpace(s[b - 1])
  {
    assert !IsSpace('.');
    hide Trim, IsSpace;
    assert s[i - 1] == '.';
    assert hi == i;
    assert lo < k;
    assert s[k - 1] != '.';
    assert b == k;
  }

  lemma ExposedAtEnd(s: string, lo: nat, hi: nat, a: nat, b: nat)
    requires Trimmed(s, lo, hi, a, b)
    ensures TrailingDotsHideSpace(s) <==> a < b && IsSpace(s[b - 1])
  {
    assert !IsSpace('.');
    if TrailingDotsHideSpace(s) {
      var k, i :| 0 < k < i <= |s| && Dots(s, k, i) && Spaces(s, i, |s|) && IsSpace(s[k - 1]) && !Spaces(s, 0, k);
      HiddenAtEnd(s, lo, hi, a, b, k, i);
    }
    hide Trim, IsSpace;
    if a < b && IsSpace(s[b - 1]) {
      assert !IsSpace(s[lo]);
      assert Dots(s, b, hi) && Spaces(s, hi, |s|) && !Spaces(s, 0, b);
    }
  }

  /** SafeFilename is idempotent on a name iff in its scrubbed base name no run of dots
      at either end hides a space: dots are trimmed after spaces, and trimming them
      exposes it. */
  lemma SafeFilenameIdempotent(name: string)
    ensures var scrubbed := Scrub(BaseName(name), |BaseName(name)|);
            SafeFilenameOf(SafeFilenameOf(name)) == SafeFilenameOf(name) <==>
            !LeadingDotsHideSpace(scrubbed) && !TrailingDotsHideSpace(scrubbed)
  {
    hide Trim, Scrub, BaseName, LeadingDotsHideSpace, TrailingDotsHideSpace;
    var scrubbed := Scrub(BaseName(name), |BaseName(name)|);
    SafeFilenameIsSafe(name);
    var lo, hi, a, b := TrimmedTwice(scrubbed);
    ExposedAtStart(scrubbed, lo, hi, a, b);
    ExposedAtEnd(scrubbed, lo, hi, a, b);
    FilenameFixedPoints(SafeFilenameOf(name));
  }

  lemma TrimFirst(s: string, p: char -> bool)
    requires |s| > 1 && p(s[0]) && !p(s[1]) && !p(s[|s| - 1])
    ensures Trim(s, p) == s[1..]
  {
    assert KeepFrom(s, p, 0) == KeepFrom(s, p, 1) == 1;
  }

  /** The name ". a" becomes " a", and " a" becomes "a". */
  lemma SafeFilenameNotIdempotent()
    ensures SafeFilenameOf(". a") == " a" && SafeFilenameOf(" a") == "a"
  {
    hide SafeFilenameOf, Trim, BaseName, Scrub;
    FilenameOfClean(". a");
    FilenameOfClean(" a");
    TrimIdentity(". a", IsSpace);
    TrimIdentity("a", IsDot);
    TrimFirst(". a", IsDot);
    TrimFirst(" a", IsSpace);
    assert ". a"[1..] == " a" && " a"[1..] == "a";
  }

  // ----- SafePath -----

  /** Both "\" and "." are turned into "/". */
  function Unify(name: string): (r: string)
    ensures |r| == |name|
    ensures forall i | 0 <= i < |name| ::
              r[i] == if name[i] == '\\' || name[i] == '.' then '/' else name[i]
  {
    seq(|name|, i requires 0 <= i < |name| => if name[i] == '\\' || name[i] == '.' then '/' else name[i])
  }

  /** The components that survive among the first `n` parts, in order. */
  function Components(parts: seq<string>, n: nat): seq<string>
    requires n <= |parts|
  {
    if n == 0 then []
    else
      var part := SafeFilenameOf(parts[n - 1]);
      Components(parts, n - 1) + (if part == "" || part == "." || part == ".." then [] else [part])
  }

  const UNKNOWN := "unknown"

  function SafeComponents(name: string): seq<string> {
    var parts := Split(Unify(name), '/');
    Components(parts, |parts|)
  }

  function SafePathOf(name: string): string {
    if name == "" then UNKNOWN
    else
      var clean := SafeComponents(name);
      if |clean| == 0 then UNKNOWN else Join(clean, '/')
  }

  method SafePath(name: string) returns (r: string)
    ensures r == SafePathOf(name)
  {
    hide SafeFilenameOf;
    if name == "" {
      return UNKNOWN;
    }
    var parts := Split(Unify(name), '/');
    var clean: seq<string>, i := [], 0;
    while i < |parts|
      invariant 0 <= i <= |parts|
      invariant clean == Components(parts, i)
    {
      var part := SafeFilename(parts[i]);
      i := i + 1;
      if part == "" || part == "." || part == ".." {
        continue;
      }
      clean := clean + [part];
    }
    if |clean| == 0 {
      return UNKNOWN;
    }
    r := Join(clean, '/');
  }

  /** One directory name of a sanitised mailbox. */
  predicate IsCleanPart(p: string) {
    && p != "" && (forall i | 0 <= i < |p| :: PartRune(p[i]))
    && !IsSpace(p[0]) && !IsSpace(p[|p| - 1])
  }

  predicate AllCleanParts(parts: seq<string>) {
    forall i | 0 <= i < |parts| :: IsCleanPart(parts[i])
  }

  /** A non-empty slash-join of clean directory names. */
  predicate IsSafePath(r: string) {
    AllCleanParts(Split(r, '/'))
  }

  predicate PartRune(c: char) { CleanRune(c) && c != '.' }

  lemma PlainBase(part: string)
    requires forall i | 0 <= i < |part| :: !IsSeparator(part[i])
    ensures BaseName(part) == part
  {
    hide IsSeparator;
    assert AfterSeparator(part, |part|) == 0;
  }

  lemma ScrubbedPart(part: string)
    requires forall i | 0 <= i < |part| :: !IsSeparator(part[i]) && part[i] != '.'
    ensures forall i | 0 <= i < |Scrub(part, |part|)| :: PartRune(Scrub(part, |part|)[i])
  {
    hide Scrub, CleanRune, IsSeparator;
    ScrubIsClean(part, |part|);
  }

  lemma FilenameOfPart(part: string)
    requires forall i | 0 <= i < |part| :: !IsSeparator(part[i]) && part[i] != '.'
    ensures SafeFilenameOf(part) == "" || IsCleanPart(SafeFilenameOf(part))
  {
    hide Trim, Scrub, BaseName, IsSpace, CleanRune, IsSeparator;
    PlainBase(part);
    ScrubbedPart(part);
    var t := Trim(Scrub(part, |part|), IsSpace);
    TrimKeeps(Scrub(part, |part|), IsSpace, PartRune);
    TrimIdentity(t, IsDot);
  }

  predicate Unified(parts: seq<string>) {
    forall i, j | 0 <= i < |parts| && 0 <= j < |parts[i]| :: !IsSeparator(parts[i][j]) && parts[i][j] != '.'
  }

  lemma {:induction false} ComponentsAreClean(parts: seq<string>, n: nat)
    requires n <= |parts| && Unified(parts)
    ensures AllCleanParts(Components(parts, n))
  {
    hide SafeFilenameOf, IsCleanPart;
    if n > 0 {
      ComponentsAreClean(parts, n - 1);
      FilenameOfPart(parts[n - 1]);
    }
  }

  lemma {:induction false} ComponentsFixed(parts: seq<string>, n: nat)
    requires n <= |parts| && AllCleanParts(parts)
    ensures Components(parts, n) == parts[..n]
  {
    hide SafeFilenameOf;
    if n > 0 {
      assert IsCleanPart(parts[n - 1]);
      FilenameFixedPoints(parts[n - 1]);
      ComponentsFixed(parts, n - 1);
    }
  }

  lemma {:induction false} ComponentsConcat(a: seq<string>, b: seq<string>, n: nat)
    requires n <= |b|
    ensures Components(a + b, |a| + n) == Components(a, |a|) + Components(b, n)
  {
    hide SafeFilenameOf;
    if n == 0 {
      ComponentsPrefix(a, b, |a|);
    } else {
      ComponentsConcat(a, b, n - 1);
    }
  }

  lemma {:induction false} ComponentsPrefix(a: seq<string>, b: seq<string>, n: nat)
    requires n <= |a|
    ensures Components(a + b, n) == Components(a, n)
  {
    hide SafeFilenameOf;
    if n > 0 {
      ComponentsPrefix(a, b, n - 1);
    }
  }

  lemma {:induction false} JoinContains(parts: seq<string>, i: nat, j: nat, c: char)
    requires i < |parts| && j < |parts[i]|
    ensures parts[i][j] in Join(parts, c)
    decreases |parts|
  {
    if |parts| > 1 && i > 0 {
      JoinContains(parts[1..], i - 1, j, c);
    }
  }

  lemma SplitIsUnified(name: string)
    ensures Unified(Split(Unify(name), '/'))
  {
    var n := Unify(name);
    var parts := Split(n, '/');
    forall i, j | 0 <= i < |parts| && 0 <= j < |parts[i]|
      ensures !IsSeparator(parts[i][j]) && parts[i][j] != '.'
    {
      JoinContains(parts, i, j, '/');
      assert parts[i][j] in n;
      assert parts[i][j] in parts[i];
    }
  }

  lemma CleanPartsNoSlash(parts: seq<string>)
    requires AllCleanParts(parts)
    ensures forall i | 0 <= i < |parts| :: '/' !in parts[i]
  {
    forall i | 0 <= i < |parts| ensures '/' !in parts[i] {
      assert IsCleanPart(parts[i]);
    }
  }

  lemma UnknownIsSafe()
    ensures Split(UNKNOWN, '/') == [UNKNOWN] && IsSafePath(UNKNOWN)
  {
    hide SafeFilenameOf;
    assert Join([UNKNOWN], '/') == UNKNOWN;
    assert forall i | 0 <= i < |UNKNOWN| :: 'a' <= UNKNOWN[i] <= 'z';
    SplitOfJoin([UNKNOWN], '/');
  }

  /** The components of a sanitised mailbox: what survives of the hierarchy, or
      "unknown" when nothing does. */
  lemma SafePathParts(name: string)
    ensures var clean := SafeComponents(name);
            && AllCleanParts(clean)
            && Split(SafePathOf(name), '/') == (if clean == [] then [UNKNOWN] else clean)
  {
    hide SafeFilenameOf;
    var clean := SafeComponents(name);
    SplitIsUnified(name);
    ComponentsAreClean(Split(Unify(name), '/'), |Split(Unify(name), '/')|);
    UnknownIsSafe();
    if name == "" {
      assert Unify(name) == "";
      assert Split("", '/') == [""];
      EmptyName();
    } else if clean != [] {
      CleanPartsNoSlash(clean);
      SplitOfJoin(clean, '/');
    }
  }

  lemma EmptyName()
    ensures Components([""], 1) == []
  {
    FilenameOfClean("");
  }

  /** Every sanitised mailbox is in normal form: a non-empty join of non-empty clean
      components, with no dot anywhere. */
  lemma SafePathIsSafe(name: string)
    ensures IsSafePath(SafePathOf(name))
  {
    SafePathParts(name);
    UnknownIsSafe();
  }

  /** The normal forms are exactly the fixed points, so SafePath is idempotent. */
  lemma SafePathFixedPoints(r: string)
    ensures SafePathOf(r) == r <==> IsSafePath(r)
  {
    SafePathIsSafe(r);
    if IsSafePath(r) {
      var parts := Split(r, '/');
      SafePathHasNoDot(r);
      assert Unify(r) == r;
      ComponentsFixed(parts, |parts|);
      assert parts[..|parts|] == parts;
      assert Split("", '/') == [""];
      assert IsCleanPart(parts[0]);
    }
  }

  lemma SafePathIdempotent(name: string)
    ensures SafePathOf(SafePathOf(name)) == SafePathOf(name)
  {
    SafePathIsSafe(name);
    SafePathFixedPoints(SafePathOf(name));
  }

  /** Only slashes and clean runes: in particular no dot and no backslash. */
  lemma SafePathHasNoDot(r: string)
    requires IsSafePath(r)
    ensures '.' !in r && '\\' !in r
    ensures forall i | 0 <= i < |r| :: r[i] == '/' || CleanRune(r[i])
  {
    var parts := Split(r, '/');
    forall i | 0 <= i < |r| ensures r[i] != '.' && r[i] != '\\' && (r[i] == '/' || CleanRune(r[i])) {
      JoinChars(parts, '/', r[i]);
      if r[i] != '/' {
        var k :| 0 <= k < |parts| && r[i] in parts[k];
        assert IsCleanPart(parts[k]);
      }
    }
  }

  lemma ComponentsMirrorHierarchy(a: string, b: string, delimiter: char)
    requires delimiter == '/' || delimiter == '.' || delimiter == '\\'
    ensures SafeComponents(a + [delimiter] + b) == SafeComponents(a) + SafeComponents(b)
  {
    hide SafeFilenameOf, Components, Split;
    assert Unify(a + [delimiter] + b) == Unify(a) + ['/'] + Unify(b);
    SplitConcat(Unify(a), Unify(b), '/');
    ComponentsConcat(Split(Unify(a), '/'), Split(Unify(b), '/'), |Split(Unify(b), '/')|);
  }

  /** The on-disk layout mirrors the mailbox tree: any of the three delimiters joins
      the layouts of its two sides. */
  lemma SafePathMirrorsHierarchy(a: string, b: string, delimiter: char)
    requires delimiter == '/' || delimiter == '.' || delimiter == '\\'
    requires SafeComponents(a) != [] && SafeComponents(b) != []
    ensures SafePathOf(a + [delimiter] + b) == SafePathOf(a) + "/" + SafePathOf(b)
  {
    hide SafeFilenameOf, Components, SafeComponents;
    ComponentsMirrorHierarchy(a, b, delimiter);
    NoComponentsInEmpty();
    JoinConcat(SafeComponents(a), SafeComponents(b), '/');
  }

  lemma NoComponentsInEmpty()
    ensures SafeComponents("") == []
  {
    EmptyName();
    assert Unify("") == "" && Split("", '/') == [""];
  }

  /** A name without delimiters is one component, or "unknown". */
  lemma SafePathOfOneName(name: string)
    requires forall i | 0 <= i < |name| :: !IsSeparator(name[i]) && name[i] != '.'
    ensures SafePathOf(name) == if SafeFilenameOf(name) == "" then "unknown" else SafeFilenameOf(name)
  {
    hide SafeFilenameOf;
    FilenameOfPart(name);
    EmptyName();
    assert Unify(name) == name;
    SplitOfJoin([name], '/');
    assert Components([name], 0) == [];
    if SafeFilenameOf(name) != "" {
      assert PartRune(SafeFilenameOf(name)[0]);
    }
  }
}

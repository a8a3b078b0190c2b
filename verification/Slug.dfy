/** stages/paths.go: Slug. */
module Slugs {
  import opened Text
  import opened Runes

  const MAX_SLUG_LENGTH := 60
  const NO_SUBJECT := "no-subject"

  /** What writing one rune does to the builder. `lastDash` is "the builder is
      empty or ends in a dash". */
  function Write(u: Tables, b: string, c: char): string {
    if u.Alnum(c) then b + [c]
    else if b != "" && b[|b| - 1] != '-' then b + ['-']
    else b
  }

  /** The builder after the runes of `s`; it stops growing once it holds 60 bytes. */
  function Built(u: Tables, s: string): string {
    if s == "" then ""
    else
      var b := Built(u, s[..|s| - 1]);
      if Size(b) >= MAX_SLUG_LENGTH then b else Write(u, b, s[|s| - 1])
  }

  predicate IsDash(c: char) { c == '-' }

  function SlugOf(u: Tables, text: string): string {
    var slug := Trim(Built(u, u.ToLower(text)), IsDash);
    if slug == "" then NO_SUBJECT else slug
  }

  lemma {:induction false} Saturated(u: Tables, s: string, k: nat)
    requires k <= |s|
    requires Size(Built(u, s[..k])) >= MAX_SLUG_LENGTH
    ensures Built(u, s) == Built(u, s[..k])
    decreases |s|
  {
    if k == |s| {
      assert s[..k] == s;
    } else {
      assert s[..|s| - 1][..k] == s[..k];
      Saturated(u, s[..|s| - 1], k);
    }
  }

  lemma NothingBuilt(u: Tables)
    ensures Built(u, "") == "" && Size("") == 0
  {
  }

  lemma BuiltNext(u: Tables, s: string, i: nat)
    requires i < |s|
    ensures var b := Built(u, s[..i]);
            Built(u, s[..i + 1]) == if Size(b) >= MAX_SLUG_LENGTH then b else Write(u, b, s[i])
  {
    assert s[..i + 1][..i] == s[..i];
  }

  /** The loop of the source: a builder, a flag, and a break out of the range loop. */
  method Slug(u: Tables, text: string) returns (slug: string)
    requires u.Valid()
    ensures slug == SlugOf(u, text)
  {
    hide Trim, Built, Size;
    var lowered := u.ToLower(text);
    var b, lastDash := "", true;
    var i := 0;
    NothingBuilt(u);
    assert lowered[..0] == "";
    while i < |lowered|
      invariant 0 <= i <= |lowered|
      invariant b == Built(u, lowered[..i])
      invariant Size(b) < MAX_SLUG_LENGTH
      invariant lastDash <==> b == "" || b[|b| - 1] == '-'
    {
      var r := lowered[i];
      BuiltNext(u, lowered, i);
      if u.Alnum(r) {
        b, lastDash := b + [r], false;
      } else if !lastDash && Size(b) < MAX_SLUG_LENGTH {
        b, lastDash := b + ['-'], true;
      }
      if Size(b) >= MAX_SLUG_LENGTH {
        Saturated(u, lowered, i + 1);
        break;
      }
      i := i + 1;
    }
    assert b == Built(u, lowered) by {
      if i == |lowered| {
        assert lowered[..i] == lowered;
      }
    }
    slug := Trim(b, IsDash);
    if slug == "" {
      slug := NO_SUBJECT;
    }
  }

  // ----- what a slug means: the words of the text, dash-joined and cut short -----

  /** The maximal runs of letters and digits. */
  function Words(u: Tables, s: string): seq<string> {
    if s == "" then []
    else
      var front, c := s[..|s| - 1], s[|s| - 1];
      var ws := Words(u, front);
      if !u.Alnum(c) then ws
      else if front != "" && u.Alnum(front[|front| - 1]) && ws != [] then ws[..|ws| - 1] + [ws[|ws| - 1] + [c]]
      else ws + [[c]]
  }

  /** The builder without the cap. */
  function Dashed(u: Tables, s: string): string {
    if s == "" then "" else Write(u, Dashed(u, s[..|s| - 1]), s[|s| - 1])
  }

  lemma {:induction false} JoinExtendLast(ws: seq<string>, c: char, d: char)
    requires ws != []
    ensures Join(ws[..|ws| - 1] + [ws[|ws| - 1] + [c]], d) == Join(ws, d) + [c]
  {
    var front, last := ws[..|ws| - 1], ws[|ws| - 1];
    assert ws == front + [last];
    JoinAppend(front, last, d);
    JoinAppend(front, last + [c], d);
  }

  lemma WordsStep(u: Tables, front: string, c: char)
    requires front != "" && u.Alnum(front[|front| - 1]) ==> Words(u, front) != []
    ensures Words(u, front + [c]) == [] <==> Words(u, front) == [] && !u.Alnum(c)
    ensures var ws := Words(u, front);
            var joined := Join(Words(u, front + [c]), '-');
            joined ==
            if !u.Alnum(c) then Join(ws, '-')
            else if front != "" && u.Alnum(front[|front| - 1]) then Join(ws, '-') + [c]
            else if ws == [] then [c]
            else Join(ws, '-') + "-" + [c]
  {
    var ws := Words(u, front);
    assert (front + [c])[..|front|] == front;
    if u.Alnum(c) {
      if front != "" && u.Alnum(front[|front| - 1]) {
        JoinExtendLast(ws, c, '-');
      } else {
        JoinAppend(ws, [c], '-');
      }
    }
  }

  /** The builder holds the joined words, and a dash after them exactly when something
      other than a letter or digit followed the last one. */
  predicate HoldsWords(u: Tables, s: string) {
    var w, d := Join(Words(u, s), '-'), Dashed(u, s);
    if Words(u, s) == [] then d == "" && (s != "" ==> !u.Alnum(s[|s| - 1]))
    else
      && w != "" && w[0] != '-' && w[|w| - 1] != '-'
      && s != "" && d == (if u.Alnum(s[|s| - 1]) then w else w + "-")
  }

  lemma DashedStep(u: Tables, front: string, c: char)
    requires !u.Alnum('-') && HoldsWords(u, front)
    ensures HoldsWords(u, front + [c])
  {
    var ws, s := Words(u, front), front + [c];
    WordsStep(u, front, c);
    assert Dashed(u, s) == Write(u, Dashed(u, front), c) by {
      assert s[..|front|] == front;
    }
    assert Join([], '-') == "";
    hide Words, Join, Dashed;
    if ws == [] {
      assert Dashed(u, front) == "";
    } else if !u.Alnum(c) {
      assert Dashed(u, s) == Join(ws, '-') + "-";
    } else if u.Alnum(front[|front| - 1]) {
      assert Dashed(u, s) == Join(ws, '-') + [c];
    } else {
      assert Dashed(u, s) == Join(ws, '-') + "-" + [c];
    }
  }

  lemma {:induction false} BuilderHoldsWords(u: Tables, s: string)
    requires !u.Alnum('-')
    ensures HoldsWords(u, s)
    decreases |s|
  {
    if s != "" {
      BuilderHoldsWords(u, s[..|s| - 1]);
      DashedStep(u, s[..|s| - 1], s[|s| - 1]);
      assert s[..|s| - 1] + [s[|s| - 1]] == s;
    }
  }

  /** Without the cap the builder is the joined words and at most one dash. */
  lemma DashedIsWords(u: Tables, s: string)
    requires !u.Alnum('-')
    ensures var full, d := Join(Words(u, s), '-'), Dashed(u, s);
            && (full == "" <==> d == "")
            && (d == full || (full != "" && d == full + "-"))
            && (full != "" ==> full[0] != '-' && full[|full| - 1] != '-')
  {
    BuilderHoldsWords(u, s);
    assert Join([], '-') == "";
    hide Words, Join, Dashed;
  }

  /** The capped builder is the uncapped one, or a prefix of it of at least 60 bytes
      whose last rune made it reach them. */
  lemma {:induction false} BuiltIsPrefix(u: Tables, s: string)
    requires !u.Alnum('-')
    ensures Built(u, s) <= Dashed(u, s)
    ensures Size(Built(u, s)) < MAX_SLUG_LENGTH ==> Built(u, s) == Dashed(u, s)
    ensures Built(u, s) != "" ==> Size(Built(u, s)[..|Built(u, s)| - 1]) < MAX_SLUG_LENGTH
    decreases |s|
  {
    if s != "" {
      BuiltIsPrefix(u, s[..|s| - 1]);
      var b := Built(u, s[..|s| - 1]);
      var b' := Built(u, s);
      if b' != b {
        assert b'[..|b'| - 1] == b;
      }
    }
  }

  lemma {:induction false} DashedShape(u: Tables, s: string)
    requires !u.Alnum('-')
    requires forall i | 0 <= i < |s| :: u.lower(s[i]) == s[i]
    ensures var d := Dashed(u, s);
            && (d != "" ==> d[0] != '-')
            && (forall i | 0 <= i < |d| :: d[i] == '-' || (u.Alnum(d[i]) && u.lower(d[i]) == d[i]))
            && SingleDashes(d)
    decreases |s|
  {
    if s != "" {
      DashedShape(u, s[..|s| - 1]);
    }
  }

  lemma SizeDropDash(s: string)
    requires s != "" && s[|s| - 1] == '-'
    ensures Size(s[..|s| - 1]) == Size(s) - 1
  {
  }

  predicate SingleDashes(s: string) {
    forall i | 0 < i < |s| :: s[i - 1] != '-' || s[i] != '-'
  }

  function DropDash(b: string): string {
    if b != "" && b[|b| - 1] == '-' then b[..|b| - 1] else b
  }

  /** A builder never starts with a dash and ends in at most one, so trimming
      removes one trailing dash at most. */
  lemma TrimOneDash(b: string)
    requires b != "" ==> b[0] != '-'
    requires SingleDashes(b)
    ensures Trim(b, IsDash) == DropDash(b)
  {
    if b != "" && b[|b| - 1] == '-' {
      assert b[|b| - 2] != '-';
      assert KeepTo(b, IsDash, 0, |b|) == KeepTo(b, IsDash, 0, |b| - 1);
    }
  }

  /** Cutting "words plus at most one dash" leaves a prefix of the words, and the
      whole of them when they are short. */
  lemma CutWords(full: string, d: string, b: string)
    requires full != ""
    requires d == full || d == full + "-"
    requires b <= d && full[|full| - 1] != '-'
    ensures DropDash(b) <= full
    ensures b == d ==> DropDash(b) == full
    ensures b != d ==> b <= full
  {
  }

  /** The slug is the dash-joined words of the lower-cased text, whole when they fit
      in 60 bytes and otherwise a prefix of them of 59 to 63 bytes. */
  lemma SlugMeaning(u: Tables, text: string)
    requires u.Valid()
    ensures var full := Join(Words(u, u.ToLower(text)), '-');
            var slug := SlugOf(u, text);
            && (full == "" ==> slug == "no-subject")
            && (full != "" ==> slug <= full)
            && (full != "" && Size(full) < 60 ==> slug == full)
            && (full != "" && Size(full) >= 60 ==> Size(slug) >= 59)
  {
    var s := u.ToLower(text);
    DashIsNoLetter(u);
    LowerIsFixed(u, text);
    SlugOfBuilder(u, text, s);
    WordsCut(u, s);
    var b := Built(u, s);
    if DropDash(b) != b {
      SizeDropDash(b);
    }
  }

  lemma WordsCut(u: Tables, s: string)
    requires !u.Alnum('-')
    requires forall i | 0 <= i < |s| :: u.lower(s[i]) == s[i]
    ensures var full, b := Join(Words(u, s), '-'), Built(u, s);
            && (full == "" ==> b == "")
            && (full != "" ==>
                  && b != "" && b[0] != '-' && DropDash(b) != ""
                  && DropDash(b) <= full
                  && (Size(full) < MAX_SLUG_LENGTH ==> DropDash(b) == full)
                  && (DropDash(b) == full || (b <= full && Size(b) >= MAX_SLUG_LENGTH)))
  {
    DashedIsWords(u, s);
    BuiltIsPrefix(u, s);
    hide Built, Dashed, Words, Join, Size;
    CutSizes(Join(Words(u, s), '-'), Dashed(u, s), Built(u, s));
  }

  lemma CutSizes(full: string, d: string, b: string)
    requires d == full || (full != "" && d == full + "-")
    requires b <= d && (full != "" ==> full[0] != '-' && full[|full| - 1] != '-')
    requires b == d || Size(b) >= MAX_SLUG_LENGTH
    ensures full == "" ==> b == ""
    ensures full != "" ==>
              && b != "" && b[0] != '-' && DropDash(b) != ""
              && DropDash(b) <= full
              && (Size(full) < MAX_SLUG_LENGTH ==> DropDash(b) == full)
              && (DropDash(b) == full || (b <= full && Size(b) >= MAX_SLUG_LENGTH))
  {
    assert Size("") == 0;
    hide Size;
    if full != "" {
      CutWords(full, d, b);
      if b != d {
        assert full[..|b|] == b;
        SizePrefix(full, |b|);
      }
    }
  }

  lemma SlugOfBuilder(u: Tables, text: string, s: string)
    requires !u.Alnum('-') && s == u.ToLower(text)
    requires forall i | 0 <= i < |s| :: u.lower(s[i]) == s[i]
    ensures var b := Built(u, s);
            SlugOf(u, text) == if DropDash(b) == "" then NO_SUBJECT else DropDash(b)
  {
    BuiltIsPrefix(u, s);
    DashedShape(u, s);
    var b := Built(u, s);
    assert b == Dashed(u, s)[..|b|];
    TrimOneDash(b);
  }

  lemma DashIsNoLetter(u: Tables)
    requires u.Valid()
    ensures !u.Alnum('-') && u.lower('-') == '-'
  {
    assert IsAscii('-');
  }

  lemma LowerIsFixed(u: Tables, text: string)
    requires u.Valid()
    ensures var s := u.ToLower(text); forall i | 0 <= i < |s| :: u.lower(s[i]) == s[i]
  {
    forall i | 0 <= i < |text| ensures u.lower(u.ToLower(text)[i]) == u.ToLower(text)[i] {
      assert u.lower(u.lower(text[i])) == u.lower(text[i]);
    }
  }

  // ----- the normal form -----

  /** Letters, digits and single interior dashes, lower case, and under 60 bytes
      before its last rune. */
  predicate IsSlug(u: Tables, r: string) {
    && r != "" && r[0] != '-' && r[|r| - 1] != '-'
    && (forall i | 0 <= i < |r| :: r[i] == '-' || (u.Alnum(r[i]) && u.lower(r[i]) == r[i]))
    && SingleDashes(r)
    && Size(r[..|r| - 1]) < MAX_SLUG_LENGTH
  }

  lemma NoSubjectIsSlug(u: Tables)
    requires u.Valid()
    ensures IsSlug(u, NO_SUBJECT)
  {
    var r := NO_SUBJECT;
    assert forall i | 0 <= i < |r| :: IsAscii(r[i]) && (r[i] == '-' || 'a' <= r[i] <= 'z');
    assert forall i | 0 <= i < |r| && r[i] != '-' :: u.Alnum(r[i]) && u.lower(r[i]) == r[i];
    SizeOfAscii(r[..|r| - 1]);
  }

  lemma BuilderIsSlug(u: Tables, b: string)
    requires b != "" && b[0] != '-' && DropDash(b) != ""
    requires forall i | 0 <= i < |b| :: b[i] == '-' || (u.Alnum(b[i]) && u.lower(b[i]) == b[i])
    requires SingleDashes(b)
    requires Size(b[..|b| - 1]) < MAX_SLUG_LENGTH
    ensures IsSlug(u, DropDash(b))
  {
    var r, front := DropDash(b), b[..|b| - 1];
    assert r[..|r| - 1] == front[..|r| - 1];
    SizePrefix(front, |r| - 1);
  }

  /** Every slug is in normal form. */
  lemma SlugIsNormal(u: Tables, text: string)
    requires u.Valid()
    ensures IsSlug(u, SlugOf(u, text))
  {
    var s := u.ToLower(text);
    var b := Built(u, s);
    DashIsNoLetter(u);
    LowerIsFixed(u, text);
    SlugOfBuilder(u, text, s);
    BuiltIsPrefix(u, s);
    DashedShape(u, s);
    assert b == Dashed(u, s)[..|b|];
    NoSubjectIsSlug(u);
    if DropDash(b) != "" {
      BuilderIsSlug(u, b);
    }
  }

  lemma BuiltStep(u: Tables, p: string, c: char)
    requires Built(u, p) == p && Size(p) < MAX_SLUG_LENGTH
    ensures Built(u, p + [c]) == Write(u, p, c)
  {
    assert (p + [c])[..|p|] == p;
  }

  lemma {:induction false} BuiltOfSlug(u: Tables, r: string, k: nat)
    requires !u.Alnum('-') && IsSlug(u, r) && k <= |r|
    ensures Built(u, r[..k]) == r[..k]
    decreases k
  {
    hide Size, Built;
    if k == 0 {
      NothingBuilt(u);
    } else {
      var p, front := r[..k - 1], r[..|r| - 1];
      BuiltOfSlug(u, r, k - 1);
      assert p == front[..k - 1];
      SizePrefix(front, k - 1);
      BuiltStep(u, p, r[k - 1]);
      assert r[..k] == p + [r[k - 1]];
      assert r[k - 1] == '-' ==> k > 1 && p[k - 2] != '-';
    }
  }

  /** The normal forms are exactly the fixed points. */
  lemma SlugFixedPoints(u: Tables, r: string)
    requires u.Valid()
    ensures SlugOf(u, r) == r <==> IsSlug(u, r)
  {
    if IsSlug(u, r) {
      DashIsNoLetter(u);
      assert u.ToLower(r) == r;
      BuiltOfSlug(u, r, |r|);
      assert r[..|r|] == r;
      TrimIdentity(r, IsDash);
    }
    SlugIsNormal(u, r);
  }

  /** Slug is idempotent, and never longer than 63 bytes. */
  lemma SlugIdempotent(u: Tables, text: string)
    requires u.Valid()
    ensures SlugOf(u, SlugOf(u, text)) == SlugOf(u, text)
    ensures Size(SlugOf(u, text)) <= 63
  {
    SlugIsNormal(u, text);
    SlugFixedPoints(u, SlugOf(u, text));
  }

  predicate AllAscii(s: string) {
    forall i | 0 <= i < |s| :: IsAscii(s[i])
  }

  lemma LowerOfAscii(u: Tables, text: string)
    requires u.Valid() && AllAscii(text)
    ensures AllAscii(u.ToLower(text))
  {
    forall i | 0 <= i < |text| ensures IsAscii(u.ToLower(text)[i]) {
      assert u.lower(text[i]) == AsciiLower(text[i]);
    }
  }

  // ----- when a slug is longer than 60 bytes -----

  lemma SizeNext(s: string, k: nat)
    requires k < |s|
    ensures Size(s[..k + 1]) == Size(s[..k]) + RuneLen(s[k])
  {
    assert s[..k + 1][..k] == s[..k];
  }

  lemma SizeMonotonic(s: string, j: nat, k: nat)
    requires j <= k <= |s|
    ensures Size(s[..j]) <= Size(s[..k])
  {
    assert s[..k][..j] == s[..j];
    SizePrefix(s[..k], j);
  }

  /** Byte 60 of the text falls inside rune `k`. */
  predicate Straddles(full: string, k: nat)
    requires k < |full|
  {
    Size(full[..k]) < MAX_SLUG_LENGTH < Size(full[..k + 1])
  }

  /** A builder that reached the cap inside a rune keeps that rune. */
  lemma StraddledBuilder(full: string, b: string, k: nat)
    requires k < |full| && Straddles(full, k)
    requires b <= full && Size(b) >= MAX_SLUG_LENGTH
    ensures Size(DropDash(b)) > MAX_SLUG_LENGTH
  {
    hide Size;
    assert b == full[..|b|];
    if |b| <= k {
      SizeMonotonic(full, |b|, k);
      assert false;
    }
    SizeMonotonic(full, k + 1, |b|);
    SizeNext(full, k);
    if DropDash(b) != b {
      assert b[|b| - 1] == full[|b| - 1];
      assert DropDash(b) == full[..|b| - 1];
      if k + 1 < |b| {
        SizeMonotonic(full, k + 1, |b| - 1);
      }
    }
  }

  /** The cap of 60 is overrun exactly when byte 60 of the dash-joined words falls inside
      a rune: it is tested only after a rune is written. */
  lemma SlugExceedsCapIff(u: Tables, text: string)
    requires u.Valid()
    ensures var full := Join(Words(u, u.ToLower(text)), '-');
            Size(SlugOf(u, text)) > MAX_SLUG_LENGTH <==> exists k | 0 <= k < |full| :: Straddles(full, k)
  {
    hide Size, Built, Words, Join, SlugOf, DropDash;
    var s := u.ToLower(text);
    var full, slug, b := Join(Words(u, s), '-'), SlugOf(u, text), Built(u, s);
    DashIsNoLetter(u);
    LowerIsFixed(u, text);
    SlugOfBuilder(u, text, s);
    WordsCut(u, s);
    SlugIsNormal(u, text);
    if full == "" {
      NoSubjectSize();
    } else {
      if Size(slug) > MAX_SLUG_LENGTH {
        assert full[..|slug| - 1] == slug[..|slug| - 1] && full[..|slug| - 1 + 1] == slug;
        assert Straddles(full, |slug| - 1);
      }
      forall k | 0 <= k < |full| && Straddles(full, k) ensures Size(slug) > MAX_SLUG_LENGTH {
        if slug == full {
          SizeMonotonic(full, k + 1, |full|);
          assert full[..|full|] == full;
        } else {
          StraddledBuilder(full, b, k);
        }
      }
    }
  }

  lemma NoSubjectSize()
    ensures Size(NO_SUBJECT) == 10 && DropDash("") == ""
  {
    SizeOfAscii(NO_SUBJECT);
  }

  lemma {:induction false} AsciiDashed(u: Tables, s: string)
    requires AllAscii(s)
    ensures AllAscii(Dashed(u, s))
    decreases |s|
  {
    if s != "" {
      AsciiDashed(u, s[..|s| - 1]);
    }
  }

  /** In ASCII text no rune straddles a byte, so the cap holds. */
  lemma AsciiSlugIsCapped(u: Tables, text: string)
    requires u.Valid()
    requires AllAscii(text)
    ensures Size(SlugOf(u, text)) <= MAX_SLUG_LENGTH
  {
    hide Size, Words, Join, SlugOf;
    var s := u.ToLower(text);
    var full := Join(Words(u, s), '-');
    DashIsNoLetter(u);
    LowerOfAscii(u, text);
    AsciiDashed(u, s);
    DashedIsWords(u, s);
    assert full == Dashed(u, s)[..|full|];
    SlugExceedsCapIff(u, text);
    forall k | 0 <= k < |full| ensures !Straddles(full, k) {
      assert full[k] == Dashed(u, s)[k];
      SizeNext(full, k);
    }
  }

  /** 60 bytes is not the limit: the cap is tested after a rune is written, so a
      four-byte letter after 59 bytes gives 63. */
  lemma SlugCanExceedCap(u: Tables, wide: char)
    requires u.Valid() && u.Alnum(wide) && u.lower(wide) == wide && RuneLen(wide) == 4
    ensures Size(SlugOf(u, seq(59, _ => 'a') + [wide])) == 63
  {
    var a := seq(59, _ => 'a');
    var r := a + [wide];
    assert u.Alnum('a') && u.lower('a') == 'a';
    SizeOfAscii(a);
    assert r[..|r| - 1] == a;
    assert wide != '-';
    assert IsSlug(u, r);
    SlugFixedPoints(u, r);
  }
}

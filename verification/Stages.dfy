/** stages/stages.go: what travels through a run, and the names it is stored under. */
module Stages {
  import opened Text
  import opened Runes
  import Slugs
  import Paths

  /** Nanoseconds since Go's zero time; `ZERO` is time.Time{}. */
  type Instant = int
  const ZERO: Instant := 0
  const SECOND := 1_000_000_000
  const DAY_SECONDS := 86400

  newtype Byte = b: int | 0 <= b < 256
  type Bytes = seq<Byte>
  type UID = u: nat | u < 0x1_0000_0000

  datatype Option<+T> = None | Some(value: T)

  datatype Attachment = Attachment(filename: string, contentType: string, data: Bytes)

  datatype Message = Message(
    mailbox: string, uid: UID, date: Instant, subject: string, raw: Bytes, attachments: seq<Attachment>)

  datatype Artifact = Artifact(path: string, data: Bytes)

  /** `zone` is the UTC offset, in seconds, of the location `since` is expressed in. */
  datatype FetchRequest = FetchRequest(since: Instant, zone: int, mailbox: string, withAttachments: bool) {
    predicate All() { since == ZERO }
  }

  datatype Civil = Civil(year: nat, month: nat, day: nat)

  /** The environment of the naming scheme: character tables and the UTC calendar,
      a one-to-one map from day numbers to dates. */
  datatype Platform = Platform(tables: Tables, civil: int -> Civil) {
    ghost predicate Valid() {
      && tables.Valid()
      && (forall d {:trigger civil(d)} :: 1 <= civil(d).month <= 12 && 1 <= civil(d).day <= 31)
      && (forall d, e {:trigger civil(d), civil(e)} :: civil(d) == civil(e) ==> d == e)
    }

    function Year(t: Instant): string { Pad(civil(Second(t) / DAY_SECONDS).year, 4) }
    function Month(t: Instant): string { Pad(civil(Second(t) / DAY_SECONDS).month, 2) }
    function Day(t: Instant): string { Pad(civil(Second(t) / DAY_SECONDS).day, 2) }
  }

  function Second(t: Instant): int { t / SECOND }

  /** hhmmss of a UTC instant. */
  function Clock(t: Instant): string {
    var s := Second(t) % DAY_SECONDS;
    Pad(s / 3600, 2) + Pad(s % 3600 / 60, 2) + Pad(s % 60, 2)
  }

  /** date.Format("20060102T150405Z") */
  function Stamp(p: Platform, t: Instant): string {
    p.Year(t) + (p.Month(t) + p.Day(t)) + ("T" + Clock(t) + "Z")
  }

  /** The instant a message is filed under; `now` stands in for a missing date. */
  function FiledAt(m: Message, now: Instant): Instant {
    if m.date == ZERO then now else m.date
  }

  function Leaf(p: Platform, m: Message, t: Instant): string {
    Stamp(p, t) + "-" + (Decimal(m.uid) + "-" + Slugs.SlugOf(p.tables, m.subject))
  }

  function BasePath(p: Platform, m: Message, now: Instant): string {
    var t := FiledAt(m, now);
    Paths.SafePathOf(m.mailbox) + "/" + p.Year(t) + "/" + p.Month(t) + "/" + Leaf(p, m, t)
  }

  /** The name attachment `i` is stored under. */
  function AttachmentName(m: Message, i: nat): string
    requires i < |m.attachments|
  {
    if m.attachments[i].filename == "" then "attachment-" + Decimal(i + 1) else m.attachments[i].filename
  }

  function MessageArtifact(p: Platform, m: Message, now: Instant): Artifact {
    Artifact(BasePath(p, m, now) + ".eml", m.raw)
  }

  function AttachmentArtifact(p: Platform, m: Message, now: Instant, i: nat): Artifact
    requires i < |m.attachments|
  {
    Artifact(BasePath(p, m, now) + ".attachments/" + AttachmentName(m, i), m.attachments[i].data)
  }

  /** The message source, then one artifact per attachment, in order. */
  function ArtifactsOf(p: Platform, m: Message, now: Instant): (r: seq<Artifact>)
    ensures |r| == 1 + |m.attachments|
  {
    [MessageArtifact(p, m, now)] +
    seq(|m.attachments|, i requires 0 <= i < |m.attachments| => AttachmentArtifact(p, m, now, i))
  }

  method Artifacts(p: Platform, m: Message, now: Instant) returns (out: seq<Artifact>)
    ensures out == ArtifactsOf(p, m, now)
  {
    hide BasePath, Decimal;
    var base := BasePath(p, m, now);
    out := [Artifact(base + ".eml", m.raw)];
    var i := 0;
    while i < |m.attachments|
      invariant 0 <= i <= |m.attachments|
      invariant out == ArtifactsOf(p, m, now)[..i + 1]
    {
      var name := m.attachments[i].filename;
      if name == "" {
        name := "attachment-" + Decimal(i + 1);
      }
      out := out + [Artifact(base + ".attachments/" + name, m.attachments[i].data)];
      i := i + 1;
    }
  }

  /** What is stored of a message: its raw source under the base path and ".eml", then
      attachment by attachment its bytes under its own name or, counting from one, its
      position. */
  lemma ArtifactsHoldTheMessage(p: Platform, m: Message, now: Instant)
    ensures var out, base := ArtifactsOf(p, m, now), BasePath(p, m, now);
            && |out| == 1 + |m.attachments|
            && out[0].path == base + ".eml" && out[0].data == m.raw
            && forall i | 0 <= i < |m.attachments| ::
                 var a := m.attachments[i];
                 && out[i + 1].data == a.data
                 && out[i + 1].path == base + ".attachments/" +
                                       (if a.filename == "" then "attachment-" + Decimal(i + 1) else a.filename)
  {
    hide BasePath, Decimal;
  }

  lemma PadSmall(n: nat)
    requires n < 100
    ensures Pad(n, 2) == [Digit(n / 10), Digit(n % 10)]
  {
    if n < 10 {
      assert Zeros(1) == ['0'];
    } else {
      assert Decimal(n / 10) == [Digit(n / 10)];
    }
  }

  lemma PrintedYear()
    ensures Pad(2026, 4) == "2026"
  {
    assert Decimal(2) == "2";
    assert Decimal(20) == "20";
    assert Decimal(202) == "202";
    assert Decimal(2026) == "2026";
  }

  /** 15:04:05 on 9 March 2026 prints as 20260309T150405Z, filed under 2026/03. */
  lemma StampExample(p: Platform, t: Instant)
    requires p.civil(Second(t) / DAY_SECONDS) == Civil(2026, 3, 9)
    requires Second(t) % DAY_SECONDS == 15 * 3600 + 4 * 60 + 5
    ensures p.Year(t) == "2026" && p.Month(t) == "03" && Stamp(p, t) == "20260309T150405Z"
  {
    hide Pad, Decimal;
    PrintedYear();
    PadSmall(3);
    PadSmall(9);
    PadSmall(15);
    PadSmall(4);
    PadSmall(5);
    var s := Second(t) % DAY_SECONDS;
    assert s / 3600 == 15 && s % 3600 / 60 == 4 && s % 60 == 5;
  }

  /** The printed timestamp of any instant up to the year 9999, read back digit by digit:
      date, "T", time of day, "Z". The year and month directories are its first digits. */
  lemma StampReads(p: Platform, t: Instant)
    requires p.Valid() && p.civil(t / 1_000_000_000 / 86400).year < 10000
    ensures var s, d, r := Stamp(p, t), p.civil(t / 1_000_000_000 / 86400), t / 1_000_000_000 % 86400;
            && |s| == 16 && s[8] == 'T' && s[15] == 'Z'
            && Denotes(s[..4], d.year) && Denotes(s[4..6], d.month) && Denotes(s[6..8], d.day)
            && Denotes(s[9..11], r / 3600) && Denotes(s[11..13], r % 3600 / 60) && Denotes(s[13..15], r % 60)
            && p.Year(t) == s[..4] && p.Month(t) == s[4..6]
  {
    hide Pad, Denotes;
    var d, r := p.civil(t / 1_000_000_000 / 86400), t / 1_000_000_000 % 86400;
    PrintedNumber4(d.year);
    PrintedNumber2(d.month);
    PrintedNumber2(d.day);
    PrintedNumber2(r / 3600);
    PrintedNumber2(r % 3600 / 60);
    PrintedNumber2(r % 60);
    var s, date := Stamp(p, t), p.Year(t) + (p.Month(t) + p.Day(t));
    assert s == date + ("T" + Clock(t) + "Z");
    assert s[..4] == p.Year(t) && s[4..6] == p.Month(t) && s[6..8] == p.Day(t);
    assert s[9..11] == Pad(r / 3600, 2) && s[11..13] == Pad(r % 3600 / 60, 2) && s[13..15] == Pad(r % 60, 2);
  }

  lemma PrintedNumber2(n: nat)
    requires n < 100
    ensures |Pad(n, 2)| == 2 && Denotes(Pad(n, 2), n)
  {
    PadWidth2(n);
    ValueOfPad(n, 2);
  }

  lemma PrintedNumber4(n: nat)
    requires n < 10000
    ensures |Pad(n, 4)| == 4 && Denotes(Pad(n, 4), n)
  {
    PadWidth4(n);
    ValueOfPad(n, 4);
  }

  /** The last component of a base path: the timestamp before the first dash, the UID
      between the first two, the subject slug after them. */
  lemma LeafReads(p: Platform, m: Message, t: Instant) returns (i: nat, j: nat)
    requires p.Valid()
    ensures var leaf := Leaf(p, m, t);
            && i < j < |leaf| && leaf[i] == leaf[j] == '-'
            && '-' !in leaf[..i] && '-' !in leaf[i + 1..j]
            && leaf[..i] == Stamp(p, t)
            && Prints(leaf[i + 1..j], m.uid)
            && leaf[j + 1..] == Slugs.SlugOf(p.tables, m.subject)
  {
    hide Stamp, Slugs.SlugOf, Decimal, Prints;
    var stamp, uid, slug := Stamp(p, t), Decimal(m.uid), Slugs.SlugOf(p.tables, m.subject);
    var leaf := Leaf(p, m, t);
    StampHasNo(p, t, '-');
    UidPrints(m.uid);
    i, j := |stamp|, |stamp| + 1 + |uid|;
    assert leaf == stamp + ("-" + (uid + "-" + slug));
    assert leaf[i + 1..j] == uid && leaf[j + 1..] == slug && leaf[..i] == stamp;
  }

  lemma UidPrints(n: nat)
    ensures Prints(Decimal(n), n) && '-' !in Decimal(n)
  {
    hide Value, Decimal;
    DecimalPrints(n);
    DigitsOnly(Decimal(n), '-');
  }

  // ----- the base path is uniquely decodable -----

  lemma DigitsOnly(s: string, c: char)
    requires AllDigits(s) && !('0' <= c <= '9')
    ensures c !in s
  {
  }

  lemma PrintedDate(p: Platform, t: Instant)
    requires p.Valid()
    ensures AllDigits(p.Year(t)) && AllDigits(p.Month(t)) && AllDigits(p.Day(t)) && AllDigits(Clock(t))
    ensures |p.Month(t)| == 2 && |p.Day(t)| == 2 && |Clock(t)| == 6
  {
    hide Pad;
    var c := p.civil(Second(t) / DAY_SECONDS);
    var s := Second(t) % DAY_SECONDS;
    PadWidth2(c.month);
    PadWidth2(c.day);
    PadWidth2(s / 3600);
    PadWidth2(s % 3600 / 60);
    PadWidth2(s % 60);
  }

  lemma ClockDecodes(t: Instant, t': Instant)
    requires Clock(t) == Clock(t')
    ensures Second(t) % DAY_SECONDS == Second(t') % DAY_SECONDS
  {
    hide Pad;
    var s, s' := Second(t) % DAY_SECONDS, Second(t') % DAY_SECONDS;
    PadWidth2(s / 3600);
    PadWidth2(s % 3600 / 60);
    PadWidth2(s % 60);
    PadWidth2(s' / 3600);
    PadWidth2(s' % 3600 / 60);
    PadWidth2(s' % 60);
    assert Clock(t)[..2] == Pad(s / 3600, 2) && Clock(t')[..2] == Pad(s' / 3600, 2);
    assert Clock(t)[2..4] == Pad(s % 3600 / 60, 2) && Clock(t')[2..4] == Pad(s' % 3600 / 60, 2);
    assert Clock(t)[4..] == Pad(s % 60, 2) && Clock(t')[4..] == Pad(s' % 60, 2);
    PadInjective(s / 3600, s' / 3600, 2);
    PadInjective(s % 3600 / 60, s' % 3600 / 60, 2);
    PadInjective(s % 60, s' % 60, 2);
    HourMinuteSecond(s);
    HourMinuteSecond(s');
  }

  lemma HourMinuteSecond(s: nat)
    ensures s == s / 3600 * 3600 + s % 3600 / 60 * 60 + s % 60
  {
  }

  lemma StampDecodes(p: Platform, t: Instant, t': Instant)
    requires p.Valid()
    requires p.Year(t) == p.Year(t') && p.Month(t) == p.Month(t') && Stamp(p, t) == Stamp(p, t')
    ensures Second(t) == Second(t')
  {
    hide Pad, Clock;
    PrintedDate(p, t);
    PrintedDate(p, t');
    var y := |p.Year(t)|;
    var s := Stamp(p, t);
    assert s[y + 2..y + 4] == p.Day(t) && Stamp(p, t')[y + 2..y + 4] == p.Day(t');
    assert s[y + 5..y + 11] == Clock(t) && Stamp(p, t')[y + 5..y + 11] == Clock(t');
    ClockDecodes(t, t');
    var c, c' := p.civil(Second(t) / DAY_SECONDS), p.civil(Second(t') / DAY_SECONDS);
    PadInjective(c.year, c'.year, 4);
    PadInjective(c.month, c'.month, 2);
    PadInjective(c.day, c'.day, 2);
    assert c == c';
    DayAndClock(Second(t));
    DayAndClock(Second(t'));
  }

  lemma DayAndClock(s: int)
    ensures s == s / DAY_SECONDS * DAY_SECONDS + s % DAY_SECONDS
  {
  }

  lemma SlugHasNo(p: Platform, text: string, c: char)
    requires p.Valid() && (c == '/' || c == '.')
    ensures c !in Slugs.SlugOf(p.tables, text)
  {
    hide Slugs.SlugOf;
    var slug := Slugs.SlugOf(p.tables, text);
    Slugs.SlugIsNormal(p.tables, text);
    assert IsAscii(c) && !p.tables.Alnum(c);
  }

  lemma StampHasNo(p: Platform, t: Instant, c: char)
    requires p.Valid() && (c == '/' || c == '.' || c == '-')
    ensures c !in Stamp(p, t) && c !in p.Year(t) && c !in p.Month(t)
  {
    hide Pad, Clock;
    PrintedDate(p, t);
    DigitsOnly(p.Year(t), c);
    DigitsOnly(p.Month(t), c);
    DigitsOnly(p.Day(t), c);
    DigitsOnly(Clock(t), c);
  }

  lemma LeafHasNo(p: Platform, m: Message, t: Instant, c: char)
    requires p.Valid() && (c == '/' || c == '.')
    ensures c !in Leaf(p, m, t)
  {
    hide Stamp, Slugs.SlugOf;
    StampHasNo(p, t, c);
    DigitsOnly(Decimal(m.uid), c);
    SlugHasNo(p, m.subject, c);
  }

  lemma LeafDecodes(p: Platform, m: Message, t: Instant, m': Message, t': Instant)
    requires p.Valid() && Leaf(p, m, t) == Leaf(p, m', t')
    ensures Stamp(p, t) == Stamp(p, t') && m.uid == m'.uid
    ensures Slugs.SlugOf(p.tables, m.subject) == Slugs.SlugOf(p.tables, m'.subject)
  {
    hide Stamp, Slugs.SlugOf, Decimal;
    StampHasNo(p, t, '-');
    StampHasNo(p, t', '-');
    var slug, slug' := Slugs.SlugOf(p.tables, m.subject), Slugs.SlugOf(p.tables, m'.subject);
    FirstSeparator(Stamp(p, t), Decimal(m.uid) + "-" + slug, Stamp(p, t'), Decimal(m'.uid) + "-" + slug', '-');
    DigitsOnly(Decimal(m.uid), '-');
    DigitsOnly(Decimal(m'.uid), '-');
    FirstSeparator(Decimal(m.uid), slug, Decimal(m'.uid), slug', '-');
    PadInjective(m.uid, m'.uid, 0);
  }

  /** Two messages are filed under one base path exactly when they agree on the
      sanitised mailbox, the UTC second, the UID and the subject slug. */
  lemma BasePathDecodes(p: Platform, m: Message, now: Instant, m': Message, now': Instant)
    requires p.Valid()
    ensures BasePath(p, m, now) == BasePath(p, m', now') <==>
            && Paths.SafePathOf(m.mailbox) == Paths.SafePathOf(m'.mailbox)
            && Second(FiledAt(m, now)) == Second(FiledAt(m', now'))
            && m.uid == m'.uid
            && Slugs.SlugOf(p.tables, m.subject) == Slugs.SlugOf(p.tables, m'.subject)
  {
    hide Stamp, Paths.SafePathOf, Slugs.SlugOf, Pad, Leaf;
    var t, t' := FiledAt(m, now), FiledAt(m', now');
    if BasePath(p, m, now) == BasePath(p, m', now') {
      var a, a' := Paths.SafePathOf(m.mailbox), Paths.SafePathOf(m'.mailbox);
      StampHasNo(p, t, '/');
      StampHasNo(p, t', '/');
      LeafHasNo(p, m, t, '/');
      LeafHasNo(p, m', t', '/');
      LastSeparator(a + "/" + p.Year(t) + "/" + p.Month(t), Leaf(p, m, t),
                    a' + "/" + p.Year(t') + "/" + p.Month(t'), Leaf(p, m', t'), '/');
      LastSeparator(a + "/" + p.Year(t), p.Month(t), a' + "/" + p.Year(t'), p.Month(t'), '/');
      LastSeparator(a, p.Year(t), a', p.Year(t'), '/');
      LeafDecodes(p, m, t, m', t');
      StampDecodes(p, t, t');
    }
    if Second(t) == Second(t') && m.uid == m'.uid &&
       Slugs.SlugOf(p.tables, m.subject) == Slugs.SlugOf(p.tables, m'.subject) {
      LeafDetermined(p, m, t, m', t');
    }
  }

  lemma LeafDetermined(p: Platform, m: Message, t: Instant, m': Message, t': Instant)
    requires Second(t) == Second(t') && m.uid == m'.uid
    requires Slugs.SlugOf(p.tables, m.subject) == Slugs.SlugOf(p.tables, m'.subject)
    ensures p.Year(t) == p.Year(t') && p.Month(t) == p.Month(t') && Leaf(p, m, t) == Leaf(p, m', t')
  {
  }

  // ----- the first dot of a full path ends the base -----

  lemma BasePathHasNoDot(p: Platform, m: Message, now: Instant)
    requires p.Valid()
    ensures '.' !in BasePath(p, m, now)
  {
    hide Stamp, Paths.SafePathOf, Leaf, Pad;
    var t := FiledAt(m, now);
    Paths.SafePathIsSafe(m.mailbox);
    Paths.SafePathHasNoDot(Paths.SafePathOf(m.mailbox));
    StampHasNo(p, t, '.');
    LeafHasNo(p, m, t, '.');
  }

  /** What follows the first dot of artifact `i`. */
  function Tail(m: Message, i: nat): string
    requires i <= |m.attachments|
  {
    if i == 0 then "eml" else "attachments/" + AttachmentName(m, i - 1)
  }

  lemma PathIsBaseDotTail(p: Platform, m: Message, now: Instant, i: nat)
    requires i <= |m.attachments|
    ensures ArtifactsOf(p, m, now)[i].path == BasePath(p, m, now) + ['.'] + Tail(m, i)
  {
    hide BasePath;
  }

  /** A stored path, with whatever suffix encryption added, determines the base path
      and the rest, so it determines which kind of artifact it names. */
  lemma PathDecodes(
    p: Platform, m: Message, now: Instant, i: nat, x: string, m': Message, now': Instant, i': nat, x': string)
    requires p.Valid() && i <= |m.attachments| && i' <= |m'.attachments|
    requires ArtifactsOf(p, m, now)[i].path + x == ArtifactsOf(p, m', now')[i'].path + x'
    ensures BasePath(p, m, now) == BasePath(p, m', now')
    ensures Tail(m, i) + x == Tail(m', i') + x'
    ensures i == 0 <==> i' == 0
  {
    hide BasePath, ArtifactsOf, Tail;
    PathIsBaseDotTail(p, m, now, i);
    PathIsBaseDotTail(p, m', now', i');
    BasePathHasNoDot(p, m, now);
    BasePathHasNoDot(p, m', now');
    var b, b' := BasePath(p, m, now), BasePath(p, m', now');
    Regroup(b, ['.'], Tail(m, i), x);
    Regroup(b', ['.'], Tail(m', i'), x');
    FirstSeparator(b, Tail(m, i) + x, b', Tail(m', i') + x', '.');
    TailStart(m, i, x);
    TailStart(m', i', x');
  }

  lemma Regroup(a: string, b: string, c: string, d: string)
    ensures a + b + c + d == a + b + (c + d)
  {
  }

  lemma TailStart(m: Message, i: nat, x: string)
    requires i <= |m.attachments|
    ensures (Tail(m, i) + x)[..1] == if i == 0 then "e" else "a"
  {
    hide AttachmentName;
  }

  /** Messages with different UIDs in one sanitised mailbox, and messages of
      mailboxes that sanitise differently, never share an artifact path, whatever
      suffixes encryption adds and whenever they are filed. */
  lemma MessagesNeverShareAPath(
    p: Platform, m: Message, now: Instant, i: nat, x: string, m': Message, now': Instant, i': nat, x': string)
    requires p.Valid() && i <= |m.attachments| && i' <= |m'.attachments|
    requires Paths.SafePathOf(m.mailbox) != Paths.SafePathOf(m'.mailbox) || m.uid != m'.uid
    ensures ArtifactsOf(p, m, now)[i].path + x != ArtifactsOf(p, m', now')[i'].path + x'
  {
    hide BasePath, ArtifactsOf, Paths.SafePathOf;
    if ArtifactsOf(p, m, now)[i].path + x == ArtifactsOf(p, m', now')[i'].path + x' {
      PathDecodes(p, m, now, i, x, m', now', i', x');
      BasePathDecodes(p, m, now, m', now');
    }
  }

  predicate NamesDistinct(m: Message) {
    forall i, j | 0 <= i < j < |m.attachments| :: AttachmentName(m, i) != AttachmentName(m, j)
  }

  predicate PathsDistinct(artifacts: seq<Artifact>) {
    forall i, j | 0 <= i < j < |artifacts| :: artifacts[i].path != artifacts[j].path
  }

  lemma SameNameSamePath(p: Platform, m: Message, now: Instant, i: nat, j: nat)
    requires p.Valid() && i < j <= |m.attachments|
    ensures ArtifactsOf(p, m, now)[i].path == ArtifactsOf(p, m, now)[j].path <==>
            i > 0 && AttachmentName(m, i - 1) == AttachmentName(m, j - 1)
  {
    hide BasePath, ArtifactsOf;
    PathIsBaseDotTail(p, m, now, i);
    PathIsBaseDotTail(p, m, now, j);
    var a, b := ArtifactsOf(p, m, now)[i].path, ArtifactsOf(p, m, now)[j].path;
    if a == b {
      assert a + "" == a && b + "" == b;
      PathDecodes(p, m, now, i, "", m, now, j, "");
      assert Tail(m, i) + "" == Tail(m, i) && Tail(m, j) + "" == Tail(m, j);
      assert Tail(m, i)[12..] == AttachmentName(m, i - 1);
      assert Tail(m, j)[12..] == AttachmentName(m, j - 1);
    }
  }

  /** One file per attachment is promised; it is what happens exactly when the
      stored names differ. Two attachments of one name share a path. */
  lemma OneFilePerAttachment(p: Platform, m: Message, now: Instant)
    requires p.Valid()
    ensures PathsDistinct(ArtifactsOf(p, m, now)) <==> NamesDistinct(m)
  {
    hide BasePath, AttachmentName;
    var all := ArtifactsOf(p, m, now);
    forall i, j | 0 <= i < j < |all|
      ensures all[i].path == all[j].path <==> i > 0 && AttachmentName(m, i - 1) == AttachmentName(m, j - 1)
    {
      SameNameSamePath(p, m, now, i, j);
    }
    if !NamesDistinct(m) {
      var i, j :| 0 <= i < j < |m.attachments| && AttachmentName(m, i) == AttachmentName(m, j);
      assert all[i + 1].path == all[j + 1].path;
    } else {
      assert forall i, j | 0 <= i < j < |m.attachments| :: AttachmentName(m, i) != AttachmentName(m, j);
    }
  }

  /** Equal filenames collide, and so does a filename that spells a position. */
  lemma AttachmentsCanCollide(p: Platform, m: Message, name: string, now: Instant)
    requires p.Valid()
    requires name != "" && |m.attachments| == 2
    requires (m.attachments[0].filename == name && m.attachments[1].filename == name)
             || (m.attachments[0].filename == "attachment-" + Decimal(2) && m.attachments[1].filename == "")
    ensures !PathsDistinct(ArtifactsOf(p, m, now))
  {
    hide ArtifactsOf, Decimal;
    OneFilePerAttachment(p, m, now);
    assert AttachmentName(m, 0) == AttachmentName(m, 1);
  }

  /** Unnamed attachments never collide with each other. */
  lemma PositionalNamesDistinct(m: Message, i: nat, j: nat)
    requires i < j < |m.attachments|
    requires m.attachments[i].filename == "" && m.attachments[j].filename == ""
    ensures AttachmentName(m, i) != AttachmentName(m, j)
  {
    hide Decimal;
    var n := |"attachment-"|;
    assert AttachmentName(m, i)[n..] == Decimal(i + 1) && AttachmentName(m, j)[n..] == Decimal(j + 1);
    PadInjective(i + 1, j + 1, 0);
  }

  // ----- files never stand in the way of directories -----

  /** `a` names a directory on the way to `b`. */
  predicate ProperAncestor(a: string, b: string) {
    a + "/" <= b
  }

  /** Every filename was reduced to one path element, as the fetcher does. */
  predicate SafeAttachments(m: Message) {
    forall i | 0 <= i < |m.attachments| :: Paths.IsSafeName(m.attachments[i].filename)
  }

  lemma NameHasNoSlash(m: Message, i: nat)
    requires SafeAttachments(m) && i < |m.attachments|
    ensures '/' !in AttachmentName(m, i)
    ensures AttachmentName(m, i) != ""
  {
    assert Paths.IsSafeName(m.attachments[i].filename);
    DigitsOnly(Decimal(i + 1), '/');
  }

  lemma TailHasNoLaterSlash(m: Message, i: nat, x: string)
    requires SafeAttachments(m) && '/' !in x && i <= |m.attachments|
    ensures var t := Tail(m, i) + x;
            forall k | (if i == 0 then 0 else 12) <= k < |t| :: t[k] != '/'
  {
    hide AttachmentName;
    if i > 0 {
      NameHasNoSlash(m, i - 1);
    }
  }

  /** No stored path is a directory of another, over any two messages and any
      dotted suffixes. */
  lemma NoFileDirectoryClash(
    p: Platform, m: Message, now: Instant, i: nat, x: string, m': Message, now': Instant, i': nat, x': string)
    requires p.Valid() && SafeAttachments(m') && '/' !in x'
    requires i <= |m.attachments| && i' <= |m'.attachments|
    ensures !ProperAncestor(ArtifactsOf(p, m, now)[i].path + x, ArtifactsOf(p, m', now')[i'].path + x')
  {
    hide BasePath, ArtifactsOf, AttachmentName;
    var a, b := ArtifactsOf(p, m, now)[i].path + x, ArtifactsOf(p, m', now')[i'].path + x';
    if a + "/" <= b {
      var rest := b[|a| + 1..];
      var t, k := Tail(m, i) + (x + "/" + rest), |Tail(m, i)| + |x|;
      assert t[k] == '/' && (i > 0 ==> k >= 12);
      TailHasNoLaterSlash(m', i', x');
      assert ArtifactsOf(p, m, now)[i].path + (x + "/" + rest) == b;
      PathDecodes(p, m, now, i, x + "/" + rest, m', now', i', x');
    }
  }
}

/** stages/fetch/imap.go: the IMAP fetcher over a model of the server. A run sees one
    snapshot of the account; any call may fail. */
module Imap {
  import opened Runes
  import opened Stages
  import opened Emitters
  import Mime

  datatype Envelope = Envelope(date: Instant, subject: string)
  datatype Body = Body(raw: Bytes, parsed: Mime.Parsed)

  /** `zone` is the UTC offset, in seconds, the server keeps the internal date in. */
  datatype ServerMessage = ServerMessage(
    uid: UID, internalDate: Instant, zone: int, envelope: Option<Envelope>, body: Option<Body>)

  datatype Mailbox = Mailbox(name: string, noSelect: bool, messages: seq<ServerMessage>)

  const FETCH_BATCH_SIZE := 100
  const DAY := DAY_SECONDS * SECOND

  /** UIDs are unique within a mailbox. */
  ghost predicate UniqueUids(msgs: seq<ServerMessage>) {
    forall i, j | 0 <= i < j < |msgs| :: msgs[i].uid != msgs[j].uid
  }

  // ----- what the server answers -----

  /** The calendar date, as a day number, of an instant read in a zone. */
  function DateIn(t: Instant, zone: int): int {
    (t + zone * SECOND) / DAY
  }

  /** SEARCH SINCE compares dates, each read in its own zone (section 6.4.4 of RFC 9051). */
  predicate SearchHit(m: ServerMessage, req: FetchRequest) {
    req.All() || DateIn(m.internalDate, m.zone) >= DateIn(req.since, req.zone)
  }

  function Hits(msgs: seq<ServerMessage>, req: FetchRequest): seq<ServerMessage> {
    if msgs == [] then []
    else
      var last := msgs[|msgs| - 1];
      Hits(msgs[..|msgs| - 1], req) + (if SearchHit(last, req) then [last] else [])
  }

  function Uids(msgs: seq<ServerMessage>): seq<UID> {
    seq(|msgs|, i requires 0 <= i < |msgs| => msgs[i].uid)
  }

  /** The messages a UID FETCH is answered with. */
  function Responses(msgs: seq<ServerMessage>, uids: seq<UID>): seq<ServerMessage> {
    if uids == [] then []
    else Responses(msgs, uids[..|uids| - 1]) + Lookup(msgs, uids[|uids| - 1])
  }

  function Lookup(msgs: seq<ServerMessage>, uid: UID): seq<ServerMessage> {
    if msgs == [] then []
    else if msgs[0].uid == uid then [msgs[0]]
    else Lookup(msgs[1..], uid)
  }

  function Find(server: seq<Mailbox>, name: string): Option<Mailbox> {
    if server == [] then None
    else if server[0].name == name && !server[0].noSelect then Some(server[0])
    else Find(server[1..], name)
  }

  function Selectable(server: seq<Mailbox>): seq<string> {
    if server == [] then []
    else
      var last := server[|server| - 1];
      Selectable(server[..|server| - 1]) + (if last.noSelect then [] else [last.name])
  }

  // ----- what the fetcher makes of it -----

  function DateOf(m: ServerMessage): Instant {
    if m.internalDate == ZERO && m.envelope.Some? then m.envelope.value.date else m.internalDate
  }

  /** The emitted message, None when the exact time bound or a missing body drops it. */
  function Convert(u: Tables, mailbox: string, m: ServerMessage, req: FetchRequest): Option<Message> {
    var date := DateOf(m);
    if !req.All() && date != ZERO && !(date > req.since) then None
    else if m.body.None? then None
    else
      var subject := if m.envelope.Some? then m.envelope.value.subject else "";
      var attachments := if req.withAttachments then Mime.Extracted(u, m.body.value.parsed) else [];
      Some(Message(mailbox, m.uid, date, subject, m.body.value.raw, attachments))
  }

  /** `x` is what a run makes of message `m` of a mailbox: its name and UID, the raw bytes of
      its body, the subject of its envelope, the server's date or else the envelope's, and
      its attachments when they are asked for. */
  predicate Depicts(u: Tables, mailbox: string, m: ServerMessage, req: FetchRequest, x: Message) {
    && m.body.Some?
    && x.mailbox == mailbox && x.uid == m.uid && x.raw == m.body.value.raw
    && (m.envelope.Some? ==> x.subject == m.envelope.value.subject)
    && (m.envelope.None? ==> x.subject == "")
    && (m.internalDate != ZERO ==> x.date == m.internalDate)
    && (m.internalDate == ZERO && m.envelope.Some? ==> x.date == m.envelope.value.date)
    && (m.internalDate == ZERO && m.envelope.None? ==> x.date == ZERO)
    && (req.withAttachments ==> x.attachments == Mime.Extracted(u, m.body.value.parsed))
    && (!req.withAttachments ==> x.attachments == [])
  }

  /** A message is kept exactly when it has a body and is undated or dated after the bound,
      and nothing of it is lost. */
  lemma ConvertDepicts(u: Tables, mailbox: string, m: ServerMessage, req: FetchRequest)
    ensures Convert(u, mailbox, m, req).Some? <==>
            m.body.Some? && (req.since == ZERO || DateOf(m) == ZERO || DateOf(m) > req.since)
    ensures forall x :: Convert(u, mailbox, m, req) == Some(x) <==>
              Convert(u, mailbox, m, req).Some? && Depicts(u, mailbox, m, req, x)
  {
    hide Mime.Extracted;
  }

  function ConvertAll(u: Tables, mailbox: string, msgs: seq<ServerMessage>, req: FetchRequest): seq<Message> {
    if msgs == [] then []
    else
      var last := Convert(u, mailbox, msgs[|msgs| - 1], req);
      ConvertAll(u, mailbox, msgs[..|msgs| - 1], req) + (if last.None? then [] else [last.value])
  }

  /** The messages a run emits when nothing fails, one mailbox after the other. */
  function Window(u: Tables, server: seq<Mailbox>, names: seq<string>, req: FetchRequest): seq<Message> {
    if names == [] then []
    else
      var found := Find(server, names[|names| - 1]);
      Window(u, server, names[..|names| - 1], req) +
      (if found.None? then [] else ConvertAll(u, found.value.name, Hits(found.value.messages, req), req))
  }

  function Scope(server: seq<Mailbox>, only: string): seq<string> {
    if only != "" then [only] else Selectable(server)
  }

  lemma {:induction false} FindNames(server: seq<Mailbox>, name: string)
    ensures Find(server, name).Some? ==>
              Find(server, name).value in server && Find(server, name).value.name == name &&
              !Find(server, name).value.noSelect
  {
    if server != [] {
      FindNames(server[1..], name);
    }
  }

  /** SELECT opens the first selectable mailbox of the name, if there is one. */
  lemma {:induction false} FindIsFirst(server: seq<Mailbox>, name: string, i: nat)
    requires i < |server| && server[i].name == name && !server[i].noSelect
    requires forall j | 0 <= j < i :: server[j].name != name || server[j].noSelect
    ensures Find(server, name) == Some(server[i])
  {
    if i > 0 {
      FindIsFirst(server[1..], name, i - 1);
    }
  }

  /** A listing names exactly the selectable mailboxes, in the server's order. */
  lemma {:induction false} ListedIffSelectable(server: seq<Mailbox>, name: string)
    ensures name in Selectable(server) <==>
            exists i :: 0 <= i < |server| && server[i].name == name && !server[i].noSelect
    decreases |server|
  {
    if server != [] {
      var front := server[..|server| - 1];
      ListedIffSelectable(front, name);
      if name in Selectable(front) {
        var i :| 0 <= i < |front| && front[i].name == name && !front[i].noSelect;
        assert server[i] == front[i];
      }
    }
  }

  lemma {:induction false} ListedInOrder(a: seq<Mailbox>, box: Mailbox, b: seq<Mailbox>)
    ensures Selectable(a + [box] + b) == Selectable(a) + (if box.noSelect then [] else [box.name]) + Selectable(b)
    decreases |b|
  {
    var all := a + [box] + b;
    if b == [] {
      assert all[..|all| - 1] == a;
    } else {
      assert all[..|all| - 1] == a + [box] + b[..|b| - 1];
      ListedInOrder(a, box, b[..|b| - 1]);
    }
  }

  lemma {:induction false} LookupFinds(msgs: seq<ServerMessage>, i: nat)
    requires UniqueUids(msgs) && i < |msgs|
    ensures Lookup(msgs, msgs[i].uid) == [msgs[i]]
  {
    if i > 0 {
      LookupFinds(msgs[1..], i - 1);
    }
  }

  lemma {:induction false} HitsAreMessages(msgs: seq<ServerMessage>, req: FetchRequest)
    ensures forall i | 0 <= i < |Hits(msgs, req)| :: Hits(msgs, req)[i] in msgs
    decreases |msgs|
  {
    if msgs != [] {
      HitsAreMessages(msgs[..|msgs| - 1], req);
    }
  }

  lemma {:induction false} ResponsesOfHits(msgs: seq<ServerMessage>, hits: seq<ServerMessage>)
    requires UniqueUids(msgs)
    requires forall i | 0 <= i < |hits| :: hits[i] in msgs
    ensures Responses(msgs, Uids(hits)) == hits
    decreases |hits|
  {
    if hits != [] {
      var front, last := hits[..|hits| - 1], hits[|hits| - 1];
      ResponsesOfHits(msgs, front);
      assert Uids(hits)[..|hits| - 1] == Uids(front);
      var k :| 0 <= k < |msgs| && msgs[k] == last;
      LookupFinds(msgs, k);
    }
  }

  lemma {:induction false} ConvertAllConcat(
    u: Tables, mailbox: string, a: seq<ServerMessage>, b: seq<ServerMessage>, req: FetchRequest)
    ensures ConvertAll(u, mailbox, a + b, req) == ConvertAll(u, mailbox, a, req) + ConvertAll(u, mailbox, b, req)
    decreases |b|
  {
    hide Convert;
    if b == [] {
      assert a + b == a;
    } else {
      assert (a + b)[..|a + b| - 1] == a + b[..|b| - 1];
      ConvertAllConcat(u, mailbox, a, b[..|b| - 1], req);
    }
  }

  /** Taking one response out of the stream takes its message out of the multiset. */
  lemma ConvertAllRemove(u: Tables, mailbox: string, rest: seq<ServerMessage>, i: nat, req: FetchRequest)
    requires i < |rest|
    ensures var c := Convert(u, mailbox, rest[i], req);
            multiset(ConvertAll(u, mailbox, rest, req)) ==
            multiset(ConvertAll(u, mailbox, rest[..i] + rest[i + 1..], req)) +
            (if c.None? then multiset{} else multiset{c.value})
  {
    hide Convert;
    var a, x, b := rest[..i], [rest[i]], rest[i + 1..];
    assert rest == a + x + b;
    ConvertAllConcat(u, mailbox, a + x, b, req);
    ConvertAllConcat(u, mailbox, a, x, req);
    ConvertAllConcat(u, mailbox, a, b, req);
    assert x[..0] == [];
  }

  /** Every emitted message has safe attachment names, so the naming theorems apply. */
  lemma ConvertIsSafe(u: Tables, mailbox: string, m: ServerMessage, req: FetchRequest)
    requires Convert(u, mailbox, m, req).Some?
    ensures SafeAttachments(Convert(u, mailbox, m, req).value)
  {
    hide Mime.Extracted;
    Mime.ExtractedIsSafe(u, m.body.value.parsed);
  }

  // ----- which messages a run emits, one by one -----

  lemma {:induction false} HitsHold(msgs: seq<ServerMessage>, req: FetchRequest, m: ServerMessage)
    ensures m in Hits(msgs, req) <==> m in msgs && SearchHit(m, req)
    decreases |msgs|
  {
    if msgs != [] {
      HitsHold(msgs[..|msgs| - 1], req, m);
      assert msgs == msgs[..|msgs| - 1] + [msgs[|msgs| - 1]];
    }
  }

  lemma {:induction false} ConvertAllHolds(
    u: Tables, mailbox: string, msgs: seq<ServerMessage>, req: FetchRequest, x: Message)
    ensures x in ConvertAll(u, mailbox, msgs, req) <==> exists m :: m in msgs && Convert(u, mailbox, m, req) == Some(x)
    decreases |msgs|
  {
    hide Convert;
    if msgs != [] {
      var front, last := msgs[..|msgs| - 1], msgs[|msgs| - 1];
      ConvertAllHolds(u, mailbox, front, req, x);
      assert msgs == front + [last];
    }
  }

  /** The mailbox is one a run visits: selectable, and the one asked for if any. */
  predicate Visited(box: Mailbox, req: FetchRequest) {
    !box.noSelect && (req.mailbox == "" || req.mailbox == box.name)
  }

  /** The search returns the message, and the exact bound keeps it. */
  predicate Asked(m: ServerMessage, req: FetchRequest) {
    SearchHit(m, req) && m.body.Some? && (req.since == ZERO || DateOf(m) == ZERO || DateOf(m) > req.since)
  }

  /** `x` depicts a message the run asks for, of a mailbox it visits. */
  ghost predicate Sourced(u: Tables, server: seq<Mailbox>, req: FetchRequest, x: Message) {
    exists box, m :: box in server && m in box.messages && Visited(box, req) && Asked(m, req) &&
                     Depicts(u, box.name, m, req, x)
  }

  /** Mailbox names are unique. */
  ghost predicate UniqueNames(server: seq<Mailbox>) {
    forall i, j | 0 <= i < j < |server| :: server[i].name != server[j].name
  }

  ghost predicate InMailbox(u: Tables, server: seq<Mailbox>, name: string, req: FetchRequest, x: Message) {
    var found := Find(server, name);
    found.Some? && x in ConvertAll(u, found.value.name, Hits(found.value.messages, req), req)
  }

  lemma {:induction false} WindowHolds(
    u: Tables, server: seq<Mailbox>, names: seq<string>, req: FetchRequest, x: Message)
    ensures x in Window(u, server, names, req) <==> exists name :: name in names && InMailbox(u, server, name, req, x)
    decreases |names|
  {
    hide Find, ConvertAll, Hits;
    if names != [] {
      var front, last := names[..|names| - 1], names[|names| - 1];
      WindowHolds(u, server, front, req, x);
      assert names == front + [last];
      assert last in names;
      assert InMailbox(u, server, last, req, x) ==> x in Window(u, server, names, req);
    }
  }

  lemma MailboxHolds(u: Tables, box: Mailbox, req: FetchRequest, x: Message)
    ensures x in ConvertAll(u, box.name, Hits(box.messages, req), req) <==>
            exists m :: m in box.messages && Asked(m, req) && Depicts(u, box.name, m, req, x)
  {
    hide Convert, Hits, ConvertAll, Depicts, SearchHit, DateOf;
    var hits := Hits(box.messages, req);
    ConvertAllHolds(u, box.name, hits, req, x);
    if m :| m in hits && Convert(u, box.name, m, req) == Some(x) {
      HitsHold(box.messages, req, m);
      ConvertDepicts(u, box.name, m, req);
    }
    if m :| m in box.messages && Asked(m, req) && Depicts(u, box.name, m, req, x) {
      HitsHold(box.messages, req, m);
      ConvertDepicts(u, box.name, m, req);
    }
  }

  /** Everything in the window of a run depicts a message of the account. */
  lemma WindowIsSourced(u: Tables, server: seq<Mailbox>, req: FetchRequest, x: Message)
    requires x in Window(u, server, Scope(server, req.mailbox), req)
    ensures Sourced(u, server, req, x)
  {
    hide Find, Hits, ConvertAll, Window, Asked, Depicts;
    var names := Scope(server, req.mailbox);
    WindowHolds(u, server, names, req, x);
    var name :| name in names && InMailbox(u, server, name, req, x);
    var box := Find(server, name).value;
    FindNames(server, name);
    MailboxHolds(u, box, req, x);
    assert Visited(box, req);
  }

  /** And with unique names every message asked for is depicted in it. */
  lemma WindowIsWhole(u: Tables, server: seq<Mailbox>, req: FetchRequest, i: nat, m: ServerMessage) returns (x: Message)
    requires UniqueNames(server) && i < |server| && m in server[i].messages
    requires Visited(server[i], req) && Asked(m, req)
    ensures x in Window(u, server, Scope(server, req.mailbox), req) && Depicts(u, server[i].name, m, req, x)
  {
    hide Find, Hits, ConvertAll, Window, Depicts, SearchHit, Selectable;
    var box, names := server[i], Scope(server, req.mailbox);
    ConvertDepicts(u, box.name, m, req);
    x := Convert(u, box.name, m, req).value;
    MailboxHolds(u, box, req, x);
    FindIsFirst(server, box.name, i);
    ListedIffSelectable(server, box.name);
    assert box.name in names;
    WindowHolds(u, server, names, req, x);
  }

  /** Mailboxes are visited one after the other, in the order of their names. */
  ghost predicate InOrder(names: seq<string>, emitted: seq<Message>) {
    forall i, j | 0 <= i <= j < |emitted| :: NoLater(names, emitted[i].mailbox, emitted[j].mailbox)
  }

  ghost predicate NoLater(names: seq<string>, a: string, b: string) {
    exists i, j :: 0 <= i <= j < |names| && names[i] == a && names[j] == b
  }

  /** What one mailbox contributes carries its name. */
  lemma WindowOfOneNamed(u: Tables, server: seq<Mailbox>, name: string, req: FetchRequest, x: Message)
    requires x in Window(u, server, [name], req)
    ensures x.mailbox == name
  {
    hide Find, Hits, ConvertAll, Convert;
    WindowHolds(u, server, [name], req, x);
    assert InMailbox(u, server, name, req, x);
    FindNames(server, name);
    var box := Find(server, name).value;
    MailboxHolds(u, box, req, x);
  }

  lemma NoLaterGrows(names: seq<string>, k: nat, a: string, b: string)
    requires k <= |names| && NoLater(names[..k], a, b)
    ensures NoLater(names, a, b)
  {
    var i, j :| 0 <= i <= j < k && names[..k][i] == a && names[..k][j] == b;
    assert names[i] == a && names[j] == b;
  }

  /** Mail of the next mailbox goes behind what the earlier ones contributed. */
  lemma OrderGrows(names: seq<string>, k: nat, emitted: seq<Message>, part: seq<Message>)
    requires k < |names| && InOrder(names[..k], emitted)
    requires forall x | x in part :: x.mailbox == names[k]
    ensures InOrder(names[..k + 1], emitted + part) && InOrder(names, emitted + part)
  {
    var shorter, all := names[..k + 1], emitted + part;
    assert shorter[..k] == names[..k];
    forall i, j | 0 <= i <= j < |all| ensures NoLater(shorter, all[i].mailbox, all[j].mailbox) {
      if j < |emitted| {
        assert NoLater(names[..k], emitted[i].mailbox, emitted[j].mailbox);
        NoLaterGrows(shorter, k, all[i].mailbox, all[j].mailbox);
      } else {
        assert all[j] in part && shorter[k] == all[j].mailbox;
        if i < |emitted| {
          assert NoLater(names[..k], emitted[i].mailbox, emitted[i].mailbox);
          var n :| 0 <= n < k && names[..k][n] == emitted[i].mailbox;
          assert shorter[n] == all[i].mailbox;
        } else {
          assert all[i] in part;
        }
      }
    }
    forall i, j | 0 <= i <= j < |all| ensures NoLater(names, all[i].mailbox, all[j].mailbox) {
      NoLaterGrows(names, k + 1, all[i].mailbox, all[j].mailbox);
    }
  }

  /** The mailbox asked for exists. */
  predicate Reachable(server: seq<Mailbox>, req: FetchRequest) {
    req.mailbox == "" || exists i :: 0 <= i < |server| && Visited(server[i], req)
  }

  /** Every name a run visits is found, if the mailbox asked for exists. */
  lemma ScopeIsFound(server: seq<Mailbox>, req: FetchRequest, name: string)
    requires name in Scope(server, req.mailbox)
    requires Reachable(server, req)
    ensures Find(server, name).Some?
  {
    hide Find, Selectable;
    if req.mailbox == "" {
      ListedIffSelectable(server, name);
    }
    var i :| 0 <= i < |server| && server[i].name == name && !server[i].noSelect;
    FoundIfThere(server, name, i);
  }

  lemma {:induction false} FoundIfThere(server: seq<Mailbox>, name: string, i: nat)
    requires i < |server| && server[i].name == name && !server[i].noSelect
    ensures Find(server, name).Some?
  {
    if i > 0 {
      FoundIfThere(server[1..], name, i - 1);
    }
  }

  class IMAP {
    /** The account as this run sees it. */
    const server: seq<Mailbox>
    const u: Tables
    /** Whether the connection lasts: a reliable session neither fails nor is cancelled. */
    const reliable: bool
    /** Session state: the mailbox SELECT opened last. */
    var selected: Option<Mailbox>

    ghost predicate Valid() {
      forall i | 0 <= i < |server| :: UniqueUids(server[i].messages)
    }

    constructor (server: seq<Mailbox>, u: Tables, reliable: bool)
      ensures this.server == server && this.u == u && this.reliable == reliable
    {
      this.server, this.u, this.reliable, selected := server, u, reliable, None;
    }

    /** One exchange with the server. */
    method Call() returns (ok: bool)
      ensures reliable ==> ok
    {
      var fails: bool := *;
      ok := reliable || !fails;
    }

    /** Every selectable mailbox, in the server's order, or the one asked for. */
    method Mailboxes(only: string) returns (ok: bool, names: seq<string>)
      ensures only != "" ==> ok && names == [only]
      ensures reliable ==> ok
      ensures ok ==> names == Scope(server, only)
    {
      if only != "" {
        return true, [only];
      }
      ok := Call();
      names := [];
      if !ok {
        return;
      }
      var i := 0;
      while i < |server|
        invariant 0 <= i <= |server|
        invariant names == Selectable(server[..i])
      {
        assert server[..i + 1][..i] == server[..i];
        if !server[i].noSelect {
          names := names + [server[i].name];
        }
        i := i + 1;
      }
      assert server[..i] == server;
    }

    method Select(mailbox: string) returns (ok: bool)
      modifies this
      ensures ok ==> selected == Find(server, mailbox) && selected.Some?
      ensures reliable && Find(server, mailbox).Some? ==> ok
    {
      ok := Call();
      var found := Find(server, mailbox);
      if !ok || found.None? {
        return false;
      }
      selected := found;
    }

    /** The UIDs of the date-granular superset. */
    method Search(req: FetchRequest) returns (ok: bool, uids: seq<UID>)
      requires selected.Some?
      ensures ok ==> uids == Uids(Hits(selected.value.messages, req))
      ensures reliable ==> ok
    {
      ok := Call();
      uids := if ok then Uids(Hits(selected.value.messages, req)) else [];
    }

    /** Streams one batch, in whatever order the server answers, and emits what the
        exact bound keeps. */
    method FetchBatch(mailbox: string, uids: seq<UID>, req: FetchRequest, run: Emitter)
      returns (ok: bool, ghost emitted: seq<Message>)
      requires selected.Some? && run.Valid() && !run.failed
      modifies run, run.sink.sinks
      ensures run.Valid()
      ensures run.emitted == old(run.emitted) + emitted
      ensures multiset(emitted) <= multiset(ConvertAll(u, mailbox, Responses(selected.value.messages, uids), req))
      ensures ok ==> !run.failed &&
                     multiset(emitted) ==
                       multiset(ConvertAll(u, mailbox, Responses(selected.value.messages, uids), req))
      ensures reliable && run.Reliable() ==> ok
    {
      hide *;
      NothingToConvert(mailbox, req);
      var rest := Responses(selected.value.messages, uids);
      ghost var all := multiset(ConvertAll(u, mailbox, rest, req));
      emitted := [];
      while rest != []
        invariant run.Valid() && !run.failed
        invariant run.emitted == old(run.emitted) + emitted
        invariant multiset(emitted) + multiset(ConvertAll(u, mailbox, rest, req)) == all
        decreases |rest|
      {
        var i :| 0 <= i < |rest|;
        var delivered := Call();
        if !delivered {
          return false, emitted;
        }
        var data := rest[i];
        ConvertAllRemove(u, mailbox, rest, i, req);
        rest := rest[..i] + rest[i + 1..];
        var msg := Convert(u, mailbox, data, req);
        if msg.None? {
          continue;
        }
        var stored := run.Emit(msg.value);
        assert multiset(emitted + [msg.value]) == multiset(emitted) + multiset{msg.value};
        emitted := emitted + [msg.value];
        if !stored {
          return false, emitted;
        }
      }
      ok := Call();
    }

    /** The UIDs of a search result in batches of a hundred. */
    method FetchBatches(
      mailbox: string, uids: seq<UID>, req: FetchRequest, run: Emitter, ghost hits: seq<ServerMessage>)
      returns (ok: bool, ghost emitted: seq<Message>)
      requires selected.Some? && UniqueUids(selected.value.messages)
      requires hits == Hits(selected.value.messages, req) && uids == Uids(hits)
      requires run.Valid() && !run.failed
      modifies run, run.sink.sinks
      ensures run.Valid()
      ensures run.emitted == old(run.emitted) + emitted
      ensures multiset(emitted) <= multiset(ConvertAll(u, mailbox, hits, req))
      ensures ok ==> !run.failed && multiset(emitted) == multiset(ConvertAll(u, mailbox, hits, req))
      ensures reliable && run.Reliable() ==> ok
    {
      hide Convert, ConvertAll, Hits, Responses, Find, Window, Uids, UniqueUids, Emitter.Valid, Valid;
      NothingToConvert(mailbox, req);
      HitsAreMessages(selected.value.messages, req);
      SliceOfUids(hits, 0, |hits|);
      emitted := [];
      var start := 0;
      while start < |uids|
        invariant 0 <= start
        invariant run.Valid() && !run.failed
        invariant run.emitted == old(run.emitted) + emitted
        invariant multiset(emitted) ==
                  multiset(ConvertAll(u, mailbox, hits[..if start < |hits| then start else |hits|], req))
      {
        var alive := Call();
        PrefixConverts(mailbox, hits, start, |hits|, req);
        if !alive {
          return false, emitted;
        }
        var end := if start + FETCH_BATCH_SIZE < |uids| then start + FETCH_BATCH_SIZE else |uids|;
        var fetched;
        ghost var batch;
        SliceOfUids(hits, start, end);
        ResponsesOfHits(selected.value.messages, hits[start..end]);
        fetched, batch := FetchBatch(mailbox, uids[start..end], req, run);
        BatchAdvances(mailbox, hits, start, end, req, emitted, batch);
        emitted := emitted + batch;
        if !fetched {
          return false, emitted;
        }
        start := start + FETCH_BATCH_SIZE;
      }
      assert hits[..|hits|] == hits;
      return true, emitted;
    }

    lemma BatchAdvances(
      mailbox: string, hits: seq<ServerMessage>, start: nat, end: nat, req: FetchRequest, emitted: seq<Message>,
      batch: seq<Message>)
      requires start <= end <= |hits|
      requires multiset(emitted) == multiset(ConvertAll(u, mailbox, hits[..start], req))
      requires multiset(batch) <= multiset(ConvertAll(u, mailbox, hits[start..end], req))
      ensures multiset(emitted + batch) <= multiset(ConvertAll(u, mailbox, hits, req))
      ensures multiset(batch) == multiset(ConvertAll(u, mailbox, hits[start..end], req)) ==>
                multiset(emitted + batch) == multiset(ConvertAll(u, mailbox, hits[..end], req))
    {
      hide *;
      PrefixConverts(mailbox, hits, start, end, req);
      PrefixConverts(mailbox, hits, end, |hits|, req);
      assert multiset(emitted + batch) == multiset(emitted) + multiset(batch);
    }

    /** One mailbox: select, search, then the UIDs in batches. */
    method FetchMailbox(mailbox: string, req: FetchRequest, run: Emitter)
      returns (ok: bool, ghost emitted: seq<Message>)
      requires Valid() && run.Valid() && !run.failed
      modifies this, run, run.sink.sinks
      ensures run.Valid()
      ensures run.emitted == old(run.emitted) + emitted
      ensures multiset(emitted) <= multiset(Window(u, server, [mailbox], req))
      ensures ok ==> !run.failed && Find(server, mailbox).Some? &&
                     multiset(emitted) == multiset(Window(u, server, [mailbox], req))
      ensures reliable && run.Reliable() && Find(server, mailbox).Some? ==> ok
    {
      hide Convert, ConvertAll, Hits, Responses, Find, Window, Uids, UniqueUids, Emitter.Valid, Valid;
      NothingToConvert(mailbox, req);
      emitted := [];
      var isOpen := Select(mailbox);
      if !isOpen {
        return false, emitted;
      }
      MailboxHasUniqueUids(mailbox);
      WindowOfOne(mailbox, req);
      if |selected.value.messages| == 0 {
        return true, emitted;
      }
      var searched, uids := Search(req);
      if !searched {
        return false, emitted;
      }
      ghost var hits := Hits(selected.value.messages, req);
      SliceOfUids(hits, 0, |hits|);
      if |uids| == 0 {
        return true, emitted;
      }
      ok, emitted := FetchBatches(mailbox, uids, req, run, hits);
    }

    lemma NothingToConvert(mailbox: string, req: FetchRequest)
      ensures ConvertAll(u, mailbox, [], req) == [] && Hits([], req) == []
      ensures Window(u, server, [], req) == []
    {
    }

    lemma WindowOfOne(mailbox: string, req: FetchRequest)
      requires Find(server, mailbox).Some?
      ensures var found := Find(server, mailbox).value;
              Window(u, server, [mailbox], req) == ConvertAll(u, found.name, Hits(found.messages, req), req)
    {
      hide Find, Hits, ConvertAll;
      assert [mailbox][..0] == [];
    }

    lemma SliceOfUids(hits: seq<ServerMessage>, a: nat, b: nat)
      requires a <= b <= |hits|
      ensures |Uids(hits)| == |hits| && Uids(hits)[a..b] == Uids(hits[a..b])
    {
    }

    lemma MailboxHasUniqueUids(mailbox: string)
      requires Valid() && Find(server, mailbox).Some?
      ensures Find(server, mailbox).value.name == mailbox && UniqueUids(Find(server, mailbox).value.messages)
    {
      hide Find, UniqueUids;
      FindNames(server, mailbox);
    }

    lemma PrefixConverts(mailbox: string, hits: seq<ServerMessage>, a: nat, b: nat, req: FetchRequest)
      requires a <= b <= |hits|
      ensures ConvertAll(u, mailbox, hits[..b], req) ==
              ConvertAll(u, mailbox, hits[..a], req) + ConvertAll(u, mailbox, hits[a..b], req)
      ensures multiset(ConvertAll(u, mailbox, hits[..a], req)) <= multiset(ConvertAll(u, mailbox, hits[..b], req))
      ensures hits[..|hits|] == hits
    {
      hide Convert;
      assert hits[..b] == hits[..a] + hits[a..b];
      ConvertAllConcat(u, mailbox, hits[..a], hits[a..b], req);
    }

    /** All requested mailboxes, one after the other. Without an error exactly the window is
        emitted, with multiplicity; with one, a part of it. Every message emitted depicts one of the
        account that was asked for, and without an error each of those is depicted. Nothing
        but the environment makes a fetch fail, or the lack of the mailbox asked for. */
    method Fetch(req: FetchRequest, run: Emitter) returns (ok: bool, ghost emitted: seq<Message>)
      requires Valid() && run.Valid() && !run.failed
      modifies this, run, run.sink.sinks
      ensures run.Valid()
      ensures run.emitted == old(run.emitted) + emitted
      ensures multiset(emitted) <= multiset(Window(u, server, Scope(server, req.mailbox), req))
      ensures ok ==> !run.failed && multiset(emitted) == multiset(Window(u, server, Scope(server, req.mailbox), req))
      ensures InOrder(Scope(server, req.mailbox), emitted)
      ensures forall x | x in emitted :: Sourced(u, server, req, x)
      ensures ok && UniqueNames(server) ==>
                forall i, m | 0 <= i < |server| && m in server[i].messages && Visited(server[i], req) &&
                              Asked(m, req) ::
                  exists x :: x in emitted && Depicts(u, server[i].name, m, req, x)
      ensures reliable && run.Reliable() && Reachable(server, req) ==> ok
    {
      hide *;
      ok, emitted := FetchScope(req, run);
      EmittedIsSourced(req, emitted);
      if ok {
        EmittedIsWhole(req, emitted);
      }
    }

    lemma EmittedIsSourced(req: FetchRequest, emitted: seq<Message>)
      requires multiset(emitted) <= multiset(Window(u, server, Scope(server, req.mailbox), req))
      ensures forall x | x in emitted :: Sourced(u, server, req, x)
    {
      hide Window, Scope, Sourced;
      forall x | x in emitted ensures Sourced(u, server, req, x) {
        assert x in multiset(emitted);
        WindowIsSourced(u, server, req, x);
      }
    }

    lemma EmittedIsWhole(req: FetchRequest, emitted: seq<Message>)
      requires multiset(emitted) == multiset(Window(u, server, Scope(server, req.mailbox), req))
      ensures UniqueNames(server) ==>
                forall i, m | 0 <= i < |server| && m in server[i].messages && Visited(server[i], req) &&
                              Asked(m, req) ::
                  exists x :: x in emitted && Depicts(u, server[i].name, m, req, x)
    {
      hide Window, Scope, Visited, Asked, Depicts;
      if UniqueNames(server) {
        forall i, m | 0 <= i < |server| && m in server[i].messages && Visited(server[i], req) && Asked(m, req)
          ensures exists x :: x in emitted && Depicts(u, server[i].name, m, req, x)
        {
          var x := WindowIsWhole(u, server, req, i, m);
          assert x in multiset(emitted);
        }
      }
    }

    lemma NameIsFound(names: seq<string>, i: nat, req: FetchRequest)
      requires names == Scope(server, req.mailbox) && i < |names|
      ensures Reachable(server, req) ==> Find(server, names[i]).Some?
    {
      hide *;
      if Reachable(server, req) {
        ScopeIsFound(server, req, names[i]);
      }
    }

    lemma MailboxAdvances(names: seq<string>, i: nat, req: FetchRequest, emitted: seq<Message>, part: seq<Message>)
      requires i < |names| && multiset(emitted) == multiset(Window(u, server, names[..i], req))
      requires multiset(part) <= multiset(Window(u, server, [names[i]], req))
      ensures multiset(emitted + part) <= multiset(Window(u, server, names, req))
      ensures multiset(part) == multiset(Window(u, server, [names[i]], req)) ==>
                multiset(emitted + part) == multiset(Window(u, server, names[..i + 1], req))
    {
      hide *;
      WindowPrefix(names, i, req);
      assert multiset(emitted + part) == multiset(emitted) + multiset(part);
    }

    lemma NothingOutOfOrder()
      ensures forall names :: InOrder(names, [])
    {
    }

    lemma MailboxFollows(names: seq<string>, i: nat, req: FetchRequest, emitted: seq<Message>, part: seq<Message>)
      requires i < |names| && InOrder(names[..i], emitted)
      requires multiset(part) <= multiset(Window(u, server, [names[i]], req))
      ensures InOrder(names[..i + 1], emitted + part) && InOrder(names, emitted + part)
    {
      hide *;
      forall x | x in part ensures x.mailbox == names[i] {
        assert x in multiset(part);
        WindowOfOneNamed(u, server, names[i], req, x);
      }
      OrderGrows(names, i, emitted, part);
    }

    method FetchScope(req: FetchRequest, run: Emitter) returns (ok: bool, ghost emitted: seq<Message>)
      requires Valid() && run.Valid() && !run.failed
      modifies this, run, run.sink.sinks
      ensures run.Valid()
      ensures run.emitted == old(run.emitted) + emitted
      ensures multiset(emitted) <= multiset(Window(u, server, Scope(server, req.mailbox), req))
      ensures ok ==> !run.failed && multiset(emitted) == multiset(Window(u, server, Scope(server, req.mailbox), req))
      ensures InOrder(Scope(server, req.mailbox), emitted)
      ensures reliable && run.Reliable() && Reachable(server, req) ==> ok
    {
      hide *;
      NothingToConvert("", req);
      NothingOutOfOrder();
      emitted := [];
      var listed, names := Mailboxes(req.mailbox);
      if !listed {
        return false, emitted;
      }
      var i := 0;
      while i < |names|
        invariant 0 <= i <= |names|
        invariant run.Valid() && !run.failed
        invariant run.emitted == old(run.emitted) + emitted
        invariant multiset(emitted) == multiset(Window(u, server, names[..i], req))
        invariant InOrder(names[..i], emitted) && InOrder(names, emitted)
      {
        WindowPrefix(names, i, req);
        NameIsFound(names, i, req);
        var alive := Call();
        if !alive {
          return false, emitted;
        }
        var fetched;
        ghost var part;
        fetched, part := FetchMailbox(names[i], req, run);
        MailboxAdvances(names, i, req, emitted, part);
        MailboxFollows(names, i, req, emitted, part);
        emitted := emitted + part;
        if !fetched {
          return false, emitted;
        }
        i := i + 1;
      }
      assert names[..i] == names;
      return true, emitted;
    }

    lemma {:induction false} WindowSplits(names: seq<string>, i: nat, req: FetchRequest)
      requires i <= |names|
      ensures multiset(Window(u, server, names[..i], req)) <= multiset(Window(u, server, names, req))
      decreases |names|
    {
      hide Find, Hits, ConvertAll;
      if i < |names| {
        var front := names[..|names| - 1];
        assert front[..i] == names[..i];
        WindowSplits(front, i, req);
      } else {
        assert names[..i] == names;
      }
    }

    lemma WindowPrefix(names: seq<string>, i: nat, req: FetchRequest)
      requires i < |names|
      ensures multiset(Window(u, server, names[..i + 1], req)) ==
              multiset(Window(u, server, names[..i], req)) + multiset(Window(u, server, [names[i]], req))
      ensures multiset(Window(u, server, names[..i], req)) <= multiset(Window(u, server, names, req))
      ensures multiset(Window(u, server, names[..i + 1], req)) <= multiset(Window(u, server, names, req))
    {
      hide Find, Hits, ConvertAll;
      WindowSplits(names, i, req);
      WindowSplits(names, i + 1, req);
      assert names[..i + 1][..i] == names[..i];
      assert [names[i]][..0] == [];
    }
  }

  // ----- the search drops nothing the exact bound keeps -----

  /** The intended window: every message with a body that is dated after the bound. */
  function Intended(u: Tables, mailbox: string, msgs: seq<ServerMessage>, req: FetchRequest): seq<Message> {
    if msgs == [] then []
    else
      var last := msgs[|msgs| - 1];
      var rest := Intended(u, mailbox, msgs[..|msgs| - 1], req);
      if last.body.None? || !(req.All() || DateOf(last) > req.since) then rest
      else
        var subject := if last.envelope.Some? then last.envelope.value.subject else "";
        var attachments := if req.withAttachments then Mime.Extracted(u, last.body.value.parsed) else [];
        rest + [Message(mailbox, last.uid, DateOf(last), subject, last.body.value.raw, attachments)]
  }

  /** A date-only comparison can be trusted for every pair of instants exactly when
      the message's zone is not west of the request's. */
  lemma SearchIsSuperset(messageZone: int, requestZone: int)
    ensures (forall date, since {:trigger DateIn(date, messageZone), DateIn(since, requestZone)} ::
               date > since ==> DateIn(date, messageZone) >= DateIn(since, requestZone))
            <==> messageZone >= requestZone
  {
    if messageZone >= requestZone {
      forall date: Instant, since: Instant | date > since
        ensures DateIn(date, messageZone) >= DateIn(since, requestZone)
      {
        FloorIsMonotone(since + requestZone * SECOND, date + messageZone * SECOND);
      }
    } else {
      var since := 7 * DAY - requestZone * SECOND;
      WestOfMidnight(messageZone, requestZone, 1);
      assert DateIn(since + 1, messageZone) < DateIn(since, requestZone);
    }
  }

  lemma FloorIsMonotone(a: int, b: int)
    requires a <= b
    ensures a / DAY <= b / DAY
  {
  }

  /** A moment after local midnight of the eighth day, read further west, is still the day
      before. */
  lemma WestOfMidnight(messageZone: int, requestZone: int, moment: int)
    requires moment < (requestZone - messageZone) * SECOND
    ensures var since := 7 * DAY - requestZone * SECOND;
            DateIn(since + moment, messageZone) < 7 && DateIn(since, requestZone) == 7
  {
    var since := 7 * DAY - requestZone * SECOND;
    assert since + requestZone * SECOND == 7 * DAY;
    assert since + moment + messageZone * SECOND == 7 * DAY + moment - (requestZone - messageZone) * SECOND;
    FloorIsMonotone(since + moment + messageZone * SECOND, 7 * DAY - 1);
  }

  /** A message of the intended window that the search leaves out: it arrived one second
      after the bound, at local midnight of the request, and the server keeps its date more
      than a second further west. */
  lemma DroppedBySearch(messageZone: int, requestZone: int, body: Body)
    requires messageZone + 1 < requestZone < DAY_SECONDS
    ensures var req := FetchRequest(7 * DAY - requestZone * SECOND, requestZone, "", false);
            var m := ServerMessage(1, req.since + SECOND, messageZone, None, Some(body));
            !req.All() && DateOf(m) > req.since && m.internalDate % SECOND == 0 && !SearchHit(m, req)
  {
    WestOfMidnight(messageZone, requestZone, SECOND);
    var since := 7 * DAY - requestZone * SECOND;
    assert since + SECOND == (7 * DAY_SECONDS - requestZone + 1) * SECOND;
  }

  /** The server keeps a date for the message, in a zone not west of the request's. */
  predicate Trustworthy(m: ServerMessage, req: FetchRequest) {
    req.All() || (m.internalDate != ZERO && m.zone >= req.zone)
  }

  /** Then search plus exact bound emit the intended window of a mailbox, in order and
      with multiplicity. */
  lemma {:induction false} WindowIsIntended(u: Tables, mailbox: string, msgs: seq<ServerMessage>, req: FetchRequest)
    requires forall i | 0 <= i < |msgs| :: Trustworthy(msgs[i], req)
    ensures ConvertAll(u, mailbox, Hits(msgs, req), req) == Intended(u, mailbox, msgs, req)
    decreases |msgs|
  {
    hide Convert, Mime.Extracted;
    if msgs != [] {
      var front, last := msgs[..|msgs| - 1], msgs[|msgs| - 1];
      WindowIsIntended(u, mailbox, front, req);
      assert Trustworthy(last, req);
      KeptIffIntended(u, mailbox, last, req);
      var hits := Hits(front, req);
      assert (hits + [last])[..|hits|] == hits && hits + [] == hits;
      assert ConvertAll(u, mailbox, hits, req) + [] == ConvertAll(u, mailbox, hits, req);
    }
  }

  lemma KeptIffIntended(u: Tables, mailbox: string, m: ServerMessage, req: FetchRequest)
    requires Trustworthy(m, req)
    ensures SearchHit(m, req) && Convert(u, mailbox, m, req).Some? <==>
            m.body.Some? && (req.All() || DateOf(m) > req.since)
    ensures m.body.Some? && (req.All() || DateOf(m) > req.since) ==>
              Convert(u, mailbox, m, req) == Some(Message(
                mailbox, m.uid, DateOf(m), if m.envelope.Some? then m.envelope.value.subject else "", m.body.value.raw,
                if req.withAttachments then Mime.Extracted(u, m.body.value.parsed) else []))
  {
    hide Mime.Extracted;
    if !req.All() && DateOf(m) > req.since {
      FloorIsMonotone(req.since + req.zone * SECOND, m.internalDate + m.zone * SECOND);
    }
  }
}

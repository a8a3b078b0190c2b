/** The backup command as a step of a history: what cmd/backup.go does to the backends
    and the timestamp file is one `Succeed` or one `Fail` of History. */
module Refinement {
  import opened Runes
  import opened Stages
  import opened Transform
  import opened Sinks
  import opened Emitters
  import opened Imap
  import opened Pipelines
  import opened Backups
  import opened Delivery
  import opened History
  import opened Filing

  /** The same request without a lower bound. */
  function Unbounded(req: FetchRequest): FetchRequest { req.(since := ZERO) }

  /** Everything with a body in the mailboxes asked for. */
  function Account(u: Tables, server: seq<Mailbox>, req: FetchRequest): set<Message> {
    set m | m in Window(u, server, Scope(server, req.mailbox), Unbounded(req))
  }

  /** The server dates every message, in a zone not west of the request's. */
  ghost predicate TrustworthyServer(server: seq<Mailbox>, req: FetchRequest) {
    forall i, j | 0 <= i < |server| && 0 <= j < |server[i].messages| :: Trustworthy(server[i].messages[j], req)
  }

  lemma {:induction false} IntendedMembers(
    u: Tables, mailbox: string, msgs: seq<ServerMessage>, req: FetchRequest, m: Message)
    ensures m in Intended(u, mailbox, msgs, req) <==>
            m in Intended(u, mailbox, msgs, Unbounded(req)) && InWindow(m, req.since)
    decreases |msgs|
  {
    if msgs != [] {
      IntendedMembers(u, mailbox, msgs[..|msgs| - 1], req, m);
    }
  }

  lemma MailboxMembers(u: Tables, mailbox: string, msgs: seq<ServerMessage>, req: FetchRequest, m: Message)
    requires forall i | 0 <= i < |msgs| :: Trustworthy(msgs[i], req)
    ensures m in ConvertAll(u, mailbox, Hits(msgs, req), req) <==>
            m in ConvertAll(u, mailbox, Hits(msgs, Unbounded(req)), Unbounded(req)) && InWindow(m, req.since)
  {
    hide ConvertAll, Hits, Intended;
    WindowIsIntended(u, mailbox, msgs, req);
    WindowIsIntended(u, mailbox, msgs, Unbounded(req));
    IntendedMembers(u, mailbox, msgs, req, m);
  }

  /** The window of a run is the mail of the account dated after its bound. */
  lemma {:induction false} WindowMembers(
    u: Tables, server: seq<Mailbox>, names: seq<string>, req: FetchRequest, m: Message)
    requires TrustworthyServer(server, req)
    ensures m in Window(u, server, names, req) <==>
            m in Window(u, server, names, Unbounded(req)) && InWindow(m, req.since)
    decreases |names|
  {
    hide ConvertAll, Hits, InWindow, Trustworthy;
    if names != [] {
      WindowMembers(u, server, names[..|names| - 1], req, m);
      var name := names[|names| - 1];
      var found := Find(server, name);
      if found.Some? {
        FindNames(server, name);
        assert forall i | 0 <= i < |found.value.messages| :: Trustworthy(found.value.messages[i], req);
        MailboxMembers(u, found.value.name, found.value.messages, req, m);
      }
    }
  }

  predicate Dated(mail: set<Message>) { forall m | m in mail :: m.date > ZERO }

  /** For dated messages the clock plays no part in the names. */
  lemma {:induction false} DatedFlatten(p: Platform, t: Transformer, now: Instant, msgs: seq<Message>)
    requires forall m | m in msgs :: m.date > ZERO
    ensures Flatten(p, now, msgs) == SetupOf(p, t).Flattened(msgs)
    decreases |msgs|
  {
    hide ArtifactsOf;
    if msgs != [] {
      DatedFlatten(p, t, now, msgs[..|msgs| - 1]);
      assert msgs[|msgs| - 1] in msgs;
      SameArtifacts(p, msgs[|msgs| - 1], now);
    }
  }

  lemma SameArtifacts(p: Platform, m: Message, now: Instant)
    requires m.date != ZERO
    ensures ArtifactsOf(p, m, now) == ArtifactsOf(p, m, ZERO)
  {
  }

  function MarkOf(file: WatermarkFile): Option<Instant> {
    if ReadingOf(file).Found? then Some(ReadingOf(file).stamp) else None
  }

  function ActionOf(ok: bool, now: Instant, since: Instant, tr: Trace): Action {
    if ok then Succeed(now, since, tr.emitted, tr.sent) else Fail(since, tr.emitted, tr.logs, tr.torn)
  }

  lemma CoveredMembers(tr: Trace, window: seq<Message>, m: Message)
    requires Covers(tr, window)
    ensures m in tr.emitted ==> m in window
    ensures tr.fetched ==> (m in tr.emitted <==> m in window)
  {
    if m in tr.emitted {
      assert m in multiset(tr.emitted);
      assert multiset(tr.emitted)[m] <= multiset(window)[m];
    }
    if tr.fetched && m in window {
      assert m in multiset(window);
    }
  }

  /** The emitted messages against the account. */
  lemma EmittedFromAccount(u: Tables, server: seq<Mailbox>, req: FetchRequest, tr: Trace)
    requires TrustworthyServer(server, req)
    requires Covers(tr, Window(u, server, Scope(server, req.mailbox), req))
    ensures forall m | m in tr.emitted :: m in Account(u, server, req) && InWindow(m, req.since)
    ensures tr.fetched ==> forall m :: m in tr.emitted <==> m in Account(u, server, req) && InWindow(m, req.since)
  {
    hide InWindow, Window, Scope, Covers;
    var names := Scope(server, req.mailbox);
    forall m: Message
      ensures m in tr.emitted ==> m in Account(u, server, req) && InWindow(m, req.since)
      ensures tr.fetched ==> (m in tr.emitted <==> m in Account(u, server, req) && InWindow(m, req.since))
    {
      CoveredMembers(tr, Window(u, server, names, req), m);
      WindowMembers(u, server, names, req, m);
    }
  }

  /** The facts a finished backup command guarantees make it a step. */
  lemma OutcomeIsStep(
    p: Platform, t: Transformer, server: seq<Mailbox>, req: FetchRequest, now: Instant, tr: Trace, ok: bool, w: World,
    w': World)
    requires TrustworthyServer(server, req)
    requires w.mail == Account(p.tables, server, req) && Dated(w.mail)
    requires Covers(tr, Window(p.tables, server, Scope(server, req.mailbox), req))
    requires Faithful(p, t, now, tr) && Lockstep(tr) && (ok ==> tr.fetched)
    requires |w.stores| == |w'.stores| == |tr.logs| == |tr.torn|
    requires forall i | 0 <= i < |w.stores| :: w'.stores[i] == Replay(Replay(w.stores[i], tr.logs[i]), tr.torn[i])
    requires w' == World(w.mail, w'.stores,
                         if ok && Latest(tr.emitted) != ZERO then Some(Latest(tr.emitted)) else w.mark,
                         if ok then Some(now) else w.lastStart)
    ensures Step(SetupOf(p, t), w, ActionOf(ok, now, req.since, tr), w')
  {
    hide Replay, Window, Scope, Covers, Latest, Flatten, Setup.Flattened, InWindow, Account;
    EmittedFromAccount(p.tables, server, req, tr);
    assert forall m | m in tr.emitted :: m.date > ZERO;
    DatedFlatten(p, t, now, tr.emitted);
    forall i | 0 <= i < |w.stores| ensures ok ==> w'.stores[i] == Replay(w.stores[i], tr.logs[i]) {
      ReplayNothing(Replay(w.stores[i], tr.logs[i]));
    }
  }

  ghost function WorldOf(mail: set<Message>, sinks: seq<Sink>, watermark: Watermark, lastStart: Option<Instant>): World
    reads sinks, watermark
  {
    World(mail, seq(|sinks|, i requires 0 <= i < |sinks| reads sinks => sinks[i].objects),
          MarkOf(watermark.file), lastStart)
  }

  /** Whenever the command gets as far as a window, what it does to the backends and the
      timestamp file is a step: a success of that window when it reports success, and a
      failure otherwise. */
  method BackupStep(tool: Tool, flags: Flags, server: seq<Mailbox>, t: Transformer, sinks: seq<Sink>,
                    now: Instant, local: int, online: bool, ghost lastStart: Option<Instant>)
    returns (ok: bool, ghost req: Option<FetchRequest>, ghost action: Action)
    requires tool.p.Valid() && t.Valid()
    requires forall i | 0 <= i < |server| :: UniqueUids(server[i].messages)
    requires forall i, j | 0 <= i < j < |sinks| :: sinks[i] != sinks[j]
    modifies tool.watermark, sinks
    ensures req == RequestOf(flags, old(tool.watermark.file), now, local)
    ensures ok ==> req.Some?
    ensures req.Some? && tool.Reliable(server, Some(t), sinks, req.value, online) ==> ok
    ensures req.Some? && TrustworthyServer(server, req.value) && Dated(Account(tool.p.tables, server, req.value)) ==>
              var mail := Account(tool.p.tables, server, req.value);
              && Step(SetupOf(tool.p, t), old(WorldOf(mail, sinks, tool.watermark, lastStart)), action,
                      WorldOf(mail, sinks, tool.watermark, if ok then Some(now) else lastStart))
              && (if ok then action.Succeed? && action.since == req.value.since && action.start == now
                  else action.Fail? && action.since == req.value.since)
  {
    hide Replay, Window, Scope, Covers, Faithful, Lockstep, Latest, Account, Dated, TrustworthyServer, RequestOf,
         UniqueUids, Step;
    ghost var tr;
    ok, tr, req := tool.Backup(flags, server, Some(t), sinks, now, local, online);
    action := ActionOf(ok, now, if req.Some? then req.value.since else ZERO, tr);
    if req.Some? && TrustworthyServer(server, req.value) && Dated(Account(tool.p.tables, server, req.value)) {
      ghost var mail := Account(tool.p.tables, server, req.value);
      LatestRecorded(old(tool.watermark.file), tr.emitted, tool.version);
      OutcomeIsStep(tool.p, t, server, req.value, now, tr, ok,
                    old(WorldOf(mail, sinks, tool.watermark, lastStart)),
                    WorldOf(mail, sinks, tool.watermark, if ok then Some(now) else lastStart));
    }
  }

  /** No loss, said of the command itself: run with --all or from a recorded timestamp, it
      keeps every message that was safe, whatever the state of others, and after a success
      every message that was safe or not yet reached is saved. With --all every message is,
      whatever was missing before. So it keeps an account
      without loss. The one exception is a failing --all that tears an object. `ever` is all
      mail that was ever in scope. */
  method BackupKeepsEverything(
    tool: Tool, flags: Flags, server: seq<Mailbox>, t: Transformer, sinks: seq<Sink>, now: Instant, local: int,
    online: bool, ghost mail: set<Message>, ghost ever: set<Message>, ghost lastStart: Option<Instant>)
    returns (ok: bool, ghost action: Action)
    requires tool.p.Valid() && t.Valid()
    requires forall i | 0 <= i < |server| :: UniqueUids(server[i].messages)
    requires forall i, j | 0 <= i < j < |sinks| :: sinks[i] != sinks[j]
    requires flags.all || (!flags.durationSet && ReadingOf(tool.watermark.file).Found?)
    requires var req := RequestOf(flags, tool.watermark.file, now, local).value;
             TrustworthyServer(server, req) && mail == Account(tool.p.tables, server, req) && Dated(mail)
    requires mail <= ever
    modifies tool.watermark, sinks
    ensures ok && flags.all ==> AllSaved(SetupOf(tool.p, t), mail, WorldOf(mail, sinks, tool.watermark, Some(now)))
    ensures var req := RequestOf(flags, old(tool.watermark.file), now, local).value;
            tool.Reliable(server, Some(t), sinks, req, online) ==> ok
    ensures !ok ==> action.Fail?
    ensures ok || !flags.all || Untorn(action.torn) ==>
              var c := SetupOf(tool.p, t);
              var after := WorldOf(mail, sinks, tool.watermark, if ok then Some(now) else lastStart);
              && KeepsEach(c, old(WorldOf(mail, sinks, tool.watermark, lastStart)), after, ok)
              && (NoLoss(c, ever, old(WorldOf(mail, sinks, tool.watermark, lastStart))) ==>
                    NoLoss(c, ever, after) && (ok ==> AllSaved(c, ever, after)))
  {
    hide Account, Dated, TrustworthyServer, UniqueUids, Step, NoLoss, AllSaved, KeepsEach, RequestOf, Untorn, ReadingOf;
    ghost var file := tool.watermark.file;
    ghost var before := WorldOf(mail, sinks, tool.watermark, lastStart);
    ghost var req;
    WindowOfCommand(flags, file, now, local, before);
    ok, req, action := BackupStep(tool, flags, server, t, sinks, now, local, online, lastStart);
    if !flags.all || ok || Untorn(action.torn) {
      ghost var after := WorldOf(mail, sinks, tool.watermark, if ok then Some(now) else lastStart);
      DisciplinedRunKeepsEach(SetupOf(tool.p, t), before, action, after);
      if flags.all && ok {
        AllSavesEverything(SetupOf(tool.p, t), before, action, after);
      }
      if NoLoss(SetupOf(tool.p, t), ever, before) {
        IncrementalStep(SetupOf(tool.p, t), ever, before, action, after);
      }
    }
  }

  lemma LatestRecorded(file: WatermarkFile, emitted: seq<Message>, version: string)
    ensures MarkOf(Advanced(file, emitted, version)) ==
            if Latest(emitted) != ZERO then Some(Latest(emitted)) else MarkOf(file)
  {
    hide Latest;
  }

  /** Which windows of the command meet the hypotheses of History: --all, and resuming
      from a recorded timestamp. */
  lemma WindowOfCommand(flags: Flags, file: WatermarkFile, now: Instant, local: int, w: World)
    requires flags.all || (!flags.durationSet && ReadingOf(file).Found?)
    requires w.mark == MarkOf(file)
    ensures var req := RequestOf(flags, file, now, local);
            && req.Some? && AllOrResume(w, req.value.since)
            && (flags.all ==> req.value.since == ZERO) && (!flags.all ==> Ahead(w, req.value.since))
  {
  }
}

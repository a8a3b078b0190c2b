/** Whole histories of an account and its keyed backends: deliveries, removals, runs that
    succeed and runs that fail at any point, in any order. */
module History {
  import opened Stages
  import opened Transform
  import opened Sinks
  import opened Emitters
  import opened Delivery

  /** The mail in scope, what the backends hold, the recorded watermark, and when the
      last successful run started. */
  datatype World = World(mail: set<Message>, stores: seq<Objects>, mark: Option<Instant>, lastStart: Option<Instant>)

  datatype Action =
    | Deliver(message: Message)
    | Remove(messages: set<Message>)
    | Succeed(start: Instant, since: Instant, emitted: seq<Message>, log: seq<Artifact>)
    | Fail(since: Instant, emitted: seq<Message>, logs: seq<seq<Artifact>>, torn: seq<seq<Artifact>>)

  predicate InWindow(m: Message, since: Instant) { since == ZERO || m.date > since }

  ghost predicate Step(c: Setup, w: World, a: Action, w': World) {
    match a
    case Deliver(m) =>
      m !in w.mail && m.date > ZERO && w' == w.(mail := w.mail + {m})
    case Remove(gone) =>
      w' == w.(mail := w.mail - gone)
    case Succeed(start, since, emitted, log) =>
      && (forall m :: m in emitted <==> m in w.mail && InWindow(m, since))
      && c.WritesAll(emitted, log)
      && w'.mail == w.mail && w'.lastStart == Some(start)
      && w'.mark == (if Latest(emitted) == ZERO then w.mark else Some(Latest(emitted)))
      && |w'.stores| == |w.stores|
      && (forall i | 0 <= i < |w.stores| :: w'.stores[i] == Replay(w.stores[i], log))
    case Fail(since, emitted, logs, torn) =>
      && (forall m | m in emitted :: m in w.mail && InWindow(m, since))
      && |logs| == |torn| == |w'.stores| == |w.stores|
      && (forall i | 0 <= i < |logs| :: c.Writes(emitted, logs[i]) && c.Tears(emitted, logs[i], torn[i]))
      && w'.mail == w.mail && w'.lastStart == w.lastStart && w'.mark == w.mark
      && (forall i | 0 <= i < |w.stores| :: w'.stores[i] == Replay(Replay(w.stores[i], logs[i]), torn[i]))
  }

  /** `ws` are the worlds before, between and after the actions. */
  ghost predicate IsHistory(c: Setup, ws: seq<World>, acts: seq<Action>) {
    && |ws| == |acts| + 1
    && forall i | 0 <= i < |acts| :: Step(c, ws[i], acts[i], ws[i + 1])
  }

  ghost predicate SavedEverywhere(c: Setup, m: Message, i: nat, w: World)
    requires i < |c.files(m)|
  {
    forall s | 0 <= s < |w.stores| :: c.Held(m, i, w.stores[s])
  }

  /** The watermark has reached the message. */
  predicate Behind(m: Message, w: World) { w.mark.Some? && m.date <= w.mark.value }

  /** Every artifact in scope that owns its key, among all mail that was ever in scope, is
      in every backend. */
  ghost predicate AllSaved(c: Setup, ever: set<Message>, w: World) {
    forall m, i | m in w.mail && 0 <= i < |c.files(m)| && c.Owned(ever, m, i) :: SavedEverywhere(c, m, i, w)
  }

  /** Nothing at or before the recorded watermark is missing anywhere. */
  ghost predicate NoLoss(c: Setup, ever: set<Message>, w: World) {
    forall m, i | m in w.mail && 0 <= i < |c.files(m)| && c.Owned(ever, m, i) && Behind(m, w) ::
      SavedEverywhere(c, m, i, w)
  }

  lemma OwnedEarlier(c: Setup, mail: set<Message>, more: set<Message>, m: Message, i: nat)
    requires i < |c.files(m)| && mail <= more && c.Owned(more, m, i)
    ensures c.Owned(mail, m, i)
  {
  }

  // ----- one step -----

  /** No file was torn. */
  predicate Untorn(torn: seq<seq<Artifact>>) {
    forall i | 0 <= i < |torn| :: torn[i] == []
  }

  /** What is saved stays saved, unless a failed run that was asked for the message
      again tears it. */
  lemma StepKeepsSaved(c: Setup, w: World, a: Action, w': World, m: Message, i: nat)
    requires Step(c, w, a, w') && i < |c.files(m)| && c.Owned(w.mail, m, i) && SavedEverywhere(c, m, i, w)
    requires a.Fail? ==> Untorn(a.torn) || m !in a.emitted
    ensures SavedEverywhere(c, m, i, w')
  {
    hide Setup.Owned, Setup.Held, Setup.Writes, Setup.Tears, Replay, Latest;
    forall s | 0 <= s < |w'.stores| ensures c.Held(m, i, w'.stores[s]) {
      assert c.Held(m, i, w.stores[s]);
      match a
      case Deliver(_) =>
      case Remove(_) =>
      case Succeed(_, _, emitted, log) =>
        WritesOfAll(c, emitted, log);
        SavedStaysSaved(c, w.mail, emitted, log, m, i, w.stores[s]);
      case Fail(_, emitted, logs, torn) =>
        assert c.Writes(emitted, logs[s]);
        if m in emitted {
          SavedStaysSaved(c, w.mail, emitted, logs[s], m, i, w.stores[s]);
          ReplayNothing(Replay(w.stores[s], logs[s]));
        } else {
          OthersUntouched(c, w.mail, emitted, logs[s], torn[s], m, i, w.stores[s]);
        }
    }
  }

  lemma SuccessSavesWindow(c: Setup, w: World, a: Action, w': World, m: Message, i: nat)
    requires Step(c, w, a, w') && a.Succeed? && m in w.mail && InWindow(m, a.since)
    requires i < |c.files(m)| && c.Owned(w.mail, m, i)
    ensures SavedEverywhere(c, m, i, w')
  {
    hide Setup.Owned, Setup.Held, Setup.WritesAll, Replay, Latest;
    forall s | 0 <= s < |w'.stores| ensures c.Held(m, i, w'.stores[s]) {
      CompleteRunSaves(c, w.mail, a.emitted, a.log, m, i, w.stores[s]);
    }
  }

  /** A successful --all saves everything, whatever was there before. */
  lemma AllSavesEverything(c: Setup, w: World, a: Action, w': World)
    requires Step(c, w, a, w') && a.Succeed? && a.since == ZERO
    ensures AllSaved(c, w.mail, w')
  {
    hide Setup.Owned, SavedEverywhere, Step;
    RunsKeepMail(c, w, a, w');
    forall m, i | m in w'.mail && 0 <= i < |c.files(m)| && c.Owned(w.mail, m, i) ensures SavedEverywhere(c, m, i, w') {
      SuccessSavesWindow(c, w, a, w', m, i);
    }
  }

  /** A successful run saves exactly what it asks for, besides what was saved already. */
  lemma SuccessSavesExactly(c: Setup, w: World, a: Action, w': World, m: Message, i: nat)
    requires Step(c, w, a, w') && a.Succeed? && m in w.mail && i < |c.files(m)| && c.Owned(w.mail, m, i)
    ensures SavedEverywhere(c, m, i, w') <==> InWindow(m, a.since) || SavedEverywhere(c, m, i, w)
  {
    hide Setup.Owned, Setup.Held, Setup.WritesAll, Replay, Latest;
    if InWindow(m, a.since) {
      SuccessSavesWindow(c, w, a, w', m, i);
    } else {
      forall s | 0 <= s < |w.stores| ensures c.Held(m, i, w'.stores[s]) <==> c.Held(m, i, w.stores[s]) {
        WritesOfAll(c, a.emitted, a.log);
        OthersUntouched(c, w.mail, a.emitted, a.log, [], m, i, w.stores[s]);
        ReplayNothing(w'.stores[s]);
      }
      if SavedEverywhere(c, m, i, w') {
        forall s | 0 <= s < |w.stores| ensures c.Held(m, i, w.stores[s]) {
          assert c.Held(m, i, w'.stores[s]);
        }
      }
      if SavedEverywhere(c, m, i, w) {
        forall s | 0 <= s < |w'.stores| ensures c.Held(m, i, w'.stores[s]) {
          assert c.Held(m, i, w.stores[s]);
        }
      }
    }
  }

  lemma WritesOfAll(c: Setup, msgs: seq<Message>, log: seq<Artifact>)
    requires c.WritesAll(msgs, log)
    ensures c.Writes(msgs, log) && c.Tears(msgs, log, [])
  {
  }

  /** So an artifact of a message dated at or before the watermark and not yet saved is
      never picked up by resuming: `After` is strict. */
  lemma ResumingSkipsOldDates(c: Setup, w: World, a: Action, w': World, m: Message, i: nat)
    requires Step(c, w, a, w') && a.Succeed? && m in w.mail && i < |c.files(m)| && c.Owned(w.mail, m, i)
    requires w.mark.Some? && w.mark.value != ZERO && a.since == w.mark.value
    ensures SavedEverywhere(c, m, i, w') <==> m.date > w.mark.value || SavedEverywhere(c, m, i, w)
  {
    SuccessSavesExactly(c, w, a, w', m, i);
  }

  // ----- no loss, one message at a time -----

  /** What a history must respect for the sake of one message, whatever it does to others:
      the message is not delivered behind the watermark; a success asks for it, unless the
      watermark has passed it; and a failed run that asks for it again after that tears no
      file. */
  predicate Fair(w: World, a: Action, m: Message) {
    match a
    case Deliver(x) => x == m ==> !Behind(m, w)
    case Remove(_) => true
    case Succeed(_, since, _, _) => m in w.mail ==> InWindow(m, since) || Behind(m, w)
    case Fail(since, _, _, torn) => m in w.mail && InWindow(m, since) && Behind(m, w) ==> Untorn(torn)
  }

  lemma FairStep(c: Setup, w: World, a: Action, w': World, m: Message, i: nat)
    requires Step(c, w, a, w') && Fair(w, a, m) && i < |c.files(m)| && c.Owned(w.mail, m, i)
    requires m in w.mail && Behind(m, w) ==> SavedEverywhere(c, m, i, w)
    ensures m in w'.mail && (Behind(m, w') || a.Succeed?) ==> SavedEverywhere(c, m, i, w')
  {
    hide Setup.Owned, SavedEverywhere, Setup.Writes, Setup.Tears, Replay, Latest, Untorn;
    if m in w'.mail && (Behind(m, w') || a.Succeed?) {
      if a.Succeed? && InWindow(m, a.since) {
        SuccessSavesWindow(c, w, a, w', m, i);
      } else {
        assert m in w.mail && Behind(m, w);
        StepKeepsSaved(c, w, a, w', m, i);
      }
    }
  }

  /** No loss, at every moment of every history: from a start without a watermark, however
      deliveries, removals, failures and successes interleave, an artifact that owns its
      key is in every backend whenever the watermark has reached its message, and after
      every success. */
  lemma {:induction false} NothingIsEverLost(
    c: Setup, ws: seq<World>, acts: seq<Action>, n: nat, ever: set<Message>, m: Message, i: nat)
    requires IsHistory(c, ws, acts) && n < |ws| && ws[0].mark.None?
    requires forall k | 0 <= k < n :: ws[k].mail <= ever && Fair(ws[k], acts[k], m)
    requires i < |c.files(m)| && c.Owned(ever, m, i)
    ensures m in ws[n].mail && (Behind(m, ws[n]) || (n > 0 && acts[n - 1].Succeed?)) ==> SavedEverywhere(c, m, i, ws[n])
  {
    hide Setup.Owned, SavedEverywhere, Step, Fair;
    if n > 0 {
      NothingIsEverLost(c, ws, acts, n - 1, ever, m, i);
      assert Step(c, ws[n - 1], acts[n - 1], ws[n]) && Fair(ws[n - 1], acts[n - 1], m);
      OwnedEarlier(c, ws[n - 1].mail, ever, m, i);
      FairStep(c, ws[n - 1], acts[n - 1], ws[n], m, i);
    }
  }

  // ----- a backup outlives the server's copy -----

  /** A success carries the watermark to every dated message it was fair to. */
  lemma SuccessReaches(c: Setup, w: World, a: Action, w': World, m: Message)
    requires Step(c, w, a, w') && a.Succeed? && m in w.mail && Fair(w, a, m)
    requires m.date > ZERO || Behind(m, w)
    ensures Behind(m, w')
  {
    hide Setup.WritesAll, Replay, Latest;
    if Latest(a.emitted) != ZERO {
      var k :| 0 <= k < |a.emitted| && a.emitted[k].date == Latest(a.emitted);
      assert a.emitted[k] in a.emitted;
    }
    if InWindow(m, a.since) {
      assert m in a.emitted;
    }
  }

  lemma KeptStep(c: Setup, w: World, a: Action, w': World, m: Message, i: nat)
    requires Step(c, w, a, w') && Fair(w, a, m) && a != Deliver(m) && i < |c.files(m)| && c.Owned(w.mail, m, i)
    requires SavedEverywhere(c, m, i, w) && (m in w.mail ==> Behind(m, w))
    ensures SavedEverywhere(c, m, i, w') && (m in w'.mail ==> Behind(m, w'))
  {
    hide Setup.Owned, SavedEverywhere, Setup.Writes, Setup.WritesAll, Setup.Tears, Replay, Latest, Untorn;
    StepKeepsSaved(c, w, a, w', m, i);
    if a.Succeed? && m in w.mail {
      SuccessReaches(c, w, a, w', m);
    }
  }

  /** Once the watermark has reached a saved artifact's message, or the server has lost the
      message, the artifact stays in every backend for good, whatever is removed from the
      server. */
  lemma {:induction false} SavedForGood(
    c: Setup, ws: seq<World>, acts: seq<Action>, k: nat, n: nat, ever: set<Message>, m: Message, i: nat)
    requires IsHistory(c, ws, acts) && k <= n < |ws|
    requires forall j | k <= j < n :: ws[j].mail <= ever && Fair(ws[j], acts[j], m) && acts[j] != Deliver(m)
    requires i < |c.files(m)| && c.Owned(ever, m, i)
    requires SavedEverywhere(c, m, i, ws[k]) && (m in ws[k].mail ==> Behind(m, ws[k]))
    ensures SavedEverywhere(c, m, i, ws[n]) && (m in ws[n].mail ==> Behind(m, ws[n]))
    decreases n - k
  {
    hide Setup.Owned, SavedEverywhere, Step, Fair;
    if k < n {
      SavedForGood(c, ws, acts, k, n - 1, ever, m, i);
      assert Step(c, ws[n - 1], acts[n - 1], ws[n]) && Fair(ws[n - 1], acts[n - 1], m);
      OwnedEarlier(c, ws[n - 1].mail, ever, m, i);
      KeptStep(c, ws[n - 1], acts[n - 1], ws[n], m, i);
    }
  }

  // ----- no loss, for the whole account -----

  /** The window of a run that is --all or resumes from the watermark. */
  predicate AllOrResume(w: World, since: Instant) {
    since == ZERO || (w.mark.Some? && since == w.mark.value)
  }

  /** The run asks for nothing dated at or before the watermark. */
  predicate Ahead(w: World, since: Instant) {
    w.mark.Some? ==> since != ZERO && since >= w.mark.value
  }

  /** Successful runs are --all or resume; a failed run may ask for anything, but tears a
      file only when it does not reach back behind the watermark. */
  predicate Disciplined(w: World, a: Action) {
    && (a.Succeed? ==> AllOrResume(w, a.since))
    && (a.Fail? ==> Untorn(a.torn) || Ahead(w, a.since))
  }

  /** And deliveries are dated after the current watermark. */
  predicate Incremental(w: World, a: Action) {
    Disciplined(w, a) && (a.Deliver? ==> !Behind(a.message, w))
  }

  /** Disciplined runs are fair to every message, so only its own delivery matters. */
  lemma DisciplinedIsFair(w: World, a: Action, m: Message)
    requires Disciplined(w, a) && (a == Deliver(m) ==> !Behind(m, w))
    ensures Fair(w, a, m)
  {
  }

  lemma RunsKeepMail(c: Setup, w: World, a: Action, w': World)
    requires Step(c, w, a, w') && (a.Succeed? || a.Fail?)
    ensures w'.mail == w.mail && |w'.stores| == |w.stores|
  {
  }

  /** From `w` to `w'` no message loses anything on its own account: what was safe in `w`
      is saved in `w'` as far as the watermark reaches, and all of it after a success. */
  ghost predicate KeepsEach(c: Setup, w: World, w': World, succeeded: bool) {
    forall m, i | m in w.mail && 0 <= i < |c.files(m)| && c.Owned(w.mail, m, i) &&
                  (Behind(m, w) ==> SavedEverywhere(c, m, i, w)) && (succeeded || Behind(m, w')) ::
      SavedEverywhere(c, m, i, w')
  }

  lemma DisciplinedRunKeepsEach(c: Setup, w: World, a: Action, w': World)
    requires Step(c, w, a, w') && Disciplined(w, a) && (a.Succeed? || a.Fail?)
    ensures KeepsEach(c, w, w', a.Succeed?)
  {
    hide Setup.Owned, SavedEverywhere, Step, Behind, Disciplined, Fair;
    RunsKeepMail(c, w, a, w');
    forall m, i | m in w.mail && 0 <= i < |c.files(m)| && c.Owned(w.mail, m, i) &&
                  (Behind(m, w) ==> SavedEverywhere(c, m, i, w)) && (a.Succeed? || Behind(m, w'))
      ensures SavedEverywhere(c, m, i, w')
    {
      DisciplinedIsFair(w, a, m);
      FairStep(c, w, a, w', m, i);
    }
  }

  lemma IncrementalStep(c: Setup, ever: set<Message>, w: World, a: Action, w': World)
    requires Step(c, w, a, w') && Incremental(w, a) && w.mail <= ever && NoLoss(c, ever, w)
    ensures NoLoss(c, ever, w')
    ensures a.Succeed? ==> AllSaved(c, ever, w')
  {
    hide Setup.Owned, SavedEverywhere, Step, Behind, Disciplined;
    forall m, i | m in w'.mail && 0 <= i < |c.files(m)| && c.Owned(ever, m, i) && (a.Succeed? || Behind(m, w'))
      ensures SavedEverywhere(c, m, i, w')
    {
      OwnedEarlier(c, w.mail, ever, m, i);
      DisciplinedIsFair(w, a, m);
      FairStep(c, w, a, w', m, i);
    }
  }

  /** So an account whose mail always arrives dated after the watermark never loses
      anything. */
  lemma AccountsLoseNothing(c: Setup, ws: seq<World>, acts: seq<Action>, n: nat, ever: set<Message>)
    requires IsHistory(c, ws, acts) && n < |ws| && ws[0].mark.None?
    requires forall k | 0 <= k < n :: ws[k].mail <= ever && Incremental(ws[k], acts[k])
    ensures NoLoss(c, ever, ws[n])
    ensures n > 0 && acts[n - 1].Succeed? ==> AllSaved(c, ever, ws[n])
  {
    hide Setup.Owned, SavedEverywhere, Step, Behind, Disciplined, Fair;
    forall m, i | m in ws[n].mail && 0 <= i < |c.files(m)| && c.Owned(ever, m, i)
      ensures Behind(m, ws[n]) || (n > 0 && acts[n - 1].Succeed?) ==> SavedEverywhere(c, m, i, ws[n])
    {
      forall k | 0 <= k < n ensures ws[k].mail <= ever && Fair(ws[k], acts[k], m) {
        assert Incremental(ws[k], acts[k]);
        DisciplinedIsFair(ws[k], acts[k], m);
      }
      NothingIsEverLost(c, ws, acts, n, ever, m, i);
    }
  }

  lemma {:induction false} BackendsStay(c: Setup, ws: seq<World>, acts: seq<Action>, n: nat)
    requires IsHistory(c, ws, acts) && n < |ws|
    ensures |ws[n].stores| == |ws[0].stores|
  {
    hide Setup.Writes, Setup.WritesAll, Setup.Tears, Replay, Latest;
    if n > 0 {
      BackendsStay(c, ws, acts, n - 1);
      assert Step(c, ws[n - 1], acts[n - 1], ws[n]);
    }
  }

  lemma {:induction false} MailGrows(c: Setup, ws: seq<World>, acts: seq<Action>, i: nat, j: nat)
    requires IsHistory(c, ws, acts) && i <= j < |ws|
    requires forall k | i <= k < j :: !acts[k].Remove?
    ensures ws[i].mail <= ws[j].mail
    decreases j - i
  {
    hide Setup.Writes, Setup.WritesAll, Setup.Tears, Replay, Latest;
    if i < j {
      MailGrows(c, ws, acts, i, j - 1);
      assert Step(c, ws[j - 1], acts[j - 1], ws[j]);
    }
  }

  // ----- torn files -----

  /** The run left backend `s` with a torn object in place of artifact `i`. */
  ghost predicate Spoils(c: Setup, a: Action, m: Message, i: nat, s: nat)
    requires a.Fail? && i < |c.files(m)| && s < |a.torn|
  {
    && a.torn[s] != [] && a.torn[s][0].path == c.Key(m, i)
    && c.t.Recover(a.torn[s][0].data) != Some(c.files(m)[i].data)
  }

  lemma HeldAfterFailure(c: Setup, w: World, a: Action, w': World, m: Message, i: nat, s: nat)
    requires Step(c, w, a, w') && a.Fail? && i < |c.files(m)| && c.Owned(w.mail, m, i)
    requires s < |w.stores| && c.Held(m, i, w.stores[s])
    ensures c.Held(m, i, w'.stores[s]) <==> !Spoils(c, a, m, i, s)
  {
    hide Setup.Writes, Setup.Owned, Replay, Latest, Transformer.Recover;
    var torn, before, key := a.torn[s], Replay(w.stores[s], a.logs[s]), c.Key(m, i);
    assert c.Writes(a.emitted, a.logs[s]) && c.Tears(a.emitted, a.logs[s], torn);
    if torn != [] && torn[0].path == key {
      var k := ReplayLast(before, torn, key, 0);
    } else {
      SavedStaysSaved(c, w.mail, a.emitted, a.logs[s], m, i, w.stores[s]);
      ReplayElsewhere(before, torn, key);
    }
  }

  /** What a failed run does to the invariant, read off its torn objects. */
  lemma FailureKeepsNoLossIff(c: Setup, ever: set<Message>, w: World, a: Action, w': World)
    requires Step(c, w, a, w') && a.Fail? && w.mail <= ever && NoLoss(c, ever, w)
    ensures NoLoss(c, ever, w') <==>
            forall m, i, s | m in w.mail && 0 <= i < |c.files(m)| && 0 <= s < |a.torn| &&
                             c.Owned(ever, m, i) && Behind(m, w) :: !Spoils(c, a, m, i, s)
  {
    hide Setup.Writes, Setup.Tears, Setup.Owned, Setup.Held, Replay, Latest, Spoils;
    forall m, i, s | m in w.mail && 0 <= i < |c.files(m)| && 0 <= s < |a.torn| && c.Owned(ever, m, i) && Behind(m, w)
      ensures c.Held(m, i, w'.stores[s]) <==> !Spoils(c, a, m, i, s)
    {
      OwnedEarlier(c, w.mail, ever, m, i);
      assert SavedEverywhere(c, m, i, w);
      HeldAfterFailure(c, w, a, w', m, i, s);
    }
    if NoLoss(c, ever, w') {
      forall m, i, s | m in w.mail && 0 <= i < |c.files(m)| && 0 <= s < |a.torn| && c.Owned(ever, m, i) && Behind(m, w)
        ensures !Spoils(c, a, m, i, s)
      {
        assert SavedEverywhere(c, m, i, w');
        assert c.Held(m, i, w'.stores[s]);
      }
    }
  }
}

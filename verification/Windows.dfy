/** Which fetch windows keep the no-loss invariant, when a run with them succeeds and when
    it fails. */
module Windows {
  import opened Stages
  import opened Transform
  import opened Sinks
  import opened Emitters
  import opened Delivery
  import opened History
  import opened Filing
  import Paths

  /** From any world without loss and with this watermark, a success with this lower
      bound loses nothing. */
  ghost predicate SafeWindow(c: Setup, mark: Instant, since: Instant) {
    forall ever, w, a, w' | Step(c, w, a, w') && a.Succeed? && a.since == since &&
           w.mark == Some(mark) && w.mail <= ever ::
      NoLoss(c, ever, w) ==> NoLoss(c, ever, w')
  }

  /** And a failure with this lower bound loses nothing. */
  ghost predicate SafeToFail(c: Setup, mark: Instant, since: Instant) {
    forall ever, w, a, w' | Step(c, w, a, w') && a.Fail? && a.since == since &&
           w.mark == Some(mark) && w.mail <= ever ::
      NoLoss(c, ever, w) ==> NoLoss(c, ever, w')
  }

  lemma ReachingBackIsSafe(c: Setup, mark: Instant, since: Instant)
    requires since == ZERO || since <= mark
    ensures SafeWindow(c, mark, since)
  {
    hide Setup.Owned, SavedEverywhere, Step;
    forall ever, w, a, w' | Step(c, w, a, w') && a.Succeed? && a.since == since &&
           w.mark == Some(mark) && w.mail <= ever
      ensures NoLoss(c, ever, w) ==> NoLoss(c, ever, w')
    {
      RunsKeepMail(c, w, a, w');
      if NoLoss(c, ever, w) {
        forall m, i | m in w'.mail && 0 <= i < |c.files(m)| && c.Owned(ever, m, i)
          ensures SavedEverywhere(c, m, i, w')
        {
          OwnedEarlier(c, w.mail, ever, m, i);
          FairStep(c, w, a, w', m, i);
        }
      }
    }
  }

  /** Two messages: one the window starts at, and one right after it. */
  function Skipped(since: Instant): Message { Message("INBOX", 1, since, "", [], []) }
  function Taken(since: Instant): Message { Message("INBOX", 2, since + 1, "", [], []) }

  lemma SkippedAndTakenAreApart(p: Platform, t: Transformer, since: Instant)
    requires p.Valid()
    ensures SetupOf(p, t).Owned({Skipped(since), Taken(since)}, Skipped(since), 0)
    ensures SetupOf(p, t).Key(Skipped(since), 0) != SetupOf(p, t).Key(Taken(since), 0)
  {
    hide ArtifactsOf, Paths.SafePathOf;
    var mail := {Skipped(since), Taken(since)};
    OwnedIffNameIsItsOwn(p, t, mail, Skipped(since), 0);
    KeysOfOthers(p, t, mail, Skipped(since), 0, Taken(since), 0);
  }

  /** A success with that window on the two messages, from empty backends. */
  lemma ShortWindowStep(c: Setup, mark: Instant, since: Instant, stored: Artifact, w: World, w': World)
    requires ZERO < mark < since
    requires |c.files(Taken(since))| == 1 && c.t.Carries(c.files(Taken(since))[0], stored)
    requires w == World({Skipped(since), Taken(since)}, [map[]], Some(mark), None)
    requires w' == w.(stores := [Replay(map[], [stored])], mark := Some(since + 1), lastStart := Some(ZERO))
    ensures Step(c, w, Succeed(ZERO, since, [Taken(since)], [stored]), w')
  {
    hide Replay, Setup.Flattened, Latest, Transformer.Carries;
    OneMessage(c, Taken(since));
    assert c.WritesAll([Taken(since)], [stored]);
  }

  /** It moves the watermark past the first message and leaves it out. */
  lemma ShortWindowLoses(p: Platform, t: Transformer, mark: Instant, since: Instant, nonce: int)
    requires p.Valid() && t.Valid() && ZERO < mark < since
    requires t.Transform(nonce, ArtifactsOf(p, Taken(since), ZERO)[0]).Some?
    ensures !SafeWindow(SetupOf(p, t), mark, since)
  {
    hide ArtifactsOf, Setup.Owned, Replay, Step, Transformer.Transform, Transformer.Recover;
    var c, m := SetupOf(p, t), Skipped(since);
    SkippedAndTakenAreApart(p, t, since);
    var stored := t.Transform(nonce, c.files(Taken(since))[0]).value;
    var w := World({m, Taken(since)}, [map[]], Some(mark), None);
    var w' := w.(stores := [Replay(map[], [stored])], mark := Some(since + 1), lastStart := Some(ZERO));
    ShortWindowStep(c, mark, since, stored, w, w');
    ReplayElsewhere(map[], [stored], c.Key(m, 0));
    assert !c.Held(m, 0, w'.stores[0]);
    assert !SavedEverywhere(c, m, 0, w');
    assert NoLoss(c, w.mail, w) && !NoLoss(c, w.mail, w');
    assert Succeed(ZERO, since, [Taken(since)], [stored]).Succeed?;
  }

  lemma OneMessage(c: Setup, m: Message)
    ensures c.Flattened([m]) == c.files(m)
    ensures Latest([m]) == if m.date > ZERO then m.date else ZERO
  {
    assert [m][..0] == [];
    LatestAppend([], m);
    assert [] + [m] == [m];
  }

  /** A run may safely start from a bound of the user's choosing (--duration) exactly
      when it reaches back to the watermark, or takes everything: reaching less far
      moves the watermark over mail that was never stored. */
  lemma SafeWindowsReachTheWatermark(p: Platform, t: Transformer, mark: Instant, since: Instant, nonce: int)
    requires p.Valid() && t.Valid() && ZERO < mark
    requires t.Transform(nonce, ArtifactsOf(p, Taken(since), ZERO)[0]).Some?
    ensures SafeWindow(SetupOf(p, t), mark, since) <==> since == ZERO || since <= mark
  {
    hide SafeWindow, ArtifactsOf, Transformer.Transform;
    if since == ZERO || since <= mark {
      ReachingBackIsSafe(SetupOf(p, t), mark, since);
    } else {
      ShortWindowLoses(p, t, mark, since, nonce);
    }
  }

  // ----- failing -----

  /** A one-byte message dated at the watermark, and the empty file a store of it leaves
      when it is refused after truncating. */
  function Stored(mark: Instant): Message { Message("INBOX", 1, mark, "", [0], []) }
  function Emptied(c: Setup, m: Message): Artifact
    requires |c.files(m)| > 0
  {
    Artifact(c.Key(m, 0), [])
  }

  lemma TearingStep(c: Setup, mark: Instant, since: Instant, stored: Artifact, w: World, w': World)
    requires since == ZERO || since < mark
    requires |c.files(Stored(mark))| == 1
    requires w == World({Stored(mark)}, [map[stored.path := stored.data]], Some(mark), None)
    requires w' == w.(stores := [Replay(Replay(w.stores[0], []), [Emptied(c, Stored(mark))])])
    ensures Step(c, w, Fail(since, [Stored(mark)], [[]], [[Emptied(c, Stored(mark))]]), w')
  {
    hide Replay, Setup.Flattened, Latest, Transformer.Recover;
    OneMessage(c, Stored(mark));
  }

  /** A failing run that reaches the message again empties its file. */
  lemma TearingLoses(c: Setup, mark: Instant, since: Instant, stored: Artifact)
    requires since == ZERO || since < mark
    requires var m := Stored(mark);
             && |c.files(m)| == 1 && c.Owned({m}, m, 0)
             && c.t.Carries(c.files(m)[0], stored) && c.t.Recover([]) != Some(c.files(m)[0].data)
    ensures !SafeToFail(c, mark, since)
  {
    hide Setup.Owned, Replay, Step, Transformer.Recover;
    var m := Stored(mark);
    var torn := Emptied(c, m);
    var w := World({m}, [map[stored.path := stored.data]], Some(mark), None);
    var a := Fail(since, [m], [[]], [[torn]]);
    var w' := w.(stores := [Replay(Replay(w.stores[0], []), [torn])]);
    TearingStep(c, mark, since, stored, w, w');
    assert SavedEverywhere(c, m, 0, w);
    assert NoLoss(c, {m}, w);
    assert Spoils(c, a, m, 0, 0);
    FailureKeepsNoLossIff(c, {m}, w, a, w');
    assert a.Fail?;
  }

  lemma TornBehindTheMark(p: Platform, t: Transformer, mark: Instant, since: Instant, nonce: int)
    requires p.Valid() && t.Valid() && (since == ZERO || since < mark)
    requires t.Transform(nonce, ArtifactsOf(p, Stored(mark), ZERO)[0]).Some? && t.Recover([]) != Some([0])
    ensures !SafeToFail(SetupOf(p, t), mark, since)
  {
    hide ArtifactsOf, Setup.Owned, SafeToFail, Transformer.Transform, Transformer.Recover;
    var c, m := SetupOf(p, t), Stored(mark);
    ArtifactData(p, m);
    SourceIsRaw(p, m);
    OwnedIffNameIsItsOwn(p, t, {m}, m, 0);
    TearingLoses(c, mark, since, t.Transform(nonce, c.files(m)[0]).value);
  }

  lemma SourceIsRaw(p: Platform, m: Message)
    ensures ArtifactsOf(p, m, ZERO)[0].data == m.raw
  {
    hide BasePath;
  }

  lemma StayingAheadIsSafe(c: Setup, mark: Instant, since: Instant)
    requires since != ZERO && since >= mark
    ensures SafeToFail(c, mark, since)
  {
    hide NoLoss, Step;
    forall ever, w, a, w' | Step(c, w, a, w') && a.Fail? && a.since == since && w.mark == Some(mark) && w.mail <= ever
      ensures NoLoss(c, ever, w) ==> NoLoss(c, ever, w')
    {
      if NoLoss(c, ever, w) {
        IncrementalStep(c, ever, w, a, w');
      }
    }
  }

  /** A failed run is said to leave the next one to retry the same window. Its stored mail
      is safe exactly when it asked for nothing at or before the watermark: a failing --all,
      or --duration reaching back, can leave a truncated file behind the watermark, where
      no resuming run looks again. */
  lemma SafeFailuresStayAhead(p: Platform, t: Transformer, mark: Instant, since: Instant, nonce: int)
    requires p.Valid() && t.Valid()
    requires t.Transform(nonce, ArtifactsOf(p, Stored(mark), ZERO)[0]).Some? && t.Recover([]) != Some([0])
    ensures SafeToFail(SetupOf(p, t), mark, since) <==> since != ZERO && since >= mark
  {
    hide SafeToFail, ArtifactsOf, Transformer.Transform, Transformer.Recover;
    if since != ZERO && since >= mark {
      StayingAheadIsSafe(SetupOf(p, t), mark, since);
    } else {
      TornBehindTheMark(p, t, mark, since, nonce);
    }
  }

  /** So the window of the watermark itself is the only one that is safe whether the run
      succeeds or fails. */
  lemma OnlyResumingIsSafe(p: Platform, t: Transformer, mark: Instant, since: Instant, nonce: int)
    requires p.Valid() && t.Valid() && ZERO < mark
    requires t.Transform(nonce, ArtifactsOf(p, Taken(since), ZERO)[0]).Some?
    requires t.Transform(nonce, ArtifactsOf(p, Stored(mark), ZERO)[0]).Some? && t.Recover([]) != Some([0])
    ensures SafeWindow(SetupOf(p, t), mark, since) && SafeToFail(SetupOf(p, t), mark, since) <==> since == mark
  {
    hide SafeWindow, SafeToFail, ArtifactsOf, Transformer.Transform, Transformer.Recover;
    SafeWindowsReachTheWatermark(p, t, mark, since, nonce);
    SafeFailuresStayAhead(p, t, mark, since, nonce);
  }
}

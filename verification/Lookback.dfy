/** Default runs from the very first: the window falls back to a fixed duration before
    the run until a watermark exists, and resumes from it afterwards. */
module Lookback {
  import opened Stages
  import opened Sinks
  import opened Emitters
  import opened Delivery
  import opened History

  /** What the history must respect for the sake of one message: it is dated after the
      start of the last success and after the watermark when it is delivered; each success
      starts within `d` of the one before it, and its window is everything, the
      watermark's or the last `d`; a failed run that asks for the message again after the
      watermark has passed it tears no file. */
  predicate Regular(d: int, w: World, a: Action, m: Message) {
    match a
    case Deliver(x) => x == m ==> Pending(m, w)
    case Remove(_) => true
    case Succeed(start, since, _, _) =>
      && (w.lastStart.Some? ==> start <= w.lastStart.value + d)
      && (since == ZERO || since == (if w.mark.Some? then w.mark.value else start - d))
    case Fail(since, _, _, torn) => m in w.mail && InWindow(m, since) && Behind(m, w) ==> Untorn(torn)
  }

  /** Ahead of both bounds. */
  predicate Pending(m: Message, w: World) {
    && (w.lastStart.Some? ==> m.date > w.lastStart.value)
    && (w.mark.Some? ==> m.date > w.mark.value)
  }

  /** Since the first success the message is ahead of both bounds, or behind the
      watermark. */
  predicate Sorted(m: Message, w: World) {
    w.lastStart.Some? && (m in w.mail ==> m.date > ZERO && (Pending(m, w) || Behind(m, w)))
  }

  /** Regular runs are fair to the message, and a success passes it. */
  lemma RegularIsFair(c: Setup, d: int, w: World, a: Action, w': World, m: Message)
    requires Step(c, w, a, w') && Regular(d, w, a, m) && Sorted(m, w)
    ensures Fair(w, a, m) && Sorted(m, w')
  {
    hide Setup.Writes, Setup.WritesAll, Setup.Tears, Replay, Latest, Untorn;
    if a.Succeed? && m in w.mail {
      SuccessReaches(c, w, a, w', m);
    }
  }

  lemma {:induction false} CoveredFrom(
    c: Setup, d: int, ws: seq<World>, acts: seq<Action>, k: nat, n: nat, ever: set<Message>, m: Message, i: nat)
    requires IsHistory(c, ws, acts) && k <= n < |ws| && ws[k].lastStart.Some? && m !in ws[k].mail
    requires forall j | k <= j < n :: ws[j].mail <= ever && Regular(d, ws[j], acts[j], m)
    requires i < |c.files(m)| && c.Owned(ever, m, i)
    ensures Sorted(m, ws[n])
    ensures m in ws[n].mail && (Behind(m, ws[n]) || (n > k && acts[n - 1].Succeed?)) ==> SavedEverywhere(c, m, i, ws[n])
    decreases n - k
  {
    hide Setup.Owned, SavedEverywhere, Step, Regular, Fair, Behind, Pending;
    if n > k {
      CoveredFrom(c, d, ws, acts, k, n - 1, ever, m, i);
      assert Step(c, ws[n - 1], acts[n - 1], ws[n]) && Regular(d, ws[n - 1], acts[n - 1], m);
      RegularIsFair(c, d, ws[n - 1], acts[n - 1], ws[n], m);
      OwnedEarlier(c, ws[n - 1].mail, ever, m, i);
      FairStep(c, ws[n - 1], acts[n - 1], ws[n], m, i);
    }
  }

  /** A message delivered after the first success, and still there at the latest one, is
      saved by then, also when a watermark appears on the way, when some of the runs are
      --all, and whatever other mail is delivered late or removed. */
  lemma LookbackCoversDeliveries(
    c: Setup, d: int, ws: seq<World>, acts: seq<Action>, first: nat, latest: nat, ever: set<Message>,
    m: Message, i: nat)
    requires IsHistory(c, ws, acts) && first < latest < |acts|
    requires acts[first].Succeed? && acts[latest].Succeed?
    requires forall k | first < k <= latest :: ws[k].mail <= ever && Regular(d, ws[k], acts[k], m)
    requires m in ws[latest].mail && m !in ws[first].mail && i < |c.files(m)| && c.Owned(ever, m, i)
    ensures SavedEverywhere(c, m, i, ws[latest + 1])
  {
    hide Setup.Owned, SavedEverywhere, Setup.WritesAll, Setup.Writes, Setup.Tears, Replay, Latest, Regular;
    assert Step(c, ws[first], acts[first], ws[first + 1]);
    assert Step(c, ws[latest], acts[latest], ws[latest + 1]);
    CoveredFrom(c, d, ws, acts, first + 1, latest + 1, ever, m, i);
  }

  /** The spacing is needed: a message that arrives after a success which found nothing
      is skipped by the next success exactly when that starts `d` or more after the
      message's date. */
  lemma LateRunsSkip(c: Setup, d: int, w: World, a: Action, w': World, m: Message, i: nat)
    requires Step(c, w, a, w') && a.Succeed? && m in w.mail && i < |c.files(m)| && c.Owned(w.mail, m, i)
    requires w.mark.None? && a.since == a.start - d && a.since != ZERO
    ensures SavedEverywhere(c, m, i, w') <==> a.start - m.date < d || SavedEverywhere(c, m, i, w)
  {
    SuccessSavesExactly(c, w, a, w', m, i);
  }
}

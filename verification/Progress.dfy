/** The watermark over whole histories: when it moves forward only, and that no message is
    emitted again by a run that resumes from it. */
module Progress {
  import opened Stages
  import opened Sinks
  import opened Emitters
  import opened Delivery
  import opened History

  predicate Reaches(mark: Option<Instant>, t: Instant) { mark.Some? && mark.value >= t }

  /** The window of a success holds a message dated at the watermark or after it, or
      nothing dated at all. */
  ghost predicate Onward(w: World, a: Action) {
    a.Succeed? && w.mark.Some? ==>
      || (exists m :: m in w.mail && InWindow(m, a.since) && m.date >= w.mark.value)
      || (forall m | m in w.mail && InWindow(m, a.since) :: m.date <= ZERO)
  }

  /** The watermark moves back exactly when a success asks for dated mail but for none at
      or after it: an --all or --duration after the newest messages were removed. */
  lemma MarkHoldsIffOnward(c: Setup, w: World, a: Action, w': World)
    requires Step(c, w, a, w')
    ensures (w.mark.Some? ==> Reaches(w'.mark, w.mark.value)) <==> Onward(w, a)
  {
    hide Setup.WritesAll, Setup.Writes, Setup.Tears, Replay, Latest, InWindow;
    if a.Succeed? && w.mark.Some? {
      if Latest(a.emitted) != ZERO {
        var i :| 0 <= i < |a.emitted| && a.emitted[i].date == Latest(a.emitted);
        assert a.emitted[i] in a.emitted;
      }
      forall m | m in w.mail && InWindow(m, a.since) ensures m.date <= Latest(a.emitted) {
        assert m in a.emitted;
      }
    }
  }

  /** Watermarks never regress while the runs are onward. */
  lemma {:induction false} MarkNeverRegresses(c: Setup, ws: seq<World>, acts: seq<Action>, i: nat, j: nat)
    requires IsHistory(c, ws, acts) && i <= j < |ws|
    requires forall k | i <= k < j :: Onward(ws[k], acts[k])
    ensures ws[i].mark.Some? ==> Reaches(ws[j].mark, ws[i].mark.value)
    decreases j - i
  {
    hide Step, Onward;
    if i < j {
      MarkNeverRegresses(c, ws, acts, i, j - 1);
      assert Step(c, ws[j - 1], acts[j - 1], ws[j]) && Onward(ws[j - 1], acts[j - 1]);
      MarkHoldsIffOnward(c, ws[j - 1], acts[j - 1], ws[j]);
    }
  }

  /** The watermark is the date of a message in scope. */
  ghost predicate MarkIsSeen(w: World) {
    w.mark.Some? ==> w.mark.value > ZERO && exists m :: m in w.mail && m.date == w.mark.value
  }

  /** A success that resumes from the recorded watermark. */
  predicate Resumes(w: World, a: Action) {
    a.Succeed? && w.mark.Some? && a.since == w.mark.value && a.since != ZERO
  }

  lemma SeenStep(c: Setup, w: World, a: Action, w': World)
    requires Step(c, w, a, w') && MarkIsSeen(w) && (a.Succeed? ==> AllOrResume(w, a.since))
    ensures Onward(w, a)
    ensures !a.Remove? ==> MarkIsSeen(w')
  {
    hide Setup.WritesAll, Setup.Writes, Setup.Tears, Replay, Latest;
    if w.mark.Some? {
      var m :| m in w.mail && m.date == w.mark.value;
      assert a.Deliver? ==> m in w'.mail;
    }
    if a.Succeed? && Latest(a.emitted) != ZERO {
      var i :| 0 <= i < |a.emitted| && a.emitted[i].date == Latest(a.emitted);
      assert a.emitted[i] in a.emitted;
    }
  }

  /** Runs that are --all or resume are onward as long as the message the watermark was
      read from, or another of its date, stays on the server. */
  lemma {:induction false} DisciplinedRunsAreOnward(c: Setup, ws: seq<World>, acts: seq<Action>, n: nat)
    requires IsHistory(c, ws, acts) && n < |acts| && MarkIsSeen(ws[0])
    requires forall k | 0 <= k <= n && acts[k].Succeed? :: AllOrResume(ws[k], acts[k].since)
    requires forall k | 0 <= k < n && acts[k].Remove? :: MarkIsSeen(ws[k + 1])
    ensures MarkIsSeen(ws[n]) && Onward(ws[n], acts[n])
  {
    hide Step, MarkIsSeen, Onward, AllOrResume;
    if n > 0 {
      DisciplinedRunsAreOnward(c, ws, acts, n - 1);
      assert Step(c, ws[n - 1], acts[n - 1], ws[n]);
      SeenStep(c, ws[n - 1], acts[n - 1], ws[n]);
      assert acts[n - 1].Remove? ==> MarkIsSeen(ws[n - 1 + 1]);
    }
    assert Step(c, ws[n], acts[n], ws[n + 1]);
    SeenStep(c, ws[n], acts[n], ws[n + 1]);
  }

  lemma StaysBehind(c: Setup, w: World, a: Action, w': World, m: Message)
    requires Step(c, w, a, w') && a != Deliver(m) && (m in w.mail ==> Behind(m, w))
    ensures m in w'.mail ==> Behind(m, w')
  {
    hide Setup.WritesAll, Setup.Writes, Setup.Tears, Replay, Latest, Behind;
    if a.Succeed? && m in w.mail {
      SuccessReaches(c, w, a, w', m);
    } else if a.Deliver? || a.Remove? || a.Fail? {
      assert w'.mark == w.mark;
      SameMark(w, w', m);
    }
  }

  lemma SameMark(w: World, w': World, m: Message)
    requires w'.mark == w.mark
    ensures Behind(m, w') == Behind(m, w)
  {
  }

  lemma {:induction false} StaysBehindFrom(c: Setup, ws: seq<World>, acts: seq<Action>, i: nat, j: nat, m: Message)
    requires IsHistory(c, ws, acts) && i <= j < |ws|
    requires m in ws[i].mail ==> Behind(m, ws[i])
    requires forall k | i <= k < j :: acts[k] != Deliver(m)
    ensures m in ws[j].mail ==> Behind(m, ws[j])
    decreases j - i
  {
    hide Step, Behind;
    if i < j {
      StaysBehindFrom(c, ws, acts, i, j - 1, m);
      assert Step(c, ws[j - 1], acts[j - 1], ws[j]);
      StaysBehind(c, ws[j - 1], acts[j - 1], ws[j], m);
    }
  }

  /** A run that resumes emits nothing dated that an earlier success emitted, whatever runs
      with whatever windows, deliveries and removals lie between them. */
  lemma NothingIsEmittedTwice(c: Setup, ws: seq<World>, acts: seq<Action>, i: nat, j: nat, m: Message)
    requires IsHistory(c, ws, acts) && i < j < |acts|
    requires acts[i].Succeed? && m in acts[i].emitted && m.date > ZERO
    requires Resumes(ws[j], acts[j])
    requires forall k | i < k < j :: acts[k] != Deliver(m)
    ensures m !in acts[j].emitted
  {
    hide Setup.WritesAll, Setup.Writes, Setup.Tears, Replay, Latest;
    assert Step(c, ws[i], acts[i], ws[i + 1]);
    SuccessReaches(c, ws[i], acts[i], ws[i + 1], m);
    StaysBehindFrom(c, ws, acts, i + 1, j, m);
    assert Step(c, ws[j], acts[j], ws[j + 1]);
  }

  /** Between two successes that resume, the later one resumes from a strictly later
      watermark if the earlier one stored anything dated and the runs between are
      onward. */
  lemma ResumesMoveOn(c: Setup, ws: seq<World>, acts: seq<Action>, i: nat, j: nat)
    requires IsHistory(c, ws, acts) && i < j < |acts|
    requires Resumes(ws[i], acts[i]) && Latest(acts[i].emitted) != ZERO
    requires Resumes(ws[j], acts[j])
    requires forall k | i < k < j :: Onward(ws[k], acts[k])
    ensures acts[j].since > acts[i].since
  {
    hide Setup.WritesAll, Setup.Writes, Setup.Tears, Replay, Latest, Onward;
    assert Step(c, ws[i], acts[i], ws[i + 1]);
    var emitted := acts[i].emitted;
    var k :| 0 <= k < |emitted| && emitted[k].date == Latest(emitted);
    assert emitted[k] in emitted;
    MarkNeverRegresses(c, ws, acts, i + 1, j);
  }
}

/** Failed attempts followed by a success: the failures leave no trace. */
module Retries {
  import opened Stages
  import opened Transform
  import opened Sinks
  import opened Emitters
  import opened Delivery
  import opened History

  /** The later window contains the earlier one. */
  predicate Contains(later: Instant, earlier: Instant) {
    later == ZERO || (earlier != ZERO && later <= earlier)
  }

  /** What happens before the success: deliveries, removals, and failed attempts at windows
      the success asks for again. */
  predicate Attempt(a: Action, since: Instant) {
    a.Deliver? || a.Remove? || (a.Fail? && Contains(since, a.since))
  }

  lemma AttemptForgotten(
    c: Setup, w: World, a: Action, w': World, since: Instant, emitted: seq<Message>, log: seq<Artifact>, i: nat)
    requires Step(c, w, a, w') && Attempt(a, since) && i < |w.stores|
    requires forall m | m in w.mail && InWindow(m, since) :: m in emitted
    requires c.WritesAll(emitted, log)
    ensures |w'.stores| == |w.stores| && w'.mark == w.mark
    ensures Replay(w'.stores[i], log) == Replay(w.stores[i], log)
  {
    hide Setup.WritesAll, Setup.Writes, Setup.Tears, Replay, KeysWithin;
    if a.Fail? {
      assert forall m | m in a.emitted :: m in emitted;
      assert c.Writes(a.emitted, a.logs[i]) && c.Tears(a.emitted, a.logs[i], a.torn[i]);
      PartialKeysWithin(c, a.emitted, a.logs[i], a.torn[i], emitted, log);
      RewritingForgets(w.stores[i], a.logs[i], log);
      RewritingForgets(Replay(w.stores[i], a.logs[i]), a.torn[i], log);
    }
  }

  /** Any number of failed attempts, with mail arriving meanwhile, and one success leave
      every backend as the success alone would have, torn objects included, and the
      watermark untouched until then. */
  lemma {:induction false} RetryConverges(c: Setup, ws: seq<World>, acts: seq<Action>, n: nat, i: nat)
    requires IsHistory(c, ws, acts) && n == |acts| - 1 && acts[n].Succeed?
    requires forall k | 0 <= k < n :: Attempt(acts[k], acts[n].since) && !acts[k].Remove?
    requires i < |ws[0].stores|
    ensures |ws[n + 1].stores| == |ws[0].stores| && ws[n].mark == ws[0].mark
    ensures ws[n + 1].stores[i] == Replay(ws[0].stores[i], acts[n].log)
  {
    hide Setup.WritesAll, Setup.Writes, Setup.Tears, Replay, Latest, Attempt;
    assert Step(c, ws[n], acts[n], ws[n + 1]);
    AttemptsForgotten(c, ws, acts, n, i);
  }

  lemma {:induction false} AttemptsForgotten(c: Setup, ws: seq<World>, acts: seq<Action>, n: nat, i: nat)
    requires IsHistory(c, ws, acts) && n < |acts| && i < |ws[0].stores|
    requires acts[|acts| - 1].Succeed?
    requires forall k | 0 <= k < |acts| - 1 :: Attempt(acts[k], acts[|acts| - 1].since) && !acts[k].Remove?
    ensures |ws[n].stores| == |ws[0].stores| && ws[n].mark == ws[0].mark
    ensures Replay(ws[n].stores[i], acts[|acts| - 1].log) == Replay(ws[0].stores[i], acts[|acts| - 1].log)
  {
    hide Setup.WritesAll, Setup.Writes, Setup.Tears, Replay, Latest, Attempt;
    if n > 0 {
      var last := |acts| - 1;
      AttemptsForgotten(c, ws, acts, n - 1, i);
      assert Step(c, ws[last], acts[last], ws[last + 1]);
      MailGrows(c, ws, acts, n - 1, last);
      AttemptForgotten(c, ws[n - 1], acts[n - 1], ws[n], acts[last].since, acts[last].emitted, acts[last].log, i);
    }
  }

  // ----- when mail is removed between the attempts -----

  predicate AgreeAt(a: Objects, b: Objects, key: string) {
    (key in a <==> key in b) && (key in a ==> a[key] == b[key])
  }

  /** No message of the world that uses the key is missing later on. */
  ghost predicate Remains(c: Setup, w: World, later: set<Message>, key: string) {
    forall m, j | m in w.mail && 0 <= j < |c.files(m)| && c.Key(m, j) == key :: m in later
  }

  /** A key an attempt may write, used by no message that is missing later, is written by
      the success too. */
  lemma KeyIsRewritten(
    c: Setup, w: World, msgs: seq<Message>, since: Instant, later: set<Message>, emitted: seq<Message>,
    log: seq<Artifact>, key: string, k: nat)
    returns (l: nat)
    requires Remains(c, w, later, key) && forall x | x in msgs :: x in w.mail && InWindow(x, since)
    requires forall m | m in later && InWindow(m, since) :: m in emitted
    requires c.WritesAll(emitted, log)
    requires k < |c.Flattened(msgs)| && c.Flattened(msgs)[k].path + c.t.Suffix() == key
    ensures l < |log| && log[l].path == key
  {
    hide Setup.Flattened, Transformer.Recover, InWindow;
    var m, j := FlattenedFrom(c, msgs, k);
    assert c.Key(m, j) == key;
    l := FlattenedTo(c, emitted, m, j);
    assert c.t.Carries(c.Flattened(emitted)[l], log[l]);
  }

  /** An attempt does not touch a key the success does not write. */
  lemma AttemptElsewhere(
    c: Setup, w: World, a: Action, w': World, since: Instant, later: set<Message>, emitted: seq<Message>,
    log: seq<Artifact>, i: nat, key: string)
    requires Step(c, w, a, w') && Attempt(a, since) && i < |w.stores| && Remains(c, w, later, key)
    requires forall m | m in later && InWindow(m, since) :: m in emitted
    requires c.WritesAll(emitted, log) && forall k | 0 <= k < |log| :: log[k].path != key
    ensures |w'.stores| == |w.stores| && AgreeAt(w'.stores[i], w.stores[i], key)
  {
    hide Setup.Flattened, Replay, Transformer.Recover, Remains, Setup.WritesAll;
    if a.Fail? {
      var mine, torn, plain := a.logs[i], a.torn[i], c.Flattened(a.emitted);
      assert c.Writes(a.emitted, mine) && c.Tears(a.emitted, mine, torn);
      forall k | 0 <= k < |plain| ensures plain[k].path + c.t.Suffix() != key {
        if plain[k].path + c.t.Suffix() == key {
          var l := KeyIsRewritten(c, w, a.emitted, since, later, emitted, log, key, k);
        }
      }
      assert forall k | 0 <= k < |mine| :: c.t.Carries(plain[k], mine[k]);
      ReplayElsewhere(w.stores[i], mine, key);
      ReplayElsewhere(Replay(w.stores[i], mine), torn, key);
    }
  }

  lemma {:induction false} AttemptsElsewhere(c: Setup, ws: seq<World>, acts: seq<Action>, n: nat, i: nat, key: string)
    requires IsHistory(c, ws, acts) && n < |acts| && i < |ws[0].stores|
    requires var last := |acts| - 1;
             && acts[last].Succeed?
             && (forall k | 0 <= k < n :: Attempt(acts[k], acts[last].since) && Remains(c, ws[k], ws[last].mail, key))
             && (forall k | 0 <= k < |acts[last].log| :: acts[last].log[k].path != key)
    ensures |ws[n].stores| == |ws[0].stores| && AgreeAt(ws[n].stores[i], ws[0].stores[i], key)
  {
    hide Setup.WritesAll, Setup.Writes, Setup.Tears, Replay, Latest, Attempt, Remains, InWindow;
    if n > 0 {
      var last := |acts| - 1;
      AttemptsElsewhere(c, ws, acts, n - 1, i, key);
      assert Step(c, ws[last], acts[last], ws[last + 1]);
      AttemptElsewhere(c, ws[n - 1], acts[n - 1], ws[n], acts[last].since, ws[last].mail, acts[last].emitted,
                       acts[last].log, i, key);
    }
  }

  /** With mail removed between the attempts the failures still leave no trace at any key
      that no removed message uses. */
  lemma RetryConvergesDespiteRemovals(c: Setup, ws: seq<World>, acts: seq<Action>, n: nat, i: nat, key: string)
    requires IsHistory(c, ws, acts) && n == |acts| - 1 && acts[n].Succeed? && i < |ws[0].stores|
    requires forall k | 0 <= k < n :: Attempt(acts[k], acts[n].since) && Remains(c, ws[k], ws[n].mail, key)
    ensures |ws[n + 1].stores| == |ws[0].stores|
    ensures AgreeAt(ws[n + 1].stores[i], Replay(ws[0].stores[i], acts[n].log), key)
  {
    hide Setup.WritesAll, Setup.Writes, Setup.Tears, Replay, Latest, Attempt, Remains, InWindow;
    assert Step(c, ws[n], acts[n], ws[n + 1]);
    BackendsStay(c, ws, acts, n);
    var log, before, first := acts[n].log, ws[n].stores[i], ws[0].stores[i];
    if exists k :: 0 <= k < |log| && log[k].path == key {
      ReplayDeterminedAt(before, first, log, key);
    } else {
      AttemptsElsewhere(c, ws, acts, n, i, key);
      ReplayElsewhere(before, log, key);
      ReplayElsewhere(first, log, key);
    }
  }
}

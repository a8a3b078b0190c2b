/** stages/pipeline.go: one run, from fetch to close. */
module Pipelines {
  import opened Stages
  import opened Transform
  import opened Sinks
  import opened Emitters
  import opened Imap

  /** What one run did: the messages handed over in order, the artifacts every backend
      took, what each backend took, what a refused store tore in each, and whether the
      fetch finished. */
  datatype Trace = Trace(
    emitted: seq<Message>, sent: seq<Artifact>, logs: seq<seq<Artifact>>, torn: seq<seq<Artifact>>, fetched: bool)

  /** The backends move in lockstep: a later one holds a prefix of an earlier one, none
      is more than one artifact ahead, and the last one is never ahead. At most one has
      a torn object. */
  ghost predicate Lockstep(tr: Trace) {
    && (forall i, j | 0 <= i < j < |tr.logs| :: tr.logs[j] <= tr.logs[i])
    && (forall i | 0 <= i < |tr.logs| :: tr.sent <= tr.logs[i] && |tr.logs[i]| <= |tr.sent| + 1)
    && (tr.logs != [] ==> tr.logs[|tr.logs| - 1] == tr.sent)
    && (tr.fetched ==> forall i | 0 <= i < |tr.logs| :: tr.logs[i] == tr.sent)
    && |tr.torn| == |tr.logs|
    && (forall i, j | 0 <= i < j < |tr.torn| :: tr.torn[i] == [] || tr.torn[j] == [])
  }

  /** What reached each backend is a prefix of the transformed flattening of what was
      emitted, and all of it when the fetch finished; what was torn is the object of
      the artifact that came next. */
  ghost predicate Faithful(p: Platform, t: Transformer, now: Instant, tr: Trace) {
    var plain := Flatten(p, now, tr.emitted);
    && CarriesPrefix(t, plain, tr.sent)
    && (forall i | 0 <= i < |tr.logs| :: CarriesPrefix(t, plain, tr.logs[i]))
    && |tr.torn| == |tr.logs|
    && (forall i | 0 <= i < |tr.logs| :: Tears(t, plain, tr.logs[i], tr.torn[i]))
    && (tr.fetched ==> |tr.sent| == |plain| && forall i | 0 <= i < |tr.torn| :: tr.torn[i] == [])
  }

  /** The counters: artifacts and bytes that every backend took, messages taken whole,
      and the newest date among those. */
  ghost predicate Counted(p: Platform, now: Instant, tr: Trace, r: Result) {
    && r.artifacts == |tr.sent|
    && r.bytes == TotalSize(tr.sent)
    && r.messages <= |tr.emitted|
    && |Flatten(p, now, tr.emitted[..r.messages])| <= |tr.sent|
    && (r.messages < |tr.emitted| ==>
          r.messages == |tr.emitted| - 1 && |tr.sent| < |Flatten(p, now, tr.emitted)|)
    && r.latest == Latest(tr.emitted[..r.messages])
    && (tr.fetched ==> r.messages == |tr.emitted|)
  }

  /** The emitted messages against the window asked for, as multisets. */
  ghost predicate Covers(tr: Trace, window: seq<Message>) {
    && multiset(tr.emitted) <= multiset(window)
    && (tr.fetched ==> multiset(tr.emitted) == multiset(window))
  }

  /** `tr` lists what the emitter saw and did. */
  ghost predicate Describes(run: Emitter, tr: Trace)
    reads run
  {
    && tr.emitted == run.emitted && tr.sent == run.sent && |tr.logs| == |tr.torn| == |run.sink.sinks|
    && (forall i | 0 <= i < |tr.logs| :: tr.logs[i] == run.Log(i) && tr.torn[i] == run.TornAt(i))
    && (tr.fetched ==> !run.failed)
  }

  /** A valid emitter is a report of the run so far. */
  lemma EmitterReports(run: Emitter, tr: Trace)
    requires run.Valid() && Describes(run, tr)
    ensures Lockstep(tr)
    ensures Faithful(run.p, run.t, run.now, tr)
    ensures Counted(run.p, run.now, tr, run.result)
  {
    hide Transformer.Carries, Flatten, TotalSize, Latest, Lockstep, Faithful, Emitter.Synced, Emitter.Fixed;
    LockstepReport(run, tr);
    FaithfulReport(run, tr);
    assert run.emitted[..|run.emitted|] == run.emitted;
  }

  lemma LockstepReport(run: Emitter, tr: Trace)
    requires run.Valid() && Describes(run, tr)
    ensures Lockstep(tr)
  {
    hide Transformer.Carries, Flatten, TotalSize, Latest, CarriesPrefix, Tears, Emitter.Synced;
  }

  lemma LogReport(run: Emitter, i: nat)
    requires run.Valid() && i < |run.sink.sinks|
    ensures var plain := Flatten(run.p, run.now, run.emitted);
            && CarriesPrefix(run.t, plain, run.Log(i))
            && Tears(run.t, plain, run.Log(i), run.TornAt(i))
  {
    hide Transformer.Carries, Flatten, TotalSize, Latest, Emitter.Synced, Emitter.Fixed;
  }

  lemma FaithfulReport(run: Emitter, tr: Trace)
    requires run.Valid() && Describes(run, tr)
    ensures Faithful(run.p, run.t, run.now, tr)
  {
    forall i | 0 <= i < |tr.logs|
      ensures var plain := Flatten(run.p, run.now, run.emitted);
              CarriesPrefix(run.t, plain, tr.logs[i]) && Tears(run.t, plain, tr.logs[i], tr.torn[i])
    {
      LogReport(run, i);
    }
    hide CarriesPrefix, Tears, Flatten, TotalSize, Latest, Emitter.Synced, Emitter.Fixed, Emitter.Log;
  }

  /** Result.Messages counts what stage 1 handed over exactly when every artifact of
      that was stored; otherwise the last message is missing from it. */
  lemma MessagesCountsStored(p: Platform, now: Instant, t: Transformer, tr: Trace, r: Result)
    requires Faithful(p, t, now, tr) && Counted(p, now, tr, r)
    ensures r.messages == |tr.emitted| <==> |tr.sent| == |Flatten(p, now, tr.emitted)|
    ensures r.messages == |tr.emitted| || r.messages == |tr.emitted| - 1
  {
    hide Flatten, TotalSize, Latest, Transformer.Carries;
    if r.messages == |tr.emitted| {
      assert tr.emitted[..r.messages] == tr.emitted;
    }
  }

  /** A run whose first message is refused by its only backend: one message was handed
      over and none is counted. */
  lemma RefusedMessageIsNotCounted(p: Platform, now: Instant, t: Transformer, m: Message)
    ensures var tr, r := Trace([m], [], [[]], [[]], false), Result(0, 0, 0, ZERO);
            Lockstep(tr) && Faithful(p, t, now, tr) && Counted(p, now, tr, r) && r.messages != |tr.emitted|
  {
    hide ArtifactsOf;
    FlattenAppend(p, now, [], m);
    assert [] + [m] == [m] && [m][..0] == [];
  }

  class Pipeline {
    const fetch: IMAP?
    const transform: Option<Transformer>
    const store: Multi?

    constructor (fetch: IMAP?, transform: Option<Transformer>, store: Multi?)
      ensures this.fetch == fetch && this.transform == transform && this.store == store
    {
      this.fetch, this.transform, this.store := fetch, transform, store;
    }

    ghost predicate Valid() {
      && (fetch != null ==> fetch.Valid())
      && (transform.Some? ==> transform.value.Valid())
      && (store != null ==> store.Valid())
    }

    predicate Complete() {
      fetch != null && transform.Some? && store != null
    }

    /** Nothing in the environment fails, and the mailbox asked for exists. */
    ghost predicate Reliable(req: FetchRequest)
      requires Complete()
    {
      fetch.reliable && transform.value.Total() && store.Reliable() && Reachable(fetch.server, req)
    }

    ghost function Frame(): set<object> {
      if Complete() then {fetch} + (set i | 0 <= i < |store.sinks| :: store.sinks[i]) else {}
    }

    /** Stage 3 before it is closed: every backend extended by its log. */
    twostate predicate Extended(tr: Trace)
      requires store != null
      reads store.sinks
    {
      && |tr.logs| == |tr.torn| == |store.sinks|
      && forall i | 0 <= i < |store.sinks| ::
           && store.sinks[i].objects == Replay(Replay(old(store.sinks[i].objects), tr.logs[i]), tr.torn[i])
           && store.sinks[i].events == old(store.sinks[i].events) + Stores(tr.logs[i])
    }

    ghost predicate Reported(p: Platform, now: Instant, req: FetchRequest, tr: Trace, result: Result)
      requires Complete()
    {
      && Covers(tr, Window(fetch.u, fetch.server, Scope(fetch.server, req.mailbox), req))
      && Lockstep(tr) && Faithful(p, transform.value, now, tr) && Counted(p, now, tr, result)
    }

    /** Stages 1 and 2 driven into stage 3. */
    method Drive(p: Platform, now: Instant, req: FetchRequest) returns (result: Result, ghost tr: Trace, fetched: bool)
      requires Valid() && p.Valid() && Complete()
      modifies Frame()
      ensures Reported(p, now, req, tr, result) && Extended(tr)
      ensures tr.fetched == fetched
      ensures Reliable(req) ==> fetched
    {
      hide Replay, Stores, Flatten, Latest, TotalSize, Window, Scope, CarriesPrefix, Faithful, Lockstep, Counted,
           Emitter.Accounted, Tears, Sourced, InOrder, Visited, Asked, Depicts, UniqueNames, Reachable;
      var run := new Emitter(p, transform.value, store, now);
      ghost var emitted;
      fetched, emitted := fetch.Fetch(req, run);
      assert run.emitted == emitted;
      tr := Trace(emitted, run.sent,
                  seq(|store.sinks|, i requires 0 <= i < |store.sinks| reads run => run.Log(i)),
                  seq(|store.sinks|, i requires 0 <= i < |store.sinks| reads run => run.TornAt(i)), fetched);
      result := run.result;
      assert Reported(p, now, req, tr, result) by {
        EmitterReports(run, tr);
      }
      assert Extended(tr) by {
        assert forall i | 0 <= i < |store.sinks| :: run.Holds(i, run.Log(i), run.TornAt(i));
      }
    }

    /** Runs the stages and closes the store on every path: each backend's history
        grows by exactly its log and one Close after it, and its objects are
        overwritten by its log and by what was torn. The run succeeds when the fetch finished
        and every backend closed cleanly, so in a reliable environment it succeeds. */
    method Run(p: Platform, now: Instant, req: FetchRequest) returns (result: Result, ok: bool, ghost tr: Trace)
      requires Valid() && p.Valid()
      modifies Frame()
      ensures !Complete() ==> !ok && result == Result(0, 0, 0, ZERO)
      ensures Complete() ==> Reported(p, now, req, tr, result) && |tr.logs| == |tr.torn| == |store.sinks|
      ensures Complete() ==> forall i | 0 <= i < |store.sinks| ::
                && store.sinks[i].objects == Replay(Replay(old(store.sinks[i].objects), tr.logs[i]), tr.torn[i])
                && (store.sinks[i].events == old(store.sinks[i].events) + Stores(tr.logs[i]) + [Closed(true)]
                    || store.sinks[i].events == old(store.sinks[i].events) + Stores(tr.logs[i]) + [Closed(false)])
      ensures Complete() && Reliable(req) ==> ok
      ensures Complete() ==>
                (ok <==> tr.fetched && forall i | 0 <= i < |store.sinks| ::
                   store.sinks[i].events == old(store.sinks[i].events) + Stores(tr.logs[i]) + [Closed(true)])
    {
      hide Replay, Stores, Reported;
      result := Result(0, 0, 0, ZERO);
      tr := Trace([], [], [], [], false);
      if fetch == null || transform.None? || store == null {
        return result, false, tr;
      }
      var fetched;
      result, tr, fetched := Drive(p, now, req);
      var closed := store.Close();
      ok := fetched && closed;
    }
  }
}

/** stages/pipeline.go: the closure Run hands to the fetcher. It flattens one message,
    transforms and stores each artifact, and keeps the run's counters. */
module Emitters {
  import opened Stages
  import opened Transform
  import opened Sinks

  datatype Result = Result(messages: nat, artifacts: nat, bytes: nat, latest: Instant)

  /** The artifacts of a list of messages, in order. */
  function Flatten(p: Platform, now: Instant, msgs: seq<Message>): seq<Artifact> {
    if msgs == [] then []
    else Flatten(p, now, msgs[..|msgs| - 1]) + ArtifactsOf(p, msgs[|msgs| - 1], now)
  }

  lemma FlattenAppend(p: Platform, now: Instant, msgs: seq<Message>, m: Message)
    ensures Flatten(p, now, msgs + [m]) == Flatten(p, now, msgs) + ArtifactsOf(p, m, now)
  {
    assert (msgs + [m])[..|msgs|] == msgs;
  }

  function TotalSize(artifacts: seq<Artifact>): nat {
    if artifacts == [] then 0
    else TotalSize(artifacts[..|artifacts| - 1]) + |artifacts[|artifacts| - 1].data|
  }

  lemma TotalSizeAppend(artifacts: seq<Artifact>, a: Artifact)
    ensures TotalSize(artifacts + [a]) == TotalSize(artifacts) + |a.data|
  {
    assert (artifacts + [a])[..|artifacts|] == artifacts;
  }

  /** The newest date, ZERO for no dated message. */
  function Latest(msgs: seq<Message>): (t: Instant)
    ensures t >= ZERO
    ensures forall i | 0 <= i < |msgs| :: msgs[i].date <= t
    ensures t != ZERO ==> exists i :: 0 <= i < |msgs| && msgs[i].date == t
  {
    if msgs == [] then ZERO
    else
      var rest, d := Latest(msgs[..|msgs| - 1]), msgs[|msgs| - 1].date;
      if d > rest then d else rest
  }

  lemma LatestAppend(msgs: seq<Message>, m: Message)
    ensures Latest(msgs + [m]) == if m.date > Latest(msgs) then m.date else Latest(msgs)
  {
    assert (msgs + [m])[..|msgs|] == msgs;
  }

  /** `stored` holds the transformed artifacts of a prefix of `plain`. */
  ghost predicate CarriesPrefix(t: Transformer, plain: seq<Artifact>, stored: seq<Artifact>) {
    |stored| <= |plain| && forall i | 0 <= i < |stored| :: t.Carries(plain[i], stored[i])
  }

  /** A refused store tore at most the object of the artifact after those `stored`. */
  ghost predicate Tears(t: Transformer, plain: seq<Artifact>, stored: seq<Artifact>, torn: seq<Artifact>) {
    torn == [] || (|torn| == 1 && |stored| < |plain| && torn[0].path == plain[|stored|].path + t.Suffix())
  }

  class Emitter {
    const p: Platform
    const t: Transformer
    const sink: Multi
    /** Read in place of a missing date. */
    const now: Instant
    var result: Result

    /** Every message handed over, the artifacts every backend took, and whether the
        last hand-over failed, leaving `extra` in the first `reached` backends only and
        `torn` in the next. */
    ghost var emitted: seq<Message>
    ghost var sent: seq<Artifact>
    ghost var failed: bool
    ghost var reached: nat
    ghost var extra: Artifact
    ghost var torn: seq<Artifact>

    ghost const baseObjects: seq<Objects>
    ghost const baseEvents: seq<seq<Event>>

    /** What this run stored in backend `i`. */
    ghost function Log(i: nat): seq<Artifact>
      reads this`sent, this`reached, this`extra
    {
      if i < reached then sent + [extra] else sent
    }

    /** What a refused store left in backend `i`. */
    ghost function TornAt(i: nat): seq<Artifact>
      reads this`reached, this`torn
    {
      if i == reached then torn else []
    }

    /** Neither encryption nor any backend fails. */
    ghost predicate Reliable() {
      t.Total() && sink.Reliable()
    }

    ghost predicate Fixed() {
      && p.Valid() && t.Valid() && sink.Valid()
      && |baseObjects| == |baseEvents| == |sink.sinks|
    }

    /** Backend `i` holds what it held before the run, overwritten by `log` and then by
        what was torn. */
    ghost predicate Holds(i: nat, log: seq<Artifact>, torn: seq<Artifact>)
      requires Fixed() && i < |sink.sinks|
      reads sink.sinks
    {
      && sink.sinks[i].objects == Replay(Replay(baseObjects[i], log), torn)
      && sink.sinks[i].events == baseEvents[i] + Stores(log)
    }

    ghost predicate Synced()
      requires Fixed()
      reads this`sent, this`reached, this`extra, this`torn, sink.sinks
    {
      forall i | 0 <= i < |sink.sinks| :: Holds(i, Log(i), TornAt(i))
    }

    /** The counters describe exactly what was stored. */
    ghost predicate Accounted()
      reads this
    {
      var done := result.messages;
      && result.artifacts == |sent|
      && result.bytes == TotalSize(sent)
      && done <= |emitted|
      && result.latest == Latest(emitted[..done])
      && CarriesPrefix(t, Flatten(p, now, emitted), sent)
      && (if failed then
            && done == |emitted| - 1
            && |Flatten(p, now, emitted[..done])| <= |sent| < |Flatten(p, now, emitted)|
          else
            && done == |emitted|
            && |sent| == |Flatten(p, now, emitted)|)
      && (reached > 0 ==>
            && failed && reached < |sink.sinks|
            && t.Carries(Flatten(p, now, emitted)[|sent|], extra))
      && (torn != [] ==> failed)
      && Tears(t, Flatten(p, now, emitted), sent, torn)
    }

    ghost predicate Valid()
      reads this, sink.sinks
    {
      Fixed() && Synced() && Accounted()
    }

    constructor (p: Platform, t: Transformer, sink: Multi, now: Instant)
      requires p.Valid() && t.Valid() && sink.Valid()
      ensures Valid() && !failed && emitted == [] && result == Result(0, 0, 0, ZERO)
      ensures this.p == p && this.t == t && this.sink == sink && this.now == now
      ensures |baseObjects| == |baseEvents| == |sink.sinks|
      ensures forall i | 0 <= i < |sink.sinks| ::
              baseObjects[i] == sink.sinks[i].objects && baseEvents[i] == sink.sinks[i].events
    {
      this.p, this.t, this.sink, this.now := p, t, sink, now;
      result := Result(0, 0, 0, ZERO);
      emitted, sent, failed, reached, extra, torn := [], [], false, 0, Artifact("", []), [];
      baseObjects := seq(|sink.sinks|, i requires 0 <= i < |sink.sinks| reads sink.sinks => sink.sinks[i].objects);
      baseEvents := seq(|sink.sinks|, i requires 0 <= i < |sink.sinks| reads sink.sinks => sink.sinks[i].events);
    }

    /** Between two artifacts: nothing has failed, and `plain` is what the run will
        have flattened when the current message is done. */
    ghost predicate Ready(plain: seq<Artifact>)
      reads this`failed, this`reached, this`extra, this`torn, this`sent, sink.sinks
    {
      && Fixed() && Synced() && !failed && reached == 0 && torn == []
      && CarriesPrefix(t, plain, sent)
    }

    /** The counters that grow with every artifact. */
    ghost predicate Tallied()
      reads this`result, this`sent
    {
      result.artifacts == |sent| && result.bytes == TotalSize(sent)
    }

    lemma ReadyForNext(m: Message)
      requires Valid() && !failed
      ensures Ready(Flatten(p, now, emitted + [m])) && Tallied()
      ensures |sent| == |Flatten(p, now, emitted)|
      ensures Flatten(p, now, emitted + [m]) == Flatten(p, now, emitted) + ArtifactsOf(p, m, now)
      ensures result.messages == |emitted| && result.latest == Latest(emitted)
    {
      hide Flatten, Latest, TotalSize, Synced, ArtifactsOf, Transformer.Carries;
      FlattenAppend(p, now, emitted, m);
      assert emitted[..|emitted|] == emitted;
    }

    lemma MessageDone(before: seq<Message>, m: Message)
      requires emitted == before + [m]
      requires Ready(Flatten(p, now, emitted)) && Tallied()
      requires |sent| == |Flatten(p, now, emitted)|
      requires result.messages == |emitted| && result.latest == Latest(emitted)
      ensures Valid()
    {
      hide Flatten, Latest, TotalSize, Synced;
      assert emitted[..|emitted|] == emitted;
    }

    lemma MessageAborted(before: seq<Message>, m: Message)
      requires emitted == before + [m]
      requires Fixed() && Synced() && failed && Tallied()
      requires CarriesPrefix(t, Flatten(p, now, emitted), sent)
      requires |Flatten(p, now, before)| <= |sent| < |Flatten(p, now, emitted)|
      requires result.messages == |before| && result.latest == Latest(before)
      requires reached < |sink.sinks|
      requires reached > 0 ==> t.Carries(Flatten(p, now, emitted)[|sent|], extra)
      requires Tears(t, Flatten(p, now, emitted), sent, torn)
      ensures Valid()
    {
      hide Flatten, Latest, TotalSize, Synced;
      assert emitted[..|before|] == before;
    }

    /** Stage 3 for one artifact: the log of every backend it reached grows by it. */
    method StoreEverywhere(b: Artifact) returns (stored: bool, ghost taken: nat, ghost spoiled: seq<Artifact>)
      requires Fixed() && Synced() && reached == 0 && torn == []
      modifies sink.sinks
      ensures taken <= |sink.sinks| && (stored <==> taken == |sink.sinks|) && Torn(b, spoiled)
      ensures Reliable() ==> stored
      ensures forall i | 0 <= i < taken :: Holds(i, sent + [b], [])
      ensures taken < |sink.sinks| ==> Holds(taken, sent, spoiled)
      ensures forall i | taken < i < |sink.sinks| :: Holds(i, sent, [])
    {
      hide Replay, Stores;
      forall i | 0 <= i < |sink.sinks|
        ensures Replay(baseObjects[i], sent + [b]) == Replay(baseObjects[i], sent)[b.path := b.data]
        ensures Replay(Replay(baseObjects[i], sent + [b]), []) == Replay(baseObjects[i], sent + [b])
        ensures sink.sinks[i].objects == Replay(Replay(baseObjects[i], sent), []) == Replay(baseObjects[i], sent)
        ensures sink.sinks[i].events == baseEvents[i] + Stores(sent)
      {
        ReplayAppend(baseObjects[i], sent, b);
        ReplayNothing(Replay(baseObjects[i], sent + [b]));
        ReplayNothing(Replay(baseObjects[i], sent));
        assert Holds(i, Log(i), TornAt(i));
      }
      StoresAppend(sent, b);
      stored, taken, spoiled := sink.Store(b);
    }

    /** Transform one artifact and store it everywhere, counting it when that works. */
    method EmitArtifact(a: Artifact, ghost plain: seq<Artifact>) returns (ok: bool)
      requires Ready(plain) && Tallied() && |sent| < |plain| && plain[|sent|] == a
      modifies this, sink.sinks
      ensures emitted == old(emitted) && result.messages == old(result.messages) && result.latest == old(result.latest)
      ensures Tallied()
      ensures Reliable() ==> ok
      ensures ok ==> Ready(plain) && |sent| == |old(sent)| + 1
      ensures !ok ==>
                && Fixed() && Synced() && failed
                && sent == old(sent)
                && reached < |sink.sinks|
                && (reached > 0 ==> t.Carries(a, extra))
                && Tears(t, plain, sent, torn)
    {
      hide TotalSize, Transformer.Recover, Holds;
      var nonce: int := *;
      var transformed := t.Transform(nonce, a);
      if transformed.None? {
        failed := true;
        return false;
      }
      var b := transformed.value;
      var stored, taken, spoiled := StoreEverywhere(b);
      if !stored {
        failed, reached, extra, torn := true, taken, b, spoiled;
        return false;
      }
      TotalSizeAppend(sent, b);
      sent := sent + [b];
      result := result.(artifacts := result.artifacts + 1, bytes := result.bytes + |b.data|);
      return true;
    }

    method Emit(m: Message) returns (ok: bool)
      requires Valid() && !failed
      modifies this, sink.sinks
      ensures Valid()
      ensures emitted == old(emitted) + [m]
      ensures ok <==> !failed
      ensures Reliable() ==> ok
    {
      hide Flatten, Latest, TotalSize, Synced, Accounted, ArtifactsOf, Transformer.Carries;
      ghost var before := emitted;
      ghost var plain := Flatten(p, now, before + [m]);
      LatestAppend(before, m);
      ReadyForNext(m);
      var artifacts := Artifacts(p, m, now);
      emitted := emitted + [m];
      var i := 0;
      while i < |artifacts|
        invariant 0 <= i <= |artifacts|
        invariant Ready(plain) && Tallied() && |sent| == |Flatten(p, now, before)| + i
        invariant emitted == before + [m]
        invariant result.messages == |before| && result.latest == Latest(before)
      {
        var stored := EmitArtifact(artifacts[i], plain);
        if !stored {
          MessageAborted(before, m);
          return false;
        }
        i := i + 1;
      }
      result := result.(messages := result.messages + 1);
      if m.date > result.latest {
        result := result.(latest := m.date);
      }
      MessageDone(before, m);
      return true;
    }
  }
}

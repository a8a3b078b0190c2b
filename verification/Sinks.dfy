/** stages/store: the storage backends as the pipeline sees them. A backend is a keyed
    map; its history of calls is kept as a ghost log. */
module Sinks {
  import opened Stages

  type Objects = map<string, Bytes>

  /** A call a backend completed. */
  datatype Event = Stored(artifact: Artifact) | Closed(ok: bool)

  /** A map after a list of writes, in order. */
  function Replay(objects: Objects, log: seq<Artifact>): Objects {
    if log == [] then objects
    else Replay(objects, log[..|log| - 1])[log[|log| - 1].path := log[|log| - 1].data]
  }

  lemma ReplayAppend(objects: Objects, log: seq<Artifact>, a: Artifact)
    ensures Replay(objects, log + [a]) == Replay(objects, log)[a.path := a.data]
  {
    assert (log + [a])[..|log|] == log;
  }

  function Stores(log: seq<Artifact>): seq<Event> {
    seq(|log|, i requires 0 <= i < |log| => Stored(log[i]))
  }

  lemma StoresAppend(log: seq<Artifact>, a: Artifact)
    ensures Stores(log + [a]) == Stores(log) + [Stored(a)]
  {
  }

  lemma ReplayNothing(objects: Objects)
    ensures Replay(objects, []) == objects
  {
  }

  /** What a refused store of `a` leaves behind: nothing, or a torn object under its own
      key. */
  predicate Torn(a: Artifact, torn: seq<Artifact>) {
    torn == [] || (|torn| == 1 && torn[0].path == a.path)
  }

  /** One backend: a local directory or a bucket keyed by artifact path. It may refuse
      any call; a refused store may truncate the object it was writing, but no other. */
  class Sink {
    var objects: Objects
    ghost var events: seq<Event>
    /** Whether the environment is kind to it: a reliable backend refuses nothing. */
    const reliable: bool

    constructor (reliable: bool)
      ensures objects == map[] && events == [] && this.reliable == reliable
    {
      objects, events, this.reliable := map[], [], reliable;
    }

    method Store(a: Artifact) returns (ok: bool, ghost torn: seq<Artifact>)
      modifies this
      ensures Torn(a, torn) && (reliable ==> ok)
      ensures ok ==> objects == old(objects)[a.path := a.data] && events == old(events) + [Stored(a)]
      ensures !ok ==> objects == Replay(old(objects), torn) && events == old(events)
    {
      var fails: bool := *;
      ok, torn := reliable || !fails, [];
      var started: bool, written: Bytes := *, *;
      if ok {
        objects := objects[a.path := a.data];
        events := events + [Stored(a)];
      } else if started {
        torn := [Artifact(a.path, written)];
        objects := objects[a.path := written];
        assert torn[..0] == [];
      }
    }

    method Close() returns (ok: bool)
      modifies this
      ensures objects == old(objects) && events == old(events) + [Closed(ok)] && (reliable ==> ok)
    {
      var fails: bool := *;
      ok := reliable || !fails;
      events := events + [Closed(ok)];
    }
  }

  /** stages/store/multi.go: every artifact goes to every backend, in order. */
  class Multi {
    const sinks: seq<Sink>

    ghost predicate Valid() {
      && sinks != []
      && forall i, j | 0 <= i < j < |sinks| :: sinks[i] != sinks[j]
    }

    /** No backend refuses anything. */
    predicate Reliable() {
      forall i | 0 <= i < |sinks| :: sinks[i].reliable
    }

    constructor (sinks: seq<Sink>)
      ensures this.sinks == sinks
    {
      this.sinks := sinks;
    }

    /** The first refusal stops the fan-out: `reached` backends have the artifact, the
        next one refused it, the others are untouched. */
    method Store(a: Artifact) returns (ok: bool, ghost reached: nat, ghost torn: seq<Artifact>)
      requires Valid()
      modifies sinks
      ensures reached <= |sinks| && (ok <==> reached == |sinks|) && Torn(a, torn)
      ensures forall i | 0 <= i < reached ::
                && sinks[i].objects == old(sinks[i].objects)[a.path := a.data]
                && sinks[i].events == old(sinks[i].events) + [Stored(a)]
      ensures reached < |sinks| ==>
                && !sinks[reached].reliable
                && sinks[reached].objects == Replay(old(sinks[reached].objects), torn)
                && sinks[reached].events == old(sinks[reached].events)
      ensures forall i | reached < i < |sinks| ::
                sinks[i].objects == old(sinks[i].objects) && sinks[i].events == old(sinks[i].events)
    {
      hide Replay;
      var i := 0;
      while i < |sinks|
        invariant 0 <= i <= |sinks|
        invariant forall k | 0 <= k < i ::
                    && sinks[k].objects == old(sinks[k].objects)[a.path := a.data]
                    && sinks[k].events == old(sinks[k].events) + [Stored(a)]
        invariant forall k | i <= k < |sinks| ::
                    sinks[k].objects == old(sinks[k].objects) && sinks[k].events == old(sinks[k].events)
      {
        var stored;
        stored, torn := sinks[i].Store(a);
        if !stored {
          return false, i, torn;
        }
        i := i + 1;
      }
      return true, i, [];
    }

    /** Every backend is closed even after one fails, and the joined error is nil
        exactly when every backend closed cleanly. */
    method Close() returns (ok: bool)
      requires Valid()
      modifies sinks
      ensures forall i | 0 <= i < |sinks| ::
                && sinks[i].objects == old(sinks[i].objects)
                && (sinks[i].events == old(sinks[i].events) + [Closed(true)]
                    || sinks[i].events == old(sinks[i].events) + [Closed(false)])
      ensures ok <==> forall i | 0 <= i < |sinks| :: sinks[i].events == old(sinks[i].events) + [Closed(true)]
      ensures Reliable() ==> ok
    {
      var errs: seq<nat> := [];
      var i := 0;
      while i < |sinks|
        invariant 0 <= i <= |sinks|
        invariant forall k | 0 <= k < i ::
                    && sinks[k].objects == old(sinks[k].objects)
                    && (sinks[k].events == old(sinks[k].events) + [Closed(true)]
                        || sinks[k].events == old(sinks[k].events) + [Closed(false)])
        invariant forall k | i <= k < |sinks| ::
                    sinks[k].objects == old(sinks[k].objects) && sinks[k].events == old(sinks[k].events)
        invariant Reliable() ==> errs == []
        invariant errs == [] <==> forall k | 0 <= k < i :: sinks[k].events == old(sinks[k].events) + [Closed(true)]
      {
        var closed := sinks[i].Close();
        assert sinks[i].events[|old(sinks[i].events)|] == Closed(closed);
        assert (old(sinks[i].events) + [Closed(true)])[|old(sinks[i].events)|] == Closed(true);
        if !closed {
          errs := errs + [i];
        }
        i := i + 1;
      }
      ok := errs == [];
    }
  }

  /** Combining no backends is an error. */
  method NewMulti(sinks: seq<Sink>) returns (r: Option<Multi>)
    ensures r.None? <==> sinks == []
    ensures r.Some? ==> r.value.sinks == sinks
  {
    if |sinks| == 0 {
      return None;
    }
    var m := new Multi(sinks);
    return Some(m);
  }
}

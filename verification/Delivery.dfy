/** When an artifact counts as saved in a keyed backend, and what a run's writes do to
    that. */
module Delivery {
  import opened Stages
  import opened Transform
  import opened Sinks
  import opened Emitters

  /** Fixed over a history: how a message is filed, as a list of artifacts, and the
      transformer, so the key pair. */
  datatype Setup = Setup(files: Message -> seq<Artifact>, t: Transformer) {

    function Key(m: Message, i: nat): string
      requires i < |files(m)|
    {
      files(m)[i].path + t.Suffix()
    }

    /** Artifact `i` of the message is there under its key and opens to the original
        data. */
    ghost predicate Held(m: Message, i: nat, objects: Objects)
      requires i < |files(m)|
    {
      Key(m, i) in objects && t.Recover(objects[Key(m, i)]) == Some(files(m)[i].data)
    }

    /** No other message of the mail uses the key of artifact `i`, and no artifact of the
        message itself uses it for other data. */
    ghost predicate Owned(mail: set<Message>, m: Message, i: nat)
      requires i < |files(m)|
    {
      forall m', i' | m' in mail && 0 <= i' < |files(m')| && Key(m', i') == Key(m, i) ::
        m' == m && files(m')[i'].data == files(m)[i].data
    }

    /** The artifacts of a list of messages, in order. */
    function Flattened(msgs: seq<Message>): seq<Artifact> {
      if msgs == [] then [] else Flattened(msgs[..|msgs| - 1]) + files(msgs[|msgs| - 1])
    }

    /** `log` holds the transformed artifacts of a prefix of the flattened messages. */
    ghost predicate Writes(msgs: seq<Message>, log: seq<Artifact>) {
      CarriesPrefix(t, Flattened(msgs), log)
    }

    ghost predicate WritesAll(msgs: seq<Message>, log: seq<Artifact>) {
      Writes(msgs, log) && |log| == |Flattened(msgs)|
    }

    /** After `log`, at most the object of the artifact that came next was torn. */
    ghost predicate Tears(msgs: seq<Message>, log: seq<Artifact>, torn: seq<Artifact>) {
      Emitters.Tears(t, Flattened(msgs), log, torn)
    }
  }

  // ----- the last write to a key wins -----

  /** `k` is the last write to the key. */
  predicate LastWrite(log: seq<Artifact>, key: string, k: nat) {
    && k < |log| && log[k].path == key
    && forall l | k < l < |log| :: log[l].path != key
  }

  lemma {:induction false} ReplayLast(objects: Objects, log: seq<Artifact>, key: string, j: nat) returns (k: nat)
    requires j < |log| && log[j].path == key
    ensures LastWrite(log, key, k)
    ensures key in Replay(objects, log) && Replay(objects, log)[key] == log[k].data
    decreases |log|
  {
    var last := |log| - 1;
    if log[last].path == key {
      k := last;
    } else {
      assert log[..last][j].path == key;
      k := ReplayLast(objects, log[..last], key, j);
      assert log[..last][k] == log[k];
      forall l | k < l < |log| ensures log[l].path != key {
        assert l < last ==> log[..last][l] == log[l];
      }
    }
  }

  lemma {:induction false} ReplayElsewhere(objects: Objects, log: seq<Artifact>, key: string)
    requires forall k | 0 <= k < |log| :: log[k].path != key
    ensures key in Replay(objects, log) <==> key in objects
    ensures key in objects ==> Replay(objects, log)[key] == objects[key]
    decreases |log|
  {
    if log != [] {
      ReplayElsewhere(objects, log[..|log| - 1], key);
    }
  }

  /** Where an artifact of the list comes from; those of one message stand together. */
  lemma {:induction false} FlattenedFrom(c: Setup, msgs: seq<Message>, k: nat) returns (m: Message, i: nat)
    requires k < |c.Flattened(msgs)|
    ensures m in msgs && i < |c.files(m)| && c.Flattened(msgs)[k] == c.files(m)[i]
    ensures i <= k && k - i + |c.files(m)| <= |c.Flattened(msgs)|
    ensures c.Flattened(msgs)[k - i..k - i + |c.files(m)|] == c.files(m)
    decreases |msgs|
  {
    var front := msgs[..|msgs| - 1];
    var n := |c.Flattened(front)|;
    if k < n {
      m, i := FlattenedFrom(c, front, k);
    } else {
      m, i := msgs[|msgs| - 1], k - n;
      assert c.Flattened(msgs)[n..] == c.files(m);
    }
  }

  lemma {:induction false} FlattenedTo(c: Setup, msgs: seq<Message>, m: Message, i: nat) returns (k: nat)
    requires m in msgs && i < |c.files(m)|
    ensures k < |c.Flattened(msgs)| && c.Flattened(msgs)[k] == c.files(m)[i]
    decreases |msgs|
  {
    var front := msgs[..|msgs| - 1];
    if msgs[|msgs| - 1] == m {
      k := |c.Flattened(front)| + i;
    } else {
      k := FlattenedTo(c, front, m, i);
    }
  }

  /** A write to the key of an owned artifact is a write of its data. */
  lemma WriteIsOwn(c: Setup, mail: set<Message>, msgs: seq<Message>, log: seq<Artifact>, m: Message, i: nat, k: nat)
    requires i < |c.files(m)| && c.Owned(mail, m, i) && c.Writes(msgs, log)
    requires forall x | x in msgs :: x in mail
    requires k < |log| && log[k].path == c.Key(m, i)
    ensures m in msgs && c.t.Recover(log[k].data) == Some(c.files(m)[i].data)
  {
    hide Setup.Flattened, Transformer.Recover;
    var m', i' := FlattenedFrom(c, msgs, k);
    assert c.t.Carries(c.Flattened(msgs)[k], log[k]);
    assert c.Key(m', i') == log[k].path;
  }

  /** A torn object belongs to a message the run was given. */
  lemma TornIsElsewhere(
    c: Setup, mail: set<Message>, msgs: seq<Message>, log: seq<Artifact>, torn: seq<Artifact>, m: Message, i: nat)
    requires i < |c.files(m)| && c.Owned(mail, m, i) && c.Tears(msgs, log, torn) && m !in msgs
    requires forall x | x in msgs :: x in mail
    ensures forall k | 0 <= k < |torn| :: torn[k].path != c.Key(m, i)
  {
    hide Setup.Flattened, Transformer.Recover;
    if torn != [] {
      var m', i' := FlattenedFrom(c, msgs, |log|);
      assert c.Key(m', i') == torn[0].path;
    }
  }

  /** What was saved stays saved, whatever part of a run's writes is made. */
  lemma SavedStaysSaved(
    c: Setup, mail: set<Message>, msgs: seq<Message>, log: seq<Artifact>, m: Message, i: nat, objects: Objects)
    requires i < |c.files(m)| && c.Owned(mail, m, i) && c.Writes(msgs, log)
    requires forall x | x in msgs :: x in mail
    requires c.Held(m, i, objects)
    ensures c.Held(m, i, Replay(objects, log))
  {
    hide Replay, Setup.Key, Setup.Writes, Setup.Owned, Transformer.Recover;
    var key := c.Key(m, i);
    if exists k :: 0 <= k < |log| && log[k].path == key {
      var j :| 0 <= j < |log| && log[j].path == key;
      var k := ReplayLast(objects, log, key, j);
      WriteIsOwn(c, mail, msgs, log, m, i, k);
    } else {
      ReplayElsewhere(objects, log, key);
    }
  }

  /** After a completed run an artifact of its messages is saved exactly when the last
      artifact handed over under the same key has the same data. */
  lemma LastOfAKeyStays(
    c: Setup, msgs: seq<Message>, log: seq<Artifact>, m: Message, i: nat, objects: Objects) returns (k: nat)
    requires c.WritesAll(msgs, log) && m in msgs && i < |c.files(m)|
    ensures LastWrite(log, c.Key(m, i), k) && k < |c.Flattened(msgs)|
    ensures c.Held(m, i, Replay(objects, log)) <==> c.Flattened(msgs)[k].data == c.files(m)[i].data
  {
    hide Replay, Setup.Flattened, Transformer.Recover, LastWrite;
    var j := FlattenedTo(c, msgs, m, i);
    assert c.t.Carries(c.Flattened(msgs)[j], log[j]);
    k := ReplayLast(objects, log, c.Key(m, i), j);
    assert k < |log| by {
      assert LastWrite(log, c.Key(m, i), k);
    }
    assert c.t.Carries(c.Flattened(msgs)[k], log[k]);
  }

  /** So a completed run saves every artifact that owns its key. */
  lemma CompleteRunSaves(
    c: Setup, mail: set<Message>, msgs: seq<Message>, log: seq<Artifact>, m: Message, i: nat, objects: Objects)
    requires i < |c.files(m)| && c.Owned(mail, m, i) && c.WritesAll(msgs, log) && m in msgs
    requires forall x | x in msgs :: x in mail
    ensures c.Held(m, i, Replay(objects, log))
  {
    hide Replay, Setup.Flattened, Transformer.Recover;
    var k := LastOfAKeyStays(c, msgs, log, m, i, objects);
    var m', i' := FlattenedFrom(c, msgs, k);
    assert c.t.Carries(c.Flattened(msgs)[k], log[k]);
    assert c.Key(m', i') == c.Key(m, i);
  }

  /** A run, torn objects included, leaves alone what belongs to a message it was not
      given. */
  lemma OthersUntouched(
    c: Setup, mail: set<Message>, msgs: seq<Message>, log: seq<Artifact>, torn: seq<Artifact>, m: Message, i: nat,
    objects: Objects)
    requires i < |c.files(m)| && c.Owned(mail, m, i) && c.Writes(msgs, log) && c.Tears(msgs, log, torn) && m !in msgs
    requires forall x | x in msgs :: x in mail
    ensures c.Held(m, i, Replay(Replay(objects, log), torn)) <==> c.Held(m, i, objects)
  {
    hide Replay, Setup.Key, Setup.Writes, Setup.Tears, Setup.Owned, Transformer.Recover;
    forall k | 0 <= k < |log| ensures log[k].path != c.Key(m, i) {
      if log[k].path == c.Key(m, i) {
        WriteIsOwn(c, mail, msgs, log, m, i, k);
      }
    }
    ReplayElsewhere(objects, log, c.Key(m, i));
    TornIsElsewhere(c, mail, msgs, log, torn, m, i);
    ReplayElsewhere(Replay(objects, log), torn, c.Key(m, i));
  }

  // ----- rewriting -----

  ghost predicate KeysWithin(a: seq<Artifact>, b: seq<Artifact>) {
    forall k | 0 <= k < |a| :: exists l :: 0 <= l < |b| && b[l].path == a[k].path
  }

  lemma {:induction false} ReplayDeterminedAt(objects: Objects, objects': Objects, log: seq<Artifact>, key: string)
    requires exists k :: 0 <= k < |log| && log[k].path == key
    ensures key in Replay(objects, log) && key in Replay(objects', log)
    ensures Replay(objects, log)[key] == Replay(objects', log)[key]
    decreases |log|
  {
    if log[|log| - 1].path != key {
      var k :| 0 <= k < |log| && log[k].path == key;
      assert log[..|log| - 1][k].path == key;
      ReplayDeterminedAt(objects, objects', log[..|log| - 1], key);
    }
  }

  /** Writes that are all repeated later leave no trace. */
  lemma RewritingForgets(objects: Objects, a: seq<Artifact>, b: seq<Artifact>)
    requires KeysWithin(a, b)
    ensures Replay(Replay(objects, a), b) == Replay(objects, b)
  {
    hide Replay;
    var one, two := Replay(objects, b), Replay(Replay(objects, a), b);
    forall key ensures (key in one <==> key in two) && (key in one ==> one[key] == two[key]) {
      if exists l :: 0 <= l < |b| && b[l].path == key {
        ReplayDeterminedAt(objects, Replay(objects, a), b, key);
      } else {
        assert forall k | 0 <= k < |a| :: a[k].path != key;
        ReplayElsewhere(objects, b, key);
        ReplayElsewhere(Replay(objects, a), b, key);
        ReplayElsewhere(objects, a, key);
      }
    }
  }

  lemma KeyRepeated(c: Setup, msgs: seq<Message>, all: seq<Message>, full: seq<Artifact>, k: nat) returns (l: nat)
    requires c.WritesAll(all, full) && k < |c.Flattened(msgs)|
    requires forall m | m in msgs :: m in all
    ensures l < |full| && full[l].path == c.Flattened(msgs)[k].path + c.t.Suffix()
  {
    hide Setup.Flattened, Transformer.Recover;
    var m, i := FlattenedFrom(c, msgs, k);
    l := FlattenedTo(c, all, m, i);
    assert c.t.Carries(c.Flattened(all)[l], full[l]);
  }

  /** Fewer messages, or fewer of their writes, stay within the keys of a complete run,
      and so does what was torn. */
  lemma PartialKeysWithin(
    c: Setup, msgs: seq<Message>, log: seq<Artifact>, torn: seq<Artifact>, all: seq<Message>, full: seq<Artifact>)
    requires c.Writes(msgs, log) && c.Tears(msgs, log, torn) && c.WritesAll(all, full)
    requires forall m | m in msgs :: m in all
    ensures KeysWithin(log, full) && KeysWithin(torn, full)
  {
    hide Setup.Flattened, Transformer.Recover;
    forall k | 0 <= k < |log| ensures exists l :: 0 <= l < |full| && full[l].path == log[k].path {
      assert c.t.Carries(c.Flattened(msgs)[k], log[k]);
      var l := KeyRepeated(c, msgs, all, full, k);
    }
    forall k | 0 <= k < |torn| ensures exists l :: 0 <= l < |full| && full[l].path == torn[k].path {
      var l := KeyRepeated(c, msgs, all, full, |log|);
    }
    assert forall k | 0 <= k < |log| :: exists l :: 0 <= l < |full| && full[l].path == log[k].path;
    assert forall k | 0 <= k < |torn| :: exists l :: 0 <= l < |full| && full[l].path == torn[k].path;
  }
}

/** The documented naming scheme as the way messages are filed. */
module Filing {
  import opened Stages
  import opened Transform
  import opened Sinks
  import opened Delivery
  import opened History
  import Paths

  /** How dated messages are filed. */
  function Filed(p: Platform): Message -> seq<Artifact> {
    m => ArtifactsOf(p, m, ZERO)
  }

  function SetupOf(p: Platform, t: Transformer): Setup { Setup(Filed(p), t) }

  /** No other message of the mail has the sanitised mailbox and the UID of `m`. */
  ghost predicate Alone(mail: set<Message>, m: Message) {
    forall m' | m' in mail && m'.uid == m.uid && Paths.SafePathOf(m'.mailbox) == Paths.SafePathOf(m.mailbox) :: m' == m
  }

  /** Artifact `i` is the source of the message, or every attachment stored under its
      name has its data. */
  predicate NameIsItsOwn(m: Message, i: nat)
    requires i <= |m.attachments|
  {
    i > 0 ==>
      forall j | 0 <= j < |m.attachments| && AttachmentName(m, j) == AttachmentName(m, i - 1) ::
        m.attachments[j].data == m.attachments[i - 1].data
  }

  lemma SameSuffix(a: string, b: string, x: string)
    requires a + x == b + x
    ensures a == b
  {
    assert a == (a + x)[..|a + x| - |x|] && b == (b + x)[..|b + x| - |x|];
  }

  /** Inside a message keys are shared as attachment names are. */
  lemma KeysOfOneMessage(p: Platform, t: Transformer, m: Message, i: nat, j: nat)
    requires p.Valid() && i <= |m.attachments| && j <= |m.attachments|
    ensures SetupOf(p, t).Key(m, i) == SetupOf(p, t).Key(m, j) <==>
            i == j || (i > 0 && j > 0 && AttachmentName(m, i - 1) == AttachmentName(m, j - 1))
  {
    hide ArtifactsOf, AttachmentName;
    if i < j {
      SameNameSamePath(p, m, ZERO, i, j);
    } else if j < i {
      SameNameSamePath(p, m, ZERO, j, i);
    }
    var files := ArtifactsOf(p, m, ZERO);
    if SetupOf(p, t).Key(m, i) == SetupOf(p, t).Key(m, j) {
      SameSuffix(files[i].path, files[j].path, t.Suffix());
    }
  }

  lemma KeysOfOthers(p: Platform, t: Transformer, mail: set<Message>, m: Message, i: nat, m': Message, i': nat)
    requires p.Valid() && Alone(mail, m) && i <= |m.attachments|
    requires m' in mail && i' <= |m'.attachments| && m' != m
    ensures SetupOf(p, t).Key(m', i') != SetupOf(p, t).Key(m, i)
  {
    hide ArtifactsOf, Paths.SafePathOf;
    MessagesNeverShareAPath(p, m, ZERO, i, t.Suffix(), m', ZERO, i', t.Suffix());
  }

  /** For a message told apart by mailbox and UID, the source always owns its key, and an
      attachment does exactly when its stored name stands for one content. */
  lemma OwnedIffNameIsItsOwn(p: Platform, t: Transformer, mail: set<Message>, m: Message, i: nat)
    requires p.Valid() && m in mail && Alone(mail, m) && i <= |m.attachments|
    ensures SetupOf(p, t).Owned(mail, m, i) <==> NameIsItsOwn(m, i)
  {
    hide ArtifactsOf, Alone, AttachmentName, Setup.Key;
    var c := SetupOf(p, t);
    ArtifactData(p, m);
    if NameIsItsOwn(m, i) {
      forall m', i' | m' in mail && 0 <= i' < |c.files(m')| && c.Key(m', i') == c.Key(m, i)
        ensures m' == m && c.files(m')[i'].data == c.files(m)[i].data
      {
        if m' != m {
          KeysOfOthers(p, t, mail, m, i, m', i');
        }
        KeysOfOneMessage(p, t, m, i, i');
      }
    } else {
      var j :| 0 <= j < |m.attachments| && AttachmentName(m, j) == AttachmentName(m, i - 1) &&
               m.attachments[j].data != m.attachments[i - 1].data;
      KeysOfOneMessage(p, t, m, i, j + 1);
      assert c.Key(m, j + 1) == c.Key(m, i) && c.files(m)[j + 1].data != c.files(m)[i].data;
    }
  }

  lemma ArtifactData(p: Platform, m: Message)
    ensures |ArtifactsOf(p, m, ZERO)| == |m.attachments| + 1
    ensures forall i | 0 <= i < |m.attachments| :: ArtifactsOf(p, m, ZERO)[i + 1].data == m.attachments[i].data
  {
    hide BasePath;
  }

  /** No loss in terms of names. For a message told apart by mailbox and UID from all mail
      that was ever there, whatever else is delivered or removed and however other messages
      look: its source, and each attachment whose stored name stands for one content, is in
      every backend under the documented path and opens to the original bytes, at every
      moment at which the watermark has reached the message, and after every success. */
  lemma BackupsHoldEverything(
    p: Platform, t: Transformer, ws: seq<World>, acts: seq<Action>, n: nat, ever: set<Message>,
    m: Message, s: nat, i: nat)
    requires p.Valid() && IsHistory(SetupOf(p, t), ws, acts) && n < |ws| && ws[0].mark.None?
    requires forall k | 0 <= k < n :: ws[k].mail <= ever && Fair(ws[k], acts[k], m)
    requires m in ever && Alone(ever, m) && i <= |m.attachments| && NameIsItsOwn(m, i)
    requires m in ws[n].mail && (Behind(m, ws[n]) || (n > 0 && acts[n - 1].Succeed?)) && s < |ws[n].stores|
    ensures SetupOf(p, t).Held(m, i, ws[n].stores[s])
  {
    hide Step, Fair, Behind, Transformer.Recover, ArtifactsOf, Alone, NameIsItsOwn, Setup.Owned;
    OwnedIffNameIsItsOwn(p, t, ever, m, i);
    NothingIsEverLost(SetupOf(p, t), ws, acts, n, ever, m, i);
    assert SavedEverywhere(SetupOf(p, t), m, i, ws[n]);
  }

  /** And it stays there for good, also after the server has lost the message. */
  lemma BackupsOutliveTheServer(
    p: Platform, t: Transformer, ws: seq<World>, acts: seq<Action>, k: nat, n: nat, ever: set<Message>, m: Message,
    s: nat, i: nat)
    requires p.Valid() && IsHistory(SetupOf(p, t), ws, acts) && k <= n < |ws| && ws[0].mark.None?
    requires forall j | 0 <= j < n :: ws[j].mail <= ever && Fair(ws[j], acts[j], m)
    requires forall j | k <= j < n :: acts[j] != Deliver(m)
    requires m in ever && Alone(ever, m) && i <= |m.attachments| && NameIsItsOwn(m, i)
    requires m in ws[k].mail && Behind(m, ws[k]) && s < |ws[n].stores|
    ensures SetupOf(p, t).Held(m, i, ws[n].stores[s])
  {
    hide Step, Fair, Behind, Transformer.Recover, ArtifactsOf, Alone, NameIsItsOwn, Setup.Owned;
    OwnedIffNameIsItsOwn(p, t, ever, m, i);
    NothingIsEverLost(SetupOf(p, t), ws, acts, k, ever, m, i);
    SavedForGood(SetupOf(p, t), ws, acts, k, n, ever, m, i);
    assert SavedEverywhere(SetupOf(p, t), m, i, ws[n]);
  }

  /** The last attachment stored under the name of attachment `i`. */
  predicate LastOfItsName(m: Message, i: nat, j: nat) {
    && i <= j < |m.attachments| && AttachmentName(m, j) == AttachmentName(m, i)
    && forall k | j < k < |m.attachments| :: AttachmentName(m, k) != AttachmentName(m, i)
  }

  /** What becomes of the others: a completed run leaves an attachment of its messages in
      the backend exactly when the last attachment stored under its name has the same
      content. */
  lemma LastOfANameStays(
    p: Platform, t: Transformer, mail: set<Message>, msgs: seq<Message>, log: seq<Artifact>, m: Message, i: nat,
    j: nat, objects: Objects)
    requires p.Valid() && SetupOf(p, t).WritesAll(msgs, log) && Alone(mail, m)
    requires m in msgs && forall x | x in msgs :: x in mail
    requires LastOfItsName(m, i, j)
    ensures SetupOf(p, t).Held(m, i + 1, Replay(objects, log)) <==> m.attachments[j].data == m.attachments[i].data
  {
    hide ArtifactsOf, Alone, AttachmentName, Replay, Setup.Flattened, Setup.Held, Transformer.Recover;
    var c := SetupOf(p, t);
    ArtifactData(p, m);
    var k := LastOfAKeyStays(c, msgs, log, m, i + 1, objects);
    var m', i' := FlattenedFrom(c, msgs, k);
    assert c.t.Carries(c.Flattened(msgs)[k], log[k]);
    assert c.Key(m', i') == c.Key(m, i + 1);
    if m' != m {
      KeysOfOthers(p, t, mail, m, i + 1, m', i');
    }
    KeysOfOneMessage(p, t, m, i + 1, i');
    KeysOfOneMessage(p, t, m, i + 1, j + 1);
    var l := k - i' + j + 1;
    assert c.Flattened(msgs)[l] == c.Flattened(msgs)[k - i'..k - i' + |c.files(m)|][j + 1] == c.files(m)[j + 1];
    assert c.t.Carries(c.Flattened(msgs)[l], log[l]);
    assert log[l].path == c.Key(m, i + 1);
  }
}

/** stages/fetch/attachments.go: breaking attachments out of a message. A parsed
    message is a tree of entities whose reading may fail at any point. */
module Mime {
  import opened Runes
  import opened Stages
  import Paths

  /** What the headers of one part say: its disposition and filename parameter (None
      when that header does not parse), its media type and name parameter (likewise). */
  datatype Header = Header(disposition: Option<(string, string)>, contentType: Option<(string, string)>)

  /** Whether the part reader of a multipart ends in EOF or in an error. */
  datatype Ending = EndOfFile | Broken

  datatype Entity =
    | Multipart(parts: seq<Entity>, ending: Ending)
    | Part(header: Header, body: Option<Bytes>)

  /** message.Read: an error without an entity, or an entity. */
  datatype Parsed = Unreadable | Readable(entity: Entity)

  const MAX_ATTACHMENT_DEPTH := 16

  const ATTACHMENT := "attachment"

  /** The filename of an attachment part, None for body text. */
  function AttachmentFilename(u: Tables, h: Header): Option<string> {
    if h.disposition.None? then None
    else
      var (disposition, filename) := h.disposition.value;
      var name := if filename == "" && h.contentType.Some? then h.contentType.value.1 else filename;
      if u.ToLower(disposition) != ATTACHMENT && name == "" then None
      else Some(Paths.SafeFilenameOf(name))
  }

  function ContentType(h: Header): string {
    if h.contentType.Some? then h.contentType.value.0 else ""
  }

  /** What one leaf contributes: nothing for body text and for content that does not
      decode. */
  function LeafAttachments(u: Tables, h: Header, body: Option<Bytes>): seq<Attachment> {
    var name := AttachmentFilename(u, h);
    if name.None? || body.None? then [] else [Attachment(name.value, ContentType(h), body.value)]
  }

  /** The name a part carries: the disposition's filename, else the media type's name. */
  function GivenName(h: Header): string {
    if h.disposition.Some? && h.disposition.value.1 != "" then h.disposition.value.1
    else if h.contentType.Some? then h.contentType.value.1
    else ""
  }

  /** A leaf is an attachment when its disposition parses, says so or comes with a name of
      either kind, and its content decodes. */
  predicate IsAttachment(u: Tables, h: Header, body: Option<Bytes>) {
    && body.Some? && h.disposition.Some?
    && (u.ToLower(h.disposition.value.0) == "attachment" || GivenName(h) != "")
  }

  /** What an attachment leaf becomes: its own bytes under the safe form of its name. */
  predicate Represents(h: Header, body: Option<Bytes>, a: Attachment) {
    && body == Some(a.data)
    && a.filename == Paths.SafeFilenameOf(GivenName(h))
    && (h.contentType.Some? ==> a.contentType == h.contentType.value.0)
    && (h.contentType.None? ==> a.contentType == "")
  }

  /** A leaf contributes one attachment when it is one, and nothing otherwise. */
  lemma LeafContributes(u: Tables, h: Header, body: Option<Bytes>)
    ensures var out := LeafAttachments(u, h, body);
            if IsAttachment(u, h, body) then |out| == 1 && Represents(h, body, out[0]) else out == []
  {
    hide Paths.SafeFilenameOf;
  }

  // ----- the reference: depth and errors put aside -----

  /** Every decodable attachment, in the order the parts appear. */
  function AllAttachments(u: Tables, e: Entity): seq<Attachment> {
    match e
    case Part(h, body) => LeafAttachments(u, h, body)
    case Multipart(parts, _) => PartsAttachments(u, parts)
  }

  function PartsAttachments(u: Tables, parts: seq<Entity>): seq<Attachment> {
    if parts == [] then [] else AllAttachments(u, parts[0]) + PartsAttachments(u, parts[1..])
  }

  /** The leaves of a message, in the order they appear. */
  function Leaves(e: Entity): (leaves: seq<Entity>)
    ensures forall l | l in leaves :: l.Part?
  {
    match e
    case Part(_, _) => [e]
    case Multipart(parts, _) => PartsLeaves(parts)
  }

  function PartsLeaves(parts: seq<Entity>): (leaves: seq<Entity>)
    ensures forall l | l in leaves :: l.Part?
  {
    if parts == [] then [] else Leaves(parts[0]) + PartsLeaves(parts[1..])
  }

  /** How many of the first `n` leaves are attachments. */
  function Before(u: Tables, leaves: seq<Entity>, n: nat): nat
    requires n <= |leaves|
  {
    if n == 0 then 0
    else
      var l := leaves[n - 1];
      Before(u, leaves, n - 1) + (if l.Part? && IsAttachment(u, l.header, l.body) then 1 else 0)
  }

  /** The attachments are the attachment leaves, each with its own bytes, in order. */
  ghost predicate Lists(u: Tables, leaves: seq<Entity>, out: seq<Attachment>) {
    && |out| == Before(u, leaves, |leaves|)
    && (forall n | 0 <= n < |leaves| && leaves[n].Part? && IsAttachment(u, leaves[n].header, leaves[n].body) ::
          Before(u, leaves, n) < |out| && Represents(leaves[n].header, leaves[n].body, out[Before(u, leaves, n)]))
  }

  lemma {:induction false} BeforeConcat(u: Tables, a: seq<Entity>, b: seq<Entity>, n: nat)
    requires n <= |b|
    ensures Before(u, a + b, |a| + n) == Before(u, a, |a|) + Before(u, b, n)
  {
    hide IsAttachment;
    if n == 0 {
      BeforePrefix(u, a, b, |a|);
    } else {
      BeforeConcat(u, a, b, n - 1);
    }
  }

  lemma {:induction false} BeforePrefix(u: Tables, a: seq<Entity>, b: seq<Entity>, n: nat)
    requires n <= |a|
    ensures Before(u, a + b, n) == Before(u, a, n)
  {
    hide IsAttachment;
    if n > 0 {
      BeforePrefix(u, a, b, n - 1);
    }
  }

  lemma ListsConcat(u: Tables, a: seq<Entity>, x: seq<Attachment>, b: seq<Entity>, y: seq<Attachment>)
    requires Lists(u, a, x) && Lists(u, b, y)
    ensures Lists(u, a + b, x + y)
  {
    hide IsAttachment, Represents, Before;
    BeforeConcat(u, a, b, |b|);
    var all, out := a + b, x + y;
    forall n | 0 <= n < |all| && all[n].Part? && IsAttachment(u, all[n].header, all[n].body)
      ensures Before(u, all, n) < |out| && Represents(all[n].header, all[n].body, out[Before(u, all, n)])
    {
      if n < |a| {
        BeforePrefix(u, a, b, n);
        assert all[n] == a[n];
      } else {
        BeforeConcat(u, a, b, n - |a|);
        assert all[n] == b[n - |a|];
      }
    }
  }

  lemma {:induction false} AttachmentsAreLeaves(u: Tables, e: Entity)
    ensures Lists(u, Leaves(e), AllAttachments(u, e))
  {
    hide LeafAttachments, IsAttachment, Represents;
    match e
    case Part(h, body) =>
      LeafContributes(u, h, body);
      assert Before(u, [e], 0) == 0;
    case Multipart(parts, _) =>
      PartsAreLeaves(u, parts);
  }

  lemma {:induction false} PartsAreLeaves(u: Tables, parts: seq<Entity>)
    ensures Lists(u, PartsLeaves(parts), PartsAttachments(u, parts))
  {
    hide Lists;
    if parts == [] {
      NothingListed(u);
    } else {
      AttachmentsAreLeaves(u, parts[0]);
      PartsAreLeaves(u, parts[1..]);
      ListsConcat(u, Leaves(parts[0]), AllAttachments(u, parts[0]),
                  PartsLeaves(parts[1..]), PartsAttachments(u, parts[1..]));
    }
  }

  lemma NothingListed(u: Tables)
    ensures Lists(u, [], [])
  {
  }

  /** Every node sits at most `room` levels down and every part reader reaches EOF. */
  predicate Walkable(e: Entity, room: int) {
    room >= 0 && (e.Multipart? ==> e.ending == EndOfFile && PartsWalkable(e.parts, room - 1))
  }

  predicate PartsWalkable(parts: seq<Entity>, room: int) {
    parts == [] || (Walkable(parts[0], room) && PartsWalkable(parts[1..], room))
  }

  // ----- the walk -----

  /** What the walk has collected when it returns, with `room` levels left. */
  function Collected(u: Tables, e: Entity, room: int): seq<Attachment> {
    if room < 0 then []
    else match e
      case Part(h, body) => LeafAttachments(u, h, body)
      case Multipart(parts, _) => PartsCollected(u, parts, room - 1)
  }

  function PartsCollected(u: Tables, parts: seq<Entity>, room: int): seq<Attachment> {
    if parts == [] then []
    else Collected(u, parts[0], room) + (if Walkable(parts[0], room) then PartsCollected(u, parts[1..], room) else [])
  }

  class Collector {
    var out: seq<Attachment>

    constructor ()
      ensures out == []
    {
      out := [];
    }
  }

  method WalkParts(u: Tables, e: Entity, depth: nat, c: Collector) returns (ok: bool)
    modifies c
    ensures ok <==> Walkable(e, MAX_ATTACHMENT_DEPTH - depth)
    ensures c.out == old(c.out) + Collected(u, e, MAX_ATTACHMENT_DEPTH - depth)
    decreases e
  {
    hide AttachmentFilename, ContentType;
    if depth > MAX_ATTACHMENT_DEPTH {
      return false;
    }
    ghost var room := MAX_ATTACHMENT_DEPTH - depth - 1;
    match e
    case Multipart(parts, ending) =>
      var i := 0;
      ghost var start := c.out;
      while true
        invariant 0 <= i <= |parts|
        invariant c.out + PartsCollected(u, parts[i..], room) == start + PartsCollected(u, parts, room)
        invariant PartsWalkable(parts, room) <==> PartsWalkable(parts[i..], room)
        decreases |parts| - i
      {
        if i == |parts| {
          assert parts[i..] == [];
          return ending == EndOfFile;
        }
        assert parts[i..][0] == parts[i] && parts[i..][1..] == parts[i + 1..];
        var walked := WalkParts(u, parts[i], depth + 1, c);
        if !walked {
          return false;
        }
        i := i + 1;
      }
    case Part(header, body) =>
      var name := AttachmentFilename(u, header);
      if name.None? {
        return true;
      }
      if body.None? {
        return true;
      }
      c.out := c.out + [Attachment(name.value, ContentType(header), body.value)];
      return true;
  }

  /** The walk keeps a prefix of all the attachments, in part order, and all of them
      when it does not fail. */
  lemma {:induction false} CollectedIsPrefix(u: Tables, e: Entity, room: int)
    ensures Collected(u, e, room) <= AllAttachments(u, e)
    ensures Walkable(e, room) ==> Collected(u, e, room) == AllAttachments(u, e)
  {
    if room >= 0 && e.Multipart? {
      PartsCollectedIsPrefix(u, e.parts, room - 1);
    }
  }

  lemma {:induction false} PartsCollectedIsPrefix(u: Tables, parts: seq<Entity>, room: int)
    ensures PartsCollected(u, parts, room) <= PartsAttachments(u, parts)
    ensures PartsWalkable(parts, room) ==> PartsCollected(u, parts, room) == PartsAttachments(u, parts)
  {
    if parts != [] {
      CollectedIsPrefix(u, parts[0], room);
      PartsCollectedIsPrefix(u, parts[1..], room);
    }
  }

  /** What the fetcher keeps of a raw message, whether or not the walk failed. */
  function Extracted(u: Tables, raw: Parsed): seq<Attachment> {
    if raw.Unreadable? then [] else Collected(u, raw.entity, MAX_ATTACHMENT_DEPTH)
  }

  method ExtractAttachments(u: Tables, raw: Parsed) returns (out: seq<Attachment>, ok: bool)
    ensures out == Extracted(u, raw)
    ensures ok <==> raw.Readable? && Height(raw.entity) <= 16 && ReadsThrough(raw.entity)
    ensures ok ==> Lists(u, Leaves(raw.entity), out)
    ensures raw.Readable? ==> out <= AllAttachments(u, raw.entity)
  {
    if raw.Unreadable? {
      return [], false;
    }
    WalkableIffShallowAndReadable(raw.entity, MAX_ATTACHMENT_DEPTH);
    AttachmentsAreLeaves(u, raw.entity);
    var c := new Collector();
    ok := WalkParts(u, raw.entity, 0, c);
    CollectedIsPrefix(u, raw.entity, MAX_ATTACHMENT_DEPTH);
    return c.out, ok;
  }

  /** Every extracted attachment has a safe name and is one of the message's, in order. */
  lemma ExtractedIsSafe(u: Tables, raw: Parsed)
    ensures forall i | 0 <= i < |Extracted(u, raw)| :: Paths.IsSafeName(Extracted(u, raw)[i].filename)
    ensures raw.Readable? ==> Extracted(u, raw) <= AllAttachments(u, raw.entity)
  {
    hide Paths.IsSafeName;
    if raw.Readable? {
      CollectedIsPrefix(u, raw.entity, MAX_ATTACHMENT_DEPTH);
      AttachmentsAreSafe(u, raw.entity);
    }
  }

  lemma {:induction false} AttachmentsAreSafe(u: Tables, e: Entity)
    ensures forall i | 0 <= i < |AllAttachments(u, e)| :: Paths.IsSafeName(AllAttachments(u, e)[i].filename)
  {
    hide Paths.SafeFilenameOf, Paths.IsSafeName;
    match e
    case Part(h, body) =>
      if h.disposition.Some? {
        var (disposition, filename) := h.disposition.value;
        Paths.SafeFilenameIsSafe(if filename == "" && h.contentType.Some? then h.contentType.value.1 else filename);
      }
    case Multipart(parts, _) =>
      PartsAreSafe(u, parts);
  }

  lemma {:induction false} PartsAreSafe(u: Tables, parts: seq<Entity>)
    ensures forall i | 0 <= i < |PartsAttachments(u, parts)| :: Paths.IsSafeName(PartsAttachments(u, parts)[i].filename)
  {
    hide Paths.SafeFilenameOf, Paths.IsSafeName;
    if parts != [] {
      AttachmentsAreSafe(u, parts[0]);
      PartsAreSafe(u, parts[1..]);
    }
  }

  // ----- the depth bound, against an independent measure -----

  /** Levels below the root: 0 for a leaf. */
  function Height(e: Entity): nat {
    if e.Part? then 0 else PartsHeight(e.parts)
  }

  function PartsHeight(parts: seq<Entity>): nat {
    if parts == [] then 0
    else
      var h, t := 1 + Height(parts[0]), PartsHeight(parts[1..]);
      if h > t then h else t
  }

  predicate ReadsThrough(e: Entity) {
    e.Multipart? ==> e.ending == EndOfFile && PartsReadThrough(e.parts)
  }

  predicate PartsReadThrough(parts: seq<Entity>) {
    parts == [] || (ReadsThrough(parts[0]) && PartsReadThrough(parts[1..]))
  }

  /** The walk succeeds exactly when no node is more than 16 levels down and no part
      reader breaks. */
  lemma {:induction false} WalkableIffShallowAndReadable(e: Entity, room: int)
    ensures Walkable(e, room) <==> Height(e) <= room && ReadsThrough(e)
  {
    if room >= 0 && e.Multipart? {
      PartsWalkableIff(e.parts, room - 1);
    }
  }

  lemma {:induction false} PartsWalkableIff(parts: seq<Entity>, room: int)
    requires room >= -1
    ensures PartsWalkable(parts, room) <==> PartsHeight(parts) <= room + 1 && PartsReadThrough(parts)
  {
    if parts != [] {
      WalkableIffShallowAndReadable(parts[0], room);
      PartsWalkableIff(parts[1..], room);
    }
  }
}

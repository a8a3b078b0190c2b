/** cmd/backup.go and stages/watermark.go: choosing the window, running the pipeline,
    and advancing the persisted watermark. */
module Backups {
  import opened Stages
  import opened Transform
  import opened Sinks
  import opened Emitters
  import opened Imap
  import opened Pipelines

  /** What is at the timestamp path. A stamp of ZERO is a file without the field. */
  datatype WatermarkFile = Missing | Blank | Unreadable | Garbage | Recorded(stamp: Instant, version: string)

  datatype Reading = Failed | Absent | Found(stamp: Instant)

  class Watermark {
    var file: WatermarkFile
    /** Whether the disk can be written. */
    const reliable: bool

    constructor (reliable: bool)
      ensures file == Missing && this.reliable == reliable
    {
      file, this.reliable := Missing, reliable;
    }

    /** A missing or blank file is no error; an unreadable, unparseable or zero one is. */
    method ReadWatermark() returns (r: Reading)
      ensures r == ReadingOf(file)
    {
      if file == Missing {
        return Absent;
      }
      if file == Unreadable {
        return Failed;
      }
      if file == Blank {
        return Absent;
      }
      if file == Garbage {
        return Failed;
      }
      if file.stamp == ZERO {
        return Failed;
      }
      return Found(file.stamp);
    }

    /** The write replaces the file or fails and leaves it alone. */
    method WriteWatermark(stamp: Instant, version: string) returns (ok: bool)
      modifies this
      ensures file == if ok then Recorded(stamp, version) else old(file)
      ensures reliable ==> ok
    {
      var fails: bool := *;
      ok := reliable || !fails;
      if ok {
        file := Recorded(stamp, version);
      }
    }
  }

  function ReadingOf(file: WatermarkFile): Reading {
    match file
    case Missing => Absent
    case Blank => Absent
    case Unreadable => Failed
    case Garbage => Failed
    case Recorded(stamp, _) => if stamp == ZERO then Failed else Found(stamp)
  }

  /** The flags of the backup command that choose the window. */
  datatype Flags = Flags(mailbox: string, attachments: bool, all: bool, durationSet: bool, duration: int)

  /** The lower bound a run asks for: none with --all, an explicit --duration before the
      recorded timestamp, the duration again when nothing is recorded. */
  function WindowStart(flags: Flags, file: WatermarkFile, now: Instant): Option<Instant> {
    if flags.all then Some(ZERO)
    else if flags.durationSet then Some(now - flags.duration)
    else match ReadingOf(file)
      case Failed => None
      case Absent => Some(now - flags.duration)
      case Found(stamp) => Some(stamp)
  }

  /** The zone the bound is expressed in: local for a clock reading, UTC for a stamp. */
  function WindowZone(flags: Flags, file: WatermarkFile, local: int): int {
    if flags.all || (!flags.durationSet && ReadingOf(file).Found?) then 0 else local
  }

  function RequestOf(flags: Flags, file: WatermarkFile, now: Instant, local: int): Option<FetchRequest> {
    var since := WindowStart(flags, file, now);
    if since.None? then None
    else Some(FetchRequest(since.value, WindowZone(flags, file, local), flags.mailbox, flags.attachments))
  }

  /** --all takes everything and looks at no file; an explicit --duration wins over the
      file; a recorded stamp, in UTC, wins over the default duration, which a missing or
      blank file falls back to; any other file is an error. The request carries the flags. */
  method FetchRequestFor(flags: Flags, watermark: Watermark, now: Instant, local: int) returns (r: Option<FetchRequest>)
    ensures r == RequestOf(flags, watermark.file, now, local)
    ensures Precedence(flags, watermark.file, now, local, r)
  {
    var req := FetchRequest(ZERO, 0, flags.mailbox, flags.attachments);
    if flags.all {
      return Some(req);
    }
    if flags.durationSet {
      req := req.(since := now - flags.duration, zone := local);
      return Some(req);
    }
    var reading := watermark.ReadWatermark();
    if reading.Failed? {
      return None;
    }
    if reading.Found? {
      req := req.(since := reading.stamp);
      return Some(req);
    }
    req := req.(since := now - flags.duration, zone := local);
    return Some(req);
  }

  /** The documented precedence, outcome by outcome. */
  predicate Precedence(flags: Flags, file: WatermarkFile, now: Instant, local: int, r: Option<FetchRequest>) {
    var resumes := !flags.all && !flags.durationSet;
    && (r.Some? ==> r.value.mailbox == flags.mailbox && r.value.withAttachments == flags.attachments)
    && (flags.all ==> r.Some? && r.value.since == ZERO)
    && (!flags.all && flags.durationSet ==>
          r.Some? && r.value.since == now - flags.duration && r.value.zone == local)
    && (resumes && (file == Missing || file == Blank) ==>
          r.Some? && r.value.since == now - flags.duration && r.value.zone == local)
    && (resumes && file.Recorded? && file.stamp != ZERO ==>
          r.Some? && r.value.since == file.stamp && r.value.zone == 0)
    && (resumes && (file == Unreadable || file == Garbage || (file.Recorded? && file.stamp == ZERO)) ==> r.None?)
  }

  lemma RequestFollowsPrecedence(flags: Flags, file: WatermarkFile, now: Instant, local: int)
    ensures Precedence(flags, file, now, local, RequestOf(flags, file, now, local))
  {
  }

  /** The file a fully successful run leaves behind. */
  function Advanced(file: WatermarkFile, emitted: seq<Message>, version: string): WatermarkFile {
    if Latest(emitted) == ZERO then file else Recorded(Latest(emitted), version)
  }

  class Tool {
    const watermark: Watermark
    const p: Platform
    /** Recorded beside every timestamp. */
    const version: string

    constructor (watermark: Watermark, p: Platform, version: string)
      ensures this.watermark == watermark && this.p == p && this.version == version
    {
      this.watermark, this.p, this.version := watermark, p, version;
    }

    /** One backup command. `transformer` is None when building stage 2 fails; building
        stage 1 or 3 may fail too, the former only when not `online`. Whatever happens, each
        backend is overwritten by its own log, and by what a refused store tore; the
        timestamp file moves only when everything succeeded, and then to the newest message
        of the window. */
    method Backup(
      flags: Flags, server: seq<Mailbox>, transformer: Option<Transformer>, sinks: seq<Sink>, now: Instant, local: int,
      online: bool)
      returns (ok: bool, ghost tr: Trace, ghost req: Option<FetchRequest>)
      requires p.Valid()
      requires transformer.Some? ==> transformer.value.Valid()
      requires forall i | 0 <= i < |server| :: UniqueUids(server[i].messages)
      requires forall i, j | 0 <= i < j < |sinks| :: sinks[i] != sinks[j]
      modifies watermark, sinks
      ensures Precedence(flags, old(watermark.file), now, local, req)
      ensures req == RequestOf(flags, old(watermark.file), now, local)
      ensures |tr.logs| == |tr.torn| == |sinks| && Lockstep(tr)
      ensures req.Some? ==> Covers(tr, Window(p.tables, server, Scope(server, req.value.mailbox), req.value))
      ensures transformer.Some? ==> Faithful(p, transformer.value, now, tr)
      ensures forall i | 0 <= i < |sinks| ::
              sinks[i].objects == Replay(Replay(old(sinks[i].objects), tr.logs[i]), tr.torn[i])
      ensures ok ==> req.Some? && transformer.Some? && tr.fetched
      ensures req.Some? && Reliable(server, transformer, sinks, req.value, online) ==> ok
      ensures ok && Latest(tr.emitted) != ZERO ==> watermark.file == Recorded(Latest(tr.emitted), version)
      ensures !ok || Latest(tr.emitted) == ZERO ==> watermark.file == old(watermark.file)
      ensures watermark.file == if ok then Advanced(old(watermark.file), tr.emitted, version) else old(watermark.file)
    {
      hide Replay, Stores, Window, Scope, UniqueUids, WindowStart, Flatten;
      tr := Trace([], [], seq(|sinks|, _ => []), seq(|sinks|, _ => []), false);
      NothingSent(transformer, now, tr);
      req := RequestOf(flags, watermark.file, now, local);
      forall i | 0 <= i < |sinks| ensures Replay(Replay(sinks[i].objects, []), []) == sinks[i].objects {
        ReplayNothing(sinks[i].objects);
      }
      ok := false;
      var request := FetchRequestFor(flags, watermark, now, local);
      if request.None? {
        return;
      }
      var fails: bool := *;
      var connected := online || !fails;
      if !connected || transformer.None? {
        return;
      }
      var fetcher := new IMAP(server, p.tables, online);
      var multi := NewMulti(sinks);
      if multi.None? {
        return;
      }
      ok, tr := RunAndRecord(fetcher, transformer.value, multi.value, now, request.value);
    }

    /** Nothing in the environment fails, and the mailbox asked for exists. */
    ghost predicate Reliable(
      server: seq<Mailbox>, transformer: Option<Transformer>, sinks: seq<Sink>, req: FetchRequest, online: bool)
    {
      && online && watermark.reliable && transformer.Some? && transformer.value.Total()
      && sinks != [] && (forall i | 0 <= i < |sinks| :: sinks[i].reliable)
      && Reachable(server, req)
    }

    lemma NothingSent(transformer: Option<Transformer>, now: Instant, tr: Trace)
      requires tr.emitted == [] && tr.sent == [] && !tr.fetched
      requires |tr.torn| == |tr.logs| && forall i | 0 <= i < |tr.logs| :: tr.logs[i] == [] && tr.torn[i] == []
      ensures Lockstep(tr)
      ensures transformer.Some? ==> Faithful(p, transformer.value, now, tr)
      ensures forall window: seq<Message> :: Covers(tr, window)
    {
    }

    lemma LatestOfRun(now: Instant, tr: Trace, result: Result)
      requires Counted(p, now, tr, result) && tr.fetched
      ensures result.latest == Latest(tr.emitted)
    {
      hide Latest, Flatten, TotalSize;
      assert tr.emitted[..|tr.emitted|] == tr.emitted;
    }

    /** The pipeline, and the timestamp after it. */
    method RunAndRecord(fetcher: IMAP, transformer: Transformer, multi: Multi, now: Instant, req: FetchRequest)
      returns (ok: bool, ghost tr: Trace)
      requires p.Valid() && transformer.Valid() && fetcher.Valid() && multi.Valid()
      modifies watermark, fetcher, multi.sinks
      ensures |tr.logs| == |tr.torn| == |multi.sinks| && Lockstep(tr) && Faithful(p, transformer, now, tr)
      ensures Covers(tr, Window(fetcher.u, fetcher.server, Scope(fetcher.server, req.mailbox), req))
      ensures forall i | 0 <= i < |multi.sinks| ::
                multi.sinks[i].objects == Replay(Replay(old(multi.sinks[i].objects), tr.logs[i]), tr.torn[i])
      ensures ok ==> tr.fetched
      ensures fetcher.reliable && transformer.Total() && multi.Reliable() && Reachable(fetcher.server, req) ==>
                (watermark.reliable ==> ok)
      ensures watermark.file == if ok then Advanced(old(watermark.file), tr.emitted, version) else old(watermark.file)
    {
      hide Replay, Stores, Window, Scope, Faithful, Covers, Lockstep, Counted, Latest;
      var pipeline := new Pipeline(fetcher, Some(transformer), multi);
      var result, ran;
      result, ran, tr := pipeline.Run(p, now, req);
      if !ran {
        return false, tr;
      }
      LatestOfRun(now, tr, result);
      if result.latest == ZERO {
        return true, tr;
      }
      ok := watermark.WriteWatermark(result.latest, version);
    }
  }

  // ----- the window of a retry -----

  const HOUR := 3600 * SECOND

  /** A retry asks for the same window as the attempt before it, as documented, exactly
      when the bound does not come from the clock, or the clock has not moved. */
  lemma RetryKeepsWindow(flags: Flags, file: WatermarkFile, now: Instant, later: Instant)
    requires WindowStart(flags, file, now).Some?
    ensures WindowStart(flags, file, now) == WindowStart(flags, file, later) <==>
            flags.all || (!flags.durationSet && ReadingOf(file).Found?) || now == later
  {
  }

  /** Otherwise the window slides, and a retry of a failed first run skips exactly the
      messages the clock has passed. */
  lemma SlidingRetrySkips(flags: Flags, file: WatermarkFile, now: Instant, later: Instant, date: Instant)
    requires !flags.all && (flags.durationSet || ReadingOf(file).Absent?)
    ensures date > WindowStart(flags, file, now).value && !(date > WindowStart(flags, file, later).value) <==>
            now - flags.duration < date <= later - flags.duration
  {
  }

  /** With the default of a day, a run at hour 48 that fails and is retried at hour 50
      never asks again for a message of hour 25. */
  lemma SlidingRetryExample()
    ensures var flags := Flags("", false, false, false, 24 * HOUR);
            && 25 * HOUR > WindowStart(flags, Missing, 48 * HOUR).value
            && !(25 * HOUR > WindowStart(flags, Missing, 50 * HOUR).value)
  {
  }

  /** After a success the next default run falls back to its duration exactly when
      nothing was recorded before and the success stored no dated mail, as an --all on an
      empty account does. */
  lemma FallsBackIff(file: WatermarkFile, emitted: seq<Message>, version: string)
    ensures ReadingOf(Advanced(file, emitted, version)).Absent? <==>
            ReadingOf(file).Absent? && forall i | 0 <= i < |emitted| :: emitted[i].date <= ZERO
  {
    hide Latest;
    assert Latest(emitted) >= ZERO;
  }
}

/** When handing the same payload to the client again is safe: exactly when no half-sent copy
    of it is still queued after its bytes have left the staging area. */
module PayloadReupload {
  import opened PayloadStaging
  import opened PayloadIntake
  import opened PayloadUpload
  import opened PayloadDelivery

  /** The send loop empties the chunk queue. */
  ghost function Drain(c: Client, cfg: Config): (r: Client)
    requires ValidConfig(cfg)
    ensures r.queue == []
    decreases |c.queue|
  {
    if c.queue == [] then c else Drain(Step(c, SendChunk, cfg), cfg)
  }

  /** No proper suffix of the payload has the payload's own digest. */
  ghost predicate SuffixesDiffer(d: Digest, data: Bytes, hash: Bytes -> Digest) {
    forall i | 0 < i <= |data| :: hash(data[i..]) != d
  }

  /** The next chunks of `d` are the tail of a copy whose first `start` bytes the server no
      longer has, and the server holds the tail up to chunk `k`. */
  ghost predicate TailOnly(c: Client, srv: Intake, d: Digest, data: Bytes, chunkBytes: nat, start: nat, k: nat)
    requires 0 < chunkBytes
  {
    var (jobs, n) := (JobsOf(c.queue, d), ChunkCount(|data|, chunkBytes));
    && k < n && n - k <= |jobs| && jobs[..n - k] == Scheduled(d, |data|, chunkBytes, k)
    && 0 < start <= Offset(k, chunkBytes) <= |data|
    && if start == Offset(k, chunkBytes) then d !in srv.open
       else d in srv.open && Joined(srv.open[d].chunks) == data[start..Offset(k, chunkBytes)]
  }

  /** The next frame of `d` is an empty last chunk. */
  ghost predicate EmptyNext(c: Client, srv: Intake, d: Digest, data: Bytes) {
    && JobsOf(c.queue, d) != [] && JobsOf(c.queue, d)[0] == NothingToSend(d)
    && d !in srv.open && data != []
  }

  ghost predicate Doomed(c: Client, srv: Intake, d: Digest, data: Bytes, chunkBytes: nat, start: nat, k: nat)
    requires 0 < chunkBytes
  {
    && d in c.staged.blobs && c.staged.blobs[d] == data
    && (EmptyNext(c, srv, d, data) || TailOnly(c, srv, d, data, chunkBytes, start, k))
  }

  /** The tail chunk either fails at once, fails as the last chunk, or makes the tail longer. */
  lemma TailChunk(srv: Intake, d: Digest, data: Bytes, c: nat, start: nat, k: nat, peer: Peer)
    requires 0 < c && k < ChunkCount(|data|, c) && 0 < start <= Offset(k, c) <= |data|
    requires if start == Offset(k, c) then d !in srv.open
             else d in srv.open && Joined(srv.open[d].chunks) == data[start..Offset(k, c)]
    requires SuffixesDiffer(d, data, peer.hash)
    ensures var (t, outcome) := Receive(srv, Chunk(d, data, c, k), peer.maxBytes, peer.hash);
      outcome.Accepted? ==>
        && k + 1 < ChunkCount(|data|, c) && start < Offset(k + 1, c) <= |data|
        && d in t.open && Joined(t.open[d].chunks) == data[start..Offset(k + 1, c)]
  {
    hide ChunkCount, Offset, Joined;
    ChunkBounds(|data|, c, k);
    EmptyIsBounded();
    var f, at := Chunk(d, data, c, k), Offset(k, c);
    var p := PartialOf(srv, d);
    assert Joined(p.chunks) == data[start..at];
    JoinedAppend(p.chunks, f.chunk);
    SliceBetween(data, start, at, Min(at + c, |data|));
    assert Joined(Added(p, f.chunk).chunks) == data[start..Min(at + c, |data|)];
    assert data[start..|data|] == data[start..];
  }

  lemma SliceBetween(data: Bytes, start: nat, at: nat, end: nat)
    requires start <= at <= end <= |data|
    ensures data[start..at] + data[at..end] == data[start..end]
  {
  }

  lemma DoomedByTail(c: Client, srv: Intake, d: Digest, data: Bytes, start: nat, k: nat, cfg: Config, peer: Peer)
    requires ValidConfig(cfg) && c.queue != [] && c.staged.WellFormed(cfg.capacity) && c.queue[0].digest == d
    requires d in c.staged.blobs && c.staged.blobs[d] == data
    requires TailOnly(c, srv, d, data, cfg.chunkBytes, start, k) && SuffixesDiffer(d, data, peer.hash)
    ensures var (t, outcome) := Sent(c, srv, cfg, peer);
      outcome.Accepted? ==> Doomed(Step(c, SendChunk, cfg), t, d, data, cfg.chunkBytes, start, k + 1)
  {
    hide ChunkCount, Receive, JobsOf, FrameFor, StagedAfter, Chunk, SuffixesDiffer, Offset, Joined;
    var jobs, n := JobsOf(c.queue, d), ChunkCount(|data|, cfg.chunkBytes);
    JobsOfCons(c.queue, d);
    TailAdvances(jobs, d, |data|, cfg.chunkBytes, k);
    assert jobs[0] == c.queue[0] && jobs[1..] == JobsOf(c.queue[1..], d);
    FrameIsChunk(c.staged, d, data, cfg.chunkBytes, k);
    TailChunk(srv, d, data, cfg.chunkBytes, start, k, peer);
    StagedAfterJob(c.staged, c.queue[0], cfg.capacity);
  }

  lemma TailAdvances(jobs: seq<Job>, d: Digest, total: nat, c: nat, k: nat)
    requires 0 < c
    requires var n := ChunkCount(total, c); k < n && n - k <= |jobs| && jobs[..n - k] == Scheduled(d, total, c, k)
    ensures jobs[0] == JobAt(d, total, c, k)
    ensures jobs[1..][..ChunkCount(total, c) - k - 1] == Scheduled(d, total, c, k + 1)
  {
    hide ChunkCount;
    var m := ChunkCount(total, c) - k;
    var s := Scheduled(d, total, c, k);
    assert s[0] == JobAt(d, total, c, k) && s[1..] == Scheduled(d, total, c, k + 1);
    assert jobs[..m][0] == jobs[0];
    assert jobs[1..][..m - 1] == jobs[..m][1..];
  }

  lemma DoomedByEmpty(c: Client, srv: Intake, d: Digest, data: Bytes, cfg: Config, peer: Peer)
    requires ValidConfig(cfg) && c.queue != [] && c.queue[0].digest == d
    requires d in c.staged.blobs && c.staged.blobs[d] == data
    requires EmptyNext(c, srv, d, data) && SuffixesDiffer(d, data, peer.hash)
    ensures !Sent(c, srv, cfg, peer).1.Accepted?
  {
    JobsOfCons(c.queue, d);
    assert JobsOf(c.queue, d)[0] == c.queue[0];
    hide JobsOf;
    assert data[|data|..] == [];
  }

  lemma DoomStays(c: Client, srv: Intake, d: Digest, data: Bytes, start: nat, k: nat, cfg: Config, peer: Peer)
    returns (k': nat)
    requires ValidConfig(cfg) && c.queue != [] && c.staged.WellFormed(cfg.capacity)
    requires Doomed(c, srv, d, data, cfg.chunkBytes, start, k) && SuffixesDiffer(d, data, peer.hash)
    ensures var (t, outcome) := Sent(c, srv, cfg, peer);
      outcome.Accepted? ==> Doomed(Step(c, SendChunk, cfg), t, d, data, cfg.chunkBytes, start, k')
  {
    hide JobsOf, Sent, Step, SuffixesDiffer, Joined, Offset, ChunkCount, Scheduled;
    k' := k;
    if c.queue[0].digest != d {
      SendOther(c, srv, d, cfg, peer);
    } else if EmptyNext(c, srv, d, data) {
      DoomedByEmpty(c, srv, d, data, cfg, peer);
    } else {
      k' := k + 1;
      DoomedByTail(c, srv, d, data, start, k, cfg, peer);
    }
  }

  lemma {:induction false} DeadAfterDrain(c: Client, cfg: Config, peer: Peer)
    requires ValidConfig(cfg) && !Server(c, peer).1
    ensures !Server(Drain(c, cfg), peer).1
    decreases |c.queue|
  {
    hide Feed, StagedAfter, FrameFor;
    if c.queue != [] {
      DeadStaysDead(Intake(map[], map[]), c.sent, FrameFor(c.staged, c.queue[0], cfg.chunkBytes), peer.maxBytes,
                    peer.hash);
      DeadAfterDrain(Step(c, SendChunk, cfg), cfg, peer);
    }
  }

  lemma {:induction false} DoomedNeverSurvives(c: Client, d: Digest, data: Bytes, start: nat, k: nat, cfg: Config,
                                               peer: Peer)
    requires ValidConfig(cfg) && c.staged.WellFormed(cfg.capacity) && SuffixesDiffer(d, data, peer.hash)
    requires Server(c, peer).1 ==> Doomed(c, Server(c, peer).0, d, data, cfg.chunkBytes, start, k)
    ensures !Server(Drain(c, cfg), peer).1
    decreases |c.queue|
  {
    hide Feed, Receive, StagedAfter, FrameFor, Doomed, SuffixesDiffer, Staged.WellFormed;
    if !Server(c, peer).1 {
      DeadAfterDrain(c, cfg, peer);
    } else {
      var srv := Server(c, peer).0;
      DoomedHasJobs(c, srv, d, data, cfg.chunkBytes, start, k);
      var c' := Step(c, SendChunk, cfg);
      var k' := DoomStays(c, srv, d, data, start, k, cfg, peer);
      StagedAfterJob(c.staged, c.queue[0], cfg.capacity);
      FeedAppend(Intake(map[], map[]), c.sent, FrameFor(c.staged, c.queue[0], cfg.chunkBytes), peer.maxBytes,
                    peer.hash);
      DoomedNeverSurvives(c', d, data, start, k', cfg, peer);
    }
  }

  lemma DoomedHasJobs(c: Client, srv: Intake, d: Digest, data: Bytes, chunkBytes: nat, start: nat, k: nat)
    requires 0 < chunkBytes && Doomed(c, srv, d, data, chunkBytes, start, k)
    ensures c.queue != []
  {
    hide ChunkCount, Offset, Scheduled;
  }

  /** A client in step drains without a rejection, and all that is staged arrives. */
  lemma {:induction false} SyncedSurvives(c: Client, uploads: map<Digest, Bytes>, pos: map<Digest, nat>, cfg: Config,
                                          peer: Peer)
    requires ValidConfig(cfg) && Server(c, peer).1
    requires Synced(c, Server(c, peer).0, uploads, pos, cfg) && Proper(c, uploads, cfg, peer)
    ensures Server(Drain(c, cfg), peer) == (Intake(map[], Server(c, peer).0.store + c.staged.blobs), true)
    decreases |c.queue|
  {
    hide Synced, Proper, Feed, StagedAfter, FrameFor;
    var srv := Server(c, peer).0;
    if c.queue == [] {
      AllCleared(c, srv, uploads, pos, cfg);
      assert srv.store + map[] == srv.store;
    } else {
      var pos' := EventKeepsSync(c, SendChunk, uploads, pos, cfg, peer);
      var c' := Step(c, SendChunk, cfg);
      SyncedSurvives(c', uploads, pos', cfg, peer);
      StagedIsProper(c, uploads, cfg, peer);
      StagedAfterJob(c.staged, c.queue[0], cfg.capacity);
      assert Arrivals(srv.store, c) + c'.staged.blobs == srv.store + c.staged.blobs;
    }
  }

  lemma StagedIsProper(c: Client, uploads: map<Digest, Bytes>, cfg: Config, peer: Peer)
    requires Proper(c, uploads, cfg, peer)
    ensures c.staged.WellFormed(cfg.capacity)
  {
  }

  /** A stale head dooms the stream. */
  lemma StaleHead(jobs: seq<Job>, d: Digest, data: Bytes, c: nat, k: nat)
    requires 0 < c && Remainder(jobs, d, |data|, c, k) && !HeadFresh(jobs, |data|)
    ensures (jobs[0] == NothingToSend(d) && data != []) || (0 < k < ChunkCount(|data|, c) && 0 < Offset(k, c) <= |data|)
  {
    hide ChunkCount, Scheduled, Remainder, Offset;
    var n := ChunkCount(|data|, c);
    RemainderBound(jobs, d, |data|, c, k);
    if k < n {
      NextChunk(jobs, d, |data|, c, k);
      ChunkBounds(|data|, c, k);
    } else {
      GroupsAtEnd(jobs, d, |data|, c);
      if StartsWhole(jobs, d, |data|, c) {
        WholeFirst(jobs, d, |data|, c);
        NextChunk(jobs, d, |data|, c, 0);
        ChunkBounds(|data|, c, 0);
      }
    }
  }

  lemma StaleEnqueueIsDoomed(c: Client, srv: Intake, d: Digest, data: Bytes, uploads: map<Digest, Bytes>,
                             pos: map<Digest, nat>, cfg: Config, peer: Peer) returns (start: nat, k: nat)
    requires Synced(c, srv, uploads, pos, cfg) && Proper(c, uploads, cfg, peer)
    requires d !in c.staged.blobs && d !in srv.open && (d in uploads ==> uploads[d] == data)
    requires |data| <= cfg.capacity && !HeadFresh(JobsOf(c.queue, d), |data|)
    ensures var c' := Step(c, Enqueue(d, data), cfg);
      c'.staged.WellFormed(cfg.capacity) && c'.sent == c.sent && Doomed(c', srv, d, data, cfg.chunkBytes, start, k)
  {
    hide ChunkCount, Remainder, Groups, Total, JobsOf, Scheduled, PutResult, Staged.WellFormed, Uploadable, Offset;
    var jobs, more := JobsOf(c.queue, d), Scheduled(d, |data|, cfg.chunkBytes, 0);
    JobsOfAppend(c.queue, more, d);
    JobsOfScheduled(d, |data|, cfg.chunkBytes, 0, d);
    PutFits(c.staged, d, data, cfg.capacity);
    if d in uploads {
      k := pos[d];
      start := Offset(k, cfg.chunkBytes);
      StaleHead(jobs, d, data, cfg.chunkBytes, k);
      if jobs[0] != NothingToSend(d) {
        WholeIsGroup(d, |data|, cfg.chunkBytes);
        RemainderAppend(jobs, more, d, |data|, cfg.chunkBytes, k);
        RemainderHead(jobs + more, d, |data|, cfg.chunkBytes, k);
      }
    } else {
      start, k := 0, 0;
      assert jobs[0] in jobs;
    }
  }

  lemma RemainderHead(jobs: seq<Job>, d: Digest, total: nat, c: nat, k: nat)
    requires 0 < c && Remainder(jobs, d, total, c, k)
    ensures var n := ChunkCount(total, c);
      k <= n && n - k <= |jobs| && jobs[..n - k] == Scheduled(d, total, c, k)
  {
  }

  /** After any fair run, a payload that is not staged and not too large is handed to the client,
      evicting whatever it has to, and the chunk queue drains. The server takes every frame
      exactly when the queued jobs of that digest, if any, begin a whole upload of it or go on
      where its last chunk left off; otherwise the stream is rejected. */
  lemma EnqueueSurvivesIffResumes(events: seq<Event>, d: Digest, data: Bytes, cfg: Config, peer: Peer)
    requires ValidConfig(cfg) && FairRun(events, cfg, peer)
    requires Uploadable(d, data, peer.maxBytes, peer.hash) && SuffixesDiffer(d, data, peer.hash)
    requires d in Uploads(events, cfg) ==> Uploads(events, cfg)[d] == data
    requires d !in Run(events, cfg).staged.blobs && |data| <= cfg.capacity
    ensures var c := Run(events, cfg);
      Server(Drain(Step(c, Enqueue(d, data), cfg), cfg), peer).1 <==> Resumes(c, d, |data|)
  {
    hide Run, Uploads, FairRun, Feed, Synced, Proper, Step, Drain, JobsOf, HeadFresh, Total, Uploadable, SuffixesDiffer,
         Staged.WellFormed, MidUpload, Delivered;
    var c, uploads := Run(events, cfg), Uploads(events, cfg);
    var pos := RunStaysInSync(events, cfg, peer);
    var srv := Server(c, peer).0;
    if Resumes(c, d, |data|) {
      var pos' := EventKeepsSync(c, Enqueue(d, data), uploads, pos, cfg, peer);
      SyncedSurvives(Step(c, Enqueue(d, data), cfg), uploads[d := data], pos', cfg, peer);
    } else {
      OpenIffMidUpload(c.sent, d, peer);
      var start, k := StaleEnqueueIsDoomed(c, srv, d, data, uploads, pos, cfg, peer);
      DoomedNeverSurvives(Step(c, Enqueue(d, data), cfg), d, data, start, k, cfg, peer);
    }
  }

  /** The condition can fail: the server asks for a payload that has already left, and the
      same payload is handed to the client before that request has been answered. */
  lemma RequestThenEnqueueIsRejected(d: Digest, data: Bytes, cfg: Config, peer: Peer)
    requires ValidConfig(cfg) && data != [] && |data| <= cfg.capacity
    requires Uploadable(d, data, peer.maxBytes, peer.hash) && SuffixesDiffer(d, data, peer.hash)
    ensures FairRun([Request(d)], cfg, peer)
    ensures !Server(Drain(Step(Run([Request(d)], cfg), Enqueue(d, data), cfg), cfg), peer).1
  {
    var events := [Request(d)];
    assert events[..0] == [];
    assert Run(events, cfg) == Client(Staged([], map[]), [NothingToSend(d)], []);
    assert Uploads(events, cfg) == map[];
    OnlyOne(d);
    EnqueueSurvivesIffResumes(events, d, data, cfg, peer);
  }
}

/** What a whole run of the chunked upload delivers: the client of `PayloadUpload` feeding
    the server of `PayloadIntake`. */
module PayloadDelivery {
  import opened Common
  import opened PayloadStaging
  import opened PayloadIntake
  import opened PayloadUpload

  /** The server's limit and the digest function. */
  datatype Peer = Peer(maxBytes: nat, hash: Bytes -> Digest)

  ghost function JobsOf(queue: seq<Job>, d: Digest): (r: seq<Job>) {
    if queue == [] then []
    else (if queue[0].digest == d then [queue[0]] else []) + JobsOf(queue[1..], d)
  }

  /** Whole uploads and empty requests, one after the other. */
  ghost predicate Groups(jobs: seq<Job>, d: Digest, total: nat, c: nat)
    requires 0 < c
    decreases |jobs|
  {
    jobs == [] || StartsEmpty(jobs, d, total, c) || StartsWhole(jobs, d, total, c)
  }

  ghost predicate StartsEmpty(jobs: seq<Job>, d: Digest, total: nat, c: nat)
    requires 0 < c && jobs != []
    decreases |jobs|, 0
  {
    jobs[0] == NothingToSend(d) && Groups(jobs[1..], d, total, c)
  }

  ghost predicate StartsWhole(jobs: seq<Job>, d: Digest, total: nat, c: nat)
    requires 0 < c && jobs != []
    decreases |jobs|, 0
  {
    var n := ChunkCount(total, c);
    n <= |jobs| && jobs[..n] == Scheduled(d, total, c, 0) && Groups(jobs[n..], d, total, c)
  }

  /** The rest of one upload from chunk `k` on, then whole groups. */
  ghost predicate Remainder(jobs: seq<Job>, d: Digest, total: nat, c: nat, k: nat)
    requires 0 < c
  {
    var n := ChunkCount(total, c);
    && k <= n && n - k <= |jobs|
    && jobs[..n - k] == Scheduled(d, total, c, k)
    && Groups(jobs[n - k..], d, total, c)
  }

  /** While the blob is staged its first `k` chunks are at the server and the rest is queued. Once
      it has left, the server has no assembler for it, unless it was evicted half-way and no
      job of it was served since. */
  ghost predicate InSync(c: Client, srv: Intake, d: Digest, data: Bytes, chunkBytes: nat, k: nat)
    requires 0 < chunkBytes
  {
    && Remainder(JobsOf(c.queue, d), d, |data|, chunkBytes, k)
    && if d in c.staged.blobs then
         && k < ChunkCount(|data|, chunkBytes)
         && c.staged.blobs[d] == data
         && Progress(srv, d, data, chunkBytes, k)
       else
         d in srv.open ==> 0 < k < ChunkCount(|data|, chunkBytes) && Progress(srv, d, data, chunkBytes, k)
  }

  ghost predicate NeverOffered(c: Client, srv: Intake, d: Digest) {
    && d !in c.staged.blobs && d !in srv.open
    && forall j | j in JobsOf(c.queue, d) :: j == NothingToSend(d)
  }

  /** The server's store once the head job is served: a last chunk that leaves while its blob is
      staged completes the payload. */
  ghost function Arrivals(stored: map<Digest, Bytes>, c: Client): map<Digest, Bytes> {
    if c.queue != [] && c.queue[0].last && c.queue[0].digest in c.staged.blobs
    then stored[c.queue[0].digest := c.staged.blobs[c.queue[0].digest]] else stored
  }

  ghost predicate Synced(c: Client, srv: Intake, uploads: map<Digest, Bytes>, pos: map<Digest, nat>, cfg: Config) {
    && ValidConfig(cfg) && pos.Keys == uploads.Keys
    && (forall d | d in uploads :: InSync(c, srv, d, uploads[d], cfg.chunkBytes, pos[d]))
    && (forall d | d !in uploads :: NeverOffered(c, srv, d))
  }

  ghost predicate Proper(c: Client, uploads: map<Digest, Bytes>, cfg: Config, peer: Peer) {
    && c.staged.WellFormed(cfg.capacity)
    && AllUploadable(uploads, peer.maxBytes, peer.hash)
    && (forall j | j in c.queue :: j.digest != "")
  }

  // ---- Queue lemmas -----------------------------------------------------------------

  ghost function Mine(job: Job, d: Digest): seq<Job> {
    if job.digest == d then [job] else []
  }

  lemma JobsOfCons(queue: seq<Job>, d: Digest)
    requires queue != []
    ensures JobsOf(queue, d) == Mine(queue[0], d) + JobsOf(queue[1..], d)
  {
  }

  lemma {:induction false} JobsOfAppend(a: seq<Job>, b: seq<Job>, d: Digest)
    ensures JobsOf(a + b, d) == JobsOf(a, d) + JobsOf(b, d)
  {
    if a == [] {
      assert a + b == b;
    } else {
      hide JobsOf, Mine;
      assert (a + b)[1..] == a[1..] + b;
      JobsOfAppend(a[1..], b, d);
      JobsOfCons(a, d);
      JobsOfCons(a + b, d);
      assert (a + b)[0] == a[0];
    }
  }

  lemma {:induction false} JobsOfScheduled(d: Digest, total: nat, c: nat, k: nat, e: Digest)
    requires 0 < c && k <= ChunkCount(total, c)
    ensures JobsOf(Scheduled(d, total, c, k), e) == if d == e then Scheduled(d, total, c, k) else []
    ensures forall j | j in Scheduled(d, total, c, k) :: j.digest == d
    decreases ChunkCount(total, c) - k
  {
    if k < ChunkCount(total, c) {
      var s := Scheduled(d, total, c, k);
      JobsOfScheduled(d, total, c, k + 1, e);
      assert s[1..] == Scheduled(d, total, c, k + 1);
    }
  }

  lemma {:induction false} GroupsAppend(jobs: seq<Job>, more: seq<Job>, d: Digest, total: nat, c: nat)
    requires 0 < c && Groups(jobs, d, total, c) && Groups(more, d, total, c)
    ensures Groups(jobs + more, d, total, c)
    decreases |jobs|
  {
    hide ChunkCount, Scheduled;
    if jobs == [] {
      assert jobs + more == more;
    } else if StartsEmpty(jobs, d, total, c) {
      assert (jobs + more)[1..] == jobs[1..] + more;
      GroupsAppend(jobs[1..], more, d, total, c);
      assert StartsEmpty(jobs + more, d, total, c);
    } else {
      var n := ChunkCount(total, c);
      assert (jobs + more)[n..] == jobs[n..] + more;
      assert (jobs + more)[..n] == jobs[..n];
      GroupsAppend(jobs[n..], more, d, total, c);
      assert StartsWhole(jobs + more, d, total, c);
    }
  }

  lemma WholeIsGroup(d: Digest, total: nat, c: nat)
    requires 0 < c
    ensures Groups(Scheduled(d, total, c, 0), d, total, c)
  {
    var s, n := Scheduled(d, total, c, 0), ChunkCount(total, c);
    assert s[..n] == s && s[n..] == [];
    assert StartsWhole(s, d, total, c);
  }

  lemma EmptyIsGroup(d: Digest, total: nat, c: nat)
    requires 0 < c
    ensures Groups([NothingToSend(d)], d, total, c)
  {
    assert StartsEmpty([NothingToSend(d)], d, total, c);
  }

  lemma RemainderAppend(jobs: seq<Job>, more: seq<Job>, d: Digest, total: nat, c: nat, k: nat)
    requires 0 < c && Remainder(jobs, d, total, c, k) && Groups(more, d, total, c)
    ensures Remainder(jobs + more, d, total, c, k)
  {
    hide ChunkCount, Scheduled, Groups;
    var m := ChunkCount(total, c) - k;
    assert (jobs + more)[m..] == jobs[m..] + more;
    assert (jobs + more)[..m] == jobs[..m];
    GroupsAppend(jobs[m..], more, d, total, c);
  }

  lemma {:induction false} AllEmptyIsGroups(jobs: seq<Job>, d: Digest, total: nat, c: nat)
    requires 0 < c && forall j | j in jobs :: j == NothingToSend(d)
    ensures Groups(jobs, d, total, c)
    decreases |jobs|
  {
    if jobs != [] {
      assert jobs[0] in jobs;
      assert forall j | j in jobs[1..] :: j in jobs;
      AllEmptyIsGroups(jobs[1..], d, total, c);
      assert StartsEmpty(jobs, d, total, c);
    }
  }

  lemma GroupsIsRemainder(jobs: seq<Job>, d: Digest, total: nat, c: nat)
    requires 0 < c && Groups(jobs, d, total, c)
    ensures Remainder(jobs, d, total, c, ChunkCount(total, c))
  {
    assert jobs[0..] == jobs;
  }

  lemma GroupsAtEnd(jobs: seq<Job>, d: Digest, total: nat, c: nat)
    requires 0 < c && Remainder(jobs, d, total, c, ChunkCount(total, c))
    ensures Groups(jobs, d, total, c)
  {
    assert jobs[0..] == jobs;
  }

  lemma WholeFirst(jobs: seq<Job>, d: Digest, total: nat, c: nat)
    requires 0 < c && jobs != [] && StartsWhole(jobs, d, total, c)
    ensures Remainder(jobs, d, total, c, 0)
  {
  }

  /** In the middle of an upload the head job is its next chunk. */
  lemma NextChunk(jobs: seq<Job>, d: Digest, total: nat, c: nat, k: nat)
    requires 0 < c && Remainder(jobs, d, total, c, k) && k < ChunkCount(total, c)
    ensures jobs != [] && jobs[0] == JobAt(d, total, c, k)
    ensures Remainder(jobs[1..], d, total, c, k + 1)
  {
    hide ChunkCount, Groups;
    var m := ChunkCount(total, c) - k;
    var s := Scheduled(d, total, c, k);
    assert s[0] == JobAt(d, total, c, k) && s[1..] == Scheduled(d, total, c, k + 1);
    assert jobs[..m][0] == jobs[0];
    assert jobs[1..][..m - 1] == jobs[..m][1..];
    assert jobs[1..][m - 1..] == jobs[m..];
  }

  /** Whatever the head job is, what follows it is again a remainder. */
  lemma HeadLeaves(jobs: seq<Job>, d: Digest, total: nat, c: nat, k: nat) returns (k': nat)
    requires 0 < c && Remainder(jobs, d, total, c, k) && jobs != []
    ensures Remainder(jobs[1..], d, total, c, k')
  {
    hide ChunkCount, Scheduled, Remainder;
    var n := ChunkCount(total, c);
    assert k <= n by { RemainderBound(jobs, d, total, c, k); }
    if k < n {
      NextChunk(jobs, d, total, c, k);
      k' := k + 1;
    } else {
      GroupsAtEnd(jobs, d, total, c);
      if StartsEmpty(jobs, d, total, c) {
        GroupsIsRemainder(jobs[1..], d, total, c);
        k' := n;
      } else {
        WholeFirst(jobs, d, total, c);
        NextChunk(jobs, d, total, c, 0);
        k' := 1;
      }
    }
  }

  /** A queue of one digest may be sent from its start: it is empty or begins a whole upload. */
  ghost predicate HeadFresh(jobs: seq<Job>, total: nat) {
    jobs == [] || (jobs[0].offset == 0 && jobs[0].total == total)
  }

  lemma FreshRemainder(jobs: seq<Job>, d: Digest, total: nat, c: nat, k: nat)
    requires 0 < c && Remainder(jobs, d, total, c, k) && HeadFresh(jobs, total) && jobs != []
    ensures Remainder(jobs, d, total, c, 0)
  {
    hide ChunkCount, Scheduled, Remainder, Offset;
    var n := ChunkCount(total, c);
    RemainderBound(jobs, d, total, c, k);
    if k < n {
      NextChunk(jobs, d, total, c, k);
      OffsetZero(k, c);
    } else {
      GroupsAtEnd(jobs, d, total, c);
      if StartsEmpty(jobs, d, total, c) {
        EmptyUploadFirst(jobs, d, c);
      } else {
        WholeFirst(jobs, d, total, c);
      }
    }
  }

  lemma RemainderBound(jobs: seq<Job>, d: Digest, total: nat, c: nat, k: nat)
    requires 0 < c && Remainder(jobs, d, total, c, k)
    ensures k <= ChunkCount(total, c)
  {
  }

  lemma EmptyUploadFirst(jobs: seq<Job>, d: Digest, c: nat)
    requires 0 < c && jobs != [] && StartsEmpty(jobs, d, 0, c)
    ensures Remainder(jobs, d, 0, c, 0)
  {
    OneEmptyChunk(d, c);
    assert jobs[..1] == [NothingToSend(d)];
  }

  lemma OffsetZero(k: nat, c: nat)
    requires 0 < c
    ensures Offset(k, c) == 0 ==> k == 0
  {
  }

  lemma OneEmptyChunk(d: Digest, c: nat)
    requires 0 < c
    ensures ChunkCount(0, c) == 1 && Scheduled(d, 0, c, 0) == [NothingToSend(d)]
  {
    SmallQuotient(c - 1, c);
    assert Scheduled(d, 0, c, 1) == [];
  }

  // ---- Each event keeps client and server in step -----------------------------------

  lemma PeekKeepsBlobs(s: Staged, d: Digest, capacity: nat)
    requires s.WellFormed(capacity) && d in s.blobs
    ensures var p := PutResult(s.Take(d), d, s.blobs[d], capacity);
      p.WellFormed(capacity) && p.blobs == s.blobs
  {
    hide Total, Distinct;
    var rest, data := s.Take(d), s.blobs[d];
    TakeWellFormed(s, d, capacity);
    PeekEvictsNothing(s, d, capacity);
    LeastEvictionUnique(rest, 0, EvictCount(rest, 0, |data|, capacity), |data|, capacity);
    NothingEvicted(rest, |data|, capacity);
    AppendWellFormed(rest, d, data, capacity);
  }

  lemma PutWithRoom(s: Staged, d: Digest, data: Bytes, capacity: nat)
    requires s.WellFormed(capacity) && d !in s.blobs
    requires Total(s.order, s.blobs) + |data| <= capacity
    ensures PutResult(s, d, data, capacity) == s.Append(d, data)
    ensures s.Append(d, data).WellFormed(capacity)
  {
    hide Total, Distinct;
    NothingEvicted(s, |data|, capacity);
    LeastEvictionUnique(s, 0, EvictCount(s, 0, |data|, capacity), |data|, capacity);
    AppendWellFormed(s, d, data, capacity);
  }

  /** Putting a blob stages it, and of the others some may leave. */
  lemma PutFits(s: Staged, d: Digest, data: Bytes, capacity: nat)
    requires s.WellFormed(capacity) && |data| <= capacity && (d in s.blobs ==> s.blobs[d] == data)
    ensures var t := PutResult(s, d, data, capacity);
      && t.WellFormed(capacity) && d in t.blobs && t.blobs[d] == data
      && forall e | e != d && e in t.blobs :: e in s.blobs && t.blobs[e] == s.blobs[e]
  {
    hide Total, Distinct, Staged.WellFormed;
    if d !in s.blobs {
      NothingEvicted(s, |data|, capacity);
      var k := EvictCount(s, 0, |data|, capacity);
      EvictWellFormed(s, k, capacity);
      AppendWellFormed(s.Evict(k), d, data, capacity);
    }
  }

  lemma StagedAfterJob(s: Staged, job: Job, capacity: nat)
    requires s.WellFormed(capacity)
    ensures var t := StagedAfter(s, job, capacity);
      && t.WellFormed(capacity)
      && t.blobs == if job.last then s.blobs - {job.digest} else s.blobs
  {
    hide Total, Distinct, PutResult;
    if job.digest in s.blobs {
      TakeWellFormed(s, job.digest, capacity);
      PeekKeepsBlobs(s, job.digest, capacity);
    } else {
      assert s.blobs - {job.digest} == s.blobs;
    }
  }

  /** The frame of the job for chunk `k` is chunk `k`. */
  lemma FrameIsChunk(s: Staged, d: Digest, data: Bytes, c: nat, k: nat)
    requires 0 < c && k < ChunkCount(|data|, c) && d in s.blobs && s.blobs[d] == data
    ensures FrameFor(s, JobAt(d, |data|, c, k), c) == Chunk(d, data, c, k)
  {
    hide ChunkCount, Offset;
    ChunkBounds(|data|, c, k);
  }

  /** What the frame of the head job does to the server. */
  ghost function Sent(c: Client, srv: Intake, cfg: Config, peer: Peer): (Intake, Outcome)
    requires c.queue != []
  {
    Receive(srv, FrameFor(c.staged, c.queue[0], cfg.chunkBytes), peer.maxBytes, peer.hash)
  }

  lemma SendStaged(c: Client, srv: Intake, data: Bytes, k: nat, cfg: Config, peer: Peer)
    requires ValidConfig(cfg) && c.queue != [] && c.staged.WellFormed(cfg.capacity)
    requires var d := c.queue[0].digest;
      d in c.staged.blobs && InSync(c, srv, d, data, cfg.chunkBytes, k) && Uploadable(d, data, peer.maxBytes, peer.hash)
    ensures var (t, outcome) := Sent(c, srv, cfg, peer);
      && outcome.Accepted? && InSync(Step(c, SendChunk, cfg), t, c.queue[0].digest, data, cfg.chunkBytes, k + 1)
      && t.store == Arrivals(srv.store, c)
  {
    hide ChunkCount, Remainder, Receive, JobsOf, FrameFor, StagedAfter, Chunk;
    var d := c.queue[0].digest;
    JobsOfCons(c.queue, d);
    var jobs := JobsOf(c.queue, d);
    NextChunk(jobs, d, |data|, cfg.chunkBytes, k);
    assert jobs[0] == c.queue[0] && jobs[1..] == JobsOf(c.queue[1..], d);
    FrameIsChunk(c.staged, d, data, cfg.chunkBytes, k);
    ChunkIsTakenIn(srv, d, data, cfg.chunkBytes, k, peer.maxBytes, peer.hash);
    StoreGrows(srv, FrameFor(c.staged, c.queue[0], cfg.chunkBytes), peer);
    ChunkMeans(d, data, cfg.chunkBytes, k);
    StagedAfterJob(c.staged, c.queue[0], cfg.capacity);
  }

  lemma ChunkMeans(d: Digest, data: Bytes, c: nat, k: nat)
    requires 0 < c && k < ChunkCount(|data|, c)
    ensures var f := Chunk(d, data, c, k);
      f.digest == d && !f.evicted && (f.last <==> k + 1 == ChunkCount(|data|, c))
  {
  }

  /** An accepted last chunk stores its payload; no other frame changes the store. */
  lemma StoreGrows(srv: Intake, f: Frame, peer: Peer)
    ensures var (t, outcome) := Receive(srv, f, peer.maxBytes, peer.hash);
      outcome.Accepted? ==>
        if f.last && !f.evicted then f.digest in t.store && t.store == srv.store[f.digest := t.store[f.digest]]
        else t.store == srv.store
  {
    hide Joined, Added, PartialOf;
  }

  lemma EvictionNotice(c: Client, srv: Intake, cfg: Config, peer: Peer)
    requires ValidConfig(cfg) && c.queue != [] && c.queue[0].digest !in c.staged.blobs
    requires c.queue[0].digest != ""
    ensures Sent(c, srv, cfg, peer) == (srv.(open := srv.open - {c.queue[0].digest}), Accepted)
    ensures Step(c, SendChunk, cfg).staged == c.staged
  {
  }

  lemma SendGone(c: Client, srv: Intake, data: Bytes, k: nat, cfg: Config, peer: Peer) returns (k': nat)
    requires ValidConfig(cfg) && c.queue != [] && c.queue[0].digest != ""
    requires var d := c.queue[0].digest;
      d !in c.staged.blobs && InSync(c, srv, d, data, cfg.chunkBytes, k)
    ensures var (t, outcome) := Sent(c, srv, cfg, peer);
      && outcome.Accepted? && InSync(Step(c, SendChunk, cfg), t, c.queue[0].digest, data, cfg.chunkBytes, k')
      && t.store == srv.store
  {
    hide ChunkCount, Remainder, Receive, JobsOf, FrameFor, StagedAfter, Sent;
    var d := c.queue[0].digest;
    JobsOfCons(c.queue, d);
    var jobs := JobsOf(c.queue, d);
    assert jobs[1..] == JobsOf(c.queue[1..], d);
    EvictionNotice(c, srv, cfg, peer);
    k' := HeadLeaves(jobs, d, |data|, cfg.chunkBytes, k);
  }

  lemma SendNeverOffered(c: Client, srv: Intake, cfg: Config, peer: Peer)
    requires ValidConfig(cfg) && c.queue != [] && c.queue[0].digest != ""
    requires NeverOffered(c, srv, c.queue[0].digest)
    ensures var (t, outcome) := Sent(c, srv, cfg, peer);
      outcome.Accepted? && NeverOffered(Step(c, SendChunk, cfg), t, c.queue[0].digest) && t.store == srv.store
  {
    hide Receive, JobsOf, FrameFor, StagedAfter, Sent;
    var d := c.queue[0].digest;
    JobsOfCons(c.queue, d);
    EvictionNotice(c, srv, cfg, peer);
    assert forall j | j in JobsOf(c.queue[1..], d) :: j in JobsOf(c.queue, d);
  }

  /** Sending a job of one digest leaves every other digest where it was. */
  lemma SendOther(c: Client, srv: Intake, e: Digest, cfg: Config, peer: Peer)
    requires ValidConfig(cfg) && c.queue != [] && c.staged.WellFormed(cfg.capacity) && e != c.queue[0].digest
    ensures var (c', t) := (Step(c, SendChunk, cfg), Sent(c, srv, cfg, peer).0);
      && JobsOf(c'.queue, e) == JobsOf(c.queue, e)
      && (e in c'.staged.blobs <==> e in c.staged.blobs)
      && (e in c.staged.blobs ==> c'.staged.blobs[e] == c.staged.blobs[e])
      && Untouched(srv, t, e)
  {
    hide Receive, FrameFor, StagedAfter;
    StagedAfterJob(c.staged, c.queue[0], cfg.capacity);
    FrameDigest(c.staged, c.queue[0], cfg.chunkBytes);
    UntouchedByOther(srv, FrameFor(c.staged, c.queue[0], cfg.chunkBytes), e, peer);
  }

  lemma FrameDigest(s: Staged, job: Job, c: nat)
    ensures FrameFor(s, job, c).digest == job.digest
  {
  }

  lemma UntouchedByOther(srv: Intake, f: Frame, e: Digest, peer: Peer)
    requires f.digest != e
    ensures Untouched(srv, Receive(srv, f, peer.maxBytes, peer.hash).0, e)
  {
    ReceiveTouchesOnlyItsDigest(srv, f, e, peer.maxBytes, peer.hash);
  }

  /** Nothing about digest `e` differs between the two sides, but it may have been evicted. */
  ghost predicate SameFor(c: Client, srv: Intake, c': Client, t: Intake, e: Digest) {
    && JobsOf(c'.queue, e) == JobsOf(c.queue, e)
    && (e in c'.staged.blobs ==> e in c.staged.blobs && c'.staged.blobs[e] == c.staged.blobs[e])
    && Untouched(srv, t, e)
  }

  lemma SameKeepsSync(c: Client, srv: Intake, c': Client, t: Intake, e: Digest, data: Bytes, chunkBytes: nat, k: nat)
    requires 0 < chunkBytes && SameFor(c, srv, c', t, e)
    ensures InSync(c, srv, e, data, chunkBytes, k) ==> InSync(c', t, e, data, chunkBytes, k)
    ensures NeverOffered(c, srv, e) ==> NeverOffered(c', t, e)
  {
    hide JobsOf, Remainder;
  }

  /** One digest moved, every other stayed: both sides are still in step. */
  lemma OneMoved(c: Client, srv: Intake, c': Client, t: Intake, d: Digest, uploads: map<Digest, Bytes>,
                 pos: map<Digest, nat>, uploads': map<Digest, Bytes>, pos': map<Digest, nat>, cfg: Config)
    requires Synced(c, srv, uploads, pos, cfg)
    requires forall e | e != d :: SameFor(c, srv, c', t, e)
    requires uploads' - {d} == uploads - {d} && pos' - {d} == pos - {d} && pos'.Keys == uploads'.Keys
    requires if d in uploads' then InSync(c', t, d, uploads'[d], cfg.chunkBytes, pos'[d]) else NeverOffered(c', t, d)
    ensures Synced(c', t, uploads', pos', cfg)
  {
    hide SameFor, InSync, NeverOffered;
    forall e | e != d
      ensures if e in uploads' then InSync(c', t, e, uploads'[e], cfg.chunkBytes, pos'[e]) else NeverOffered(c', t, e)
    {
      assert e in uploads <==> e in uploads - {d};
      assert e in uploads' <==> e in uploads' - {d};
      assert e in uploads ==> uploads[e] == (uploads - {d})[e] && pos[e] == (pos - {d})[e];
      assert e in uploads' ==> uploads'[e] == (uploads' - {d})[e] && pos'[e] == (pos' - {d})[e];
      if e in uploads {
        SameKeepsSync(c, srv, c', t, e, uploads[e], cfg.chunkBytes, pos[e]);
      } else {
        SameKeepsSync(c, srv, c', t, e, [], cfg.chunkBytes, 0);
      }
    }
  }

  lemma SendKeepsSync(c: Client, srv: Intake, uploads: map<Digest, Bytes>, pos: map<Digest, nat>, cfg: Config,
                      peer: Peer)
    returns (pos': map<Digest, nat>)
    requires Synced(c, srv, uploads, pos, cfg) && Proper(c, uploads, cfg, peer) && c.queue != []
    ensures var (t, outcome) := Sent(c, srv, cfg, peer);
      && outcome.Accepted? && t.store == Arrivals(srv.store, c)
      && Synced(Step(c, SendChunk, cfg), t, uploads, pos', cfg)
      && Proper(Step(c, SendChunk, cfg), uploads, cfg, peer)
  {
    hide InSync, NeverOffered, Sent, Staged.WellFormed, StagedAfter, FrameFor, Uploadable;
    var d := c.queue[0].digest;
    var c', t := Step(c, SendChunk, cfg), Sent(c, srv, cfg, peer).0;
    StagedAfterJob(c.staged, c.queue[0], cfg.capacity);
    forall e | e != d ensures SameFor(c, srv, c', t, e) {
      SendOther(c, srv, e, cfg, peer);
    }
    pos' := pos;
    if d !in uploads {
      NotOffered(c, srv, d);
      SendNeverOffered(c, srv, cfg, peer);
    } else if d in c.staged.blobs {
      SendStaged(c, srv, uploads[d], pos[d], cfg, peer);
      pos' := pos[d := pos[d] + 1];
    } else {
      var k := SendGone(c, srv, uploads[d], pos[d], cfg, peer);
      pos' := pos[d := k];
    }
    assert pos' - {d} == pos - {d};
    OneMoved(c, srv, c', t, d, uploads, pos, uploads, pos', cfg);
  }

  /** The last frame of the digest, if any, was a chunk with more to come. */
  ghost predicate MidUpload(sent: seq<Frame>, d: Digest) {
    sent != [] &&
    (var f := sent[|sent| - 1];
     if f.digest == d then !f.evicted && !f.last else MidUpload(sent[..|sent| - 1], d))
  }

  /** A payload that is not staged may be handed in again: its queued jobs, if any, begin a whole
      upload of it, or the queue goes on exactly where the last chunk sent left off. */
  ghost predicate Resumes(c: Client, d: Digest, total: nat) {
    HeadFresh(JobsOf(c.queue, d), total) || MidUpload(c.sent, d)
  }

  /** The caller's side of the bargain, checkable before each call: content-addressed bytes
      within the server's limit, and no half-sent upload of the same digest left over from a
      copy that has already gone. What the client refuses as too large needs nothing. */
  ghost predicate Fair(c: Client, e: Event, uploads: map<Digest, Bytes>, cfg: Config, peer: Peer) {
    match e
    case Enqueue(d, data) =>
      |data| <= cfg.capacity ==>
        && Uploadable(d, data, peer.maxBytes, peer.hash)
        && (d in uploads ==> uploads[d] == data)
        && (d in c.staged.blobs || Resumes(c, d, |data|))
    case SendChunk => true
    case Request(d) => d != ""
  }

  /** The payloads the client has accepted. */
  ghost function Offered(uploads: map<Digest, Bytes>, e: Event, cfg: Config): map<Digest, Bytes> {
    if e.Enqueue? && |e.data| <= cfg.capacity then uploads[e.digest := e.data] else uploads
  }

  /** More jobs of `d` join the queue. */
  lemma QueueGrows(c: Client, srv: Intake, staged: Staged, more: seq<Job>, d: Digest, e: Digest)
    requires e != d && forall j | j in more :: j.digest == d
    requires e in staged.blobs ==> e in c.staged.blobs && staged.blobs[e] == c.staged.blobs[e]
    ensures SameFor(c, srv, Client(staged, c.queue + more, c.sent), srv, e)
  {
    JobsOfAppend(c.queue, more, e);
    NoneOfOther(more, d, e);
  }

  lemma {:induction false} NoneOfOther(more: seq<Job>, d: Digest, e: Digest)
    requires e != d && forall j | j in more :: j.digest == d
    ensures JobsOf(more, e) == []
  {
    if more != [] {
      assert more[0] in more;
      assert forall j | j in more[1..] :: j in more;
      NoneOfOther(more[1..], d, e);
    }
  }

  lemma EnqueueInSync(c: Client, srv: Intake, d: Digest, data: Bytes, uploads: map<Digest, Bytes>,
                      pos: map<Digest, nat>, cfg: Config, peer: Peer) returns (k: nat)
    requires Synced(c, srv, uploads, pos, cfg) && Proper(c, uploads, cfg, peer)
    requires |data| <= cfg.capacity && (d in uploads ==> uploads[d] == data)
    requires d in c.staged.blobs || d in srv.open || HeadFresh(JobsOf(c.queue, d), |data|)
    ensures InSync(Step(c, Enqueue(d, data), cfg), srv, d, data, cfg.chunkBytes, k)
  {
    hide ChunkCount, Remainder, Groups, Total, JobsOf, Scheduled, PutResult, Staged.WellFormed, Uploadable;
    var jobs, more := JobsOf(c.queue, d), Scheduled(d, |data|, cfg.chunkBytes, 0);
    JobsOfAppend(c.queue, more, d);
    JobsOfScheduled(d, |data|, cfg.chunkBytes, 0, d);
    WholeIsGroup(d, |data|, cfg.chunkBytes);
    PutFits(c.staged, d, data, cfg.capacity);
    if d in c.staged.blobs || d in srv.open {
      k := pos[d];
      RemainderAppend(jobs, more, d, |data|, cfg.chunkBytes, k);
    } else {
      k := 0;
      if jobs == [] {
        assert jobs + more == more;
        WholeAlone(d, |data|, cfg.chunkBytes);
      } else {
        if d in uploads {
          FreshRemainder(jobs, d, |data|, cfg.chunkBytes, pos[d]);
        } else {
          AllEmptyIsGroups(jobs, d, |data|, cfg.chunkBytes);
          GroupsIsRemainder(jobs, d, |data|, cfg.chunkBytes);
          FreshRemainder(jobs, d, |data|, cfg.chunkBytes, ChunkCount(|data|, cfg.chunkBytes));
        }
        RemainderAppend(jobs, more, d, |data|, cfg.chunkBytes, 0);
      }
    }
  }

  lemma WholeAlone(d: Digest, total: nat, c: nat)
    requires 0 < c
    ensures Remainder(Scheduled(d, total, c, 0), d, total, c, 0)
  {
    var s, n := Scheduled(d, total, c, 0), ChunkCount(total, c);
    assert s[..n] == s && s[n..] == [];
  }

  lemma EnqueueKeepsSync(c: Client, srv: Intake, d: Digest, data: Bytes, uploads: map<Digest, Bytes>,
                         pos: map<Digest, nat>, cfg: Config, peer: Peer) returns (pos': map<Digest, nat>)
    requires Synced(c, srv, uploads, pos, cfg) && Proper(c, uploads, cfg, peer)
    requires |data| <= cfg.capacity && (d in uploads ==> uploads[d] == data)
    requires Uploadable(d, data, peer.maxBytes, peer.hash)
    requires d in c.staged.blobs || d in srv.open || HeadFresh(JobsOf(c.queue, d), |data|)
    ensures var c' := Step(c, Enqueue(d, data), cfg);
      Synced(c', srv, uploads[d := data], pos', cfg) && Proper(c', uploads[d := data], cfg, peer)
  {
    hide InSync, NeverOffered, Scheduled, PutResult, Total, JobsOf, SameFor, Staged.WellFormed, Uploadable;
    var k := EnqueueInSync(c, srv, d, data, uploads, pos, cfg, peer);
    var c', more := Step(c, Enqueue(d, data), cfg), Scheduled(d, |data|, cfg.chunkBytes, 0);
    pos' := pos[d := k];
    StagedIsOffered(c, srv, d, uploads, pos, cfg);
    PutFits(c.staged, d, data, cfg.capacity);
    JobsOfScheduled(d, |data|, cfg.chunkBytes, 0, d);
    forall e | e != d ensures SameFor(c, srv, c', srv, e) {
      QueueGrows(c, srv, c'.staged, more, d, e);
    }
    UpdateOnlyOne(uploads, d, data);
    UpdateOnlyOne(pos, d, k);
    OneMoved(c, srv, c', srv, d, uploads, pos, uploads[d := data], pos', cfg);
    DigestsNamed(d, data, peer);
  }

  lemma DigestsNamed(d: Digest, data: Bytes, peer: Peer)
    requires Uploadable(d, data, peer.maxBytes, peer.hash)
    ensures d != ""
  {
  }

  lemma StagedIsOffered(c: Client, srv: Intake, d: Digest, uploads: map<Digest, Bytes>, pos: map<Digest, nat>,
                        cfg: Config)
    requires Synced(c, srv, uploads, pos, cfg)
    ensures d in c.staged.blobs ==> d in uploads && c.staged.blobs[d] == uploads[d]
  {
    hide Remainder, Progress, ChunkCount, JobsOf;
  }

  lemma UpdateOnlyOne<V>(m: map<Digest, V>, d: Digest, v: V)
    ensures m[d := v] - {d} == m - {d}
  {
  }

  lemma RequestKeepsSync(c: Client, srv: Intake, d: Digest, uploads: map<Digest, Bytes>, pos: map<Digest, nat>,
                         cfg: Config, peer: Peer)
    requires Synced(c, srv, uploads, pos, cfg) && Proper(c, uploads, cfg, peer) && d != ""
    ensures var c' := Step(c, Request(d), cfg);
      Synced(c', srv, uploads, pos, cfg) && Proper(c', uploads, cfg, peer)
  {
    hide ChunkCount, Remainder, Groups, Scheduled, PutResult, Total, Uploadable, JobsOf, SameFor, Staged.WellFormed;
    var c' := Step(c, Request(d), cfg);
    var more;
    if d in c.staged.blobs {
      var data := c.staged.blobs[d];
      assert d in uploads && uploads[d] == data;
      more := Scheduled(d, |data|, cfg.chunkBytes, 0);
      JobsOfScheduled(d, |data|, cfg.chunkBytes, 0, d);
      WholeIsGroup(d, |data|, cfg.chunkBytes);
      PeekKeepsBlobs(c.staged, d, cfg.capacity);
    } else {
      more := [NothingToSend(d)];
      JobsOfCons(more, d);
      OnlyOne(d);
      if d in uploads {
        EmptyIsGroup(d, |uploads[d]|, cfg.chunkBytes);
      }
    }
    JobsOfAppend(c.queue, more, d);
    if d in uploads {
      RemainderAppend(JobsOf(c.queue, d), more, d, |uploads[d]|, cfg.chunkBytes, pos[d]);
    }
    forall e | e != d ensures SameFor(c, srv, c', srv, e) {
      QueueGrows(c, srv, c'.staged, more, d, e);
    }
    OneMoved(c, srv, c', srv, d, uploads, pos, uploads, pos, cfg);
  }

  lemma OnlyOne(d: Digest)
    ensures JobsOf([NothingToSend(d)], d) == [NothingToSend(d)]
  {
  }

  // ---- Whole runs -------------------------------------------------------------------

  ghost function Run(events: seq<Event>, cfg: Config): Client
    requires ValidConfig(cfg)
  {
    if events == [] then Client(Staged([], map[]), [], [])
    else Step(Run(events[..|events| - 1], cfg), events[|events| - 1], cfg)
  }

  /** The payloads the client accepted over a run, by digest. */
  ghost function Uploads(events: seq<Event>, cfg: Config): map<Digest, Bytes> {
    if events == [] then map[] else Offered(Uploads(events[..|events| - 1], cfg), events[|events| - 1], cfg)
  }

  /** The payloads whose last chunk left while they were staged. */
  ghost function Delivered(events: seq<Event>, cfg: Config): map<Digest, Bytes>
    requires ValidConfig(cfg)
  {
    if events == [] then map[]
    else
      var before := events[..|events| - 1];
      if events[|events| - 1].SendChunk? then Arrivals(Delivered(before, cfg), Run(before, cfg))
      else Delivered(before, cfg)
  }

  ghost predicate FairRun(events: seq<Event>, cfg: Config, peer: Peer)
    requires ValidConfig(cfg)
  {
    events == [] ||
    (var before := events[..|events| - 1];
     FairRun(before, cfg, peer) && Fair(Run(before, cfg), events[|events| - 1], Uploads(before, cfg), cfg, peer))
  }

  ghost function Server(c: Client, peer: Peer): (Intake, bool) {
    Feed(Intake(map[], map[]), c.sent, peer.maxBytes, peer.hash)
  }

  lemma {:induction false} FeedAppend(s: Intake, frames: seq<Frame>, f: Frame, maxBytes: nat, hash: Bytes -> Digest)
    requires Feed(s, frames, maxBytes, hash).1
    ensures var (t, outcome) := Receive(Feed(s, frames, maxBytes, hash).0, f, maxBytes, hash);
      Feed(s, frames + [f], maxBytes, hash) == (t, outcome.Accepted?)
    decreases |frames|
  {
    hide Receive;
    if frames == [] {
      assert [f][1..] == [];
    } else {
      assert (frames + [f])[1..] == frames[1..] + [f];
      FeedAppend(Receive(s, frames[0], maxBytes, hash).0, frames[1..], f, maxBytes, hash);
    }
  }

  lemma {:induction false} DeadStaysDead(s: Intake, frames: seq<Frame>, f: Frame, maxBytes: nat, hash: Bytes -> Digest)
    requires !Feed(s, frames, maxBytes, hash).1
    ensures !Feed(s, frames + [f], maxBytes, hash).1
    decreases |frames|
  {
    hide Receive;
    assert (frames + [f])[1..] == frames[1..] + [f];
    if Receive(s, frames[0], maxBytes, hash).1.Accepted? {
      DeadStaysDead(Receive(s, frames[0], maxBytes, hash).0, frames[1..], f, maxBytes, hash);
    }
  }

  /** The server has an assembler for exactly the digests whose last frame had more to come. */
  lemma {:induction false} OpenIffMidUpload(frames: seq<Frame>, d: Digest, peer: Peer)
    requires Feed(Intake(map[], map[]), frames, peer.maxBytes, peer.hash).1
    ensures d in Feed(Intake(map[], map[]), frames, peer.maxBytes, peer.hash).0.open <==> MidUpload(frames, d)
    decreases |frames|
  {
    hide Receive;
    if frames != [] {
      var init, f := frames[..|frames| - 1], frames[|frames| - 1];
      assert frames == init + [f];
      if !Feed(Intake(map[], map[]), init, peer.maxBytes, peer.hash).1 {
        DeadStaysDead(Intake(map[], map[]), init, f, peer.maxBytes, peer.hash);
      } else {
        OpenIffMidUpload(init, d, peer);
        FeedAppend(Intake(map[], map[]), init, f, peer.maxBytes, peer.hash);
        OpenAfter(Feed(Intake(map[], map[]), init, peer.maxBytes, peer.hash).0, f, d, peer);
      }
    }
  }

  lemma OpenAfter(srv: Intake, f: Frame, d: Digest, peer: Peer)
    ensures var (t, outcome) := Receive(srv, f, peer.maxBytes, peer.hash);
      outcome.Accepted? ==> (d in t.open <==> if f.digest == d then !f.evicted && !f.last else d in srv.open)
  {
    hide Joined, Added, PartialOf;
  }

  lemma {:induction false} RunStaysInSync(events: seq<Event>, cfg: Config, peer: Peer) returns (pos: map<Digest, nat>)
    requires ValidConfig(cfg) && FairRun(events, cfg, peer)
    ensures var (c, uploads) := (Run(events, cfg), Uploads(events, cfg));
      && Server(c, peer).1 && Server(c, peer).0.store == Delivered(events, cfg)
      && Synced(c, Server(c, peer).0, uploads, pos, cfg) && Proper(c, uploads, cfg, peer)
    decreases |events|
  {
    hide Step, Fair, Synced, Proper, Feed, Receive, Arrivals;
    if events == [] {
      pos := StartInSync(cfg, peer);
    } else {
      var before, e := events[..|events| - 1], events[|events| - 1];
      pos := RunStaysInSync(before, cfg, peer);
      pos := EventKeepsSync(Run(before, cfg), e, Uploads(before, cfg), pos, cfg, peer);
    }
  }

  lemma StartInSync(cfg: Config, peer: Peer) returns (pos: map<Digest, nat>)
    requires ValidConfig(cfg)
    ensures var (c, uploads) := (Run([], cfg), Uploads([], cfg));
      && Server(c, peer).1 && Server(c, peer).0.store == map[]
      && Synced(c, Server(c, peer).0, uploads, pos, cfg) && Proper(c, uploads, cfg, peer)
  {
    pos := map[];
  }

  lemma EventKeepsSync(c: Client, e: Event, uploads: map<Digest, Bytes>, pos: map<Digest, nat>, cfg: Config, peer: Peer)
    returns (pos': map<Digest, nat>)
    requires ValidConfig(cfg) && Fair(c, e, uploads, cfg, peer)
    requires Server(c, peer).1
    requires Synced(c, Server(c, peer).0, uploads, pos, cfg) && Proper(c, uploads, cfg, peer)
    ensures var (c', uploads') := (Step(c, e, cfg), Offered(uploads, e, cfg));
      && Server(c', peer).1
      && Server(c', peer).0.store ==
           (if e.SendChunk? then Arrivals(Server(c, peer).0.store, c) else Server(c, peer).0.store)
      && Synced(c', Server(c', peer).0, uploads', pos', cfg) && Proper(c', uploads', cfg, peer)
  {
    hide Synced, Proper, Feed, Receive, PutResult, Scheduled, StagedAfter, FrameFor, Uploadable, Total, MidUpload,
         HeadFresh;
    var srv := Server(c, peer).0;
    pos' := pos;
    match e
    case Enqueue(d, data) =>
      if |data| <= cfg.capacity {
        OpenIffMidUpload(c.sent, d, peer);
        pos' := EnqueueKeepsSync(c, srv, d, data, uploads, pos, cfg, peer);
      }
    case SendChunk =>
      if c.queue != [] {
        pos' := SendKeepsSync(c, srv, uploads, pos, cfg, peer);
        FeedAppend(Intake(map[], map[]), c.sent, FrameFor(c.staged, c.queue[0], cfg.chunkBytes), peer.maxBytes,
                   peer.hash);
      }
    case Request(d) =>
      RequestKeepsSync(c, srv, d, uploads, pos, cfg, peer);
  }

  /** In every fair run, with any chunk size and payloads of any length, repeated uploads,
      re-requests and evictions included, the server never rejects a frame, and at every moment
      it holds exactly the payloads whose last chunk left while they were staged, byte for byte
      as handed in; once the queue has drained, every assembler is cleared and nothing is left
      staged. */
  lemma UploadsArrive(events: seq<Event>, cfg: Config, peer: Peer)
    requires ValidConfig(cfg) && FairRun(events, cfg, peer)
    ensures var c := Run(events, cfg);
      && Server(c, peer).1 && Server(c, peer).0.store == Delivered(events, cfg)
      && (c.queue == [] ==> Server(c, peer).0 == Intake(map[], Delivered(events, cfg)) && c.staged.blobs == map[])
    ensures forall d | d in Delivered(events, cfg) ::
      d in Uploads(events, cfg) && Delivered(events, cfg)[d] == Uploads(events, cfg)[d]
  {
    hide Run, Uploads, Delivered, FairRun, Feed, Proper;
    var pos := RunStaysInSync(events, cfg, peer);
    DeliveredAsHandedIn(events, cfg, peer);
    var c := Run(events, cfg);
    if c.queue == [] {
      AllCleared(c, Server(c, peer).0, Uploads(events, cfg), pos, cfg);
    }
  }

  lemma {:induction false} DeliveredAsHandedIn(events: seq<Event>, cfg: Config, peer: Peer)
    requires ValidConfig(cfg) && FairRun(events, cfg, peer)
    ensures forall d | d in Delivered(events, cfg) ::
      d in Uploads(events, cfg) && Delivered(events, cfg)[d] == Uploads(events, cfg)[d]
    decreases |events|
  {
    hide Step, Synced, Proper, Feed, Uploadable, Resumes, Run;
    if events != [] {
      var before := events[..|events| - 1];
      DeliveredAsHandedIn(before, cfg, peer);
      var pos := RunStaysInSync(before, cfg, peer);
      var c := Run(before, cfg);
      if c.queue != [] {
        StagedIsOffered(c, Server(c, peer).0, c.queue[0].digest, Uploads(before, cfg), pos, cfg);
      }
    }
  }

  /** No hand-in had to evict. */
  ghost predicate RoomyRun(events: seq<Event>, cfg: Config)
    requires ValidConfig(cfg)
  {
    events == [] ||
    (var (before, e) := (events[..|events| - 1], events[|events| - 1]);
     RoomyRun(before, cfg) && (e.Enqueue? ==> HasRoom(Run(before, cfg).staged, e.digest, e.data, cfg.capacity)))
  }

  ghost predicate HasRoom(s: Staged, d: Digest, data: Bytes, capacity: nat) {
    d in s.blobs || |data| > capacity || Total(s.order, s.blobs) + |data| <= capacity
  }

  /** With room for every hand-in, all payloads arrive. */
  lemma AllUploadsArrive(events: seq<Event>, cfg: Config, peer: Peer)
    requires ValidConfig(cfg) && FairRun(events, cfg, peer) && RoomyRun(events, cfg)
    ensures Run(events, cfg).queue == [] ==> Server(Run(events, cfg), peer).0 == Intake(map[], Uploads(events, cfg))
  {
    hide Run, Uploads, Delivered, FairRun, RoomyRun, Feed;
    UploadsArrive(events, cfg, peer);
    NoneLost(events, cfg, peer);
    if Run(events, cfg).queue == [] {
      assert Delivered(events, cfg) == Uploads(events, cfg);
    }
  }

  lemma {:induction false} NoneLost(events: seq<Event>, cfg: Config, peer: Peer)
    requires ValidConfig(cfg) && FairRun(events, cfg, peer) && RoomyRun(events, cfg)
    ensures forall d | d in Uploads(events, cfg) :: d in Run(events, cfg).staged.blobs || d in Delivered(events, cfg)
    decreases |events|
  {
    hide Step, Synced, Feed, Fair, Staged.WellFormed, HasRoom;
    if events != [] {
      var before, e := events[..|events| - 1], events[|events| - 1];
      NoneLost(before, cfg, peer);
      var pos := RunStaysInSync(before, cfg, peer);
      StagedStays(Run(before, cfg), e, cfg);
    }
  }

  /** With room, a blob leaves the staging area only with its last chunk. */
  lemma StagedStays(c: Client, e: Event, cfg: Config)
    requires ValidConfig(cfg) && c.staged.WellFormed(cfg.capacity)
    requires e.Enqueue? ==> HasRoom(c.staged, e.digest, e.data, cfg.capacity)
    ensures var t := Step(c, e, cfg).staged;
      && (forall d | d in c.staged.blobs ::
            d in t.blobs || (e.SendChunk? && c.queue != [] && c.queue[0].last && c.queue[0].digest == d))
      && (e.Enqueue? && |e.data| <= cfg.capacity ==> e.digest in t.blobs)
  {
    hide PutResult, Total, Distinct, Staged.WellFormed, Scheduled, StagedAfter, FrameFor;
    match e
    case Enqueue(d, data) =>
      if d in c.staged.blobs {
        PutAgain(c.staged, d, data, cfg.capacity);
      } else if |data| <= cfg.capacity {
        PutWithRoom(c.staged, d, data, cfg.capacity);
      }
    case SendChunk =>
      if c.queue != [] {
        StagedAfterJob(c.staged, c.queue[0], cfg.capacity);
      }
    case Request(d) =>
      if d in c.staged.blobs {
        PeekKeepsBlobs(c.staged, d, cfg.capacity);
      }
  }

  lemma PutAgain(s: Staged, d: Digest, data: Bytes, capacity: nat)
    requires d in s.blobs
    ensures PutResult(s, d, data, capacity) == s
  {
  }

  lemma AllCleared(c: Client, srv: Intake, uploads: map<Digest, Bytes>, pos: map<Digest, nat>, cfg: Config)
    requires Synced(c, srv, uploads, pos, cfg) && c.queue == []
    ensures srv.open == map[] && c.staged.blobs == map[]
  {
    hide InSync, NeverOffered;
    forall d ensures d !in c.staged.blobs && d !in srv.open {
      if d in uploads {
        Cleared(c, srv, d, uploads[d], cfg.chunkBytes, pos[d]);
      } else {
        NotOffered(c, srv, d);
      }
    }
  }

  lemma Cleared(c: Client, srv: Intake, d: Digest, data: Bytes, chunkBytes: nat, k: nat)
    requires 0 < chunkBytes && c.queue == [] && InSync(c, srv, d, data, chunkBytes, k)
    ensures d !in c.staged.blobs && d !in srv.open
  {
    hide ChunkCount, Progress;
  }

  lemma NotOffered(c: Client, srv: Intake, d: Digest)
    requires NeverOffered(c, srv, d)
    ensures d !in c.staged.blobs && d !in srv.open
  {
  }
}

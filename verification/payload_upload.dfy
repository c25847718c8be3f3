/** Chunked upload from the client's staging area to the server's store
    (client/harmonograf_client/transport.py, `enqueue_payload`, `_maybe_send_chunk`,
    `_peek_payload`, `_handle_payload_request`). */
module PayloadUpload {
  import opened Common
  import opened PayloadStaging
  import opened PayloadIntake

  /** One chunk still to be sent. */
  datatype Job = Job(digest: Digest, total: nat, offset: nat, last: bool)

  datatype Config = Config(chunkBytes: nat, capacity: nat)

  ghost predicate ValidConfig(cfg: Config) {
    0 < cfg.chunkBytes && 0 < cfg.capacity
  }

  datatype Client = Client(staged: Staged, queue: seq<Job>, sent: seq<Frame>)

  datatype Event = Enqueue(digest: Digest, data: Bytes) | SendChunk | Request(digest: Digest)

  function JobAt(d: Digest, total: nat, chunkBytes: nat, i: nat): Job
    requires 0 < chunkBytes
  {
    Job(d, total, Offset(i, chunkBytes), i == ChunkCount(total, chunkBytes) - 1)
  }

  /** The jobs of one upload from chunk `k` on. */
  ghost function Scheduled(d: Digest, total: nat, chunkBytes: nat, k: nat): (r: seq<Job>)
    requires 0 < chunkBytes && k <= ChunkCount(total, chunkBytes)
    ensures |r| == ChunkCount(total, chunkBytes) - k
    decreases ChunkCount(total, chunkBytes) - k
  {
    if k == ChunkCount(total, chunkBytes) then []
    else [JobAt(d, total, chunkBytes, k)] + Scheduled(d, total, chunkBytes, k + 1)
  }

  function NothingToSend(d: Digest): Job {
    Job(d, 0, 0, true)
  }

  /** How many of the oldest blobs must leave. */
  ghost function EvictCount(s: Staged, k: nat, size: nat, capacity: nat): (r: nat)
    requires s.NeedsAll(k, size, capacity) && size <= capacity
    ensures s.LeastEviction(r, size, capacity)
    decreases |s.order| - k
  {
    if Total(s.order[k..], s.blobs) + size <= capacity then k else EvictCount(s, k + 1, size, capacity)
  }

  ghost function PutResult(s: Staged, d: Digest, data: Bytes, capacity: nat): Staged {
    if |data| > capacity || d in s.blobs then s
    else s.Evict(EvictCount(s, 0, |data|, capacity)).Append(d, data)
  }

  /** Bytes `from` up to `to`, the way Python slices: out-of-range ends are clamped. */
  function Slice(data: Bytes, from: nat, to: nat): Bytes {
    if from >= |data| || to <= from then [] else data[from..Min(to, |data|)]
  }

  /** The frame for one job: a chunk, or the eviction notice when the blob is gone. */
  ghost function FrameFor(s: Staged, job: Job, chunkBytes: nat): Frame {
    if job.digest !in s.blobs then Frame(job.digest, job.total, [], true, true)
    else Frame(job.digest, job.total,
               Slice(s.blobs[job.digest], job.offset, Min(job.offset + chunkBytes, job.total)), job.last, false)
  }

  /** The last chunk takes the blob; any other chunk takes it and puts it back. */
  ghost function StagedAfter(s: Staged, job: Job, capacity: nat): Staged {
    if job.digest !in s.blobs then s
    else if job.last then s.Take(job.digest)
    else PutResult(s.Take(job.digest), job.digest, s.blobs[job.digest], capacity)
  }

  ghost function Step(c: Client, e: Event, cfg: Config): Client
    requires ValidConfig(cfg)
  {
    match e
    case Enqueue(d, data) =>
      if |data| > cfg.capacity then c
      else Client(PutResult(c.staged, d, data, cfg.capacity),
                  c.queue + Scheduled(d, |data|, cfg.chunkBytes, 0), c.sent)
    case SendChunk =>
      if c.queue == [] then c
      else Client(StagedAfter(c.staged, c.queue[0], cfg.capacity), c.queue[1..],
                  c.sent + [FrameFor(c.staged, c.queue[0], cfg.chunkBytes)])
    case Request(d) =>
      if d !in c.staged.blobs then c.(queue := c.queue + [NothingToSend(d)])
      else var data := c.staged.blobs[d];
           Client(PutResult(c.staged.Take(d), d, data, cfg.capacity),
                  c.queue + Scheduled(d, |data|, cfg.chunkBytes, 0), c.sent)
  }

  lemma LeastEvictionUnique(s: Staged, j: nat, k: nat, size: nat, capacity: nat)
    requires s.LeastEviction(j, size, capacity) && s.LeastEviction(k, size, capacity)
    ensures j == k
  {
  }

  /** What sending the head job does, in a staging area that is in order: the frame is the
      job's slice of the bytes, which stay until the last one and move to the newest end; or,
      when they are gone, a notice of that. */
  lemma SendMeans(c: Client, cfg: Config)
    requires ValidConfig(cfg) && c.staged.WellFormed(cfg.capacity) && c.queue != []
    ensures var (after, job, s) := (Step(c, SendChunk, cfg), c.queue[0], c.staged);
      && after.queue == c.queue[1..] && |after.sent| == |c.sent| + 1 && after.sent[..|c.sent|] == c.sent
      && var f := after.sent[|c.sent|];
         && f.digest == job.digest && f.total == job.total
         && (f.evicted <==> job.digest !in s.blobs)
         && f.last == (f.evicted || job.last)
         && (f.evicted ==> f.chunk == [] && after.staged == s)
         && (!f.evicted ==>
               var (data, end) := (s.blobs[job.digest], Min(job.offset + cfg.chunkBytes, job.total));
               && (job.offset <= end <= |data| ==> f.chunk == data[job.offset..end])
               && (if job.last then after.staged.order == Without(s.order, job.digest)
                                    && after.staged.blobs == s.blobs - {job.digest}
                   else after.staged.order == Without(s.order, job.digest) + [job.digest]
                        && after.staged.blobs == s.blobs))
  {
    hide Total, Distinct, Without;
    var job, s := c.queue[0], c.staged;
    if job.digest in s.blobs && !job.last {
      PutBackMoves(s, job.digest, cfg.capacity);
    }
  }

  lemma PutBackMoves(s: Staged, d: Digest, capacity: nat)
    requires s.WellFormed(capacity) && d in s.blobs
    ensures PutResult(s.Take(d), d, s.blobs[d], capacity) == Staged(Without(s.order, d) + [d], s.blobs)
  {
    var data := s.blobs[d];
    PeekEvictsNothing(s, d, capacity);
    TakeWellFormed(s, d, capacity);
    hide Total, Distinct, Without;
    assert |data| <= capacity;
    LeastEvictionUnique(s.Take(d), 0, EvictCount(s.Take(d), 0, |data|, capacity), |data|, capacity);
    NothingEvicted(s.Take(d), |data|, capacity);
  }

  // ---- The uploader, in place -------------------------------------------------------

  class Uploader {
    const chunkBytes: nat
    const payloads: PayloadBuffer
    var chunkQueue: seq<Job>
    var sent: seq<Frame>
    var payloadsEvicted: nat

    ghost predicate Valid()
      reads this, payloads
    {
      0 < chunkBytes && payloads.Valid()
    }

    ghost function State(): Client
      reads this, payloads
    {
      Client(payloads.Contents(), chunkQueue, sent)
    }

    ghost function Cfg(): Config {
      Config(chunkBytes, payloads.capacity)
    }

    constructor (chunkBytes: nat, capacity: nat)
      requires 0 < chunkBytes && 0 < capacity
      ensures Valid() && fresh(payloads) && State() == Client(Staged([], map[]), [], [])
      ensures Cfg() == Config(chunkBytes, capacity)
    {
      this.chunkBytes := chunkBytes;
      payloads := new PayloadBuffer(capacity);
      chunkQueue, sent, payloadsEvicted := [], [], 0;
    }

    method Schedule(digest: Digest, total: nat)
      requires 0 < chunkBytes
      modifies this`chunkQueue
      ensures chunkQueue == old(chunkQueue) + Scheduled(digest, total, chunkBytes, 0)
    {
      var chunks := ChunkCount(total, chunkBytes);
      for i := 0 to chunks
        invariant chunkQueue + Scheduled(digest, total, chunkBytes, i)
               == old(chunkQueue) + Scheduled(digest, total, chunkBytes, 0)
      {
        chunkQueue := chunkQueue + [JobAt(digest, total, chunkBytes, i)];
      }
    }

    method EnqueuePayload(digest: Digest, data: Bytes) returns (ok: bool)
      requires Valid()
      modifies this, payloads
      ensures Valid() && ok == (|data| <= payloads.capacity)
      ensures State() == Step(old(State()), Enqueue(digest, data), Cfg())
      ensures payloadsEvicted == old(payloadsEvicted) + if ok then 0 else 1
    {
      ok := payloads.Put(digest, data);
      PutIsPutResult(old(payloads.Contents()), payloads.Contents(), digest, data, payloads.capacity);
      if !ok {
        payloadsEvicted := payloadsEvicted + 1;
        return;
      }
      Schedule(digest, |data|);
    }

    method PeekPayload(digest: Digest) returns (data: Option<Bytes>)
      requires Valid()
      modifies payloads
      ensures Valid()
      ensures data == if digest in old(payloads.blobs) then Some(old(payloads.blobs)[digest]) else None
      ensures payloads.Contents() == if data.None? then old(payloads.Contents())
        else PutResult(old(payloads.Contents()).Take(digest), digest, data.value, payloads.capacity)
    {
      data := payloads.Take(digest);
      if data.Some? {
        ghost var rest := payloads.Contents();
        var ok := payloads.Put(digest, data.value);
        PutIsPutResult(rest, payloads.Contents(), digest, data.value, payloads.capacity);
      }
    }

    method MaybeSendChunk() returns (pushed: bool)
      requires Valid()
      modifies this`chunkQueue, this`sent, payloads
      ensures Valid() && pushed == (old(chunkQueue) != [])
      ensures State() == Step(old(State()), SendChunk, Cfg())
    {
      hide Total, Distinct, Staged.WellFormed, Slice, PutResult, EvictCount, Without, Min;
      if chunkQueue == [] {
        return false;
      }
      var job := chunkQueue[0];
      chunkQueue := chunkQueue[1..];
      var data;
      if job.last {
        data := payloads.Take(job.digest);
      } else {
        data := PeekPayload(job.digest);
      }
      if data.None? {
        sent := sent + [Frame(job.digest, job.total, [], true, true)];
        return true;
      }
      var end := Min(job.offset + chunkBytes, job.total);
      sent := sent + [Frame(job.digest, job.total, Slice(data.value, job.offset, end), job.last, false)];
      return true;
    }

    method HandlePayloadRequest(digest: Digest)
      requires Valid()
      modifies this`chunkQueue, payloads
      ensures Valid() && State() == Step(old(State()), Request(digest), Cfg())
    {
      var data := PeekPayload(digest);
      if data.None? {
        chunkQueue := chunkQueue + [NothingToSend(digest)];
      } else {
        Schedule(digest, |data.value|);
      }
    }
  }

  lemma PutIsPutResult(s: Staged, t: Staged, d: Digest, data: Bytes, capacity: nat)
    requires |data| > capacity || d in s.blobs ==> t == s
    requires |data| <= capacity && d !in s.blobs ==>
      exists k: nat :: s.LeastEviction(k, |data|, capacity) && t == s.Evict(k).Append(d, data)
    ensures t == PutResult(s, d, data, capacity)
  {
    if |data| <= capacity && d !in s.blobs {
      var k: nat :| s.LeastEviction(k, |data|, capacity) && t == s.Evict(k).Append(d, data);
      LeastEvictionUnique(s, k, EvictCount(s, 0, |data|, capacity), |data|, capacity);
    }
  }
}

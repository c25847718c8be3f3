/** The server's reassembly of uploaded payloads
    (server/harmonograf_server/ingest.py, `_PayloadAssembler` and `_handle_payload`). */
module PayloadIntake {
  import opened PayloadStaging

  /** One upload frame. SHA-256 is an arbitrary function from here on. */
  datatype Frame = Frame(digest: Digest, total: nat, chunk: Bytes, last: bool, evicted: bool)

  datatype Partial = Partial(chunks: seq<Bytes>, received: nat)
  datatype Intake = Intake(open: map<Digest, Partial>, store: map<Digest, Bytes>)
  datatype Outcome = Accepted | NoDigest | TooLarge | Mismatch

  function Joined(chunks: seq<Bytes>): (data: Bytes) {
    if chunks == [] then [] else Joined(chunks[..|chunks| - 1]) + chunks[|chunks| - 1]
  }

  ghost function PartialOf(s: Intake, d: Digest): Partial {
    if d in s.open then s.open[d] else Partial([], 0)
  }

  ghost function Added(p: Partial, chunk: Bytes): Partial {
    if chunk == [] then p else Partial(p.chunks + [chunk], p.received + |chunk|)
  }

  /** What one frame does to the stream: its new state and the error raised, if any. */
  ghost function Receive(s: Intake, f: Frame, maxBytes: nat, hash: Bytes -> Digest): (Intake, Outcome) {
    if f.digest == "" then (s, NoDigest)
    else if f.evicted then (s.(open := s.open - {f.digest}), Accepted)
    else
      var p := PartialOf(s, f.digest);
      if f.chunk != [] && p.received + |f.chunk| > maxBytes then
        (s.(open := s.open[f.digest := p.(received := p.received + |f.chunk|)]), TooLarge)
      else
        var q := Added(p, f.chunk);
        var data := Joined(q.chunks);
        if !f.last then (s.(open := s.open[f.digest := q]), Accepted)
        else if hash(data) != f.digest then (s.(open := s.open - {f.digest}), Mismatch)
        else (Intake(s.open - {f.digest}, s.store[f.digest := data]), Accepted)
  }

  /** A run of frames on one stream; an error ends the stream and the rest is not read. */
  ghost function Feed(s: Intake, frames: seq<Frame>, maxBytes: nat, hash: Bytes -> Digest): (r: (Intake, bool))
    decreases |frames|
  {
    if frames == [] then (s, true)
    else
      var (t, outcome) := Receive(s, frames[0], maxBytes, hash);
      if outcome.Accepted? then Feed(t, frames[1..], maxBytes, hash) else (t, false)
  }

  /** Every stored payload hashes to the digest it is stored under. */
  ghost predicate HonestStore(store: map<Digest, Bytes>, hash: Bytes -> Digest) {
    forall d | d in store :: hash(store[d]) == d
  }

  /** No assembler of a live stream holds more than the limit. */
  ghost predicate Bounded(s: Intake, maxBytes: nat) {
    forall d | d in s.open :: |Joined(s.open[d].chunks)| == s.open[d].received <= maxBytes
  }

  lemma JoinedAppend(chunks: seq<Bytes>, chunk: Bytes)
    ensures Joined(chunks + [chunk]) == Joined(chunks) + chunk
  {
    assert (chunks + [chunk])[..|chunks|] == chunks;
  }

  /** Whatever the client sends, in whatever order: bytes are stored under their own digest
      only, stored payloads of other digests stay, and live assemblers stay within the limit. */
  lemma {:induction false} ArbitraryFramesAreSafe(s: Intake, frames: seq<Frame>, maxBytes: nat, hash: Bytes -> Digest)
    requires HonestStore(s.store, hash) && Bounded(s, maxBytes)
    ensures var (t, live) := Feed(s, frames, maxBytes, hash);
      && HonestStore(t.store, hash)
      && s.store.Keys <= t.store.Keys
      && (live ==> Bounded(t, maxBytes))
      && (forall d | d in t.store && (forall f | f in frames :: f.digest != d) ::
          d in s.store && t.store[d] == s.store[d])
    decreases |frames|
  {
    if frames != [] {
      var (t, outcome) := Receive(s, frames[0], maxBytes, hash);
      StepIsSafe(s, frames[0], maxBytes, hash);
      if outcome.Accepted? {
        ArbitraryFramesAreSafe(t, frames[1..], maxBytes, hash);
        assert forall f | f in frames[1..] :: f in frames;
      }
      assert frames[0] in frames;
    }
  }

  lemma StepIsSafe(s: Intake, f: Frame, maxBytes: nat, hash: Bytes -> Digest)
    requires HonestStore(s.store, hash) && Bounded(s, maxBytes)
    ensures var (t, outcome) := Receive(s, f, maxBytes, hash);
      && HonestStore(t.store, hash)
      && s.store.Keys <= t.store.Keys
      && (outcome.Accepted? ==> Bounded(t, maxBytes))
      && (forall d | d in t.store && f.digest != d :: d in s.store && t.store[d] == s.store[d])
  {
    var (t, outcome) := Receive(s, f, maxBytes, hash);
    if outcome.Accepted? {
      forall d | d in t.open ensures |Joined(t.open[d].chunks)| == t.open[d].received <= maxBytes {
        StepStaysBounded(s, f, maxBytes, hash, d);
      }
    }
    hide Joined, Bounded;
  }

  lemma StepStaysBounded(s: Intake, f: Frame, maxBytes: nat, hash: Bytes -> Digest, d: Digest)
    requires Bounded(s, maxBytes) && Receive(s, f, maxBytes, hash).1.Accepted?
    requires d in Receive(s, f, maxBytes, hash).0.open
    ensures var p := Receive(s, f, maxBytes, hash).0.open[d];
      |Joined(p.chunks)| == p.received <= maxBytes
  {
    hide Joined;
    var p := PartialOf(s, d);
    EmptyIsBounded();
    if d == f.digest {
      AddedStaysBounded(p, f.chunk);
    }
  }

  lemma EmptyIsBounded()
    ensures Joined([]) == []
  {
  }

  lemma AddedStaysBounded(p: Partial, chunk: Bytes)
    requires |Joined(p.chunks)| == p.received
    ensures |Joined(Added(p, chunk).chunks)| == Added(p, chunk).received
  {
    JoinedAppend(p.chunks, chunk);
  }

  /** Which frame is refused, and what an accepted one leaves behind, in terms of the bytes
      received so far: a frame without a digest, one that takes them over the limit, and a
      last one whose bytes do not hash to the digest. An eviction notice drops the bytes; a
      good last frame stores them. */
  lemma OutcomeMeans(s: Intake, f: Frame, maxBytes: nat, hash: Bytes -> Digest)
    requires Bounded(s, maxBytes)
    ensures var (t, outcome) := Receive(s, f, maxBytes, hash);
      var bytes := (if f.digest in s.open then Joined(s.open[f.digest].chunks) else []) + f.chunk;
      && (outcome == NoDigest <==> f.digest == "")
      && (outcome == TooLarge <==> f.digest != "" && !f.evicted && |bytes| > maxBytes)
      && (outcome == Mismatch <==>
            f.digest != "" && !f.evicted && |bytes| <= maxBytes && f.last && hash(bytes) != f.digest)
      && (outcome == Accepted && !f.evicted && f.last ==> t.store == s.store[f.digest := bytes])
      && (outcome != Accepted || f.evicted || !f.last ==> t.store == s.store)
      && (outcome == Accepted && (f.evicted || f.last) ==> t.open == s.open - {f.digest})
      && (outcome == Accepted && !f.evicted && !f.last ==>
            && t.open.Keys == s.open.Keys + {f.digest}
            && Joined(t.open[f.digest].chunks) == bytes)
  {
    hide Joined;
    EmptyIsBounded();
    var p := PartialOf(s, f.digest);
    JoinedAppend(p.chunks, f.chunk);
    assert f.chunk == [] ==> Joined(p.chunks) + f.chunk == Joined(p.chunks);
  }

  /** A frame touches nothing but its own digest. */
  lemma ReceiveTouchesOnlyItsDigest(s: Intake, f: Frame, e: Digest, maxBytes: nat, hash: Bytes -> Digest)
    requires e != f.digest
    ensures var t := Receive(s, f, maxBytes, hash).0;
      && (e in t.open <==> e in s.open) && (e in t.open ==> t.open[e] == s.open[e])
      && (e in t.store <==> e in s.store) && (e in t.store ==> t.store[e] == s.store[e])
  {
    hide Joined, Added, PartialOf;
  }

  // ---- Chunking ---------------------------------------------------------------------

  function ChunkCount(total: nat, chunkBytes: nat): (n: nat)
    requires 0 < chunkBytes
    ensures 1 <= n
  {
    var n := (total + chunkBytes - 1) / chunkBytes;
    if n < 1 then 1 else n
  }

  function Min(a: nat, b: nat): nat {
    if a < b then a else b
  }

  function Offset(i: nat, chunkBytes: nat): nat {
    i * chunkBytes
  }

  /** Chunk `i` of an upload, the way the client cuts it. */
  ghost function Chunk(d: Digest, data: Bytes, chunkBytes: nat, i: nat): (f: Frame)
    requires 0 < chunkBytes && i < ChunkCount(|data|, chunkBytes)
  {
    ChunkBounds(|data|, chunkBytes, i);
    Frame(d, |data|, data[Offset(i, chunkBytes)..Min(Offset(i, chunkBytes) + chunkBytes, |data|)],
          i == ChunkCount(|data|, chunkBytes) - 1, false)
  }

  /** Chunks start inside the payload, all but the last are full, and the last reaches the end. */
  lemma ChunkBounds(total: nat, c: nat, i: nat)
    requires 0 < c && i < ChunkCount(total, c)
    ensures Offset(0, c) == 0 <= Offset(i, c) <= total
    ensures Offset(i, c) == total ==> i == total == 0
    ensures i + 1 < ChunkCount(total, c) ==> Offset(i + 1, c) == Offset(i, c) + c < total
    ensures i + 1 == ChunkCount(total, c) ==> total <= Offset(i, c) + c
  {
    var n := (total + c - 1) / c;
    var r := (total + c - 1) % c;
    assert total + c - 1 == n * c + r;
    assert (i + 1) * c == i * c + c;
    if total == 0 {
      SmallQuotient(c - 1, c);
    } else {
      assert n >= 1 by {
        if n < 1 {
          MulMono(n, 0, c);
          assert false;
        }
      }
      MulMono(i + 1, n, c);
      if i + 1 < n {
        MulMono(i + 2, n, c);
        assert (i + 2) * c == i * c + c + c;
      }
    }
  }

  lemma SmallQuotient(a: nat, c: nat)
    requires a < c
    ensures a / c == 0
  {
  }

  lemma MulMono(a: int, b: int, c: nat)
    requires a <= b
    ensures a * c <= b * c
  {
  }

  ghost function Chunks(d: Digest, data: Bytes, chunkBytes: nat, k: nat): (r: seq<Frame>)
    requires 0 < chunkBytes && k <= ChunkCount(|data|, chunkBytes)
    decreases ChunkCount(|data|, chunkBytes) - k
  {
    if k == ChunkCount(|data|, chunkBytes) then []
    else [Chunk(d, data, chunkBytes, k)] + Chunks(d, data, chunkBytes, k + 1)
  }

  /** The server has taken in exactly the first `k` chunks of this upload. */
  ghost predicate Progress(s: Intake, d: Digest, data: Bytes, chunkBytes: nat, k: nat) {
    && 0 < chunkBytes && k <= ChunkCount(|data|, chunkBytes)
    && (k == 0 ==> d !in s.open)
    && (0 < k < ChunkCount(|data|, chunkBytes) ==>
        && Offset(k, chunkBytes) <= |data|
        && d in s.open && s.open[d].received == Offset(k, chunkBytes)
        && Joined(s.open[d].chunks) == data[..Offset(k, chunkBytes)])
    && (k == ChunkCount(|data|, chunkBytes) ==> d !in s.open && d in s.store && s.store[d] == data)
  }

  ghost predicate Uploadable(d: Digest, data: Bytes, maxBytes: nat, hash: Bytes -> Digest) {
    d != "" && hash(data) == d && |data| <= maxBytes
  }

  lemma ChunkIsTakenIn(s: Intake, d: Digest, data: Bytes, c: nat, k: nat, maxBytes: nat, hash: Bytes -> Digest)
    requires Progress(s, d, data, c, k) && k < ChunkCount(|data|, c) && Uploadable(d, data, maxBytes, hash)
    ensures var (t, outcome) := Receive(s, Chunk(d, data, c, k), maxBytes, hash);
      outcome.Accepted? && Progress(t, d, data, c, k + 1)
  {
    hide ChunkCount, Offset, Joined;
    var f := Chunk(d, data, c, k);
    var at := Offset(k, c);
    ChunkBounds(|data|, c, k);
    EmptyIsBounded();
    var p := PartialOf(s, d);
    assert Joined(p.chunks) == data[..at] && p.received == at;
    JoinedAppend(p.chunks, f.chunk);
    SliceOnward(data, at, Min(at + c, |data|));
    assert Joined(Added(p, f.chunk).chunks) == data[..Min(at + c, |data|)];
    assert k + 1 == ChunkCount(|data|, c) ==> data[..Min(at + c, |data|)] == data;
  }

  lemma SliceOnward(data: Bytes, a: nat, b: nat)
    requires a <= b <= |data|
    ensures data[..a] + data[a..b] == data[..b]
  {
  }

  /** The frames of one digest. */
  ghost function Only(frames: seq<Frame>, d: Digest): seq<Frame> {
    if frames == [] then []
    else (if frames[0].digest == d then [frames[0]] else []) + Only(frames[1..], d)
  }

  ghost predicate Interleaving(frames: seq<Frame>, uploads: map<Digest, Bytes>, chunkBytes: nat, k: map<Digest, nat>)
    requires 0 < chunkBytes
  {
    && k.Keys == uploads.Keys
    && (forall d | d in uploads :: k[d] <= ChunkCount(|uploads[d]|, chunkBytes)
          && Only(frames, d) == Chunks(d, uploads[d], chunkBytes, k[d]))
    && (forall d | d !in uploads :: Only(frames, d) == [])
  }

  ghost predicate AllProgress(s: Intake, uploads: map<Digest, Bytes>, chunkBytes: nat, k: map<Digest, nat>)
    requires k.Keys == uploads.Keys
  {
    forall d | d in uploads :: Progress(s, d, uploads[d], chunkBytes, k[d])
  }

  ghost predicate AllUploadable(uploads: map<Digest, Bytes>, maxBytes: nat, hash: Bytes -> Digest) {
    forall d | d in uploads :: Uploadable(d, uploads[d], maxBytes, hash)
  }

  ghost function AtStart(uploads: map<Digest, Bytes>): map<Digest, nat> {
    map d | d in uploads :: 0
  }

  /** Any interleaving of any number of chunked uploads, of any lengths including zero and any
      positive chunk size, is accepted; every payload is stored byte for byte, every assembler
      is cleared, and nothing else changes. */
  lemma InterleavedUploadsRoundTrip(s: Intake, frames: seq<Frame>, uploads: map<Digest, Bytes>, chunkBytes: nat,
                                    maxBytes: nat, hash: Bytes -> Digest)
    requires 0 < chunkBytes && AllUploadable(uploads, maxBytes, hash)
    requires Interleaving(frames, uploads, chunkBytes, AtStart(uploads))
    requires s.open.Keys !! uploads.Keys
    ensures Feed(s, frames, maxBytes, hash) == (Intake(s.open, s.store + uploads), true)
  {
    RestIsTakenIn(s, frames, uploads, chunkBytes, AtStart(uploads), maxBytes, hash);
    var t := Feed(s, frames, maxBytes, hash).0;
    assert t.open == s.open;
    assert t.store == s.store + uploads;
  }

  lemma {:induction false} RestIsTakenIn(s: Intake, frames: seq<Frame>, uploads: map<Digest, Bytes>, c: nat,
                                         k: map<Digest, nat>, maxBytes: nat, hash: Bytes -> Digest)
    requires 0 < c && AllUploadable(uploads, maxBytes, hash) && k.Keys == uploads.Keys
    requires Interleaving(frames, uploads, c, k) && AllProgress(s, uploads, c, k)
    ensures var (t, live) := Feed(s, frames, maxBytes, hash);
      && live
      && (forall d | d in uploads :: d !in t.open && d in t.store && t.store[d] == uploads[d])
      && (forall e | e !in uploads :: Untouched(s, t, e))
    decreases |frames|
  {
    hide Receive, Progress, Chunk, Chunks, Only, Untouched, Uploadable, Interleaving;
    if frames == [] {
      NoneLeft(s, uploads, c, k);
    } else {
      var f := frames[0];
      var (t, outcome) := Receive(s, f, maxBytes, hash);
      HeadIsNextChunk(frames, uploads, c, k);
      ChunkIsTakenIn(s, f.digest, uploads[f.digest], c, k[f.digest], maxBytes, hash);
      var k' := k[f.digest := k[f.digest] + 1];
      forall e | e in uploads ensures Progress(t, e, uploads[e], c, k'[e]) {
        if e != f.digest {
          ProgressUntouched(s, f, e, uploads[e], c, k[e], maxBytes, hash);
        }
      }
      RestIsTakenIn(t, frames[1..], uploads, c, k', maxBytes, hash);
      var u := Feed(t, frames[1..], maxBytes, hash).0;
      forall e | e !in uploads ensures Untouched(s, u, e) {
        UntouchedStep(s, f, e, u, maxBytes, hash);
      }
    }
  }

  lemma NoneLeft(s: Intake, uploads: map<Digest, Bytes>, c: nat, k: map<Digest, nat>)
    requires 0 < c && Interleaving([], uploads, c, k) && AllProgress(s, uploads, c, k)
    ensures forall d | d in uploads :: d !in s.open && d in s.store && s.store[d] == uploads[d]
    ensures forall e | e !in uploads :: Untouched(s, s, e)
  {
    forall d | d in uploads ensures d !in s.open && d in s.store && s.store[d] == uploads[d] {
      ChunksDone(d, uploads[d], c, k[d]);
    }
  }

  lemma ProgressUntouched(s: Intake, f: Frame, d: Digest, data: Bytes, c: nat, k: nat, maxBytes: nat,
                          hash: Bytes -> Digest)
    requires Progress(s, d, data, c, k) && f.digest != d
    ensures Progress(Receive(s, f, maxBytes, hash).0, d, data, c, k)
  {
    ReceiveTouchesOnlyItsDigest(s, f, d, maxBytes, hash);
  }

  lemma UntouchedStep(s: Intake, f: Frame, e: Digest, u: Intake, maxBytes: nat, hash: Bytes -> Digest)
    requires f.digest != e && Untouched(Receive(s, f, maxBytes, hash).0, u, e)
    ensures Untouched(s, u, e)
  {
    ReceiveTouchesOnlyItsDigest(s, f, e, maxBytes, hash);
  }

  ghost predicate Untouched(s: Intake, t: Intake, e: Digest) {
    && (e in t.open <==> e in s.open) && (e in t.open ==> t.open[e] == s.open[e])
    && (e in t.store <==> e in s.store) && (e in t.store ==> t.store[e] == s.store[e])
  }

  lemma ChunksDone(d: Digest, data: Bytes, c: nat, k: nat)
    requires 0 < c && k <= ChunkCount(|data|, c) && Chunks(d, data, c, k) == []
    ensures k == ChunkCount(|data|, c)
  {
  }

  lemma HeadIsNextChunk(frames: seq<Frame>, uploads: map<Digest, Bytes>, c: nat, k: map<Digest, nat>)
    requires 0 < c && frames != [] && Interleaving(frames, uploads, c, k)
    ensures var d := frames[0].digest;
      && d in uploads && k[d] < ChunkCount(|uploads[d]|, c)
      && frames[0] == Chunk(d, uploads[d], c, k[d])
      && Interleaving(frames[1..], uploads, c, k[d := k[d] + 1])
  {
    hide *;
    var f, rest := frames[0], frames[1..];
    var d := f.digest;
    var k' := KnownDigest(frames, uploads, c, k);
    OnlyHead(frames, d);
    ChunksHead(d, uploads[d], c, k[d], f, Only(rest, d));
    forall e ensures e != d ==> Only(frames, e) == Only(rest, e) {
      OnlyHead(frames, e);
    }
    AdvanceOne(frames, rest, uploads, c, k, d);
  }

  lemma KnownDigest(frames: seq<Frame>, uploads: map<Digest, Bytes>, c: nat, k: map<Digest, nat>)
    returns (k': map<Digest, nat>)
    requires 0 < c && frames != [] && Interleaving(frames, uploads, c, k)
    ensures var d := frames[0].digest;
      && d in uploads && d in k && k' == k[d := k[d] + 1]
      && k[d] <= ChunkCount(|uploads[d]|, c)
      && Only(frames, d) == Chunks(d, uploads[d], c, k[d])
  {
    hide Chunks, ChunkCount;
    var d := frames[0].digest;
    assert Only(frames, d) != [];
    k' := k[d := k[d] + 1];
  }

  lemma OnlyHead(frames: seq<Frame>, e: Digest)
    requires frames != []
    ensures Only(frames, e) ==
      if frames[0].digest == e then [frames[0]] + Only(frames[1..], e) else Only(frames[1..], e)
  {
  }

  lemma ChunksHead(d: Digest, data: Bytes, c: nat, k: nat, f: Frame, rest: seq<Frame>)
    requires 0 < c && k <= ChunkCount(|data|, c) && Chunks(d, data, c, k) == [f] + rest
    ensures k < ChunkCount(|data|, c) && f == Chunk(d, data, c, k) && rest == Chunks(d, data, c, k + 1)
  {
    hide Chunk, ChunkCount;
    var all := Chunks(d, data, c, k);
    assert all[0] == f && all[1..] == rest;
  }

  lemma AdvanceOne(frames: seq<Frame>, rest: seq<Frame>, uploads: map<Digest, Bytes>, c: nat, k: map<Digest, nat>,
                   d: Digest)
    requires 0 < c && Interleaving(frames, uploads, c, k) && d in uploads && d in k
    requires k[d] < ChunkCount(|uploads[d]|, c) && Only(rest, d) == Chunks(d, uploads[d], c, k[d] + 1)
    requires forall e | e != d :: Only(frames, e) == Only(rest, e)
    ensures Interleaving(rest, uploads, c, k[d := k[d] + 1])
  {
    hide Chunks, ChunkCount, Only;
  }

  // ---- The handler, in place --------------------------------------------------------

  class Assembler {
    var chunks: seq<Bytes>
    var received: nat

    constructor ()
      ensures chunks == [] && received == 0
    {
      chunks, received := [], 0;
    }

    /** The byte count goes up before the limit is checked; a chunk over it is not kept. */
    method Add(chunk: Bytes, maxBytes: nat) returns (ok: bool)
      modifies this
      ensures received == old(received) + |chunk| && ok == (received <= maxBytes)
      ensures chunks == if ok then old(chunks) + [chunk] else old(chunks)
    {
      received := received + |chunk|;
      if received > maxBytes {
        return false;
      }
      chunks := chunks + [chunk];
      return true;
    }

    method Finalize() returns (data: Bytes)
      ensures data == Joined(chunks)
    {
      data := [];
      for i := 0 to |chunks|
        invariant data == Joined(chunks[..i])
      {
        JoinedAppend(chunks[..i], chunks[i]);
        assert chunks[..i + 1] == chunks[..i] + [chunks[i]];
        data := data + chunks[i];
      }
      assert chunks[..|chunks|] == chunks;
    }
  }

  class StreamContext {
    const maxBytes: nat
    var payloads: map<Digest, Assembler>
    var stored: map<Digest, Bytes>

    /** No assembler serves two digests. */
    ghost predicate Valid()
      reads this`payloads
    {
      forall d, e | d in payloads && e in payloads && payloads[d] == payloads[e] :: d == e
    }

    ghost function Open(): map<Digest, Partial>
      reads this`payloads, payloads.Values
    {
      map d | d in payloads :: Partial(payloads[d].chunks, payloads[d].received)
    }

    ghost function View(): Intake
      reads this`payloads, this`stored, payloads.Values
    {
      Intake(Open(), stored)
    }

    constructor (maxBytes: nat, stored: map<Digest, Bytes>)
      ensures Valid() && this.maxBytes == maxBytes && View() == Intake(map[], stored) && payloads == map[]
    {
      this.maxBytes, this.stored, payloads := maxBytes, stored, map[];
    }

    method FindAssembler(digest: Digest) returns (a: Assembler)
      requires Valid()
      modifies this`payloads
      ensures Valid() && digest in payloads && payloads[digest] == a
      ensures Open() == old(Open())[digest := PartialOf(old(View()), digest)]
      ensures fresh(payloads.Values - old(payloads.Values))
    {
      if digest in payloads {
        return payloads[digest];
      }
      a := new Assembler();
      payloads := payloads[digest := a];
    }

    method AddTo(a: Assembler, digest: Digest, chunk: Bytes) returns (ok: bool)
      requires Valid() && digest in payloads && payloads[digest] == a
      modifies a
      ensures var (p, received) := (old(Open())[digest], old(a.received) + |chunk|);
        && ok == (received <= maxBytes)
        && Open() == old(Open())[digest := Partial(if ok then p.chunks + [chunk] else p.chunks, received)]
    {
      ok := a.Add(chunk, maxBytes);
    }

    method Close(digest: Digest)
      requires Valid()
      modifies this`payloads
      ensures Valid() && Open() == old(Open()) - {digest}
      ensures payloads.Values <= old(payloads.Values)
    {
      payloads := payloads - {digest};
    }

    method HandlePayload(f: Frame, hash: Bytes -> Digest) returns (outcome: Outcome)
      requires Valid()
      modifies this`payloads, this`stored, payloads.Values
      ensures Valid() && View() == Receive(old(View()), f, maxBytes, hash).0
      ensures outcome == Receive(old(View()), f, maxBytes, hash).1
      ensures fresh(payloads.Values - old(payloads.Values))
    {
      hide Joined, Valid, Open;
      if f.digest == "" {
        return NoDigest;
      }
      if f.evicted {
        Close(f.digest);
        return Accepted;
      }
      ghost var p := PartialOf(View(), f.digest);
      var assembler := FindAssembler(f.digest);
      OpenedAs(f.digest);
      if f.chunk != [] {
        var ok := AddTo(assembler, f.digest, f.chunk);
        OpenedAs(f.digest);
        if !ok {
          assert Open() == old(Open())[f.digest := p.(received := p.received + |f.chunk|)];
          return TooLarge;
        }
      }
      assert Open() == old(Open())[f.digest := Added(p, f.chunk)];
      if f.last {
        var data := assembler.Finalize();
        Close(f.digest);
        ReopenClose(old(Open()), f.digest, Added(p, f.chunk));
        if hash(data) != f.digest {
          return Mismatch;
        }
        stored := stored[f.digest := data];
      }
      return Accepted;
    }

    lemma OpenedAs(digest: Digest)
      requires digest in payloads
      ensures digest in Open() && Open()[digest] == Partial(payloads[digest].chunks, payloads[digest].received)
    {
    }
  }

  lemma ReopenClose(open: map<Digest, Partial>, d: Digest, p: Partial)
    ensures open[d := p] - {d} == open - {d}
  {
  }
}

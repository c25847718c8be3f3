/** The frames one connection puts on its stream
    (client/harmonograf_client/transport.py, `_send_loop` and `_maybe_send_hello`). */
module SendLoop {
  import opened EventBuffer

  const SEND_BATCH_MAX: nat := 64
  const PAYLOAD_CHUNK_INTERLEAVE: nat := 10

  datatype Frame = Hello(sessionId: string) | Event(item: Envelope) | Chunk(number: nat) | Heartbeat | Goodbye | Eof

  /** Payload-chunk envelopes have no frame; every other kind has one. */
  predicate Sendable(item: Envelope) {
    !item.kind.PayloadChunk?
  }

  ghost function SendableOf(items: seq<Envelope>): seq<Envelope> {
    if items == [] then []
    else
      var last := items[|items| - 1];
      SendableOf(items[..|items| - 1]) + if last.kind.PayloadChunk? then [] else [last]
  }

  /** The envelopes that have no frame. */
  ghost function FramelessOf(items: seq<Envelope>): seq<Envelope> {
    if items == [] then []
    else
      var last := items[|items| - 1];
      FramelessOf(items[..|items| - 1]) + if last.kind.PayloadChunk? then [last] else []
  }

  lemma {:induction false} WithOrWithoutFrame(items: seq<Envelope>)
    ensures |items| == |SendableOf(items)| + |FramelessOf(items)|
  {
    if items != [] {
      WithOrWithoutFrame(items[..|items| - 1]);
    }
  }

  /** The envelopes, and the payload chunks, of a stream of frames, in order. */
  ghost function EventsOf(frames: seq<Frame>): seq<Envelope> {
    if frames == [] then []
    else EventsOf(frames[..|frames| - 1]) + if frames[|frames| - 1].Event? then [frames[|frames| - 1].item] else []
  }

  ghost function ChunksOf(frames: seq<Frame>): seq<nat> {
    if frames == [] then []
    else ChunksOf(frames[..|frames| - 1]) + if frames[|frames| - 1].Chunk? then [frames[|frames| - 1].number] else []
  }

  lemma FrameAppend(frames: seq<Frame>, f: Frame)
    ensures EventsOf(frames + [f]) == EventsOf(frames) + if f.Event? then [f.item] else []
    ensures ChunksOf(frames + [f]) == ChunksOf(frames) + if f.Chunk? then [f.number] else []
  {
    assert (frames + [f])[..|frames|] == frames;
  }

  lemma SendableAppend(items: seq<Envelope>, item: Envelope)
    ensures SendableOf(items + [item]) == SendableOf(items) + if Sendable(item) then [item] else []
  {
    assert (items + [item])[..|items|] == items;
  }

  lemma {:induction false} SendableConcat(a: seq<Envelope>, b: seq<Envelope>)
    ensures SendableOf(a + b) == SendableOf(a) + SendableOf(b)
  {
    if b == [] {
      assert a + b == a;
    } else {
      var init, last := b[..|b| - 1], b[|b| - 1];
      SendableConcat(a, init);
      assert a + b == (a + init) + [last];
      SendableAppend(a + init, last);
    }
  }

  /** Every envelope has a frame: clients push no payload-chunk envelopes. */
  ghost predicate AllSendable(items: seq<Envelope>) {
    forall e | e in items :: !e.kind.PayloadChunk?
  }

  lemma {:induction false} AllAreSent(items: seq<Envelope>)
    requires AllSendable(items)
    ensures SendableOf(items) == items
  {
    if items != [] {
      AllAreSent(items[..|items| - 1]);
      assert items[|items| - 1] in items;
      assert items == items[..|items| - 1] + [items[|items| - 1]];
    }
  }

  predicate NeedsHello(f: Frame) {
    f.Event? || f.Heartbeat? || f.Goodbye?
  }

  /** The stream's grammar, with Hello at position `at` (-1 when it was not sent): there is no
      other Hello, it precedes every envelope, heartbeat and goodbye (payload chunks are not
      gated), it names the session of the first envelope, which follows it, or the default
      when that has none; nothing follows the end of the stream, and only the end follows a
      goodbye. */
  ghost predicate Grammar(frames: seq<Frame>, at: int, home: string) {
    && -1 <= at < |frames|
    && (forall i | 0 <= i < |frames| :: frames[i].Hello? <==> i == at)
    && (forall j | 0 <= j < |frames| && (frames[j].Event? || frames[j].Heartbeat? || frames[j].Goodbye?) :: 0 <= at < j)
    && (0 <= at ==>
          && at + 1 < |frames| && frames[at + 1].Event?
          && frames[at].sessionId ==
               if frames[at + 1].item.sessionId != "" then frames[at + 1].item.sessionId else home)
    && (forall i | 0 <= i < |frames| && frames[i].Eof? :: i == |frames| - 1)
    && (forall i | 0 <= i < |frames| && frames[i].Goodbye? && i + 1 < |frames| :: frames[i + 1].Eof?)
  }

  function HelloSession(item: Envelope, home: string): string {
    if item.sessionId != "" then item.sessionId else home
  }

  /** Every payload chunk follows Hello. */
  ghost predicate ChunksFollow(frames: seq<Frame>, at: int) {
    forall i | 0 <= i < |frames| && frames[i].Chunk? :: 0 <= at < i
  }

  lemma ChunksFollowEvent(frames: seq<Frame>, at: int, f: Frame)
    requires !f.Chunk?
    ensures ChunksFollow(frames + [f], at) <==> ChunksFollow(frames, at)
  {
    assert forall i | 0 <= i < |frames| :: (frames + [f])[i] == frames[i];
  }

  lemma ChunksFollowHello(frames: seq<Frame>, h: Frame)
    requires h.Hello?
    ensures ChunksFollow(frames + [h], |frames|) <==> ChunksFollow(frames, -1)
  {
    assert forall i | 0 <= i < |frames| :: (frames + [h])[i] == frames[i];
  }

  lemma ChunksFollowChunk(frames: seq<Frame>, at: int, f: Frame)
    requires f.Chunk? && at < |frames|
    ensures ChunksFollow(frames + [f], at) <==> ChunksFollow(frames, at) && 0 <= at
  {
    assert (frames + [f])[|frames|] == f && forall i | 0 <= i < |frames| :: (frames + [f])[i] == frames[i];
  }

  ghost predicate Finished(frames: seq<Frame>) {
    exists i :: 0 <= i < |frames| && (frames[i].Goodbye? || frames[i].Eof?)
  }

  /** Some frame from `lo` up to `hi` is not an envelope. */
  ghost predicate Break(frames: seq<Frame>, lo: nat, hi: nat)
    requires hi <= |frames|
  {
    exists r :: lo <= r < hi && !frames[r].Event?
  }

  /** From `start` on, more than ten envelopes in a row are sent only when no payload chunk is
      left to send. */
  ghost predicate Paced(frames: seq<Frame>, start: nat) {
    forall p, q | start <= p && p + 10 < q < |frames| && frames[p].Event? && frames[q].Chunk? ::
      Break(frames, p, p + 11)
  }

  /** From `start` on there are no more than ten envelopes in a row, and at most `n` at the end. */
  ghost predicate ShortRuns(frames: seq<Frame>, start: nat, n: nat) {
    && (forall p | start <= p && p + PAYLOAD_CHUNK_INTERLEAVE < |frames| && frames[p].Event? ::
          Break(frames, p, p + PAYLOAD_CHUNK_INTERLEAVE + 1))
    && (start + n < |frames| ==> Break(frames, |frames| - n - 1, |frames|))
  }

  lemma BreakStays(frames: seq<Frame>, more: seq<Frame>, lo: nat, hi: nat)
    requires hi <= |frames| && Break(frames, lo, hi)
    ensures Break(frames + more, lo, hi)
  {
    var r :| lo <= r < hi && !frames[r].Event?;
    assert !(frames + more)[r].Event?;
  }

  lemma ShortRunsBreak(frames: seq<Frame>, start: nat, n: nat, f: Frame)
    requires ShortRuns(frames, start, n) && !f.Event?
    ensures ShortRuns(frames + [f], start, 0)
  {
    var more := frames + [f];
    assert !more[|frames|].Event?;
    forall p | start <= p && p + PAYLOAD_CHUNK_INTERLEAVE < |more| && more[p].Event?
      ensures Break(more, p, p + PAYLOAD_CHUNK_INTERLEAVE + 1)
    {
      if p + PAYLOAD_CHUNK_INTERLEAVE < |frames| {
        BreakStays(frames, [f], p, p + PAYLOAD_CHUNK_INTERLEAVE + 1);
      }
    }
  }

  lemma ShortRunsEvent(frames: seq<Frame>, start: nat, n: nat, item: Envelope)
    requires ShortRuns(frames, start, n) && n < PAYLOAD_CHUNK_INTERLEAVE
    ensures ShortRuns(frames + [Event(item)], start, n + 1)
  {
    var more := frames + [Event(item)];
    if start + n < |frames| {
      BreakStays(frames, [Event(item)], |frames| - n - 1, |frames|);
      var r :| |frames| - n - 1 <= r < |frames| && !more[r].Event?;
    }
    forall p | start <= p && p + PAYLOAD_CHUNK_INTERLEAVE < |more| && more[p].Event?
      ensures Break(more, p, p + PAYLOAD_CHUNK_INTERLEAVE + 1)
    {
      if p + PAYLOAD_CHUNK_INTERLEAVE < |frames| {
        BreakStays(frames, [Event(item)], p, p + PAYLOAD_CHUNK_INTERLEAVE + 1);
      }
    }
  }

  lemma ShortRunsArePaced(frames: seq<Frame>, start: nat, n: nat)
    requires ShortRuns(frames, start, n)
    ensures Paced(frames, start)
  {
  }

  lemma PacedGrows(frames: seq<Frame>, start: nat, f: Frame)
    requires Paced(frames, start) && !f.Chunk?
    ensures Paced(frames + [f], start)
  {
    var more := frames + [f];
    forall p, q | start <= p && p + PAYLOAD_CHUNK_INTERLEAVE < q < |more| && more[p].Event? && more[q].Chunk?
      ensures Break(more, p, p + PAYLOAD_CHUNK_INTERLEAVE + 1)
    {
      assert frames[p].Event? && frames[q].Chunk?;
      BreakStays(frames, [f], p, p + PAYLOAD_CHUNK_INTERLEAVE + 1);
    }
  }

  /** From `start` on there is nothing but Hello, envelopes and payload chunks. */
  ghost predicate OnlyTraffic(frames: seq<Frame>, start: nat) {
    forall i | start <= i < |frames| :: frames[i].Hello? || frames[i].Event? || frames[i].Chunk?
  }

  lemma GrammarPlain(frames: seq<Frame>, at: int, home: string, f: Frame)
    requires Grammar(frames, at, home) && !Finished(frames)
    requires f.Chunk? || (NeedsHello(f) && 0 <= at) || f.Eof?
    ensures Grammar(frames + [f], at, home)
    ensures !f.Goodbye? && !f.Eof? ==> !Finished(frames + [f])
  {
  }

  lemma GrammarHello(frames: seq<Frame>, home: string, item: Envelope)
    requires Grammar(frames, -1, home) && !Finished(frames)
    ensures var more := frames + [Hello(HelloSession(item, home))] + [Event(item)];
      Grammar(more, |frames|, home) && !Finished(more)
  {
  }

  lemma GrammarEnd(frames: seq<Frame>, at: int, home: string)
    requires Grammar(frames, at, home) && !Finished(frames) && 0 <= at
    ensures Grammar(frames + [Goodbye] + [Eof], at, home)
  {
  }

  /** One more turn ends with these frames. */
  ghost function Marked(marks: seq<nat>, frames: seq<Frame>): seq<nat> {
    marks + [|frames|]
  }

  /** What reaches the client between two turns of the loop. */
  datatype Traffic = Traffic(items: seq<Envelope>, chunks: seq<nat>, heartbeatDue: bool)

  ghost function ItemsOf(turns: seq<Traffic>): seq<Envelope> {
    if turns == [] then [] else ItemsOf(turns[..|turns| - 1]) + turns[|turns| - 1].items
  }

  ghost function ChunksIn(turns: seq<Traffic>): seq<nat> {
    if turns == [] then [] else ChunksIn(turns[..|turns| - 1]) + turns[|turns| - 1].chunks
  }

  lemma TurnsAppend(turns: seq<Traffic>, t: Traffic)
    ensures ItemsOf(turns + [t]) == ItemsOf(turns) + t.items && ChunksIn(turns + [t]) == ChunksIn(turns) + t.chunks
  {
    assert (turns + [t])[..|turns|] == turns;
  }

  /** `marks[i + 1]` is the number of frames at the end of turn `i`: by then exactly the chunks
      that had arrived were sent. */
  ghost predicate MarkedAt(marks: seq<nat>, frames: seq<Frame>, waiting: seq<nat>, turns: seq<Traffic>, i: nat)
    requires i < |turns| && |marks| == |turns| + 1
  {
    marks[i] <= marks[i + 1] <= |frames| && ChunksOf(frames[..marks[i + 1]]) == waiting + ChunksIn(turns[..i + 1])
  }

  ghost predicate Marks(marks: seq<nat>, frames: seq<Frame>, waiting: seq<nat>, turns: seq<Traffic>) {
    && |marks| == |turns| + 1 && marks[0] == 0
    && (forall i | 0 <= i < |marks| :: marks[i] <= |frames|)
    && (forall i | 0 <= i < |turns| :: MarkedAt(marks, frames, waiting, turns, i))
  }

  /** A chunk waits for turn `i` (one that came before it, or one left from before the first),
      and still no envelope was sent by its end. */
  ghost predicate EarlyChunk(marks: seq<nat>, frames: seq<Frame>, waiting: seq<nat>, turns: seq<Traffic>, i: nat)
    requires i < |turns| && |marks| == |turns| + 1 && marks[i + 1] <= |frames|
  {
    (turns[i].chunks != [] || (i == 0 && waiting != [])) && EventsOf(frames[..marks[i + 1]]) == []
  }

  ghost predicate NoEarlyChunk(marks: seq<nat>, frames: seq<Frame>, waiting: seq<nat>, turns: seq<Traffic>)
    requires Marks(marks, frames, waiting, turns)
  {
    forall i | 0 <= i < |turns| :: !EarlyChunk(marks, frames, waiting, turns, i)
  }

  lemma SameAt(marks: seq<nat>, frames: seq<Frame>, waiting: seq<nat>, turns: seq<Traffic>, mark: seq<nat>,
               more: seq<Frame>, turn: seq<Traffic>, i: nat)
    requires i < |turns| && |marks| == |turns| + 1 && MarkedAt(marks, frames, waiting, turns, i) && frames <= more
    requires |turn| == |mark|
    ensures |marks + mark| == |turns + turn| + 1 && MarkedAt(marks + mark, more, waiting, turns + turn, i)
    ensures EarlyChunk(marks + mark, more, waiting, turns + turn, i) == EarlyChunk(marks, frames, waiting, turns, i)
  {
    hide EventsOf, ChunksOf, ChunksIn;
    assert more[..marks[i + 1]] == frames[..marks[i + 1]] && (turns + turn)[..i + 1] == turns[..i + 1];
  }

  lemma MarksStep(marks: seq<nat>, frames: seq<Frame>, waiting: seq<nat>, turns: seq<Traffic>, t: Traffic,
                  more: seq<Frame>)
    requires Marks(marks, frames, waiting, turns) && frames <= more
    requires ChunksOf(more) == waiting + ChunksIn(turns + [t])
    ensures Marks(marks + [|more|], more, waiting, turns + [t])
    ensures NoEarlyChunk(marks + [|more|], more, waiting, turns + [t]) <==>
              NoEarlyChunk(marks, frames, waiting, turns)
              && (t.chunks != [] || (turns == [] && waiting != []) ==> EventsOf(more) != [])
  {
    hide EventsOf, ChunksOf, ChunksIn, EarlyChunk, MarkedAt;
    var marks', turns' := marks + [|more|], turns + [t];
    forall i | 0 <= i < |turns|
      ensures MarkedAt(marks', more, waiting, turns', i)
      ensures EarlyChunk(marks', more, waiting, turns', i) == EarlyChunk(marks, frames, waiting, turns, i)
    {
      SameAt(marks, frames, waiting, turns, [|more|], more, [t], i);
    }
    LastMark(marks, waiting, turns, t, more);
  }

  lemma LastMark(marks: seq<nat>, waiting: seq<nat>, turns: seq<Traffic>, t: Traffic, more: seq<Frame>)
    requires |marks| == |turns| + 1 && marks[|turns|] <= |more|
    requires ChunksOf(more) == waiting + ChunksIn(turns + [t])
    ensures MarkedAt(marks + [|more|], more, waiting, turns + [t], |turns|)
    ensures EarlyChunk(marks + [|more|], more, waiting, turns + [t], |turns|) <==>
              (t.chunks != [] || (turns == [] && waiting != [])) && EventsOf(more) == []
  {
    hide EventsOf, ChunksOf, ChunksIn;
    assert more[..|more|] == more && (turns + [t])[..|turns| + 1] == turns + [t];
  }

  lemma MarksGrow(marks: seq<nat>, frames: seq<Frame>, waiting: seq<nat>, turns: seq<Traffic>, more: seq<Frame>)
    requires Marks(marks, frames, waiting, turns) && frames <= more
    ensures Marks(marks, more, waiting, turns)
    ensures NoEarlyChunk(marks, more, waiting, turns) <==> NoEarlyChunk(marks, frames, waiting, turns)
  {
    hide EventsOf, ChunksOf, ChunksIn, EarlyChunk, MarkedAt;
    assert marks + [] == marks && turns + [] == turns;
    forall i | 0 <= i < |turns|
      ensures MarkedAt(marks, more, waiting, turns, i)
      ensures EarlyChunk(marks, more, waiting, turns, i) == EarlyChunk(marks, frames, waiting, turns, i)
    {
      SameAt(marks, frames, waiting, turns, [], more, [], i);
    }
  }

  /** By the end of every turn an envelope was sent exactly if one waited before the first or
      has been pushed by then. */
  ghost predicate Fed(marks: seq<nat>, frames: seq<Frame>, queue: seq<Envelope>, turns: seq<Traffic>) {
    |marks| == |turns| + 1 && forall i | 0 <= i < |turns| :: FedAt(marks, frames, queue, turns, i)
  }

  ghost predicate FedAt(marks: seq<nat>, frames: seq<Frame>, queue: seq<Envelope>, turns: seq<Traffic>, i: nat)
    requires i < |turns| && |marks| == |turns| + 1
  {
    && marks[i + 1] <= |frames|
    && (EventsOf(frames[..marks[i + 1]]) != [] <==> queue != [] || ItemsOf(turns[..i + 1]) != [])
  }

  /** A chunk waits for turn `i`, and by then no envelope has waited or been pushed. */
  ghost predicate Starved(queue: seq<Envelope>, waiting: seq<nat>, turns: seq<Traffic>, i: nat)
    requires i < |turns|
  {
    (turns[i].chunks != [] || (i == 0 && waiting != [])) && queue == [] && ItemsOf(turns[..i + 1]) == []
  }

  lemma FedStep(marks: seq<nat>, frames: seq<Frame>, queue: seq<Envelope>, turns: seq<Traffic>, t: Traffic,
                more: seq<Frame>)
    requires Fed(marks, frames, queue, turns) && frames <= more
    requires EventsOf(more) != [] <==> queue != [] || ItemsOf(turns + [t]) != []
    ensures Fed(marks + [|more|], more, queue, turns + [t])
  {
    hide EventsOf, ItemsOf;
    var marks', turns' := marks + [|more|], turns + [t];
    forall i | 0 <= i < |turns'| ensures FedAt(marks', more, queue, turns', i) {
      if i < |turns| {
        assert FedAt(marks, frames, queue, turns, i);
        assert more[..marks[i + 1]] == frames[..marks[i + 1]] && turns'[..i + 1] == turns[..i + 1];
      } else {
        assert more[..|more|] == more && turns'[..i + 1] == turns';
      }
    }
  }

  lemma FedGrow(marks: seq<nat>, frames: seq<Frame>, queue: seq<Envelope>, turns: seq<Traffic>, more: seq<Frame>)
    requires Fed(marks, frames, queue, turns) && frames <= more
    ensures Fed(marks, more, queue, turns)
  {
    hide EventsOf, ItemsOf;
    forall i | 0 <= i < |turns| ensures FedAt(marks, more, queue, turns, i) {
      assert FedAt(marks, frames, queue, turns, i);
      assert more[..marks[i + 1]] == frames[..marks[i + 1]];
    }
  }

  lemma NoneStarved(marks: seq<nat>, frames: seq<Frame>, queue: seq<Envelope>, waiting: seq<nat>, turns: seq<Traffic>)
    requires Marks(marks, frames, waiting, turns) && Fed(marks, frames, queue, turns)
    ensures NoEarlyChunk(marks, frames, waiting, turns) <==>
      forall i | 0 <= i < |turns| :: !Starved(queue, waiting, turns, i)
  {
    hide EventsOf, ItemsOf, ChunksOf, ChunksIn;
    forall i | 0 <= i < |turns|
      ensures EarlyChunk(marks, frames, waiting, turns, i) == Starved(queue, waiting, turns, i)
    {
      assert FedAt(marks, frames, queue, turns, i);
    }
  }

  // ---- Envelopes in push order ------------------------------------------------------

  /** Where the envelopes that have a frame stand among all. */
  lemma {:induction false} SendablePlaces(items: seq<Envelope>) returns (at: seq<nat>)
    ensures Subsequence(SendableOf(items), items, at)
  {
    hide Subsequence;
    NoPlaces();
    if items == [] {
      at := [];
    } else {
      var init, last := items[..|items| - 1], items[|items| - 1];
      at := SendablePlaces(init);
      assert items == init + [last];
      OnePlaceMore(SendableOf(init), init, at, last);
      assert !Sendable(last) ==> SendableOf(items) == SendableOf(init);
      if Sendable(last) {
        at := at + [|init|];
      }
    }
  }

  lemma NoPlaces()
    ensures Subsequence([], [], [])
  {
  }

  lemma OnePlaceMore(kept: seq<Envelope>, items: seq<Envelope>, at: seq<nat>, item: Envelope)
    requires Subsequence(kept, items, at)
    ensures Subsequence(kept, items + [item], at) && Subsequence(kept + [item], items + [item], at + [|items|])
  {
  }

  /** What was sent on this connection is a subsequence of what was ever pushed. */
  lemma SentInPushOrder(run: Run, earlier: seq<Envelope>, taken: seq<Envelope>) returns (slots: seq<nat>)
    requires run.Accounted() && run.popped == earlier + taken
    ensures Subsequence(SendableOf(taken), run.offered, slots)
  {
    hide SendableOf;
    var at := SendablePlaces(taken);
    slots := seq(|at|, k requires 0 <= k < |at| => run.slots[|earlier| + at[k]]);
    assert forall k | 0 <= k < |taken| :: (run.popped + run.held)[|earlier| + k] == taken[k];
  }

  /** Everything that waited or came in was sent, had no frame, is still held, or was evicted. */
  lemma Balance(before: Run, after: Run, frames: seq<Frame>, taken: seq<Envelope>, arrived: seq<Envelope>)
    requires before.Accounted() && after.Accounted()
    requires after.popped == before.popped + taken && after.offered == before.offered + arrived
    requires EventsOf(frames) == SendableOf(taken)
    ensures |before.held| + |arrived|
         == |EventsOf(frames)| + |FramelessOf(taken)| + |after.held| + |after.evicted| - |before.evicted|
  {
    hide Subsequence;
    WithOrWithoutFrame(taken);
  }

  // ---- The loop ---------------------------------------------------------------------

  /** The send loop of one connection. `events` is the client's event buffer and `chunks` the
      payload chunks still to send, which other threads fill between turns. */
  class Sender {
    const home: string
    const events: EventRingBuffer
    var chunks: seq<nat>
    var helloSent: bool
    var resumeToken: string
    var frames: seq<Frame>
    ghost var helloAt: int
    ghost var taken: seq<Envelope>
    ghost var chunksTaken: seq<nat>

    ghost predicate Valid()
      reads this`frames, this`helloAt, this`helloSent, this`taken, this`chunksTaken
    {
      && Grammar(frames, helloAt, home) && (helloSent <==> 0 <= helloAt)
      && EventsOf(frames) == SendableOf(taken)
      && ChunksOf(frames) == chunksTaken
      && !Finished(frames)
    }

    ghost predicate Gated()
      reads this`frames, this`helloAt
    {
      ChunksFollow(frames, helloAt)
    }

    constructor (home: string, events: EventRingBuffer)
      ensures Valid() && this.home == home && this.events == events
      ensures taken == [] && chunks == chunksTaken == [] && frames == [] && !helloSent
    {
      this.home, this.events := home, events;
      chunks, helloSent, resumeToken, frames := [], false, "", [];
      helloAt, taken, chunksTaken := -1, [], [];
    }

    /** An envelope that has a frame is queued, behind Hello when it is the first. */
    method SendItem(item: Envelope) returns (sent: bool)
      requires Valid()
      modifies this`helloSent, this`resumeToken, this`frames, this`helloAt, this`taken
      ensures Valid() && taken == old(taken) + [item] && sent == !item.kind.PayloadChunk?
      ensures frames == old(frames)
        + (if sent && !old(helloSent) then [Hello(if item.sessionId != "" then item.sessionId else home)] else [])
        + (if sent then [Event(item)] else [])
      ensures resumeToken == if sent && item.spanId != "" then item.spanId else old(resumeToken)
      ensures Gated() == old(Gated()) && (sent || old(helloSent) <==> helloSent)
    {
      hide Grammar, EventsOf, ChunksOf, SendableOf, Finished, ChunksFollow;
      SendableAppend(taken, item);
      taken := taken + [item];
      if !Sendable(item) {
        return false;
      }
      if !helloSent {
        var hello := Hello(HelloSession(item, home));
        NoHelloYet(frames, helloAt, home);
        GrammarHello(frames, home, item);
        FrameAppend(frames, hello);
        FrameAppend(frames + [hello], Event(item));
        ChunksFollowHello(frames, hello);
        helloAt := |frames|;
        frames := frames + [hello];
        helloSent := true;
      } else {
        GrammarPlain(frames, helloAt, home, Event(item));
        FrameAppend(frames, Event(item));
      }
      ChunksFollowEvent(frames, helloAt, Event(item));
      resumeToken := if item.spanId != "" then item.spanId else resumeToken;
      frames := frames + [Event(item)];
      return true;
    }

    method MaybeSendChunk() returns (pushed: bool)
      requires Valid()
      modifies this`chunks, this`frames, this`chunksTaken
      ensures Valid() && pushed == (old(chunks) != [])
      ensures chunksTaken + chunks == old(chunksTaken + chunks)
      ensures if pushed then chunks == old(chunks)[1..] && frames == old(frames) + [Chunk(old(chunks)[0])]
              else chunks == old(chunks) && frames == old(frames)
      ensures Gated() <==> old(Gated()) && (pushed ==> helloSent)
    {
      hide Grammar, EventsOf, ChunksOf, SendableOf, Finished, ChunksFollow;
      if chunks == [] {
        return false;
      }
      var number := chunks[0];
      GrammarPlain(frames, helloAt, home, Chunk(number));
      FrameAppend(frames, Chunk(number));
      HelloInside(frames, helloAt, home);
      ChunksFollowChunk(frames, helloAt, Chunk(number));
      chunks, chunksTaken := chunks[1..], chunksTaken + [number];
      frames := frames + [Chunk(number)];
      return true;
    }

    /** The pace so far in this turn: runs are short while chunks wait. */
    ghost predicate Pace(start: nat, sinceChunk: nat)
      reads this`frames, this`chunks
    {
      if chunks == [] then Paced(frames, start)
      else sinceChunk <= PAYLOAD_CHUNK_INTERLEAVE && ShortRuns(frames, start, sinceChunk)
    }

    method SendBatch(batch: seq<Envelope>)
      requires Valid()
      modifies this`chunks, this`helloSent, this`resumeToken, this`frames, this`helloAt, this`taken, this`chunksTaken
      ensures Valid() && taken == old(taken) + batch && old(frames) <= frames
      ensures chunksTaken + chunks == old(chunksTaken + chunks)
      ensures (exists n :: Pace(|old(frames)|, n)) && OnlyTraffic(frames, |old(frames)|)
      ensures Gated() == old(Gated()) && (helloSent || chunks == old(chunks))
    {
      hide Grammar, EventsOf, ChunksOf, SendableOf, Finished, ShortRuns, Paced, Valid, Gated;
      ghost var start := |frames|;
      var sentSinceChunk := 0;
      PaceStart(start);
      for i := 0 to |batch|
        invariant Valid() && taken == old(taken) + batch[..i] && old(frames) <= frames
        invariant chunksTaken + chunks == old(chunksTaken + chunks)
        invariant Pace(start, sentSinceChunk) && sentSinceChunk < PAYLOAD_CHUNK_INTERLEAVE
        invariant OnlyTraffic(frames, start)
        invariant Gated() == old(Gated()) && (helloSent || (chunks == old(chunks) && sentSinceChunk == 0))
      {
        ghost var before := frames;
        assert batch[..i + 1] == batch[..i] + [batch[i]];
        var sent := SendItem(batch[i]);
        PaceItem(before, start, sentSinceChunk, batch[i]);
        if sent {
          sentSinceChunk := sentSinceChunk + 1;
        }
        if sentSinceChunk >= PAYLOAD_CHUNK_INTERLEAVE {
          before := frames;
          var pushed := MaybeSendChunk();
          PaceChunk(before, pushed, start, sentSinceChunk);
          sentSinceChunk := 0;
        }
      }
      assert batch[..|batch|] == batch;
    }

    lemma PaceStart(start: nat)
      requires start == |frames|
      ensures Pace(start, 0)
    {
    }

    lemma PaceItem(before: seq<Frame>, start: nat, n: nat, item: Envelope)
      requires if chunks == [] then Paced(before, start) else ShortRuns(before, start, n)
      requires n < PAYLOAD_CHUNK_INTERLEAVE
      requires frames == before
        || (Sendable(item) && frames == before + [Event(item)])
        || (Sendable(item) && exists session: string :: frames == before + [Hello(session)] + [Event(item)])
      ensures Pace(start, if frames == before then n else n + 1)
    {
      hide ShortRuns, Paced;
      if frames != before {
        if frames == before + [Event(item)] {
          if chunks == [] { PacedGrows(before, start, Event(item)); } else { ShortRunsEvent(before, start, n, item); }
        } else {
          var session: string :| frames == before + [Hello(session)] + [Event(item)];
          var h := Hello(session);
          if chunks == [] {
            PacedGrows(before, start, h);
            PacedGrows(before + [h], start, Event(item));
          } else {
            ShortRunsBreak(before, start, n, h);
            ShortRunsEvent(before + [h], start, 0, item);
            ShortRunsWeaker(frames, start, 1, n + 1);
          }
        }
      }
    }

    lemma PaceChunk(before: seq<Frame>, pushed: bool, start: nat, n: nat)
      requires if pushed then ShortRuns(before, start, n) && exists c: nat :: frames == before + [Chunk(c)]
               else chunks == [] && frames == before && Paced(before, start)
      ensures Pace(start, 0)
    {
      hide ShortRuns, Paced;
      if pushed {
        var c: nat :| frames == before + [Chunk(c)];
        ShortRunsBreak(before, start, n, Chunk(c));
        ShortRunsArePaced(frames, start, 0);
      }
    }

    /** One turn: up to a batch of envelopes in buffer order with chunks interleaved, then all
        remaining chunks, then a heartbeat when one is due and Hello has been sent. A chunk
        gets ahead of Hello exactly when one waits, Hello has not been sent, and none of the
        envelopes about to be taken has a frame. */
    method Turn(heartbeatDue: bool)
      requires Valid() && events.Valid()
      modifies this, events`queue, events`run
      ensures Valid() && events.Valid() && old(frames) <= frames
      ensures chunks == [] && chunksTaken == old(chunksTaken + chunks)
      ensures var n := Least(64, |old(events.queue)|);
        && taken == old(taken) + old(events.queue)[..n]
        && events.queue == old(events.queue)[n..] && events.run == old(events.run).Popped(n)
      ensures Paced(frames, |old(frames)|)
      ensures if heartbeatDue && helloSent
        then |old(frames)| < |frames| && frames[|frames| - 1] == Heartbeat
             && OnlyTraffic(frames[..|frames| - 1], |old(frames)|)
        else OnlyTraffic(frames, |old(frames)|)
      ensures var n := Least(64, |old(events.queue)|);
        var opens := old(helloSent) || SendableOf(old(events.queue)[..n]) != [];
        (helloSent <==> opens) && (Gated() <==> old(Gated()) && (old(chunks) != [] ==> opens))
    {
      hide Grammar, EventsOf, ChunksOf, SendableOf, Finished, ShortRuns, Paced, Valid, Gated, EventRingBuffer.Valid;
      HelloIffEvents();
      var batch := events.PopBatch(SEND_BATCH_MAX);
      PoppedPart(old(events.queue), batch, events.queue);
      SendableConcat(taken, batch);
      SendBatch(batch);
      HelloIffEvents();
      FlushChunks(|old(frames)|);
      if heartbeatDue && helloSent {
        ghost var before := frames;
        SendHeartbeat(|old(frames)|);
        assert frames[..|frames| - 1] == before;
      }
    }

    method FlushChunks(ghost start: nat)
      requires Valid() && start <= |frames| && exists n :: Pace(start, n)
      modifies this`chunks, this`frames, this`chunksTaken
      ensures Valid() && old(frames) <= frames && chunks == [] && chunksTaken == old(chunksTaken + chunks)
      ensures Paced(frames, start) && OnlyTraffic(frames, |old(frames)|)
      ensures Gated() <==> old(Gated()) && (old(chunks) != [] ==> helloSent)
    {
      hide Grammar, EventsOf, ChunksOf, SendableOf, Finished, ShortRuns, Paced, Valid, Gated;
      ghost var n: nat :| Pace(start, n);
      ghost var sentOne := false;
      while true
        invariant Valid() && old(frames) <= frames && Pace(start, n) && OnlyTraffic(frames, |old(frames)|)
        invariant chunksTaken + chunks == old(chunksTaken + chunks)
        invariant sentOne || chunks == old(chunks)
        invariant sentOne ==> old(chunks) != []
        invariant Gated() <==> old(Gated()) && (sentOne ==> helloSent)
        decreases |chunks|
      {
        ghost var before := frames;
        ghost var waiting := chunks;
        var pushed := MaybeSendChunk();
        if !pushed {
          break;
        }
        assert waiting != [];
        PaceChunk(before, pushed, start, n);
        n, sentOne := 0, true;
      }
    }

    method SendHeartbeat(ghost start: nat)
      requires Valid() && helloSent && start <= |frames| && Paced(frames, start)
      modifies this`frames
      ensures Valid() && frames == old(frames) + [Heartbeat] && Paced(frames, start)
      ensures Gated() == old(Gated())
    {
      hide Grammar, EventsOf, ChunksOf, SendableOf, Finished, Paced, ChunksFollow;
      GrammarPlain(frames, helloAt, home, Heartbeat);
      FrameAppend(frames, Heartbeat);
      PacedGrows(frames, start, Heartbeat);
      ChunksFollowEvent(frames, helloAt, Heartbeat);
      frames := frames + [Heartbeat];
    }

    /** A stop: at most the buffer's capacity is taken in one last batch, then Goodbye exactly
        when Hello was sent, then the end of the stream. Payload chunks are not flushed, and
        envelopes beyond the capacity stay behind. */
    method Shutdown()
      requires Valid() && events.Valid()
      modifies this, events`queue, events`run
      ensures Grammar(frames, helloAt, home) && old(frames) <= frames && events.Valid()
      ensures chunks == old(chunks) && ChunksOf(frames) == chunksTaken == old(chunksTaken)
      ensures var n := Least(events.capacity, |old(events.queue)|);
        && taken == old(taken) + old(events.queue)[..n]
        && events.queue == old(events.queue)[n..] && events.run == old(events.run).Popped(n)
      ensures events.queue == [] <==> |old(events.queue)| <= events.capacity
      ensures EventsOf(frames) == SendableOf(taken) && (helloSent <==> SendableOf(taken) != [])
      ensures frames != [] && frames[|frames| - 1] == Eof
      ensures helloSent <==> |frames| > 1 && frames[|frames| - 2] == Goodbye
      ensures Gated() == old(Gated())
    {
      hide Grammar, EventsOf, ChunksOf, SendableOf, Finished, Gated, EventRingBuffer.Valid;
      var remaining := events.PopBatch(events.capacity);
      PoppedPart(old(events.queue), remaining, events.queue);
      ghost var rest, popped := events.queue, events.run;
      for i := 0 to |remaining|
        invariant Valid() && old(frames) <= frames && chunks == old(chunks) && chunksTaken == old(chunksTaken)
        invariant taken == old(taken) + remaining[..i] && Gated() == old(Gated())
        invariant events.Valid() && events.queue == rest && events.run == popped
      {
        assert remaining[..i + 1] == remaining[..i] + [remaining[i]];
        var sent := SendItem(remaining[i]);
      }
      assert remaining[..|remaining|] == remaining;
      HelloIffEvents();
      Close();
    }

    /** Goodbye when the stream was opened, then the end. */
    method Close()
      requires Valid()
      modifies this`frames
      ensures Grammar(frames, helloAt, home) && Gated() == old(Gated())
      ensures frames == old(frames) + (if helloSent then [Goodbye] else []) + [Eof]
      ensures EventsOf(frames) == old(EventsOf(frames)) && ChunksOf(frames) == old(ChunksOf(frames))
      ensures helloSent <==> |frames| > 1 && frames[|frames| - 2] == Goodbye
    {
      hide Grammar, EventsOf, ChunksOf, SendableOf, Finished, ChunksFollow;
      if helloSent {
        GrammarEnd(frames, helloAt, home);
        FrameAppend(frames, Goodbye);
        FrameAppend(frames + [Goodbye], Eof);
        ChunksFollowEvent(frames, helloAt, Goodbye);
        ChunksFollowEvent(frames + [Goodbye], helloAt, Eof);
        frames := frames + [Goodbye];
      } else {
        GrammarPlain(frames, helloAt, home, Eof);
        FrameAppend(frames, Eof);
        ChunksFollowEvent(frames, helloAt, Eof);
        NotGoodbye();
      }
      frames := frames + [Eof];
    }

    /** What other threads add between two turns: pushes into the event buffer, which may evict
        envelopes that still wait, and payload chunks. */
    method Arrive(items: seq<Envelope>, numbers: seq<nat>)
      requires events.Valid()
      modifies this`chunks, events, events.queue, items
      ensures events.Valid() && chunks == old(chunks) + numbers
      ensures events.run.offered == old(events.run.offered) + items && events.run.popped == old(events.run.popped)
      ensures forall e | e in events.queue :: e in old(events.queue) || e in items
      ensures items == [] ==> events.queue == old(events.queue)
      ensures events.queue != [] <==> old(events.queue) != [] || items != []
    {
      chunks := chunks + numbers;
      PushAll(events, items);
    }

    /** The state between turns: all chunks that arrived before a turn were sent by its end, and
        none got ahead of Hello but in a turn that ended without an envelope. */
    ghost predicate Served(waiting: seq<nat>, turns: seq<Traffic>, marks: seq<nat>)
      reads this`frames, this`helloAt, this`chunks, this`chunksTaken
    {
      && chunks == (if turns == [] then waiting else [])
      && chunksTaken == (if turns == [] then [] else waiting + ChunksIn(turns))
      && Marks(marks, frames, waiting, turns)
      && (Gated() <==> NoEarlyChunk(marks, frames, waiting, turns))
    }

    /** Traffic arrives and is served by one turn. */
    method Serve(t: Traffic)
      requires Valid() && events.Valid()
      modifies this, events, events.queue, t.items
      ensures Valid() && events.Valid() && old(frames) <= frames
      ensures chunks == [] && chunksTaken == old(chunksTaken) + (old(chunks) + t.chunks)
      ensures Gated() <==> old(Gated()) && (old(chunks) + t.chunks != [] ==> helloSent)
      ensures AllSendable(old(events.queue) + t.items) ==>
                (helloSent <==> old(helloSent) || old(events.queue) != [] || t.items != [])
      ensures old(taken) <= taken && events.run.popped == old(events.run.popped) + taken[|old(taken)|..]
      ensures events.run.offered == old(events.run.offered) + t.items
      ensures forall e | e in events.queue :: e in old(events.queue) || e in t.items
    {
      hide *;
      Arrive(t.items, t.chunks);
      BufferFacts(events);
      ghost var run := events.run;
      BatchOpens(old(events.queue) + t.items, events.queue);
      Turn(t.heartbeatDue);
      PoppedMore(run, Least(64, |run.held|), old(taken), taken);
    }

    method ServeOne(t: Traffic, ghost waiting: seq<nat>, ghost turns: seq<Traffic>, ghost marks: seq<nat>)
      requires Valid() && events.Valid() && Served(waiting, turns, marks)
      modifies this, events, events.queue, t.items
      ensures Valid() && events.Valid() && Served(waiting, turns + [t], Marked(marks, frames)) && old(frames) <= frames
      ensures AllSendable(old(events.queue) + t.items) ==>
                (helloSent <==> old(helloSent) || old(events.queue) != [] || t.items != [])
      ensures old(taken) <= taken && events.run.popped == old(events.run.popped) + taken[|old(taken)|..]
      ensures events.run.offered == old(events.run.offered) + t.items
      ensures forall e | e in events.queue :: e in old(events.queue) || e in t.items
    {
      hide *;
      ServedMeans(waiting, turns, marks);
      ghost var before, wasGated, toSend := frames, Gated(), chunks + t.chunks;
      Serve(t);
      ServedMore(waiting, turns, t, marks, before, wasGated, toSend);
    }

    lemma ServedMeans(waiting: seq<nat>, turns: seq<Traffic>, marks: seq<nat>)
      requires Served(waiting, turns, marks)
      ensures chunks == (if turns == [] then waiting else [])
      ensures chunksTaken == (if turns == [] then [] else waiting + ChunksIn(turns))
      ensures Marks(marks, frames, waiting, turns) && (Gated() <==> NoEarlyChunk(marks, frames, waiting, turns))
    {
    }

    lemma ServedMore(waiting: seq<nat>, turns: seq<Traffic>, t: Traffic, marks: seq<nat>, before: seq<Frame>,
                     wasGated: bool, toSend: seq<nat>)
      requires Valid() && Marks(marks, before, waiting, turns) && before <= frames
      requires wasGated <==> NoEarlyChunk(marks, before, waiting, turns)
      requires chunks == [] && chunksTaken == (if turns == [] then [] else waiting + ChunksIn(turns)) + toSend
      requires toSend == (if turns == [] then waiting else []) + t.chunks
      requires Gated() <==> wasGated && (toSend != [] ==> helloSent)
      ensures Served(waiting, turns + [t], Marked(marks, frames))
    {
      hide Marks, NoEarlyChunk, Gated, EventsOf, SendableOf, ChunksOf, ChunksIn, Grammar, Finished;
      TurnsAppend(turns, t);
      NoTurns();
      assert chunksTaken == waiting + (ChunksIn(turns) + t.chunks);
      MarksStep(marks, before, waiting, turns, t, frames);
      HelloIffEvents();
    }

    /** An envelope was sent or waits exactly if one waited at first or was pushed since. */
    ghost predicate Opens(queue: seq<Envelope>, turns: seq<Traffic>, marks: seq<nat>)
      reads this`frames, this`helloSent, events`queue
    {
      Fed(marks, frames, queue, turns) && (helloSent || events.queue != [] <==> queue != [] || ItemsOf(turns) != [])
    }

    lemma OpensMeans(queue: seq<Envelope>, turns: seq<Traffic>, marks: seq<nat>)
      requires Opens(queue, turns, marks)
      ensures Fed(marks, frames, queue, turns)
      ensures helloSent || events.queue != [] <==> queue != [] || ItemsOf(turns) != []
    {
    }

    lemma OpensMore(queue: seq<Envelope>, turns: seq<Traffic>, t: Traffic, marks: seq<nat>, before: seq<Frame>)
      requires Valid() && Fed(marks, before, queue, turns) && before <= frames
      requires helloSent <==> queue != [] || ItemsOf(turns + [t]) != []
      requires forall e | e in events.queue :: e in queue || e in ItemsOf(turns + [t])
      ensures Opens(queue, turns + [t], Marked(marks, frames))
    {
      hide Fed, EventsOf, SendableOf, ChunksOf, ItemsOf, Grammar, Finished;
      HelloIffEvents();
      FedStep(marks, before, queue, turns, t, frames);
      if events.queue != [] {
        assert events.queue[0] in events.queue;
      }
    }

    /** A whole connection, whatever arrives in between: the grammar holds, the envelopes sent
        are a subsequence of those pushed, and every envelope that waited or came in was sent,
        has no frame, is held still or was counted as dropped; all chunks that arrived before
        the last turn went out in order, each of them behind Hello exactly when no turn with a
        waiting chunk ended before an envelope was sent, which for envelopes that all have
        frames means before one waited or was pushed; and the stream ends with Goodbye exactly
        when Hello was sent. */
    method Run(turns: seq<Traffic>, last: Traffic) returns (ghost slots: seq<nat>, ghost marks: seq<nat>)
      requires Valid() && events.Valid() && frames == [] && taken == [] && chunksTaken == []
      modifies this, events, events.queue, ItemsOf(turns), last.items
      ensures Grammar(frames, helloAt, home) && events.Valid()
      ensures events.run.offered == old(events.run.offered) + ItemsOf(turns) + last.items
      ensures events.run.popped == old(events.run.popped) + taken && EventsOf(frames) == SendableOf(taken)
      ensures Subsequence(EventsOf(frames), events.run.offered, slots)
      ensures |old(events.queue)| + |ItemsOf(turns)| + |last.items|
           == |EventsOf(frames)| + |FramelessOf(taken)| + |events.queue|
              + (events.droppedUpdates - old(events.droppedUpdates)) + (events.droppedSpans - old(events.droppedSpans))
      ensures helloSent <==> SendableOf(taken) != []
      ensures frames != [] && frames[|frames| - 1] == Eof
      ensures helloSent <==> |frames| > 1 && frames[|frames| - 2] == Goodbye
      ensures ChunksOf(frames) == if turns == [] then [] else old(chunks) + ChunksIn(turns)
      ensures chunks == (if turns == [] then old(chunks) else []) + last.chunks
      ensures Marks(marks, frames, old(chunks), turns)
      ensures ChunksFollow(frames, helloAt) <==> NoEarlyChunk(marks, frames, old(chunks), turns)
      ensures AllSendable(old(events.queue) + ItemsOf(turns)) ==>
        (ChunksFollow(frames, helloAt) <==>
           forall i | 0 <= i < |turns| :: !Starved(old(events.queue), old(chunks), turns, i))
    {
      hide *;
      BufferFacts(events);
      ghost var waiting, before, queue := chunks, events.run, events.queue;
      marks := ServeAll(turns);
      ghost var sent := frames;
      if AllSendable(queue + ItemsOf(turns)) {
        OpensMeans(queue, turns, marks);
      }
      assert forall k | 0 <= k < |events.queue| :: events.queue[k] in events.queue;
      Finish(last, waiting, turns, marks);
      if AllSendable(queue + ItemsOf(turns)) {
        FedGrow(marks, sent, queue, turns, frames);
        NoneStarved(marks, frames, queue, waiting, turns);
      }
      BufferFacts(events);
      slots := SentInPushOrder(events.run, before.popped, taken);
      assert events.run.offered == before.offered + (ItemsOf(turns) + last.items);
      Balance(before, events.run, frames, taken, ItemsOf(turns) + last.items);
    }

    /** All turns of a connection, one after the other. */
    method ServeAll(turns: seq<Traffic>) returns (ghost marks: seq<nat>)
      requires Valid() && events.Valid() && frames == [] && taken == [] && chunksTaken == []
      modifies this, events, events.queue, ItemsOf(turns)
      ensures Valid() && events.Valid() && Served(old(chunks), turns, marks)
      ensures events.run.popped == old(events.run.popped) + taken
      ensures events.run.offered == old(events.run.offered) + ItemsOf(turns)
      ensures forall e | e in events.queue :: e in old(events.queue) || e in ItemsOf(turns)
      ensures AllSendable(old(events.queue) + ItemsOf(turns)) ==> Opens(old(events.queue), turns, marks)
    {
      hide *;
      ghost var waiting, queue := chunks, events.queue;
      ghost var framed := AllSendable(queue + ItemsOf(turns));
      marks := [0];
      NothingServed();
      for i := 0 to |turns|
        invariant Valid() && events.Valid() && Served(waiting, turns[..i], marks)
        invariant events.run.popped == old(events.run.popped) + taken
        invariant events.run.offered == old(events.run.offered) + ItemsOf(turns[..i])
        invariant forall e | e in events.queue :: e in queue || e in ItemsOf(turns[..i])
        invariant framed ==> Opens(queue, turns[..i], marks)
      {
        ghost var sent := frames;
        if framed {
          OpensMeans(queue, turns[..i], marks);
          StillFramed(queue, turns, i, events.queue);
        }
        assert turns[..i + 1] == turns[..i] + [turns[i]];
        TurnsAppend(turns[..i], turns[i]);
        InTurns(turns, i);
        assert forall k | 0 <= k < |events.queue| :: events.queue[k] in events.queue;
        assert forall k | 0 <= k < |turns[i].items| :: turns[i].items[k] in turns[i].items;
        ServeOne(turns[i], waiting, turns[..i], marks);
        if framed {
          OpensMore(queue, turns[..i], turns[i], marks, sent);
        }
        marks := Marked(marks, frames);
      }
      assert turns[..|turns|] == turns;
    }

    /** The last traffic arrives and the stream is shut down. */
    method Finish(last: Traffic, ghost waiting: seq<nat>, ghost turns: seq<Traffic>, ghost marks: seq<nat>)
      requires Valid() && events.Valid() && Served(waiting, turns, marks)
      modifies this, events, events.queue, last.items
      ensures Grammar(frames, helloAt, home) && events.Valid() && old(frames) <= frames
      ensures old(taken) <= taken && events.run.popped == old(events.run.popped) + taken[|old(taken)|..]
      ensures events.run.offered == old(events.run.offered) + last.items && EventsOf(frames) == SendableOf(taken)
      ensures helloSent <==> SendableOf(taken) != []
      ensures frames != [] && frames[|frames| - 1] == Eof
      ensures helloSent <==> |frames| > 1 && frames[|frames| - 2] == Goodbye
      ensures ChunksOf(frames) == if turns == [] then [] else waiting + ChunksIn(turns)
      ensures chunks == (if turns == [] then waiting else []) + last.chunks
      ensures Marks(marks, frames, waiting, turns)
      ensures ChunksFollow(frames, helloAt) <==> NoEarlyChunk(marks, frames, waiting, turns)
    {
      hide Grammar, EventsOf, ChunksOf, SendableOf, ChunksIn, Finished, Marks, NoEarlyChunk, ChunksFollow,
        EventRingBuffer.Valid;
      Arrive(last.items, last.chunks);
      BufferFacts(events);
      ghost var before := frames;
      Shutdown();
      MarksGrow(marks, before, waiting, turns, frames);
    }

    lemma NothingServed()
      requires Valid() && frames == [] && chunksTaken == []
      ensures Served(chunks, [], [0]) && ItemsOf([]) == []
      ensures Opens(events.queue, [], [0])
    {
    }

    /** Hello was sent exactly when some envelope was. */
    lemma HelloIffEvents()
      requires Valid()
      ensures helloSent <==> SendableOf(taken) != []
    {
      if helloSent {
        EventFound(frames, helloAt + 1);
      } else if EventsOf(frames) != [] {
        NoEvents(frames);
      }
    }

    lemma ChunksAreTaken()
      requires Valid()
      ensures ChunksOf(frames) == chunksTaken
    {
    }

    lemma NotGoodbye()
      requires Valid()
      ensures frames != [] ==> frames[|frames| - 1] != Goodbye
    {
    }
  }

  lemma {:induction false} InTurns(turns: seq<Traffic>, i: nat)
    requires i < |turns|
    ensures forall e | e in turns[i].items || e in ItemsOf(turns[..i]) :: e in ItemsOf(turns)
  {
    if i < |turns| - 1 {
      InTurns(turns[..|turns| - 1], i);
      assert turns[..|turns| - 1][..i] == turns[..i];
    }
  }

  lemma StillFramed(queue: seq<Envelope>, turns: seq<Traffic>, i: nat, held: seq<Envelope>)
    requires i < |turns| && AllSendable(queue + ItemsOf(turns))
    requires forall e | e in held :: e in queue || e in ItemsOf(turns[..i])
    ensures AllSendable(held + turns[i].items)
  {
    hide ItemsOf;
    InTurns(turns, i);
    forall e | e in held + turns[i].items ensures !e.kind.PayloadChunk? {
      assert e in queue + ItemsOf(turns);
    }
  }

  lemma NoTurns()
    ensures ItemsOf([]) == [] && ChunksIn([]) == []
  {
  }

  lemma BufferFacts(events: EventRingBuffer)
    requires events.Valid()
    ensures events.run.Accounted() && events.run.held == events.queue
    ensures |events.run.evicted| == events.droppedUpdates + events.droppedSpans
  {
  }

  /** Where every envelope has a frame, the next batch opens the stream unless there is none. */
  lemma BatchOpens(items: seq<Envelope>, queue: seq<Envelope>)
    requires forall e | e in queue :: e in items
    ensures AllSendable(items) ==> (SendableOf(queue[..Least(64, |queue|)]) != [] <==> queue != [])
  {
    var batch := queue[..Least(64, |queue|)];
    if AllSendable(items) {
      assert forall e | e in batch :: e in queue;
      AllAreSent(batch);
    }
  }

  lemma PoppedMore(run: Run, n: nat, before: seq<Envelope>, after: seq<Envelope>)
    requires n <= |run.held| && after == before + run.held[..n]
    ensures run.Popped(n).popped == run.popped + after[|before|..] && run.Popped(n).offered == run.offered
  {
  }

  lemma PoppedPart(before: seq<Envelope>, batch: seq<Envelope>, after: seq<Envelope>)
    requires batch + after == before
    ensures batch == before[..|batch|] && after == before[|batch|..]
  {
  }

  method PushAll(events: EventRingBuffer, items: seq<Envelope>)
    requires events.Valid()
    modifies events, events.queue, items
    ensures events.Valid()
    ensures events.run.offered == old(events.run.offered) + items && events.run.popped == old(events.run.popped)
    ensures forall e | e in events.queue :: e in old(events.queue) || e in items
    ensures items == [] ==> events.queue == old(events.queue)
    ensures events.queue != [] <==> old(events.queue) != [] || items != []
  {
    hide EventRingBuffer.Valid;
    for i := 0 to |items|
      invariant events.Valid()
      invariant events.run.offered == old(events.run.offered) + items[..i]
        && events.run.popped == old(events.run.popped)
      invariant forall e | e in events.queue :: e in old(events.queue) || e in items
      invariant if i == 0 then events.queue == old(events.queue) else events.queue != []
    {
      assert forall k | 0 <= k < |events.queue| :: events.queue[k] in events.queue;
      PushOne(events, items[i]);
      assert items[..i + 1] == items[..i] + [items[i]];
    }
    assert items[..|items|] == items;
  }

  method PushOne(events: EventRingBuffer, item: Envelope)
    requires events.Valid()
    modifies events, events.queue
    ensures events.Valid()
    ensures events.run.offered == old(events.run.offered) + [item] && events.run.popped == old(events.run.popped)
    ensures events.queue != [] && forall e | e in events.queue :: e in old(events.queue) || e == item
  {
    hide OldestUpdate, OldestRef, EventRingBuffer.Counted, Run.Accounted;
    var stored := events.Push(item);
  }

  lemma {:induction false} EventFound(frames: seq<Frame>, i: nat)
    requires i < |frames| && frames[i].Event?
    ensures EventsOf(frames) != []
  {
    if i < |frames| - 1 {
      EventFound(frames[..|frames| - 1], i);
    }
  }

  lemma {:induction false} NoEvents(frames: seq<Frame>)
    requires forall i | 0 <= i < |frames| :: !frames[i].Event?
    ensures EventsOf(frames) == []
  {
    if frames != [] {
      NoEvents(frames[..|frames| - 1]);
    }
  }

  function Least(a: nat, b: nat): (r: nat)
    ensures r <= a && r <= b && (r == a || r == b)
  {
    if a < b then a else b
  }

  lemma ShortRunsWeaker(frames: seq<Frame>, start: nat, m: nat, n: nat)
    requires ShortRuns(frames, start, m) && m <= n
    ensures ShortRuns(frames, start, n)
  {
  }

  lemma NoHelloYet(frames: seq<Frame>, at: int, home: string)
    requires Grammar(frames, at, home) && !(0 <= at)
    ensures at == -1
  {
  }

  lemma HelloInside(frames: seq<Frame>, at: int, home: string)
    requires Grammar(frames, at, home)
    ensures at < |frames|
  {
  }

  /** Chunks are not gated by Hello: a client that has emitted nothing but payloads sends them
      all on a stream it never opens with Hello. */
  method ChunksWithoutHello(home: string, capacity: nat, numbers: seq<nat>) returns (sender: Sender)
    requires 0 < capacity
    ensures sender.Valid() && !sender.helloSent && sender.taken == [] && ChunksOf(sender.frames) == numbers
  {
    hide *;
    var events := new EventRingBuffer(capacity);
    sender := new Sender(home, events);
    sender.Arrive([], numbers);
    sender.Turn(true);
    NothingToSend();
    sender.HelloIffEvents();
    sender.ChunksAreTaken();
  }

  lemma NothingToSend()
    ensures SendableOf([]) == []
  {
  }
}

/** The client's content-addressed staging area for payload bytes
    (client/harmonograf_client/buffer.py, class PayloadBuffer). */
module PayloadStaging {
  import opened Common

  newtype Byte = x: int | 0 <= x < 256
  type Bytes = seq<Byte>
  type Digest = string

  /** Total size of the blobs named by `order`; names without a blob weigh nothing. */
  ghost function Total(order: seq<Digest>, blobs: map<Digest, Bytes>): nat {
    if order == [] then 0
    else (if order[0] in blobs then |blobs[order[0]]| else 0) + Total(order[1..], blobs)
  }

  /** Blobs in insertion order. */
  datatype Staged = Staged(order: seq<Digest>, blobs: map<Digest, Bytes>) {
    ghost predicate WellFormed(capacity: nat) {
      && Distinct(order)
      && (forall d :: d in order <==> d in blobs)
      && Total(order, blobs) <= capacity
    }

    /** The oldest `k` blobs leave. */
    ghost function Evict(k: nat): Staged
      requires k <= |order|
    {
      Staged(order[k..], map d | d in blobs && d !in order[..k] :: blobs[d])
    }

    ghost function Append(d: Digest, data: Bytes): Staged {
      Staged(order + [d], blobs[d := data])
    }

    ghost function Take(d: Digest): Staged {
      if d in blobs then Staged(Without(order, d), blobs - {d}) else this
    }

    /** Evicting fewer than `k` of the oldest leaves no room for `size` more bytes. */
    ghost predicate NeedsAll(k: nat, size: nat, capacity: nat) {
      k <= |order| && forall j | 0 <= j < k :: capacity < Total(order[j..], blobs) + size
    }

    /** Evicting the oldest `k` is the least that makes room for `size` more bytes. */
    ghost predicate LeastEviction(k: nat, size: nat, capacity: nat) {
      NeedsAll(k, size, capacity) && Total(order[k..], blobs) + size <= capacity
    }
  }

  ghost function Without(order: seq<Digest>, d: Digest): (r: seq<Digest>) {
    if order == [] then []
    else if order[0] == d then order[1..]
    else [order[0]] + Without(order[1..], d)
  }

  lemma {:induction false} WithoutElement(order: seq<Digest>, d: Digest, blobs: map<Digest, Bytes>)
    requires Distinct(order)
    ensures Distinct(Without(order, d))
    ensures forall e :: e in Without(order, d) <==> e in order && e != d
    ensures d in order && d in blobs ==>
      Total(order, blobs) == Total(Without(order, d), blobs - {d}) + |blobs[d]|
    decreases |order|
  {
    if order != [] {
      var rest := order[1..];
      WithoutElement(rest, d, blobs);
      if order[0] == d {
        TotalFrame(rest, blobs, blobs - {d});
      } else {
        assert Without(order, d)[1..] == Without(rest, d);
        assert order[0] !in rest;
        DistinctCons(order[0], Without(rest, d));
      }
    }
  }

  lemma DistinctCons(d: Digest, rest: seq<Digest>)
    requires Distinct(rest) && d !in rest
    ensures Distinct([d] + rest)
  {
  }

  lemma {:induction false} TotalFrame(order: seq<Digest>, a: map<Digest, Bytes>, b: map<Digest, Bytes>)
    requires forall d | d in order :: d in a <==> d in b
    requires forall d | d in order && d in a :: a[d] == b[d]
    ensures Total(order, a) == Total(order, b)
  {
    if order != [] {
      TotalFrame(order[1..], a, b);
    }
  }

  lemma {:induction false} TotalAppend(order: seq<Digest>, blobs: map<Digest, Bytes>, d: Digest)
    requires d in blobs
    ensures Total(order + [d], blobs) == Total(order, blobs) + |blobs[d]|
  {
    if order == [] {
      assert Total([d][1..], blobs) == 0;
    } else {
      assert (order + [d])[1..] == order[1..] + [d];
      TotalAppend(order[1..], blobs, d);
    }
  }

  lemma TakeWellFormed(s: Staged, d: Digest, capacity: nat)
    requires s.WellFormed(capacity)
    ensures s.Take(d).WellFormed(capacity) && d !in s.Take(d).blobs
    ensures d in s.blobs ==>
      Total(s.order, s.blobs) == Total(s.Take(d).order, s.Take(d).blobs) + |s.blobs[d]|
  {
    WithoutElement(s.order, d, s.blobs);
  }

  lemma EvictWellFormed(s: Staged, k: nat, capacity: nat)
    requires s.WellFormed(capacity) && k <= |s.order|
    ensures s.Evict(k).WellFormed(capacity)
    ensures Total(s.Evict(k).order, s.Evict(k).blobs) == Total(s.order[k..], s.blobs)
    ensures s.Evict(k).blobs.Keys <= s.blobs.Keys
    decreases k
  {
    forall d ensures d in s.Evict(k).order <==> d in s.Evict(k).blobs {
      assert s.order == s.order[..k] + s.order[k..];
    }
    TotalFrame(s.order[k..], s.blobs, s.Evict(k).blobs);
    TotalSuffix(s.order, s.blobs, k);
  }

  lemma {:induction false} TotalSuffix(order: seq<Digest>, blobs: map<Digest, Bytes>, k: nat)
    requires k <= |order|
    ensures Total(order[k..], blobs) <= Total(order, blobs)
  {
    if k > 0 {
      assert order[1..][k - 1..] == order[k..];
      TotalSuffix(order[1..], blobs, k - 1);
    }
  }

  lemma OldestStaysDistinct(order: seq<Digest>, k: nat)
    requires Distinct(order) && k < |order|
    ensures order[k] !in order[..k]
  {
  }

  lemma EvictOneMore(s: Staged, k: nat)
    requires Distinct(s.order) && k < |s.order| && s.order[k] in s.blobs
    ensures s.order[k] in s.Evict(k).blobs && s.Evict(k).blobs[s.order[k]] == s.blobs[s.order[k]]
    ensures s.Evict(k + 1) == Staged(s.Evict(k).order[1..], s.Evict(k).blobs - {s.order[k]})
  {
    OldestStaysDistinct(s.order, k);
    hide Distinct;
    assert s.order[..k + 1] == s.order[..k] + [s.order[k]];
    assert s.order[k..][1..] == s.order[k + 1..];
    assert s.Evict(k + 1).blobs == s.Evict(k).blobs - {s.order[k]};
  }

  lemma TotalOneLess(s: Staged, k: nat, size: nat, capacity: nat)
    requires s.NeedsAll(k, size, capacity) && k < |s.order| && s.order[k] in s.blobs
    requires capacity < Total(s.order[k..], s.blobs) + size
    ensures s.NeedsAll(k + 1, size, capacity)
    ensures Total(s.order[k..], s.blobs) == |s.blobs[s.order[k]]| + Total(s.order[k + 1..], s.blobs)
  {
    assert s.order[k..][1..] == s.order[k + 1..];
  }

  lemma OldestIsStaged(s: Staged, k: nat, capacity: nat)
    requires s.WellFormed(capacity) && k < |s.order|
    ensures s.order[k] in s.blobs && Distinct(s.order)
  {
    assert s.order[k] in s.order;
  }

  lemma AppendWellFormed(s: Staged, d: Digest, data: Bytes, capacity: nat)
    requires s.WellFormed(capacity) && d !in s.blobs
    requires Total(s.order, s.blobs) + |data| <= capacity
    ensures s.Append(d, data).WellFormed(capacity)
    ensures Total(s.Append(d, data).order, s.Append(d, data).blobs) == Total(s.order, s.blobs) + |data|
  {
    var b := s.blobs[d := data];
    TotalAppend(s.order, b, d);
    TotalFrame(s.order, s.blobs, b);
  }

  /** Taking a blob and putting it straight back (the peek between two chunks) evicts
      nothing: it only moves the blob to the newest end. */
  lemma PeekEvictsNothing(s: Staged, d: Digest, capacity: nat)
    requires s.WellFormed(capacity) && d in s.blobs
    ensures var data := s.blobs[d];
      && s.Take(d).LeastEviction(0, |data|, capacity)
      && s.Take(d).Append(d, data) == Staged(Without(s.order, d) + [d], s.blobs)
  {
    TakeWellFormed(s, d, capacity);
    FitsAsIs(s.Take(d), |s.blobs[d]|, capacity) by {
      assert Total(s.order, s.blobs) <= capacity;
    }
    PutBack(s.blobs, d);
  }

  lemma FitsAsIs(s: Staged, size: nat, capacity: nat)
    requires Total(s.order, s.blobs) + size <= capacity
    ensures s.LeastEviction(0, size, capacity)
  {
    assert s.order[0..] == s.order;
  }

  lemma PutBack(blobs: map<Digest, Bytes>, d: Digest)
    requires d in blobs
    ensures (blobs - {d})[d := blobs[d]] == blobs
  {
  }

  /** The staging area as a mutable object. Bytes offered under a new digest are staged,
      taken or dropped. */
  class PayloadBuffer {
    const capacity: nat
    var blobs: map<Digest, Bytes>
    var order: seq<Digest>
    var bytes: nat
    var dropped: nat
    ghost var offered: nat
    ghost var taken: nat

    ghost function Contents(): Staged
      reads this`blobs, this`order
    {
      Staged(order, blobs)
    }

    ghost predicate Valid()
      reads this
    {
      && 0 < capacity
      && Contents().WellFormed(capacity)
      && bytes == Total(order, blobs)
      && offered == bytes + taken + dropped
    }

    constructor (capacity: nat)
      requires 0 < capacity
      ensures Valid() && this.capacity == capacity && Contents() == Staged([], map[])
      ensures offered == taken == dropped == 0
    {
      this.capacity := capacity;
      blobs, order, bytes, dropped, offered, taken := map[], [], 0, 0, 0, 0;
    }

    /** An oversized blob is dropped and refused; a known digest changes nothing; otherwise
        the shortest oldest prefix that makes room leaves and the blob joins the newest end. */
    method Put(digest: Digest, data: Bytes) returns (ok: bool)
      requires Valid()
      modifies this
      ensures Valid() && ok == (|data| <= capacity) && taken == old(taken)
      ensures |data| > capacity ==>
        Contents() == old(Contents()) && dropped == old(dropped) + |data| && offered == old(offered) + |data|
      ensures |data| <= capacity && digest in old(blobs) ==>
        Contents() == old(Contents()) && dropped == old(dropped) && offered == old(offered)
      ensures |data| <= capacity && digest !in old(blobs) ==>
        && offered == old(offered) + |data|
        && exists k: nat :: old(Contents()).LeastEviction(k, |data|, capacity)
             && Contents() == old(Contents()).Evict(k).Append(digest, data)
    {
      hide Total, Distinct, Staged.WellFormed, Staged.NeedsAll, Staged.Evict, Staged.LeastEviction;
      var size := |data|;
      if size > capacity {
        dropped, offered := dropped + size, offered + size;
        return false;
      }
      if digest in blobs {
        return true;
      }
      ghost var start := Contents();
      var k := MakeRoom(size);
      EvictWellFormed(start, k, capacity);
      AppendWellFormed(Contents(), digest, data, capacity);
      blobs := blobs[digest := data];
      order := order + [digest];
      bytes, offered := bytes + size, offered + size;
      return true;
    }

    method MakeRoom(size: nat) returns (ghost k: nat)
      requires Valid() && size <= capacity
      modifies this`blobs, this`order, this`bytes, this`dropped
      ensures Valid() && k <= |old(order)|
      ensures old(Contents()).LeastEviction(k, size, capacity)
      ensures Contents() == old(Contents()).Evict(k)
      ensures bytes + size <= capacity
    {
      hide Total, Distinct, Staged.WellFormed, Staged.NeedsAll, Staged.Evict;
      ghost var start := Contents();
      k := 0;
      NothingEvicted(start, size, capacity);
      EvictWellFormed(start, 0, capacity);
      while bytes + size > capacity && order != []
        invariant k <= |start.order| && Contents() == start.Evict(k)
        invariant Valid() && bytes == Total(start.order[k..], start.blobs)
        invariant start.NeedsAll(k, size, capacity)
        decreases |order|
      {
        var victim := order[0];
        assert victim == start.order[k] by { EvictedOrder(start, k); }
        OldestIsStaged(start, k, capacity);
        EvictOneMore(start, k);
        TotalOneLess(start, k, size, capacity);
        EvictWellFormed(start, k + 1, capacity);
        var freed := |blobs[victim]|;
        order := order[1..];
        blobs := blobs - {victim};
        bytes, dropped := bytes - freed, dropped + freed;
        k := k + 1;
      }
      EmptyTotal(order, blobs);
      assert order == start.order[k..] by { EvictedOrder(start, k); }
    }

    /** The blob leaves the staging area, or `None` when it is not there. */
    method Take(digest: Digest) returns (data: Option<Bytes>)
      requires Valid()
      modifies this
      ensures Valid() && offered == old(offered) && dropped == old(dropped)
      ensures Contents() == old(Contents()).Take(digest)
      ensures data == if digest in old(blobs) then Some(old(blobs)[digest]) else None
      ensures taken == old(taken) + if data.Some? then |data.value| else 0
    {
      if digest !in blobs {
        return None;
      }
      TakeWellFormed(Contents(), digest, capacity);
      var blob := blobs[digest];
      blobs := blobs - {digest};
      RemoveFromOrder(digest);
      bytes, taken := bytes - |blob|, taken + |blob|;
      return Some(blob);
    }

    method RemoveFromOrder(digest: Digest)
      modifies this`order
      ensures order == Without(old(order), digest)
    {
      hide Without;
      var i := 0;
      WithoutFrom(order, digest, 0);
      while i < |order| && order[i] != digest
        invariant i <= |order| && order == old(order) && digest !in order[..i]
      {
        i := i + 1;
      }
      WithoutFrom(order, digest, i);
      if i < |order| {
        order := order[..i] + order[i + 1..];
      }
    }
  }

  /** Behind `i` other digests, the digest at `i` is the one that goes. */
  lemma {:induction false} WithoutFrom(order: seq<Digest>, d: Digest, i: nat)
    requires i <= |order| && d !in order[..i]
    ensures i == |order| ==> Without(order, d) == order
    ensures i < |order| && order[i] == d ==> Without(order, d) == order[..i] + order[i + 1..]
    decreases i
  {
    if i == 0 {
      assert order != [] && order[0] == d ==> order[..0] + order[1..] == order[1..];
    } else {
      var rest := order[1..];
      assert order[0] in order[..i] && order == [order[0]] + rest;
      assert forall x | x in rest[..i - 1] :: x in order[..i];
      assert i < |order| ==> rest[i - 1] == order[i] && rest[..i - 1] + rest[i..] == order[1..i] + order[i + 1..];
      WithoutFrom(rest, d, i - 1);
      assert i < |order| ==> order[..i] + order[i + 1..] == [order[0]] + (rest[..i - 1] + rest[i..]);
    }
  }

  lemma EmptyTotal(order: seq<Digest>, blobs: map<Digest, Bytes>)
    ensures order == [] ==> Total(order, blobs) == 0
  {
  }

  lemma NothingEvicted(s: Staged, size: nat, capacity: nat)
    ensures s.Evict(0) == s && s.NeedsAll(0, size, capacity)
    ensures s.order[0..] == s.order
  {
  }

  lemma EvictedOrder(s: Staged, k: nat)
    requires k <= |s.order|
    ensures s.Evict(k).order == s.order[k..]
  {
  }
}

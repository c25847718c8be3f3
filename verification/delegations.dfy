/** The delegation registry: deduplication and re-anchoring once the session start is known
    (frontend/src/gantt/index.ts, class DelegationRegistry). */
module Delegations {
  import opened Common

  /** An observed delegation with its wall-clock time; zero means the time is unknown. */
  datatype Delegation = Delegation(fromAgent: string, toAgent: string, taskId: string, invocationId: string,
                                   absoluteMs: int)

  /** The decimal text of a time. */
  function Digits(n: nat): (text: string)
    ensures text != [] && forall c | c in text :: '0' <= c <= '9'
  {
    if n < 10 then [DIGITS[n]] else Digits(n / 10) + [DIGITS[n % 10]]
  }

  const DIGITS: string := "0123456789"

  function Decimal(n: int): string {
    if n < 0 then "-" + Digits(-n) else Digits(n)
  }

  /** The text duplicates are recognised by: with the invocation when there is one, else with
      a time. */
  function KeyOf(d: Delegation, relativeMs: int): string {
    d.fromAgent + "|" + (d.toAgent + "|" + Tail(d, relativeMs))
  }

  function Tail(d: Delegation, relativeMs: int): string {
    if d.invocationId != "" then "inv:" + d.invocationId
    else "ts:" + Decimal(if d.absoluteMs != 0 then d.absoluteMs else relativeMs)
  }

  /** A caller's record; old callers give no wall-clock time and get the relative one. */
  datatype Observation = Observation(fromAgent: string, toAgent: string, taskId: string, invocationId: string,
                                     relativeMs: int, absoluteMs: Option<int>)

  function Recorded(o: Observation): Delegation {
    Delegation(o.fromAgent, o.toAgent, o.taskId, o.invocationId,
               if o.absoluteMs.Some? then o.absoluteMs.value else o.relativeMs)
  }

  datatype Entry = Entry(number: nat, key: string, d: Delegation, relativeMs: int)

  ghost function Keys(entries: seq<Entry>): set<string> {
    set e | e in entries :: e.key
  }

  ghost function Appended(entries: seq<Entry>, d: Delegation, relativeMs: int): seq<Entry> {
    if KeyOf(d, relativeMs) in Keys(entries) then entries
    else entries + [Entry(|entries|, KeyOf(d, relativeMs), d, relativeMs)]
  }

  ghost function Anchored(e: Entry, start: int): Entry {
    if e.d.absoluteMs == 0 then e else e.(relativeMs := e.d.absoluteMs - start)
  }

  ghost function Rebased(entries: seq<Entry>, start: int): (r: seq<Entry>)
    ensures |r| == |entries|
    ensures forall i | 0 <= i < |r| :: r[i] == Anchored(entries[i], start)
  {
    if entries == [] then [] else Rebased(entries[..|entries| - 1], start) + [Anchored(entries[|entries| - 1], start)]
  }

  // ---- The stream of updates --------------------------------------------------------

  /** A delegation arrives, stamped relative to the session start known so far (zero before
      it is known), or the session start arrives. */
  datatype Update = Observed(d: Delegation) | SessionStart(ms: int)

  datatype View = View(start: int, entries: seq<Entry>)

  ghost function Apply(v: View, u: Update): View {
    match u
    case Observed(d) => v.(entries := Appended(v.entries, d, d.absoluteMs - v.start))
    case SessionStart(ms) => View(ms, Rebased(v.entries, ms))
  }

  ghost function Run(updates: seq<Update>): View {
    if updates == [] then View(0, []) else Apply(Run(updates[..|updates| - 1]), updates[|updates| - 1])
  }

  ghost function DeliveryOf(u: Update): seq<Delegation> {
    if u.Observed? then [u.d] else []
  }

  ghost function Deliveries(updates: seq<Update>): seq<Delegation> {
    if updates == [] then [] else Deliveries(updates[..|updates| - 1]) + DeliveryOf(updates[|updates| - 1])
  }

  /** The session start in force at the end, zero when none arrived. */
  ghost function FinalStart(updates: seq<Update>): int {
    if updates == [] then 0
    else if updates[|updates| - 1].SessionStart? then updates[|updates| - 1].ms
    else FinalStart(updates[..|updates| - 1])
  }

  ghost predicate Timed(ds: seq<Delegation>) {
    forall d | d in ds :: d.absoluteMs != 0
  }

  /** What duplicates of a timed delegation are recognised by, wherever it arrives. */
  function TimedKey(d: Delegation): string {
    KeyOf(d, d.absoluteMs)
  }

  ghost function TimedKeys(ds: seq<Delegation>): set<string> {
    set d | d in ds :: TimedKey(d)
  }

  /** The first delivery of each delegation, in order of arrival. */
  ghost function Firsts(ds: seq<Delegation>): seq<Delegation> {
    if ds == [] then []
    else
      var firsts, last := Firsts(ds[..|ds| - 1]), ds[|ds| - 1];
      if TimedKey(last) in TimedKeys(firsts) then firsts else firsts + [last]
  }

  ghost function StampedAt(i: nat, d: Delegation, start: int): Entry {
    Entry(i, TimedKey(d), d, d.absoluteMs - start)
  }

  /** The list one would build knowing the session start from the beginning. */
  ghost function Stamped(ds: seq<Delegation>, start: int): (r: seq<Entry>)
    ensures |r| == |ds|
    ensures forall i | 0 <= i < |r| :: r[i] == StampedAt(i, ds[i], start)
  {
    if ds == [] then [] else Stamped(ds[..|ds| - 1], start) + [StampedAt(|ds| - 1, ds[|ds| - 1], start)]
  }

  lemma {:induction false} FirstsFacts(ds: seq<Delegation>)
    requires Timed(ds)
    ensures Timed(Firsts(ds)) && TimedKeys(Firsts(ds)) == TimedKeys(ds)
  {
    if ds != [] {
      var init, last := ds[..|ds| - 1], ds[|ds| - 1];
      assert ds == init + [last];
      FirstsFacts(init);
      assert TimedKeys(ds) == TimedKeys(init) + {TimedKey(last)};
      assert TimedKeys(Firsts(init) + [last]) == TimedKeys(Firsts(init)) + {TimedKey(last)};
    }
  }

  lemma AppendStamped(ds: seq<Delegation>, start: int, d: Delegation)
    requires d.absoluteMs != 0
    ensures Appended(Stamped(ds, start), d, d.absoluteMs - start)
         == Stamped(if TimedKey(d) in TimedKeys(ds) then ds else ds + [d], start)
  {
    StampedKeys(ds, start);
    assert (ds + [d])[..|ds|] == ds;
  }

  lemma RebaseStamped(ds: seq<Delegation>, start: int, ms: int)
    requires Timed(ds)
    ensures Rebased(Stamped(ds, start), ms) == Stamped(ds, ms)
  {
    var a, b := Rebased(Stamped(ds, start), ms), Stamped(ds, ms);
    forall i | 0 <= i < |ds| ensures a[i] == b[i] {
      assert ds[i] in ds;
    }
  }

  /** The registry after any stream of timed delegations, re-deliveries and session starts is
      the first delivery of each, stamped against the final session start. */
  lemma {:induction false} RunIsStamped(updates: seq<Update>)
    requires Timed(Deliveries(updates))
    ensures Run(updates) == View(FinalStart(updates), Stamped(Firsts(Deliveries(updates)), FinalStart(updates)))
  {
    if updates == [] {
      NothingStamped();
    } else {
      var init, last := updates[..|updates| - 1], updates[|updates| - 1];
      assert forall d | d in Deliveries(init) :: d in Deliveries(updates);
      RunIsStamped(init);
      assert last.Observed? ==> last.d in Deliveries(updates);
      OneMoreUpdate(Deliveries(init), FinalStart(init), last);
    }
  }

  lemma OneMoreUpdate(all: seq<Delegation>, start: int, u: Update)
    requires Timed(all) && (u.Observed? ==> u.d.absoluteMs != 0)
    ensures var after := if u.SessionStart? then u.ms else start;
      Apply(View(start, Stamped(Firsts(all), start)), u) == View(after, Stamped(Firsts(all + DeliveryOf(u)), after))
  {
    hide Stamped, Rebased, Appended, TimedKeys, Firsts;
    FirstsFacts(all);
    match u
    case SessionStart(ms) =>
      assert all + DeliveryOf(u) == all;
      RebaseStamped(Firsts(all), start, ms);
    case Observed(d) =>
      FirstsAppend(all, d);
      AppendStamped(Firsts(all), start, d);
  }

  lemma FirstsAppend(ds: seq<Delegation>, d: Delegation)
    ensures Firsts(ds + [d]) == if TimedKey(d) in TimedKeys(Firsts(ds)) then Firsts(ds) else Firsts(ds) + [d]
  {
    assert (ds + [d])[..|ds|] == ds;
  }

  lemma NothingStamped()
    ensures forall start :: Stamped([], start) == []
  {
  }

  lemma StampedKeys(ds: seq<Delegation>, start: int)
    ensures Keys(Stamped(ds, start)) == TimedKeys(ds)
  {
    var s := Stamped(ds, start);
    forall k | k in TimedKeys(ds) ensures k in Keys(s) {
      var i :| 0 <= i < |ds| && TimedKey(ds[i]) == k;
      assert s[i] in s;
    }
  }

  /** It does not matter when the session start arrives, nor how often delegations do. */
  lemma OrderDoesNotMatter(a: seq<Update>, b: seq<Update>)
    requires Timed(Deliveries(a)) && Timed(Deliveries(b))
    requires Firsts(Deliveries(a)) == Firsts(Deliveries(b)) && FinalStart(a) == FinalStart(b)
    ensures Run(a) == Run(b)
  {
    RunIsStamped(a);
    RunIsStamped(b);
  }

  lemma {:induction false} RedeliveryChangesNothing(ds: seq<Delegation>, again: seq<Delegation>)
    requires Timed(ds) && Timed(again) && TimedKeys(again) <= TimedKeys(ds)
    ensures Firsts(ds + again) == Firsts(ds)
  {
    if again == [] {
      assert ds + again == ds;
    } else {
      var init, last := again[..|again| - 1], again[|again| - 1];
      assert (ds + again)[..|ds + again| - 1] == ds + init;
      assert TimedKey(last) in TimedKeys(again);
      RedeliveryChangesNothing(ds, init);
      FirstsFacts(ds);
    }
  }

  /** Without a wall-clock time the moment matters, unless the start is zero. */
  lemma UntimedDependsOnOrder(d: Delegation, start: int)
    ensures Run([Observed(d), SessionStart(start)]) == Run([SessionStart(start), Observed(d)])
      <==> d.absoluteMs != 0 || start == 0
  {
    hide *;
    ObservedThenStarted(d, start);
    StartedThenObserved(d, start);
    SameEntry(d, start);
    OneEntry(start, Anchored(EntryAt(d, 0), start), EntryAt(d, start));
  }

  /** The entry of a lone delegation, stamped against a session start. */
  ghost function EntryAt(d: Delegation, start: int): Entry {
    Entry(0, KeyOf(d, d.absoluteMs - start), d, d.absoluteMs - start)
  }

  lemma ObservedThenStarted(d: Delegation, start: int)
    ensures Run([Observed(d), SessionStart(start)]) == View(start, [Anchored(EntryAt(d, 0), start)])
  {
    RunTwo(Observed(d), SessionStart(start));
    assert Rebased([EntryAt(d, 0)], start) == [Anchored(EntryAt(d, 0), start)];
  }

  lemma StartedThenObserved(d: Delegation, start: int)
    ensures Run([SessionStart(start), Observed(d)]) == View(start, [EntryAt(d, start)])
  {
    RunTwo(SessionStart(start), Observed(d));
  }

  lemma SameEntry(d: Delegation, start: int)
    ensures Anchored(EntryAt(d, 0), start) == EntryAt(d, start) <==> d.absoluteMs != 0 || start == 0
  {
  }

  lemma OneEntry(start: int, e: Entry, f: Entry)
    ensures View(start, [e]) == View(start, [f]) <==> e == f
  {
    assert [e][0] == e && [f][0] == f;
  }

  lemma RunTwo(u: Update, v: Update)
    ensures Run([u, v]) == Apply(Apply(View(0, []), u), v)
  {
    assert [u, v][..1] == [u] && [u][..0] == [];
    assert Run([u]) == Apply(View(0, []), u);
  }

  // ---- The registry, in place -------------------------------------------------------

  class Record {
    const number: nat
    const d: Delegation
    ghost const key: string
    var observedAtMs: int

    constructor (number: nat, d: Delegation, observedAtMs: int)
      ensures Value() == Entry(number, KeyOf(d, observedAtMs), d, observedAtMs)
    {
      this.number, this.d, this.observedAtMs := number, d, observedAtMs;
      key := KeyOf(d, observedAtMs);
    }

    ghost function Value(): Entry
      reads this
    {
      Entry(number, key, d, observedAtMs)
    }
  }

  class Registry {
    var records: seq<Record>
    var nextSeq: nat
    var seen: set<string>

    ghost function Entries(): (r: seq<Entry>)
      reads this`records, records
      ensures |r| == |records| && forall i | 0 <= i < |r| :: r[i] == records[i].Value()
    {
      var rs := records;
      seq(|rs|, i requires 0 <= i < |rs| reads rs => rs[i].Value())
    }

    ghost predicate Valid()
      reads this, records
    {
      && nextSeq == |records| && seen == Keys(Entries())
      && Distinct(records)
    }

    constructor ()
      ensures Valid() && Entries() == []
    {
      records, nextSeq, seen := [], 0, {};
    }

    method Append(o: Observation)
      requires Valid()
      modifies this
      ensures Valid() && Entries() == Appended(old(Entries()), Recorded(o), o.relativeMs)
      ensures records == old(records) || (records != [] && records[..|records| - 1] == old(records))
      ensures records != old(records) ==>
        var r := records[|records| - 1];
        && r.number == old(|records|) && r.observedAtMs == o.relativeMs
        && r.d.fromAgent == o.fromAgent && r.d.toAgent == o.toAgent
        && r.d.taskId == o.taskId && r.d.invocationId == o.invocationId
        && r.d.absoluteMs == if o.absoluteMs.Some? then o.absoluteMs.value else o.relativeMs
      ensures fresh((set r | r in records) - (set r | r in old(records)))
    {
      var d := Recorded(o);
      var key := KeyOf(d, o.relativeMs);
      if key in seen {
        return;
      }
      var record := new Record(nextSeq, d, o.relativeMs);
      records, nextSeq, seen := records + [record], nextSeq + 1, seen + {key};
      assert Entries() == old(Entries()) + [record.Value()];
    }

    twostate lemma AnchoredTimes(start: int)
      requires records == old(records)
      requires forall r | r in records :: r.Value() == Anchored(old(r.Value()), start)
      ensures forall r | r in records ::
        r.observedAtMs == if r.d.absoluteMs != 0 then r.d.absoluteMs - start else old(r.observedAtMs)
    {
    }

    method Rebase(start: int)
      requires Valid()
      modifies records
      ensures Valid() && Entries() == Rebased(old(Entries()), start)
      ensures forall r | r in records ::
        r.observedAtMs == if r.d.absoluteMs != 0 then r.d.absoluteMs - start else old(r.observedAtMs)
    {
      for i := 0 to |records|
        invariant forall j | 0 <= j < i :: records[j].Value() == Anchored(old(records[j].Value()), start)
        invariant forall j | i <= j < |records| :: records[j].Value() == old(records[j].Value())
      {
        var r := records[i];
        if r.d.absoluteMs != 0 && r.observedAtMs != r.d.absoluteMs - start {
          r.observedAtMs := r.d.absoluteMs - start;
        }
      }
      assert Entries() == Rebased(old(Entries()), start);
      AnchoredTimes(start);
      SameKeys(old(Entries()), start);
    }
  }

  lemma SameKeys(entries: seq<Entry>, start: int)
    ensures Keys(Rebased(entries, start)) == Keys(entries)
  {
    var r := Rebased(entries, start);
    forall k | k in Keys(entries) ensures k in Keys(r) {
      var i :| 0 <= i < |entries| && entries[i].key == k;
      assert r[i] in r && r[i].key == k;
    }
  }

  // ---- What a key tells -------------------------------------------------------------

  /** Two records share a key: same agents, and the same invocation or, without one, the same
      time. */
  predicate SameDelegation(a: Delegation, aMs: int, b: Delegation, bMs: int) {
    && a.fromAgent == b.fromAgent && a.toAgent == b.toAgent && a.invocationId == b.invocationId
    && (a.invocationId == "" ==> Stamp(a, aMs) == Stamp(b, bMs))
  }

  function Stamp(d: Delegation, relativeMs: int): int {
    if d.absoluteMs != 0 then d.absoluteMs else relativeMs
  }

  /** When no agent id contains the separator, keys recognise exactly the same delegations. */
  lemma KeysTellApart(a: Delegation, aMs: int, b: Delegation, bMs: int)
    requires '|' !in a.fromAgent && '|' !in b.fromAgent && '|' !in a.toAgent && '|' !in b.toAgent
    ensures KeyOf(a, aMs) == KeyOf(b, bMs) <==> SameDelegation(a, aMs, b, bMs)
  {
    if KeyOf(a, aMs) == KeyOf(b, bMs) {
      FirstPart(a.fromAgent, a.toAgent + "|" + Tail(a, aMs), b.fromAgent, b.toAgent + "|" + Tail(b, bMs));
      FirstPart(a.toAgent, Tail(a, aMs), b.toAgent, Tail(b, bMs));
      SameTail(a, aMs, b, bMs);
    }
  }

  /** Otherwise two different delegations can share one: the agent id of the second reads like
      an invocation of the first. */
  lemma KeysCanCollide()
    ensures var (a, b) := (Delegation("h", "b", "", "x|ts:5", 0), Delegation("h", "b|inv:x", "", "", 5));
      KeyOf(a, 0) == KeyOf(b, 0) && !SameDelegation(a, 0, b, 0)
  {
    assert Decimal(5) == "5";
    assert "h" + "|" + ("b" + "|" + ("inv:" + "x|ts:5")) == "h|b|inv:x|ts:5";
    assert "h" + "|" + ("b|inv:x" + "|" + ("ts:" + "5")) == "h|b|inv:x|ts:5";
  }

  lemma FirstPart(a: string, x: string, b: string, y: string)
    requires '|' !in a && '|' !in b && a + "|" + x == b + "|" + y
    ensures a == b && x == y
  {
    var t := a + "|" + x;
    assert t[|a|] == '|' && t[|b|] == '|';
    assert forall i | 0 <= i < |a| :: t[i] == a[i] && a[i] in a;
    assert forall i | 0 <= i < |b| :: t[i] == b[i] && b[i] in b;
    assert a == t[..|a|] && b == t[..|b|] && x == t[|a| + 1..] && y == t[|b| + 1..];
  }

  lemma SameTail(a: Delegation, aMs: int, b: Delegation, bMs: int)
    requires Tail(a, aMs) == Tail(b, bMs)
    ensures a.invocationId == b.invocationId && (a.invocationId == "" ==> Stamp(a, aMs) == Stamp(b, bMs))
  {
    assert Tail(a, aMs)[0] == if a.invocationId != "" then 'i' else 't';
    assert Tail(b, bMs)[0] == if b.invocationId != "" then 'i' else 't';
    if a.invocationId != "" {
      assert Tail(a, aMs)[4..] == a.invocationId && Tail(b, bMs)[4..] == b.invocationId;
    } else {
      assert Tail(a, aMs)[3..] == Decimal(Stamp(a, aMs)) && Tail(b, bMs)[3..] == Decimal(Stamp(b, bMs));
      SameDecimal(Stamp(a, aMs), Stamp(b, bMs));
    }
  }

  lemma SameDecimal(m: int, n: int)
    requires Decimal(m) == Decimal(n)
    ensures m == n
  {
    hide Digits;
    Sign(m);
    Sign(n);
    if m < 0 {
      SameDigits(-m, -n);
    } else {
      SameDigits(m, n);
    }
  }

  lemma Sign(n: int)
    ensures Decimal(n) != [] && (Decimal(n)[0] == '-' <==> n < 0)
    ensures n < 0 ==> Decimal(n)[1..] == Digits(-n)
  {
    hide Digits;
    if n >= 0 {
      assert Digits(n)[0] in Digits(n);
    }
  }

  lemma {:induction false} SameDigits(m: nat, n: nat)
    requires Digits(m) == Digits(n)
    ensures m == n
  {
    var s := Digits(m);
    LongerDigits(m);
    LongerDigits(n);
    assert s[|s| - 1] == DIGITS[m % 10] == DIGITS[n % 10];
    OneDigit(m % 10, n % 10);
    if m >= 10 {
      assert s[..|s| - 1] == Digits(m / 10) == Digits(n / 10);
      SameDigits(m / 10, n / 10);
    }
  }

  lemma LongerDigits(n: nat)
    ensures |Digits(n)| > 1 <==> n >= 10
  {
  }

  lemma OneDigit(i: nat, j: nat)
    requires i < 10 && j < 10 && DIGITS[i] == DIGITS[j]
    ensures i == j
  {
  }
}

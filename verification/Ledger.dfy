/** The hash chain of the audit ledger (ledger/chain.py).

  The hash of an entry is a function of everything in it but its own hash, the previous hash
  included; the theorems assume that it is injective and never the genesis hash.
 */
module Ledger {
  type Digest = string
  type Timestamp = int

  datatype Option<T> = None | Some(value: T)

  /** What a caller of append supplies. */
  datatype Event = Event(
    actor: Option<string>,
    action: string,
    resourceType: string,
    resource: Option<string>,
    result: string,
    details: Option<string>,
    clientIp: Option<string>,
    sessionId: Option<string>)

  /** The fields that canonical_bytes serializes. */
  datatype Body = Body(number: int, timestamp: Timestamp, event: Event, previous: Digest)

  datatype Entry = Entry(body: Body, hash: Digest)

  datatype Hasher = Hasher(hash: Body -> Digest, genesis: Digest)

  ghost predicate Ideal(h: Hasher) {
    && (forall a, b :: h.hash(a) == h.hash(b) ==> a == b)
    && (forall a :: h.hash(a) != h.genesis)
  }

  /** The hash that the next entry points back to. */
  function Last(h: Hasher, entries: seq<Entry>): Digest {
    if entries == [] then h.genesis else entries[|entries| - 1].hash
  }

  function NextEntry(h: Hasher, entries: seq<Entry>, last: Digest, event: Event, now: Timestamp): Entry {
    var body := Body(|entries| + 1, now, event, last);
    Entry(body, h.hash(body))
  }

  /// Verification

  datatype Fault = PreviousHashMismatch | EntryHashMismatch

  datatype Failure = Failure(number: int, fault: Fault)

  /** What verify reports for one entry. */
  function FaultsOf(h: Hasher, entry: Entry, expected: Digest): seq<Failure> {
    (if entry.body.previous != expected then [Failure(entry.body.number, PreviousHashMismatch)] else [])
    + (if h.hash(entry.body) != entry.hash then [Failure(entry.body.number, EntryHashMismatch)] else [])
  }

  function Failures(h: Hasher, entries: seq<Entry>): seq<Failure> {
    if entries == [] then []
    else
      var n := |entries| - 1;
      Failures(h, entries[..n]) + FaultsOf(h, entries[n], Last(h, entries[..n]))
  }

  /** Every entry points back to the one before it and carries its own hash. */
  ghost predicate Linked(h: Hasher, entries: seq<Entry>) {
    forall i :: 0 <= i < |entries| ==>
      entries[i].body.previous == Last(h, entries[..i]) && entries[i].hash == h.hash(entries[i].body)
  }

  ghost predicate Numbered(entries: seq<Entry>) {
    forall i :: 0 <= i < |entries| ==> entries[i].body.number == i + 1
  }

  /** The entry at i does not point back to the hash of the one before it, or of genesis. */
  predicate BadLink(h: Hasher, entries: seq<Entry>, i: nat)
    requires i < |entries|
  {
    entries[i].body.previous != if i == 0 then h.genesis else entries[i - 1].hash
  }

  /** The entry at i does not carry its own hash. */
  predicate BadHash(h: Hasher, entries: seq<Entry>, i: nat)
    requires i < |entries|
  {
    entries[i].hash != h.hash(entries[i].body)
  }

  /** How many faults the first n entries have. */
  function FaultCount(h: Hasher, entries: seq<Entry>, n: nat): nat
    requires n <= |entries|
  {
    if n == 0 then 0
    else FaultCount(h, entries, n - 1) + (if BadLink(h, entries, n - 1) then 1 else 0)
         + (if BadHash(h, entries, n - 1) then 1 else 0)
  }

  /** The faults of the entry at i are reported under the number that it carries, a bad link before a bad
    hash, after the faults of the entries before it. */
  ghost predicate ReportsAt(h: Hasher, entries: seq<Entry>, failures: seq<Failure>, i: nat)
    requires i < |entries|
  {
    && (BadLink(h, entries, i) ==>
          && FaultCount(h, entries, i) < |failures|
          && failures[FaultCount(h, entries, i)] == Failure(entries[i].body.number, PreviousHashMismatch))
    && (BadHash(h, entries, i) ==>
          && 0 < FaultCount(h, entries, i + 1) <= |failures|
          && failures[FaultCount(h, entries, i + 1) - 1] == Failure(entries[i].body.number, EntryHashMismatch))
  }

  /** The list reports every fault of every entry, in order, and nothing else. */
  ghost predicate Reports(h: Hasher, entries: seq<Entry>, failures: seq<Failure>) {
    && |failures| == FaultCount(h, entries, |entries|)
    && forall i :: 0 <= i < |entries| ==> ReportsAt(h, entries, failures, i)
  }

  lemma ReportsOneMore(h: Hasher, entries: seq<Entry>, n: nat, failures: seq<Failure>)
    requires n < |entries| && |failures| == FaultCount(h, entries, n)
    ensures var failures' := failures + FaultsOf(h, entries[n], Last(h, entries[..n]));
      |failures'| == FaultCount(h, entries, n + 1) && ReportsAt(h, entries, failures', n)
  {
  }

  lemma ReportsStay(h: Hasher, entries: seq<Entry>, failures: seq<Failure>, more: seq<Failure>, i: nat)
    requires i < |entries| && ReportsAt(h, entries, failures, i)
    ensures ReportsAt(h, entries, failures + more, i)
  {
    hide FaultCount, BadLink, BadHash;
  }

  lemma {:induction false} FirstFailuresReport(h: Hasher, entries: seq<Entry>, n: nat)
    requires n <= |entries|
    ensures |Failures(h, entries[..n])| == FaultCount(h, entries, n)
    ensures forall i :: 0 <= i < n ==> ReportsAt(h, entries, Failures(h, entries[..n]), i)
  {
    hide FaultsOf, ReportsAt, BadLink, BadHash, Last;
    if n > 0 {
      FirstFailuresReport(h, entries, n - 1);
      var failures := Failures(h, entries[..n - 1]);
      var more := FaultsOf(h, entries[n - 1], Last(h, entries[..n - 1]));
      assert entries[..n][..n - 1] == entries[..n - 1];
      assert Failures(h, entries[..n]) == failures + more;
      ReportsOneMore(h, entries, n - 1, failures);
      forall i | 0 <= i < n - 1 ensures ReportsAt(h, entries, failures + more, i) {
        ReportsStay(h, entries, failures, more, i);
      }
    }
  }

  lemma FailuresReport(h: Hasher, entries: seq<Entry>)
    ensures Reports(h, entries, Failures(h, entries))
  {
    FirstFailuresReport(h, entries, |entries|);
    assert entries[..|entries|] == entries;
  }

  class HashChain {
    const hasher: Hasher
    var entries: seq<Entry>
    var lastHash: Digest

    constructor (h: Hasher)
      ensures hasher == h && entries == [] && lastHash == h.genesis
    {
      hasher := h;
      entries, lastHash := [], h.genesis;
    }

    method Append(event: Event, now: Timestamp) returns (entry: Entry)
      modifies this
      ensures entry == NextEntry(hasher, old(entries), old(lastHash), event, now)
      ensures entries == old(entries) + [entry] && lastHash == entry.hash
      ensures entry.body == Body(|old(entries)| + 1, now, event, old(lastHash)) && entry.hash == hasher.hash(entry.body)
      ensures old(Linked(hasher, entries) && lastHash == Last(hasher, entries)) ==>
                Linked(hasher, entries) && lastHash == Last(hasher, entries)
    {
      var body := Body(|entries| + 1, now, event, lastHash);
      entry := Entry(body, hasher.hash(body));
      LinkedAppend(hasher, entries, entry);
      entries := entries + [entry];
      lastHash := entry.hash;
    }

    method Verify() returns (failures: seq<Failure>)
      ensures failures == Failures(hasher, entries)
      ensures failures == [] <==> Linked(hasher, entries)
      ensures Reports(hasher, entries, failures)
    {
      failures := [];
      var expected := hasher.genesis;
      for i := 0 to |entries|
        invariant expected == Last(hasher, entries[..i])
        invariant failures == Failures(hasher, entries[..i])
      {
        var entry := entries[i];
        assert entries[..i + 1][..i] == entries[..i];
        if entry.body.previous != expected {
          failures := failures + [Failure(entry.body.number, PreviousHashMismatch)];
        }
        if hasher.hash(entry.body) != entry.hash {
          failures := failures + [Failure(entry.body.number, EntryHashMismatch)];
        }
        expected := entry.hash;
      }
      assert entries[..|entries|] == entries;
      NoFailuresIffLinked(hasher, entries);
      FailuresReport(hasher, entries);
    }
  }

  lemma LinkedAppend(h: Hasher, entries: seq<Entry>, entry: Entry)
    ensures Linked(h, entries + [entry]) <==>
            Linked(h, entries) && entry.body.previous == Last(h, entries) && entry.hash == h.hash(entry.body)
    ensures Last(h, entries + [entry]) == entry.hash
  {
    var all := entries + [entry];
    assert forall i :: 0 <= i < |entries| ==> all[i] == entries[i] && all[..i] == entries[..i];
    assert all[|entries|] == entry && all[..|entries|] == entries;
    if Linked(h, all) {
      forall i | 0 <= i < |entries|
        ensures entries[i].body.previous == Last(h, entries[..i]) && entries[i].hash == h.hash(entries[i].body)
      {
        assert all[i].body.previous == Last(h, all[..i]);
      }
    }
  }

  lemma LinkedPrefix(h: Hasher, entries: seq<Entry>, n: nat)
    requires Linked(h, entries) && n <= |entries|
    ensures Linked(h, entries[..n])
  {
    forall i | 0 <= i < n
      ensures entries[..n][i].body.previous == Last(h, entries[..n][..i])
      ensures entries[..n][i].hash == h.hash(entries[..n][i].body)
    {
      assert entries[..n][..i] == entries[..i] && entries[..n][i] == entries[i];
    }
  }

  /** Verification passes exactly on the chains that are linked from the genesis hash on. */
  lemma {:induction false} NoFailuresIffLinked(h: Hasher, entries: seq<Entry>)
    ensures Failures(h, entries) == [] <==> Linked(h, entries)
  {
    if entries != [] {
      var n := |entries| - 1;
      NoFailuresIffLinked(h, entries[..n]);
      LinkedAppend(h, entries[..n], entries[n]);
      assert entries[..n] + [entries[n]] == entries;
    }
  }

  /// Tampering

  lemma LastLink(h: Hasher, entries: seq<Entry>)
    requires Linked(h, entries) && entries != []
    ensures var n := |entries| - 1;
      && Linked(h, entries[..n])
      && entries == entries[..n] + [entries[n]]
      && entries[n].hash == h.hash(entries[n].body) == Last(h, entries)
      && entries[n].body.previous == Last(h, entries[..n])
  {
    LinkedPrefix(h, entries, |entries| - 1);
  }

  lemma IdealMeans(h: Hasher, a: Body, b: Body)
    requires Ideal(h)
    ensures (h.hash(a) == h.hash(b) ==> a == b) && h.hash(a) != h.genesis
  {
  }

  /** Two ledgers that pass verification and end in the same hash are the same ledger. */
  lemma {:induction false} LastHashDetermines(h: Hasher, a: seq<Entry>, b: seq<Entry>)
    requires Ideal(h) && Linked(h, a) && Linked(h, b) && Last(h, a) == Last(h, b)
    ensures a == b
    decreases |a|
  {
    hide Linked, Ideal;
    if a != [] {
      LastLink(h, a);
      IdealMeans(h, a[|a| - 1].body, a[|a| - 1].body);
    }
    if b != [] {
      LastLink(h, b);
      IdealMeans(h, b[|b| - 1].body, b[|b| - 1].body);
    }
    if a != [] && b != [] {
      var m, n := |a| - 1, |b| - 1;
      IdealMeans(h, a[m].body, b[n].body);
      LastHashDetermines(h, a[..m], b[..n]);
    }
  }

  /** An edit, a reordering, an insertion or a deletion that keeps the last hash makes verification
    report a failure. */
  lemma {:induction false} TamperingIsReported(h: Hasher, ledger: seq<Entry>, tampered: seq<Entry>)
    requires Ideal(h) && Linked(h, ledger) && tampered != ledger && Last(h, tampered) == Last(h, ledger)
    ensures Failures(h, tampered) != []
  {
    NoFailuresIffLinked(h, tampered);
    if Linked(h, tampered) {
      LastHashDetermines(h, ledger, tampered);
      assert false;
    }
  }

  /** A hash at any position pins down everything before it: position, length and content. */
  lemma HashPinsPrefix(h: Hasher, a: seq<Entry>, i: nat, b: seq<Entry>, j: nat)
    requires Ideal(h) && Linked(h, a) && Linked(h, b)
    requires 0 < i <= |a| && 0 < j <= |b| && a[i - 1].hash == b[j - 1].hash
    ensures i == j && a[..i] == b[..j]
  {
    hide Linked, Ideal;
    LinkedPrefix(h, a, i);
    LinkedPrefix(h, b, j);
    var p, q := a[..i], b[..j];
    assert p[i - 1] == a[i - 1] && q[j - 1] == b[j - 1];
    LastHashDetermines(h, p, q);
    assert |p| == i && |q| == j;
  }
}

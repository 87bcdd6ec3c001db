/** What a whole run of Puts on one resource leaves behind. */
module SnapshotRetention {
  import opened Common
  import opened SnapshotStore

  /** What is stored after a run of Puts that met no error. */
  ghost function Run(sz: Sizes, puts: seq<Snapshot>): Option<ConfigMap> {
    if puts == [] then None
    else PutSpec(sz, Run(sz, puts[..|puts| - 1]), puts[|puts| - 1]).0
  }

  /** What was stored just before the last Put that stored something. */
  ghost function BeforeLastStored(sz: Sizes, puts: seq<Snapshot>): Option<ConfigMap> {
    if puts == [] then None
    else
      var prefix, s := puts[..|puts| - 1], puts[|puts| - 1];
      if Accepts(Run(sz, prefix), s) then Run(sz, prefix) else BeforeLastStored(sz, prefix)
  }

  /** The Puts that count, told without the store: oversize ones dropped, and a
      snapshot whose hash equals the previous counted one's dropped too. */
  function Collapse(puts: seq<Snapshot>): seq<Snapshot> {
    if puts == [] then []
    else
      var kept, s := Collapse(puts[..|puts| - 1]), puts[|puts| - 1];
      if |s.content| > MAX_CONTENT_BYTES || (kept != [] && kept[|kept| - 1].hash == s.hash) then kept
      else kept + [s]
  }

  ghost predicate DistinctTimes(s: seq<Snapshot>) {
    forall i, j :: 0 <= i < j < |s| ==> s[i].taken != s[j].taken
  }

  /** The index of the snapshots from position `k` on. */
  function Entries(acc: seq<Snapshot>, k: nat): (idx: seq<IndexEntry>)
    requires k <= |acc|
    ensures |idx| == |acc| - k
    decreases |acc| - k
  {
    if k == |acc| then [] else [EntryOf(acc[k])] + Entries(acc, k + 1)
  }

  lemma {:induction false} EntryAt(acc: seq<Snapshot>, k: nat, i: nat)
    requires k + i < |acc|
    ensures Entries(acc, k)[i] == EntryOf(acc[k + i])
    decreases i
  {
    if i > 0 { EntryAt(acc, k + 1, i - 1); }
  }

  function Blobs(acc: seq<Snapshot>, k: nat): map<int, Blob>
    requires k <= |acc|
    decreases |acc| - k
  {
    if k == |acc| then map[] else map[acc[k].taken := Gzip(acc[k].content)] + Blobs(acc, k + 1)
  }

  /** The ring of exactly the snapshots from `k` on (see BlobKeysAreIds and BlobAt). */
  function RingFrom(acc: seq<Snapshot>, k: nat): Ring
    requires k <= |acc|
  {
    Ring(Blobs(acc, k), Entries(acc, k))
  }

  /** The stored ConfigMap is the ring of the newest 1 to 20 of `acc`. */
  ghost predicate Retained(stored: Option<ConfigMap>, acc: seq<Snapshot>) {
    if acc == [] then stored == None
    else
      && stored.Some? && stored.value.index.Some?
      && stored.value.apiVersion == acc[0].apiVersion
      && 1 <= |IndexOf(stored.value)| <= MAX_SNAPSHOTS_PER_RESOURCE
      && |IndexOf(stored.value)| <= |acc|
      && Ring(stored.value.blobs, IndexOf(stored.value)) == RingFrom(acc, |acc| - |IndexOf(stored.value)|)
  }

  function Ids(idx: seq<IndexEntry>): set<int> { set e | e in idx :: e.id }

  lemma IdsOfCons(e: IndexEntry, idx: seq<IndexEntry>)
    ensures Ids([e] + idx) == {e.id} + Ids(idx)
  {
  }

  /** The blob keys of a ring are exactly the ids of its index. */
  lemma {:induction false} BlobKeysAreIds(acc: seq<Snapshot>, k: nat)
    requires k <= |acc|
    ensures Blobs(acc, k).Keys == Ids(Entries(acc, k))
    decreases |acc| - k
  {
    if k < |acc| {
      BlobKeysAreIds(acc, k + 1);
      IdsOfCons(EntryOf(acc[k]), Entries(acc, k + 1));
    }
  }

  /** When the times are distinct each blob unzips to the content that was put. */
  lemma {:induction false} BlobAt(acc: seq<Snapshot>, k: nat, i: nat)
    requires k <= i < |acc| && DistinctTimes(acc)
    ensures acc[i].taken in Blobs(acc, k) && Blobs(acc, k)[acc[i].taken] == Gzip(acc[i].content)
    decreases |acc| - k
  {
    if k == i {
      BlobTimes(acc, k + 1);
      assert acc[k].taken !in Blobs(acc, k + 1);
    } else {
      BlobAt(acc, k + 1, i);
    }
  }

  // ---------------------------------------------------------------- one Put

  lemma {:induction false} BlobTimes(acc: seq<Snapshot>, k: nat)
    requires k <= |acc|
    ensures forall id :: id in Blobs(acc, k) ==> exists i :: k <= i < |acc| && acc[i].taken == id
    decreases |acc| - k
  {
    if k < |acc| { BlobTimes(acc, k + 1); }
  }

  lemma DropOldestOfRing(acc: seq<Snapshot>, k: nat)
    requires k < |acc| && DistinctTimes(acc)
    ensures DropOldest(RingFrom(acc, k)) == RingFrom(acc, k + 1)
  {
    BlobTimes(acc, k + 1);
    assert acc[k].taken !in Blobs(acc, k + 1);
    assert Blobs(acc, k) - {acc[k].taken} == Blobs(acc, k + 1);
  }

  lemma {:induction false} PruneCountOfRing(acc: seq<Snapshot>, k: nat) returns (d: nat)
    requires k <= |acc| && DistinctTimes(acc)
    ensures d == if |acc| - k > MAX_SNAPSHOTS_PER_RESOURCE then |acc| - MAX_SNAPSHOTS_PER_RESOURCE else k
    ensures PruneCount(RingFrom(acc, k)) == RingFrom(acc, d)
    decreases |acc| - k
  {
    d := k;
    if |acc| - k > MAX_SNAPSHOTS_PER_RESOURCE {
      DropOldestOfRing(acc, k);
      d := PruneCountOfRing(acc, k + 1);
    }
  }

  lemma {:induction false} PruneSizeOfRing(sz: Sizes, acc: seq<Snapshot>, k: nat, oldText: Option<seq<IndexEntry>>)
    returns (d: nat)
    requires k < |acc| && DistinctTimes(acc)
    ensures k <= d < |acc|
    ensures PruneSize(sz, RingFrom(acc, k), oldText) == RingFrom(acc, d)
    ensures |acc| - d == 1 || CmBytes(sz, Blobs(acc, d), oldText) <= CM_SIZE_BUDGET
    decreases |acc| - k
  {
    d := k;
    if CmBytes(sz, Blobs(acc, k), oldText) > CM_SIZE_BUDGET && |acc| - k > 1 {
      DropOldestOfRing(acc, k);
      d := PruneSizeOfRing(sz, acc, k + 1, oldText);
    }
  }

  lemma {:induction false} AppendToEntries(acc: seq<Snapshot>, k: nat, s: Snapshot)
    requires k <= |acc|
    ensures Entries(acc + [s], k) == Entries(acc, k) + [EntryOf(s)]
    decreases |acc| - k
  {
    var all := acc + [s];
    if k == |acc| {
      assert Entries(all, k + 1) == [];
    } else {
      AppendToEntries(acc, k + 1, s);
      assert all[k] == acc[k];
    }
  }

  lemma {:induction false} AppendToBlobs(acc: seq<Snapshot>, k: nat, s: Snapshot)
    requires k <= |acc|
    ensures Blobs(acc + [s], k) == Blobs(acc, k)[s.taken := Gzip(s.content)]
    decreases |acc| - k
  {
    var all := acc + [s];
    if k == |acc| {
      assert Blobs(all, k + 1) == map[];
    } else {
      AppendToBlobs(acc, k + 1, s);
      assert all[k] == acc[k];
    }
  }

  lemma NextRing(sz: Sizes, acc: seq<Snapshot>, k: nat, s: Snapshot, oldText: Option<seq<IndexEntry>>) returns (d: nat)
    requires k <= |acc| && DistinctTimes(acc + [s])
    ensures d <= |acc| && |acc| + 1 - d <= MAX_SNAPSHOTS_PER_RESOURCE
    ensures PruneSize(sz, PruneCount(Append(RingFrom(acc, k), s)), oldText) == RingFrom(acc + [s], d)
    ensures |acc| == d || CmBytes(sz, Blobs(acc + [s], d), oldText) <= CM_SIZE_BUDGET
  {
    AppendToEntries(acc, k, s);
    AppendToBlobs(acc, k, s);
    d := PruneCountOfRing(acc + [s], k);
    d := PruneSizeOfRing(sz, acc + [s], d, oldText);
  }

  /** One accepted Put keeps the ring, and leaves it within the size budget, counted
      with the index text that the Put replaces. */
  lemma PutKeepsRetained(sz: Sizes, stored: Option<ConfigMap>, acc: seq<Snapshot>, s: Snapshot)
    requires Retained(stored, acc) && DistinctTimes(acc + [s])
    ensures Retained(Some(Candidate(sz, stored, s)), acc + [s])
    ensures
      var cm := Candidate(sz, stored, s);
      |IndexOf(cm)| == 1 || CmBytes(sz, cm.blobs, Base(stored, s).index) <= CM_SIZE_BUDGET
  {
    var base := Base(stored, s);
    var k := |acc| - |IndexOf(base)|;
    assert Ring(base.blobs, IndexOf(base)) == RingFrom(acc, k);
    var d := NextRing(sz, acc, k, s, base.index);
    assert |Entries(acc + [s], d)| == |acc| + 1 - d;
  }

  // ---------------------------------------------------------------- pruning drops no more than it must

  function DropN(r: Ring, n: nat): Ring
    requires n <= |r.idx|
    decreases n
  {
    if n == 0 then r else DropN(DropOldest(r), n - 1)
  }

  /** Both limits met. */
  ghost predicate Fits(sz: Sizes, r: Ring, oldText: Option<seq<IndexEntry>>) {
    |r.idx| <= MAX_SNAPSHOTS_PER_RESOURCE && (|r.idx| <= 1 || CmBytes(sz, r.blobs, oldText) <= CM_SIZE_BUDGET)
  }

  ghost predicate LeastPruning(sz: Sizes, r: Ring, oldText: Option<seq<IndexEntry>>, out: Ring) {
    exists m: nat :: m <= |r.idx| && PrunesBy(sz, r, oldText, out, m)
  }

  ghost predicate PrunesBy(sz: Sizes, r: Ring, oldText: Option<seq<IndexEntry>>, out: Ring, m: nat)
    requires m <= |r.idx|
  {
    && out == DropN(r, m)
    && Fits(sz, out, oldText)
    && forall n: nat :: n < m ==> !Fits(sz, DropN(r, n), oldText)
  }

  /** Pruning by count and then by size leaves the longest suffix of the ring that meets both limits. */
  lemma {:induction false} PruningIsLeast(sz: Sizes, r: Ring, oldText: Option<seq<IndexEntry>>)
    ensures LeastPruning(sz, r, oldText, PruneSize(sz, PruneCount(r), oldText))
    decreases |r.idx|
  {
    var out := PruneSize(sz, PruneCount(r), oldText);
    if Fits(sz, r, oldText) {
      assert PrunesBy(sz, r, oldText, out, 0);
    } else {
      assert |r.idx| > 1;
      var d := DropOldest(r);
      PruningIsLeast(sz, d, oldText);
      var m: nat :| m <= |d.idx| && PrunesBy(sz, d, oldText, out, m);
      forall n: nat | n < m + 1 ensures !Fits(sz, DropN(r, n), oldText) {
        if n > 0 { assert DropN(r, n) == DropN(d, n - 1); }
      }
      assert PrunesBy(sz, r, oldText, out, m + 1);
    }
  }

  // ---------------------------------------------------------------- whole runs

  lemma LatestEntry(stored: Option<ConfigMap>, acc: seq<Snapshot>)
    requires acc != [] && Retained(stored, acc)
    ensures
      var idx := IndexOf(stored.value);
      idx[|idx| - 1] == EntryOf(acc[|acc| - 1])
  {
    var idx := IndexOf(stored.value);
    EntryAt(acc, |acc| - |idx|, |idx| - 1);
  }

  /** After any run of Puts at distinct times: the index is the newest 1 to 20 of the
      snapshots that count, blobs and index agree, every content is the one put, and
      the budget holds unless a single snapshot remains. */
  lemma {:induction false} RunIsRetained(sz: Sizes, puts: seq<Snapshot>)
    requires DistinctTimes(Collapse(puts))
    ensures Retained(Run(sz, puts), Collapse(puts))
    ensures Collapse(puts) != [] ==>
      var cm := Run(sz, puts).value;
      var replaced := BeforeLastStored(sz, puts);
      |IndexOf(cm)| == 1 ||
      CmBytes(sz, cm.blobs, if replaced.Some? then replaced.value.index else None) <= CM_SIZE_BUDGET
  {
    if puts != [] {
      var prefix, s := puts[..|puts| - 1], puts[|puts| - 1];
      var acc, stored := Collapse(prefix), Run(sz, prefix);
      assert DistinctTimes(acc) by {
        assert acc == Collapse(puts)[..|acc|];
      }
      RunIsRetained(sz, prefix);
      if acc != [] { LatestEntry(stored, acc); }
      if Accepts(stored, s) { PutKeepsRetained(sz, stored, acc, s); }
    }
  }

  lemma RetainedRow(cm: ConfigMap, acc: seq<Snapshot>, ref: Ref, i: nat)
    requires acc != [] && Retained(Some(cm), acc) && DistinctTimes(acc) && i < |IndexOf(cm)|
    ensures
      var s := acc[|acc| - |IndexOf(cm)| + i];
      && IndexOf(cm)[i] == EntryOf(s)
      && RowOf(cm, ref, IndexOf(cm)[i]) == Row(s.taken, ref, acc[0].apiVersion, s.taken, s.hash, s.source, s.content)
  {
    var k := |acc| - |IndexOf(cm)|;
    BlobAt(acc, k, k + i);
    EntryAt(acc, k, i);
  }

  ghost predicate TimesIncrease(acc: seq<Snapshot>) {
    forall i, j :: 0 <= i < j < |acc| ==> acc[i].taken < acc[j].taken
  }

  lemma RetainedIndexIncreases(cm: ConfigMap, acc: seq<Snapshot>)
    requires acc != [] && Retained(Some(cm), acc) && TimesIncrease(acc)
    ensures Increasing(IndexOf(cm))
  {
    var idx := IndexOf(cm);
    forall j, k | 0 <= j < k < |idx| ensures idx[j].taken < idx[k].taken {
      EntryAt(acc, |acc| - |idx|, j);
      EntryAt(acc, |acc| - |idx|, k);
    }
  }

  ghost predicate ShowsWhatWasPut(row: Row, ref: Ref, acc: seq<Snapshot>, i: nat) {
    && i < |acc|
    && var s := acc[|acc| - 1 - i];
    row == Row(s.taken, ref, acc[0].apiVersion, s.taken, s.hash, s.source, s.content)
  }

  lemma ReversedRow(cm: ConfigMap, ref: Ref, idx: seq<IndexEntry>, i: nat)
    requires i < |idx|
    ensures Reverse(RowsOf(cm, ref, idx))[i] == RowOf(cm, ref, idx[|idx| - 1 - i])
  {
  }

  lemma RetainedTimeline(cm: ConfigMap, acc: seq<Snapshot>, ref: Ref, i: nat)
    requires acc != [] && Retained(Some(cm), acc) && TimesIncrease(acc) && i < |IndexOf(cm)|
    ensures ShowsWhatWasPut(Reverse(RowsOf(cm, ref, IndexOf(cm)))[i], ref, acc, i)
  {
    var idx := IndexOf(cm);
    ReversedRow(cm, ref, idx, i);
    RetainedRow(cm, acc, ref, |idx| - 1 - i);
  }

  /** Read back newest first, the timeline shows the snapshots as they were put.  The
      API version shown is that of the Put that created the ConfigMap. */
  lemma TimelineShowsWhatWasPut(sz: Sizes, puts: seq<Snapshot>, cm: ConfigMap, ref: Ref, i: nat)
    requires TimesIncrease(Collapse(puts))
    requires Run(sz, puts) == Some(cm) && i < |IndexOf(cm)|
    ensures Increasing(IndexOf(cm))
    ensures ShowsWhatWasPut(Reverse(RowsOf(cm, ref, IndexOf(cm)))[i], ref, Collapse(puts), i)
  {
    var acc := Collapse(puts);
    assert acc != [] && Retained(Some(cm), acc) by { RunIsRetained(sz, puts); }
    RetainedIndexIncreases(cm, acc);
    RetainedTimeline(cm, acc, ref, i);
  }

  /** Distinct times are needed: two snapshots put at the same instant share one blob,
      and the older index entry then shows the newer content. */
  lemma SameInstantOverwrites(sz: Sizes, a: Snapshot, b: Snapshot)
    requires a.taken == b.taken && a.hash != b.hash && a.content != b.content
    requires |a.content| <= MAX_CONTENT_BYTES && |b.content| <= MAX_CONTENT_BYTES
    requires sz.packed(b.content) + sz.text([EntryOf(a)]) <= CM_SIZE_BUDGET
    ensures
      var cm := Run(sz, [a, b]).value;
      && IndexOf(cm) == [EntryOf(a), EntryOf(b)]
      && RowsOf(cm, a.ref, IndexOf(cm))[0].hash == a.hash
      && RowsOf(cm, a.ref, IndexOf(cm))[0].content == b.content
  {
    var first := Candidate(sz, None, a);
    assert [a][..0] == [] && [a, b][..1] == [a];
    assert Run(sz, [a]) == Some(first);
    var blobs := map[b.taken := Gzip(b.content)];
    BlobBytesRemove(sz, blobs, b.taken);
    assert blobs - {b.taken} == map[];
    assert Append(Ring(map[], []), a) == Ring(map[a.taken := Gzip(a.content)], [EntryOf(a)]);
    assert first == ConfigMap(a.apiVersion, map[a.taken := Gzip(a.content)], Some([EntryOf(a)]));
    assert Append(Ring(first.blobs, IndexOf(first)), b) == Ring(blobs, [EntryOf(a), EntryOf(b)]);
    assert CmBytes(sz, blobs, first.index) <= CM_SIZE_BUDGET;
    assert Run(sz, [a, b]) == Some(ConfigMap(a.apiVersion, blobs, Some([EntryOf(a), EntryOf(b)])));
  }
}

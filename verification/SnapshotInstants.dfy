/** Runs of Puts at any times, equal ones included: the index is the same as ever, and what
    each retained entry shows is said exactly. */
module SnapshotInstants {
  import opened Common
  import opened SnapshotStore
  import opened SnapshotRetention

  // ---------------------------------------------------------------- what pruning does to a ring

  lemma {:induction false} DropNParts(r: Ring, n: nat, id: int)
    requires n <= |r.idx|
    ensures DropN(r, n).idx == r.idx[n..]
    ensures id in DropN(r, n).blobs <==> id in r.blobs && !Names(r.idx, 0, n, id)
    ensures id in DropN(r, n).blobs ==> DropN(r, n).blobs[id] == r.blobs[id]
    decreases n
  {
    if n > 0 {
      var d := DropOldest(r);
      DropNParts(d, n - 1, id);
      assert r.idx[1..][n - 1..] == r.idx[n..];
      NamesShift(r.idx, n, id);
    }
  }

  /** An entry from `lo` up to `hi` has the id. */
  ghost predicate Names(idx: seq<IndexEntry>, lo: nat, hi: nat, id: int)
    requires lo <= hi <= |idx|
  {
    exists e :: lo <= e < hi && idx[e].id == id
  }

  lemma NamesShift(idx: seq<IndexEntry>, n: nat, id: int)
    requires 0 < n <= |idx|
    ensures Names(idx, 0, n, id) <==> idx[0].id == id || Names(idx[1..], 0, n - 1, id)
  {
    if e :| 0 <= e < n && idx[e].id == id {
      if e > 0 { assert idx[1..][e - 1].id == id; }
    }
    if e :| 0 <= e < n - 1 && idx[1..][e].id == id { assert idx[e + 1].id == id; }
  }

  // ---------------------------------------------------------------- one Put, on rings

  /** The index is the entries of the newest of the first `n` snapshots. */
  ghost predicate Suffix(idx: seq<IndexEntry>, acc: seq<Snapshot>, n: nat) {
    && |idx| <= n <= |acc|
    && forall i :: 0 <= i < |idx| ==> idx[i] == EntryOf(acc[n - |idx| + i])
  }

  /** One of the snapshots from `lo` up to `hi` was taken at `t`. */
  ghost predicate TakenIn(acc: seq<Snapshot>, lo: int, hi: int, t: int) {
    exists e :: lo <= e < hi && 0 <= e < |acc| && acc[e].taken == t
  }

  lemma NextSuffix(acc: seq<Snapshot>, n: nat, r: Ring, d: nat)
    requires n < |acc| && Suffix(r.idx, acc, n) && d <= |r.idx|
    ensures Suffix(DropN(Append(r, acc[n]), d).idx, acc, n + 1)
    ensures |DropN(Append(r, acc[n]), d).idx| == |r.idx| + 1 - d
  {
    DropNParts(Append(r, acc[n]), d, 0);
    var was := r.idx + [EntryOf(acc[n])];
    forall i | 0 <= i < |was[d..]| ensures was[d..][i] == EntryOf(acc[n + 1 - |was[d..]| + i]) {
      assert was[d..][i] == was[d + i];
    }
  }

  /** Under `t` there is afterwards the new blob or the old one, unless a dropped entry was
      taken at `t`. */
  lemma NextBlob(acc: seq<Snapshot>, n: nat, r: Ring, d: nat, t: int)
    requires n < |acc| && Suffix(r.idx, acc, n) && d <= |r.idx|
    ensures
      var blobs := DropN(Append(r, acc[n]), d).blobs;
      && (t in blobs <==> (t == acc[n].taken || t in r.blobs) && !TakenIn(acc, n - |r.idx|, n - |r.idx| + d, t))
      && (t in blobs ==> blobs[t] == if t == acc[n].taken then Gzip(acc[n].content) else r.blobs[t])
  {
    var more, k := Append(r, acc[n]), n - |r.idx|;
    DropNParts(more, d, t);
    assert forall e :: 0 <= e < d ==> more.idx[e].id == acc[k + e].taken;
    if e :| k <= e < k + d && 0 <= e < |acc| && acc[e].taken == t { assert more.idx[e - k].id == t; }
  }

  // ---------------------------------------------------------------- the ring after each counted Put

  ghost function RingAfter(sz: Sizes, acc: seq<Snapshot>, n: nat): Ring
    requires n <= |acc|
  {
    if n == 0 then Ring(map[], [])
    else
      var r := RingAfter(sz, acc, n - 1);
      PruneSize(sz, PruneCount(Append(r, acc[n - 1])), OldText(r.idx))
  }

  /** The index text a Put replaces. */
  function OldText(idx: seq<IndexEntry>): Option<seq<IndexEntry>> {
    if idx == [] then None else Some(idx)
  }

  /** How many of the first `n` counted snapshots are no longer in the index. */
  ghost function Dropped(sz: Sizes, acc: seq<Snapshot>, n: nat): int
    requires n <= |acc|
  {
    n - |RingAfter(sz, acc, n).idx|
  }

  /** A Put drops some of the oldest entries, but never its own. */
  lemma PutDrops(sz: Sizes, r: Ring, s: Snapshot, text: Option<seq<IndexEntry>>) returns (d: nat)
    ensures d <= |r.idx|
    ensures PruneSize(sz, PruneCount(Append(r, s)), text) == DropN(Append(r, s), d)
    ensures Fits(sz, DropN(Append(r, s), d), text)
  {
    var more := Append(r, s);
    PruningIsLeast(sz, more, text);
    d :| d <= |more.idx| && PrunesBy(sz, more, text, PruneSize(sz, PruneCount(more), text), d);
    if d > 0 {
      DropNParts(more, d - 1, 0);
      assert !Fits(sz, DropN(more, d - 1), text);
    }
  }

  lemma NextRing(sz: Sizes, acc: seq<Snapshot>, n: nat) returns (d: nat)
    requires n < |acc|
    ensures d <= |RingAfter(sz, acc, n).idx|
    ensures RingAfter(sz, acc, n + 1) == DropN(Append(RingAfter(sz, acc, n), acc[n]), d)
    ensures Fits(sz, RingAfter(sz, acc, n + 1), OldText(RingAfter(sz, acc, n).idx))
  {
    var r := RingAfter(sz, acc, n);
    d := PutDrops(sz, r, acc[n], OldText(r.idx));
  }

  /** The ring after `n` counted Puts has the newest entries, and the last of them. */
  ghost predicate Newest(sz: Sizes, acc: seq<Snapshot>, n: nat)
    requires n <= |acc|
  {
    Suffix(RingAfter(sz, acc, n).idx, acc, n) && (n > 0 ==> |RingAfter(sz, acc, n).idx| > 0)
  }

  lemma NextNewest(sz: Sizes, acc: seq<Snapshot>, n: nat) returns (d: nat)
    requires n < |acc| && Newest(sz, acc, n)
    ensures Newest(sz, acc, n + 1) && Dropped(sz, acc, n + 1) == Dropped(sz, acc, n) + d
    ensures d <= |RingAfter(sz, acc, n).idx|
    ensures RingAfter(sz, acc, n + 1) == DropN(Append(RingAfter(sz, acc, n), acc[n]), d)
  {
    d := NextRing(sz, acc, n);
    NextSuffix(acc, n, RingAfter(sz, acc, n), d);
  }

  lemma {:induction false} IndexIsSuffix(sz: Sizes, acc: seq<Snapshot>, n: nat)
    requires n <= |acc|
    ensures Newest(sz, acc, n)
  {
    if n > 0 {
      IndexIsSuffix(sz, acc, n - 1);
      var d := NextNewest(sz, acc, n - 1);
    }
  }

  lemma {:induction false} DroppedGrows(sz: Sizes, acc: seq<Snapshot>, m: nat, n: nat)
    requires m <= n <= |acc|
    ensures 0 <= Dropped(sz, acc, m) <= Dropped(sz, acc, n) <= n
    decreases n
  {
    IndexIsSuffix(sz, acc, n);
    if m < n {
      IndexIsSuffix(sz, acc, n - 1);
      var d := NextNewest(sz, acc, n - 1);
      DroppedGrows(sz, acc, m, n - 1);
    }
  }

  // ---------------------------------------------------------------- the blobs at any times

  /** The last of the first `n` snapshots taken at `t`, -1 if there is none. */
  function LastAt(acc: seq<Snapshot>, n: nat, t: int): (m: int)
    requires n <= |acc|
    ensures -1 <= m < n && (m >= 0 ==> acc[m].taken == t)
    ensures forall e :: m < e < n ==> acc[e].taken != t
  {
    if n == 0 then -1 else if acc[n - 1].taken == t then n - 1 else LastAt(acc, n - 1, t)
  }

  /** A snapshot taken at `t` was dropped in the Put of the last one taken then, or since. */
  ghost predicate Lost(sz: Sizes, acc: seq<Snapshot>, n: nat, t: int)
    requires n <= |acc|
  {
    var m := LastAt(acc, n, t);
    m < 0 || TakenIn(acc, Dropped(sz, acc, m), Dropped(sz, acc, n), t)
  }

  /** The blob under `t` is that of the last snapshot taken at `t`, unless it is lost. */
  ghost predicate BlobIs(sz: Sizes, acc: seq<Snapshot>, n: nat, t: int)
    requires n <= |acc|
  {
    var blobs := RingAfter(sz, acc, n).blobs;
    if Lost(sz, acc, n, t) then t !in blobs else t in blobs && blobs[t] == Gzip(acc[LastAt(acc, n, t)].content)
  }

  lemma LostNext(sz: Sizes, acc: seq<Snapshot>, n: nat, t: int)
    requires n < |acc|
    ensures
      var now := TakenIn(acc, Dropped(sz, acc, n), Dropped(sz, acc, n + 1), t);
      Lost(sz, acc, n + 1, t) <==> now || (acc[n].taken != t && Lost(sz, acc, n, t))
  {
    var m := LastAt(acc, n, t);
    DroppedGrows(sz, acc, n, n + 1);
    if m >= 0 { DroppedGrows(sz, acc, m, n); }
    if m < 0 && acc[n].taken != t {
      assert forall e :: 0 <= e < n ==> acc[e].taken != t;
      DroppedGrows(sz, acc, 0, n);
    }
  }

  lemma NextBlobIs(sz: Sizes, acc: seq<Snapshot>, n: nat, t: int)
    requires n < |acc| && BlobIs(sz, acc, n, t)
    ensures BlobIs(sz, acc, n + 1, t)
  {
    IndexIsSuffix(sz, acc, n);
    var d := NextNewest(sz, acc, n);
    NextBlob(acc, n, RingAfter(sz, acc, n), d, t);
    LostNext(sz, acc, n, t);
  }

  lemma {:induction false} BlobsAre(sz: Sizes, acc: seq<Snapshot>, n: nat, t: int)
    requires n <= |acc|
    ensures BlobIs(sz, acc, n, t)
  {
    if n > 0 {
      BlobsAre(sz, acc, n - 1, t);
      NextBlobIs(sz, acc, n - 1, t);
    }
  }

  // ---------------------------------------------------------------- whole runs

  lemma {:induction false} RingOfPrefix(sz: Sizes, acc: seq<Snapshot>, s: Snapshot, n: nat)
    requires n <= |acc|
    ensures RingAfter(sz, acc + [s], n) == RingAfter(sz, acc, n)
  {
    if n > 0 { RingOfPrefix(sz, acc, s, n - 1); }
  }

  /** The ConfigMap that holds a ring. */
  function Holding(acc: seq<Snapshot>, r: Ring): Option<ConfigMap> {
    if acc == [] then None else Some(ConfigMap(acc[0].apiVersion, r.blobs, Some(r.idx)))
  }

  /** One accepted Put on top of a ring. */
  lemma PutOnRing(sz: Sizes, acc: seq<Snapshot>, s: Snapshot)
    ensures
      var stored := Holding(acc, RingAfter(sz, acc, |acc|));
      Some(Candidate(sz, stored, s)) == Holding(acc + [s], RingAfter(sz, acc + [s], |acc| + 1))
  {
    RingOfPrefix(sz, acc, s, |acc|);
    IndexIsSuffix(sz, acc, |acc|);
  }

  lemma {:induction false} RunIsRing(sz: Sizes, puts: seq<Snapshot>)
    ensures
      var acc := Collapse(puts);
      Run(sz, puts) == Holding(acc, RingAfter(sz, acc, |acc|))
  {
    if puts != [] {
      var prefix, s := puts[..|puts| - 1], puts[|puts| - 1];
      var kept := Collapse(prefix);
      RunIsRing(sz, prefix);
      IndexIsSuffix(sz, kept, |kept|);
      PutOnRing(sz, kept, s);
    }
  }

  /** After any run of Puts, whatever their times: the index is the newest 1 to 20 of the
      snapshots that count, and the budget holds unless a single one is left. */
  lemma IndexIsTheNewest(sz: Sizes, puts: seq<Snapshot>)
    requires Collapse(puts) != []
    ensures Run(sz, puts).Some?
    ensures
      var acc, cm := Collapse(puts), Run(sz, puts).value;
      && 1 <= |IndexOf(cm)| <= MAX_SNAPSHOTS_PER_RESOURCE && Suffix(IndexOf(cm), acc, |acc|)
      && (|IndexOf(cm)| == 1 || CmBytes(sz, cm.blobs, OldText(RingAfter(sz, acc, |acc| - 1).idx)) <= CM_SIZE_BUDGET)
  {
    var acc := Collapse(puts);
    RunIsRing(sz, puts);
    IndexIsSuffix(sz, acc, |acc|);
    var d := NextRing(sz, acc, |acc| - 1);
  }

  /** What an entry shows: the content of the last snapshot taken at its time, or nothing
      once that is lost. */
  ghost function Shown(sz: Sizes, acc: seq<Snapshot>, t: int): string {
    if Lost(sz, acc, |acc|, t) then "" else acc[LastAt(acc, |acc|, t)].content
  }

  lemma BlobShows(sz: Sizes, acc: seq<Snapshot>, cm: ConfigMap, ref: Ref, e: IndexEntry)
    requires cm.blobs == RingAfter(sz, acc, |acc|).blobs
    ensures RowOf(cm, ref, e).content == Shown(sz, acc, e.id)
  {
    BlobsAre(sz, acc, |acc|, e.id);
  }

  /** For every run and every entry of its index. */
  lemma ShownContent(sz: Sizes, puts: seq<Snapshot>, ref: Ref, i: nat)
    requires Run(sz, puts).Some? && i < |IndexOf(Run(sz, puts).value)|
    ensures
      var acc, cm := Collapse(puts), Run(sz, puts).value;
      && |IndexOf(cm)| <= |acc|
      && var s := acc[|acc| - |IndexOf(cm)| + i];
      && IndexOf(cm)[i] == EntryOf(s)
      && RowOf(cm, ref, IndexOf(cm)[i]).content == Shown(sz, acc, s.taken)
  {
    var acc, cm := Collapse(puts), Run(sz, puts).value;
    RunIsRing(sz, puts);
    IndexIsSuffix(sz, acc, |acc|);
    BlobShows(sz, acc, cm, ref, IndexOf(cm)[i]);
  }

  /** So an entry shows its own content exactly when the last snapshot taken at its time has
      the same content and none taken then was dropped in that one's Put or since; or the
      content is empty and was lost. */
  lemma ShowsItsOwnContentIff(sz: Sizes, puts: seq<Snapshot>, ref: Ref, i: nat)
    requires Run(sz, puts).Some? && i < |IndexOf(Run(sz, puts).value)|
    ensures |IndexOf(Run(sz, puts).value)| <= |Collapse(puts)|
    ensures
      var acc, cm := Collapse(puts), Run(sz, puts).value;
      var s := acc[|acc| - |IndexOf(cm)| + i];
      RowOf(cm, ref, IndexOf(cm)[i]).content == s.content <==>
        if Lost(sz, acc, |acc|, s.taken) then s.content == "" else acc[LastAt(acc, |acc|, s.taken)].content == s.content
  {
    ShownContent(sz, puts, ref, i);
  }

  /** Two snapshots put at the same instant, where pruning the older one takes the blob that
      the newer one needs: the only entry left shows nothing. */
  lemma SameInstantLosesContent(sz: Sizes, a: Snapshot, b: Snapshot)
    requires a.taken == b.taken && a.hash != b.hash
    requires |a.content| <= MAX_CONTENT_BYTES && |b.content| <= MAX_CONTENT_BYTES
    requires sz.packed(b.content) + sz.text([EntryOf(a)]) > CM_SIZE_BUDGET
    ensures
      var cm := Run(sz, [a, b]).value;
      IndexOf(cm) == [EntryOf(b)] && RowsOf(cm, b.ref, IndexOf(cm))[0].content == ""
  {
    var first := Candidate(sz, None, a);
    assert [a][..0] == [] && [a, b][..1] == [a];
    assert Append(Ring(map[], []), a) == Ring(map[a.taken := Gzip(a.content)], [EntryOf(a)]);
    assert first == ConfigMap(a.apiVersion, map[a.taken := Gzip(a.content)], Some([EntryOf(a)]));
    assert Run(sz, [a]) == Some(first);
    var blobs := map[b.taken := Gzip(b.content)];
    BlobBytesRemove(sz, blobs, b.taken);
    assert blobs - {b.taken} == map[];
    var r := Ring(blobs, [EntryOf(a), EntryOf(b)]);
    assert Append(Ring(first.blobs, IndexOf(first)), b) == r;
    assert DropOldest(r) == Ring(map[], [EntryOf(b)]);
    assert PruneSize(sz, r, first.index) == PruneSize(sz, DropOldest(r), first.index) == DropOldest(r);
    assert Run(sz, [a, b]) == Some(ConfigMap(a.apiVersion, map[], Some([EntryOf(b)])));
  }

  // ---------------------------------------------------------------- the size that is written

  /** The budget is checked with the index text that a Put replaces, so what is written may
      exceed it by as much as the text grows, and no more; unless a single entry is left. */
  lemma WrittenSize(sz: Sizes, puts: seq<Snapshot>)
    requires Collapse(puts) != []
    ensures Run(sz, puts).Some?
    ensures
      var acc, cm := Collapse(puts), Run(sz, puts).value;
      var before := TextBytes(sz, OldText(RingAfter(sz, acc, |acc| - 1).idx));
      |IndexOf(cm)| == 1 || CmBytes(sz, cm.blobs, cm.index) <= CM_SIZE_BUDGET + sz.text(IndexOf(cm)) - before
  {
    IndexIsTheNewest(sz, puts);
    RunIsRing(sz, puts);
  }

  /** It does exceed the budget when the replaced text still fits and the new one does not. */
  lemma WrittenCanExceedTheBudget(sz: Sizes, a: Snapshot, b: Snapshot)
    requires a.taken != b.taken && a.hash != b.hash
    requires |a.content| <= MAX_CONTENT_BYTES && |b.content| <= MAX_CONTENT_BYTES
    requires sz.packed(a.content) + sz.packed(b.content) + sz.text([EntryOf(a)]) <= CM_SIZE_BUDGET
    requires sz.packed(a.content) + sz.packed(b.content) + sz.text([EntryOf(a), EntryOf(b)]) > CM_SIZE_BUDGET
    ensures
      var cm := Run(sz, [a, b]).value;
      IndexOf(cm) == [EntryOf(a), EntryOf(b)] && CmBytes(sz, cm.blobs, cm.index) > CM_SIZE_BUDGET
  {
    var first := Candidate(sz, None, a);
    assert [a][..0] == [] && [a, b][..1] == [a];
    assert Append(Ring(map[], []), a) == Ring(map[a.taken := Gzip(a.content)], [EntryOf(a)]);
    assert first == ConfigMap(a.apiVersion, map[a.taken := Gzip(a.content)], Some([EntryOf(a)]));
    assert Run(sz, [a]) == Some(first);
    var one := map[a.taken := Gzip(a.content)];
    var blobs := one[b.taken := Gzip(b.content)];
    BlobBytesRemove(sz, blobs, b.taken);
    assert blobs - {b.taken} == one;
    BlobBytesRemove(sz, one, a.taken);
    assert one - {a.taken} == map[];
    var r := Ring(blobs, [EntryOf(a), EntryOf(b)]);
    assert Append(Ring(first.blobs, IndexOf(first)), b) == r;
    assert PruneSize(sz, r, first.index) == r;
    assert Run(sz, [a, b]) == Some(ConfigMap(a.apiVersion, blobs, Some(r.idx)));
  }
}

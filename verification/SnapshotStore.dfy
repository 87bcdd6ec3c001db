/** The drift snapshot store: one ConfigMap per tracked resource, holding gzipped
    contents by id and a JSON index of the ring. */
module SnapshotStore {
  import opened Common
  import opened SliceSort
  import opened Text

  const MAX_SNAPSHOTS_PER_RESOURCE: nat := 20
  const MAX_CONTENT_BYTES: nat := 256 * 1024
  const CM_SIZE_BUDGET: nat := 900 * 1024

  datatype Ref = Ref(kind: string, ns: string, name: string)

  /** `taken` is in unix nanoseconds.  The id of a snapshot is the decimal text of
      `taken`; decimal text is injective, so the number itself stands for it. */
  datatype Snapshot = Snapshot(ref: Ref, apiVersion: string, taken: int, hash: string, source: string, content: string)

  datatype IndexEntry = IndexEntry(id: int, taken: int, hash: string, source: string)

  /** gzip output, as an invertible constructor. */
  datatype Blob = Gzip(content: string)

  /** `index` is the JSON text under the index key: None when absent or empty. */
  datatype ConfigMap = ConfigMap(apiVersion: string, blobs: map<int, Blob>, index: Option<seq<IndexEntry>>)

  /** What (stored, err) says: (true, nil), (false, nil), (false, err). */
  datatype PutResult = Stored | Unchanged | Failed

  /** The two lengths the size check adds up: of a gzipped content and of an index text. */
  datatype Sizes = Sizes(packed: string -> nat, text: seq<IndexEntry> -> nat)

  function EntryOf(s: Snapshot): IndexEntry {
    IndexEntry(s.taken, s.taken, s.hash, s.source)
  }

  function IndexOf(cm: ConfigMap): seq<IndexEntry> {
    if cm.index.Some? then cm.index.value else []
  }

  // ---------------------------------------------------------------- size

  function TextBytes(sz: Sizes, index: Option<seq<IndexEntry>>): nat {
    if index.Some? then sz.text(index.value) else 0
  }

  /** The bytes of all blobs, whatever order the map is walked in (see BlobBytesRemove). */
  ghost function BlobBytes(sz: Sizes, blobs: map<int, Blob>): nat
    decreases |blobs|
  {
    if exists k :: k in blobs then
      var k :| k in blobs;
      sz.packed(blobs[k].content) + BlobBytes(sz, blobs - {k})
    else 0
  }

  lemma {:induction false} BlobBytesRemove(sz: Sizes, blobs: map<int, Blob>, k: int)
    requires k in blobs
    ensures BlobBytes(sz, blobs) == sz.packed(blobs[k].content) + BlobBytes(sz, blobs - {k})
    decreases |blobs|
  {
    var c :| c in blobs.Keys && BlobBytes(sz, blobs) == sz.packed(blobs[c].content) + BlobBytes(sz, blobs - {c});
    if c != k {
      BlobBytesRemove(sz, blobs - {c}, k);
      BlobBytesRemove(sz, blobs - {k}, c);
      assert blobs - {c} - {k} == blobs - {k} - {c};
    }
  }

  ghost function CmBytes(sz: Sizes, blobs: map<int, Blob>, index: Option<seq<IndexEntry>>): nat {
    BlobBytes(sz, blobs) + TextBytes(sz, index)
  }

  // ---------------------------------------------------------------- what one Put writes

  /** A ring while it is being built: the blob map and the index beside it. */
  datatype Ring = Ring(blobs: map<int, Blob>, idx: seq<IndexEntry>)

  function DropOldest(r: Ring): Ring
    requires |r.idx| > 0
  {
    Ring(r.blobs - {r.idx[0].id}, r.idx[1..])
  }

  function PruneCount(r: Ring): Ring
    decreases |r.idx|
  {
    if |r.idx| > MAX_SNAPSHOTS_PER_RESOURCE then PruneCount(DropOldest(r)) else r
  }

  ghost function PruneSize(sz: Sizes, r: Ring, oldText: Option<seq<IndexEntry>>): Ring
    decreases |r.idx|
  {
    if CmBytes(sz, r.blobs, oldText) > CM_SIZE_BUDGET && |r.idx| > 1
    then PruneSize(sz, DropOldest(r), oldText)
    else r
  }

  function Append(r: Ring, s: Snapshot): Ring {
    Ring(r.blobs[s.taken := Gzip(s.content)], r.idx + [EntryOf(s)])
  }

  function Base(stored: Option<ConfigMap>, s: Snapshot): ConfigMap {
    if stored.Some? then stored.value else ConfigMap(s.apiVersion, map[], None)
  }

  /** Whether `s` repeats the newest entry. */
  predicate Repeats(stored: Option<ConfigMap>, s: Snapshot) {
    stored.Some? && IndexOf(stored.value) != [] && IndexOf(stored.value)[|IndexOf(stored.value)| - 1].hash == s.hash
  }

  predicate Accepts(stored: Option<ConfigMap>, s: Snapshot) {
    |s.content| <= MAX_CONTENT_BYTES && !Repeats(stored, s)
  }

  ghost function Candidate(sz: Sizes, stored: Option<ConfigMap>, s: Snapshot): ConfigMap {
    var cm := Base(stored, s);
    var r := PruneSize(sz, PruneCount(Append(Ring(cm.blobs, IndexOf(cm)), s)), cm.index);
    ConfigMap(cm.apiVersion, r.blobs, Some(r.idx))
  }

  /** A Put that meets no error, as a function of what is stored. */
  ghost function PutSpec(sz: Sizes, stored: Option<ConfigMap>, s: Snapshot): (Option<ConfigMap>, PutResult) {
    if Accepts(stored, s) then (Some(Candidate(sz, stored, s)), Stored) else (stored, Unchanged)
  }

  // ---------------------------------------------------------------- names

  function RefKey(r: Ref): string { r.kind + "|" + r.ns + "|" + r.name }

  /** Two resources share a ConfigMap only if a kind or a namespace holds the separator. */
  lemma RefKeyInjective(r: Ref, q: Ref)
    requires '|' !in r.kind && '|' !in r.ns && '|' !in q.kind && '|' !in q.ns
    requires RefKey(r) == RefKey(q)
    ensures r == q
  {
    assert RefKey(r) == r.kind + "|" + (r.ns + "|" + r.name);
    assert RefKey(q) == q.kind + "|" + (q.ns + "|" + q.name);
    SplitAtFirst('|', r.kind, r.ns + "|" + r.name, q.kind, q.ns + "|" + q.name);
    SplitAtFirst('|', r.ns, r.name, q.ns, q.name);
  }

  // ---------------------------------------------------------------- the store

  /** A Timeline row. */
  datatype Row = Row(id: int, ref: Ref, apiVersion: string, taken: int, hash: string, source: string, content: string)

  function RowOf(cm: ConfigMap, ref: Ref, e: IndexEntry): Row {
    Row(e.id, ref, cm.apiVersion, e.taken, e.hash, e.source,
        if e.id in cm.blobs then cm.blobs[e.id].content else "")
  }

  function RowsOf(cm: ConfigMap, ref: Ref, idx: seq<IndexEntry>): (rows: seq<Row>)
    ensures |rows| == |idx|
    ensures forall i :: 0 <= i < |idx| ==> rows[i] == RowOf(cm, ref, idx[i])
  {
    seq(|idx|, i requires 0 <= i < |idx| => RowOf(cm, ref, idx[i]))
  }

  const NewerFirst: (Row, Row) -> bool := (a: Row, b: Row) => a.taken > b.taken

  ghost predicate Increasing(idx: seq<IndexEntry>) {
    forall i, j :: 0 <= i < j < |idx| ==> idx[i].taken < idx[j].taken
  }

  lemma NewestComesFirst(rows: seq<Row>, out: seq<Row>)
    requires forall i, j :: 0 <= i < j < |rows| ==> rows[i].taken < rows[j].taken
    requires multiset(out) == multiset(rows) && Ordered(out, NewerFirst) && rows != []
    ensures out != [] && out[0] == rows[|rows| - 1]
  {
    var newest := rows[|rows| - 1];
    assert newest in multiset(rows);
    assert newest in multiset(out);
    var k :| 0 <= k < |out| && out[k] == newest;
    assert out[0] in multiset(out);
    assert out[0] in multiset(rows);
    var j :| 0 <= j < |rows| && rows[j] == out[0];
    assert !NewerFirst(out[k], out[0]) || k == 0;
  }

  lemma ReverseStep<T>(s: seq<T>)
    requires s != []
    ensures Reverse(s) == [s[|s| - 1]] + Reverse(s[..|s| - 1])
  {
  }

  lemma OrderedTail(out: seq<Row>)
    requires out != [] && Ordered(out, NewerFirst)
    ensures Ordered(out[1..], NewerFirst)
  {
    var tail := out[1..];
    forall i, j | 0 <= i < j < |tail| ensures !NewerFirst(tail[j], tail[i]) {
      assert tail[i] == out[i + 1] && tail[j] == out[j + 1];
    }
  }

  lemma DropSame(rows: seq<Row>, out: seq<Row>)
    requires rows != [] && out != [] && multiset(out) == multiset(rows) && out[0] == rows[|rows| - 1]
    ensures multiset(out[1..]) == multiset(rows[..|rows| - 1])
  {
    assert out == [out[0]] + out[1..];
    assert rows == rows[..|rows| - 1] + [rows[|rows| - 1]];
    assert multiset(out[1..]) == multiset(out) - multiset{out[0]};
    assert multiset(rows[..|rows| - 1]) == multiset(rows) - multiset{out[0]};
  }

  /** Sorting rows of strictly increasing times newest first can only reverse them. */
  lemma {:induction false} SortedIsReverse(rows: seq<Row>, out: seq<Row>)
    requires forall i, j :: 0 <= i < j < |rows| ==> rows[i].taken < rows[j].taken
    requires multiset(out) == multiset(rows) && Ordered(out, NewerFirst)
    ensures out == Reverse(rows)
    decreases |rows|
  {
    if rows == [] {
      assert |out| == |multiset(out)| == 0;
    } else {
      NewestComesFirst(rows, out);
      OrderedTail(out);
      DropSame(rows, out);
      SortedIsReverse(rows[..|rows| - 1], out[1..]);
      ReverseStep(rows);
      assert out == [out[0]] + out[1..];
    }
  }

  /** What the API server answers during one Put. */
  datatype Answers = Answers(getOk: bool, writeOk: bool)

  class ConfigMapStore {
    const sizes: Sizes
    var objects: map<string, ConfigMap>  // the ConfigMaps in the API server, by name

    constructor (sizes: Sizes)
      ensures this.sizes == sizes && objects == map[]
    {
      this.sizes := sizes;
      objects := map[];
    }

    function Find(ref: Ref): Option<ConfigMap>
      reads this
    {
      if RefKey(ref) in objects then Some(objects[RefKey(ref)]) else None
    }

    method Size(blobs: map<int, Blob>, index: Option<seq<IndexEntry>>) returns (n: nat)
      ensures n == CmBytes(sizes, blobs, index)
    {
      n := 0;
      var left := blobs;
      while exists k :: k in left
        invariant n + BlobBytes(sizes, left) == BlobBytes(sizes, blobs)
        decreases |left|
      {
        var k :| k in left;
        BlobBytesRemove(sizes, left, k);
        n := n + sizes.packed(left[k].content);
        left := left - {k};
      }
      if index.Some? { n := n + sizes.text(index.value); }
    }

    /** Appends a snapshot unless it is oversize or repeats the newest one. */
    method Put(s: Snapshot, answers: Answers) returns (r: PutResult)
      modifies this`objects
      ensures |s.content| > MAX_CONTENT_BYTES ==> r == Unchanged
      ensures |s.content| <= MAX_CONTENT_BYTES && !answers.getOk ==> r == Failed
      ensures |s.content| <= MAX_CONTENT_BYTES && answers.getOk ==>
        r == if Repeats(old(Find(s.ref)), s) then Unchanged else if answers.writeOk then Stored else Failed
      ensures r == Stored ==> (Find(s.ref), r) == PutSpec(sizes, old(Find(s.ref)), s)
      ensures r != Stored ==> objects == old(objects)
      ensures forall k :: k != RefKey(s.ref) ==> (k in objects <==> k in old(objects))
      ensures forall k :: k != RefKey(s.ref) && k in objects ==> objects[k] == old(objects)[k]
    {
      if |s.content| > MAX_CONTENT_BYTES { return Unchanged; }
      if !answers.getOk { return Failed; }
      var stored := Find(s.ref);
      var cm := if stored.Some? then stored.value else ConfigMap(s.apiVersion, map[], None);
      var blobs := cm.blobs;
      var idx := if cm.index.Some? then cm.index.value else [];
      if |idx| > 0 && idx[|idx| - 1].hash == s.hash { return Unchanged; }
      blobs := blobs[s.taken := Gzip(s.content)];
      idx := idx + [IndexEntry(s.taken, s.taken, s.hash, s.source)];
      ghost var appended := Ring(blobs, idx);
      while |idx| > MAX_SNAPSHOTS_PER_RESOURCE
        invariant objects == old(objects)
        invariant PruneCount(Ring(blobs, idx)) == PruneCount(appended)
      {
        blobs := blobs - {idx[0].id};
        idx := idx[1..];
      }
      ghost var counted := Ring(blobs, idx);
      var n := Size(blobs, cm.index);
      while n > CM_SIZE_BUDGET && |idx| > 1
        invariant objects == old(objects)
        invariant n == CmBytes(sizes, blobs, cm.index)
        invariant PruneSize(sizes, Ring(blobs, idx), cm.index) == PruneSize(sizes, counted, cm.index)
        decreases |idx|
      {
        blobs := blobs - {idx[0].id};
        idx := idx[1..];
        n := Size(blobs, cm.index);
      }
      if !answers.writeOk { return Failed; }
      objects := objects[RefKey(s.ref) := ConfigMap(cm.apiVersion, blobs, Some(idx))];
      return Stored;
    }

    /** A resource's snapshots; newest first when the index is in order of time.  None for a
        read that fails; a ConfigMap that is not there is no failure. */
    method Timeline(ref: Ref, getOk: bool) returns (out: Option<seq<Row>>)
      ensures out.Some? <==> getOk
      ensures getOk && Find(ref) == None ==> out.value == []
      ensures getOk && Find(ref).Some? ==>
        var rows := RowsOf(Find(ref).value, ref, IndexOf(Find(ref).value));
        && multiset(out.value) == multiset(rows) && Ordered(out.value, NewerFirst)
        && (Increasing(IndexOf(Find(ref).value)) ==> out.value == Reverse(rows))
    {
      if !getOk { return None; }
      var found := Find(ref);
      if found.None? { return Some([]); }
      var cm := found.value;
      var idx := if cm.index.Some? then cm.index.value else [];
      var rows := [];
      for i := 0 to |idx|
        invariant rows == RowsOf(cm, ref, idx[..i])
      {
        rows := rows + [RowOf(cm, ref, idx[i])];
      }
      assert idx[..|idx|] == idx;
      var sorted := Sort(rows, NewerFirst);
      if Increasing(idx) { SortedIsReverse(rows, sorted); }
      return Some(sorted);
    }
  }
}

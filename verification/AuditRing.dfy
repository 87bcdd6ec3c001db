/** The in-memory audit log: a bounded ring with running ids. */
module AuditRing {

  const DEFAULT_CAPACITY := 2000
  const DEFAULT_LIMIT := 100

  /** `timestamp` 0 stands for Go's zero time. */
  datatype Entry = Entry(id: int, timestamp: int, user: string, email: string, action: string,
                         kind: string, ns: string, name: string, resource: string, status: int)

  /** What a snapshot holds and a ConfigMap stores. */
  datatype Saved = Saved(entries: seq<Entry>, nextID: int)

  function Last<T>(s: seq<T>, n: nat): seq<T> {
    if |s| > n then s[|s| - n..] else s
  }

  function Stamp(e: Entry, id: int, now: int): Entry {
    e.(id := id, timestamp := if e.timestamp == 0 then now else e.timestamp)
  }

  /** Newest first, skipping `offset`, at most `limit`. */
  function Page(entries: seq<Entry>, limit: nat, offset: nat): seq<Entry>
    decreases |entries| - offset
  {
    if limit == 0 || offset >= |entries| then []
    else [entries[|entries| - 1 - offset]] + Page(entries, limit - 1, offset + 1)
  }

  lemma {:induction false} PageExtends(entries: seq<Entry>, limit: nat, offset: nat)
    ensures Page(entries, limit + 1, offset) ==
      Page(entries, limit, offset) +
      if offset + limit < |entries| then [entries[|entries| - 1 - offset - limit]] else []
    ensures |Page(entries, limit, offset)| == if offset >= |entries| then 0
                                              else if offset + limit <= |entries| then limit else |entries| - offset
    decreases limit
  {
    if limit > 0 && offset < |entries| { PageExtends(entries, limit - 1, offset + 1); }
  }

  class MemoryStore {
    var entries: seq<Entry>  // oldest to newest
    const cap: nat
    var nextID: int

    ghost predicate Valid()
      reads this
    {
      cap >= 1 && |entries| <= cap
    }

    function Contents(): Saved
      reads this
    {
      Saved(entries, nextID)
    }

    constructor (capacity: int)
      ensures Valid()
      ensures cap == if capacity <= 0 then DEFAULT_CAPACITY else capacity
      ensures Contents() == Saved([], 0)
    {
      cap := if capacity <= 0 then DEFAULT_CAPACITY else capacity;
      entries := [];
      nextID := 0;
    }

    method Record(e: Entry, now: int)
      requires Valid()
      modifies this
      ensures Valid()
      ensures Contents() == Recorded(old(Contents()), cap, e, now)
    {
      nextID := nextID + 1;
      var stamped := e.(id := nextID);
      if stamped.timestamp == 0 { stamped := stamped.(timestamp := now); }
      entries := entries + [stamped];
      if |entries| > cap { entries := entries[|entries| - cap..]; }
    }

    method Snapshot() returns (saved: Saved)
      ensures saved == Contents()
    {
      saved := Saved(entries, nextID);
    }

    method Restore(saved: Saved)
      requires Valid()
      modifies this
      ensures Valid()
      ensures Contents() == Restored(saved, cap)
    {
      var kept := saved.entries;
      if |kept| > cap { kept := kept[|kept| - cap..]; }
      entries := kept;
      nextID := saved.nextID;
    }

    method List(limit: int, offset: int) returns (page: seq<Entry>, total: nat)
      ensures total == |entries|
      ensures
        var most, skip := if limit <= 0 then DEFAULT_LIMIT else limit, if offset < 0 then 0 else offset;
        && page == Page(entries, most, skip)
        && |page| == (if skip >= total then 0 else if most < total - skip then most else total - skip)
        && forall i :: 0 <= i < |page| ==> page[i] == entries[total - 1 - skip - i]
    {
      total := |entries|;
      var most := if limit <= 0 then DEFAULT_LIMIT else limit;
      var skip := if offset < 0 then 0 else offset;
      page := [];
      var i := total - 1 - skip;
      while i >= 0 && |page| < most
        invariant 0 <= |page| <= most && i == total - 1 - skip - |page| && (|page| > 0 ==> i >= -1)
        invariant page == Page(entries, |page|, skip)
        invariant forall k :: 0 <= k < |page| ==> page[k] == entries[total - 1 - skip - k]
        decreases i
      {
        PageExtends(entries, |page|, skip);
        page := page + [entries[i]];
        i := i - 1;
      }
      if |page| < most { PageBeyond(entries, |page|, most, skip); }
    }
  }

  /** Asking for more than there is changes nothing. */
  lemma {:induction false} PageBeyond(entries: seq<Entry>, some: nat, more: nat, offset: nat)
    requires some <= more && offset + some >= |entries|
    ensures Page(entries, some, offset) == Page(entries, more, offset)
    decreases some
  {
    if some > 0 && offset < |entries| { PageBeyond(entries, some - 1, more - 1, offset + 1); }
  }

  function Recorded(s: Saved, cap: nat, e: Entry, now: int): Saved {
    Saved(Last(s.entries + [Stamp(e, s.nextID + 1, now)], cap), s.nextID + 1)
  }

  function Restored(s: Saved, cap: nat): Saved {
    Saved(Last(s.entries, cap), s.nextID)
  }

  /** The newest entry is the one recorded, under the next id, and dated only if it had no
      time; those before it are the newest of the older ones, as they were. */
  lemma RecordedIsNewest(s: Saved, cap: nat, e: Entry, now: int)
    requires cap >= 1
    ensures
      var t := Recorded(s, cap, e, now);
      var n := |t.entries|;
      && t.nextID == s.nextID + 1 && n == Min(|s.entries| + 1, cap)
      && var x := t.entries[n - 1];
      && x.id == t.nextID && x.timestamp == (if e.timestamp != 0 then e.timestamp else now)
      && (x.user, x.email, x.action, x.status) == (e.user, e.email, e.action, e.status)
      && (x.kind, x.ns, x.name, x.resource) == (e.kind, e.ns, e.name, e.resource)
      && forall i :: 0 <= i < n - 1 ==> t.entries[i] == s.entries[|s.entries| - (n - 1) + i]
  {
  }

  // ---------------------------------------------------------------- pages

  /** Pages of size L at offsets 0, L, 2L, ..., joined. */
  function AllPages(entries: seq<Entry>, size: nat, offset: nat): seq<Entry>
    requires size >= 1
    decreases |entries| - offset
  {
    if offset >= |entries| then [] else Page(entries, size, offset) + AllPages(entries, size, offset + size)
  }

  lemma {:induction false} PagesJoin(entries: seq<Entry>, a: nat, b: nat, offset: nat)
    ensures Page(entries, a + b, offset) == Page(entries, a, offset) + Page(entries, b, offset + a)
    decreases a
  {
    if a > 0 && offset < |entries| {
      PagesJoin(entries, a - 1, b, offset + 1);
    } else if a > 0 {
      assert Page(entries, b, offset + a) == [];
    }
  }

  lemma PageThenRest(entries: seq<Entry>, size: nat, offset: nat)
    ensures Page(entries, |entries|, offset) == Page(entries, size, offset) + Page(entries, |entries|, offset + size)
  {
    PagesJoin(entries, size, |entries|, offset);
    PageBeyond(entries, |entries|, size + |entries|, offset);
  }

  lemma {:induction false} AllPagesFrom(entries: seq<Entry>, size: nat, offset: nat)
    requires size >= 1
    ensures AllPages(entries, size, offset) == Page(entries, |entries|, offset)
    decreases |entries| - offset
  {
    if offset < |entries| {
      AllPagesFrom(entries, size, offset + size);
      PageThenRest(entries, size, offset);
    }
  }

  lemma {:induction false} FullPageAt(entries: seq<Entry>, limit: nat, offset: nat, i: nat)
    requires i < limit && offset + i < |entries|
    ensures i < |Page(entries, limit, offset)|
    ensures Page(entries, limit, offset)[i] == entries[|entries| - 1 - offset - i]
    decreases i
  {
    PageExtends(entries, limit, offset);
    if i > 0 { FullPageAt(entries, limit - 1, offset + 1, i - 1); }
  }

  /** Pages of any size at consecutive offsets walk the whole ring newest first, each
      entry once. */
  lemma PagesCoverTheRing(entries: seq<Entry>, size: nat, i: nat)
    requires size >= 1
    ensures |AllPages(entries, size, 0)| == |entries|
    ensures i < |entries| ==> AllPages(entries, size, 0)[i] == entries[|entries| - 1 - i]
  {
    AllPagesFrom(entries, size, 0);
    PageExtends(entries, |entries|, 0);
    if i < |entries| { FullPageAt(entries, |entries|, 0, i); }
  }

  // ---------------------------------------------------------------- any mix of operations

  /** `RestoreLast` starts a store of another capacity from the snapshot taken last. */
  datatype Op =
    | DoRecord(e: Entry, now: int)
    | DoSnapshot
    | DoRestore(capacity: nat)

  /** A store, the snapshot taken last, and for both what a log that forgets nothing
      would hold: `log` and `savedLog`.  `room` and `savedRoom` say how many of those
      entries no capacity has forced out. */
  datatype World = World(cap: nat, mem: Saved, saved: Saved,
                         log: seq<Entry>, savedLog: seq<Entry>, room: nat, savedRoom: nat)

  function Min(a: nat, b: nat): nat { if a < b then a else b }

  function Apply(w: World, op: Op): World {
    match op
    case DoRecord(e, now) =>
      w.(mem := Recorded(w.mem, w.cap, e, now),
         log := w.log + [Stamp(e, |w.log| + 1, now)],
         room := Min(w.room + 1, w.cap))
    case DoSnapshot =>
      w.(saved := w.mem, savedLog := w.log, savedRoom := w.room)
    case DoRestore(capacity) =>
      w.(cap := capacity, mem := Restored(w.saved, capacity), log := w.savedLog, room := Min(w.savedRoom, capacity))
  }

  function Execute(cap: nat, ops: seq<Op>): World {
    if ops == [] then World(cap, Saved([], 0), Saved([], 0), [], [], 0, 0)
    else Apply(Execute(cap, ops[..|ops| - 1]), ops[|ops| - 1])
  }

  ghost predicate Numbered(log: seq<Entry>) {
    forall i :: 0 <= i < |log| ==> log[i].id == i + 1
  }

  /** `s` is the last `n` of `log`, and carries on its numbering. */
  ghost predicate Window(s: Saved, log: seq<Entry>, n: nat) {
    n <= |log| && s == Saved(log[|log| - n..], |log|)
  }

  ghost predicate Inv(w: World) {
    && Numbered(w.log) && Numbered(w.savedLog)
    && Window(w.mem, w.log, w.room) && Window(w.saved, w.savedLog, w.savedRoom)
    && w.room <= w.cap
  }

  lemma SuffixOfSuffix<T>(s: seq<T>, n: nat, m: nat)
    requires m <= n <= |s|
    ensures s[|s| - n..][n - m..] == s[|s| - m..]
  {}

  lemma RecordKeepsWindow(s: Saved, log: seq<Entry>, n: nat, cap: nat, e: Entry, now: int)
    requires Numbered(log) && Window(s, log, n) && n <= cap
    ensures
      var more := log + [Stamp(e, |log| + 1, now)];
      Numbered(more) && Window(Recorded(s, cap, e, now), more, Min(n + 1, cap))
  {
    var more := log + [Stamp(e, |log| + 1, now)];
    assert s.entries + [Stamp(e, |log| + 1, now)] == more[|more| - (n + 1)..];
    SuffixOfSuffix(more, n + 1, Min(n + 1, cap));
  }

  lemma RestoreKeepsWindow(s: Saved, log: seq<Entry>, n: nat, cap: nat)
    requires Window(s, log, n)
    ensures Window(Restored(s, cap), log, Min(n, cap))
  {
    SuffixOfSuffix(log, n, Min(n, cap));
  }

  lemma ApplyKeepsInv(w: World, op: Op)
    requires Inv(w)
    ensures Inv(Apply(w, op))
  {
    match op
    case DoRecord(e, now) => RecordKeepsWindow(w.mem, w.log, w.room, w.cap, e, now);
    case DoSnapshot =>
    case DoRestore(capacity) => RestoreKeepsWindow(w.saved, w.savedLog, w.savedRoom, capacity);
  }

  lemma {:induction false} RunKeepsInv(cap: nat, ops: seq<Op>)
    ensures Inv(Execute(cap, ops))
  {
    if ops != [] {
      RunKeepsInv(cap, ops[..|ops| - 1]);
      ApplyKeepsInv(Execute(cap, ops[..|ops| - 1]), ops[|ops| - 1]);
    }
  }

  /** In every reachable state the ids in the ring are contiguous and end at nextID. */
  lemma IdsAreContiguous(cap: nat, ops: seq<Op>, i: nat)
    ensures
      var m := Execute(cap, ops).mem;
      && |m.entries| <= m.nextID
      && (i < |m.entries| ==> m.entries[i].id == m.nextID - |m.entries| + 1 + i)
  {
    RunKeepsInv(cap, ops);
    var w := Execute(cap, ops);
    if i < |w.mem.entries| { assert w.mem.entries[i] == w.log[|w.log| - w.room + i]; }
  }

  ghost predicate NeverGrows(cap: nat, ops: seq<Op>) {
    forall i :: 0 <= i < |ops| && ops[i].DoRestore? ==> ops[i].capacity <= Execute(cap, ops[..i]).cap
  }

  ghost predicate Full(w: World) {
    && w.room == Min(w.cap, |w.log|)
    && Min(w.cap, |w.savedLog|) <= w.savedRoom <= |w.savedLog|
  }

  lemma ApplyKeepsFull(w: World, op: Op)
    requires Full(w) && (op.DoRestore? ==> op.capacity <= w.cap)
    ensures Full(Apply(w, op))
  {
  }

  lemma {:induction false} ShrinkingStaysFull(cap: nat, ops: seq<Op>)
    requires NeverGrows(cap, ops)
    ensures Full(Execute(cap, ops))
  {
    if ops != [] {
      var n := |ops| - 1;
      assert NeverGrows(cap, ops[..n]) by {
        forall i | 0 <= i < n && ops[i].DoRestore? ensures ops[i].capacity <= Execute(cap, ops[..n][..i]).cap {
          assert ops[..n][..i] == ops[..i];
        }
      }
      ShrinkingStaysFull(cap, ops[..n]);
      ApplyKeepsFull(Execute(cap, ops[..n]), ops[n]);
    }
  }

  lemma FullIsLast(w: World)
    requires Inv(w) && Full(w)
    ensures w.mem.entries == Last(w.log, w.cap)
  {
    if |w.log| <= w.cap { assert w.log[0..] == w.log; }
  }

  /** As long as no restore is into a larger capacity, the ring is the last
      min(cap, n) of all n entries of its history. */
  lemma RingHoldsTheNewest(cap: nat, ops: seq<Op>)
    requires NeverGrows(cap, ops)
    ensures Execute(cap, ops).mem == Saved(Last(Execute(cap, ops).log, Execute(cap, ops).cap), |Execute(cap, ops).log|)
  {
    RunKeepsInv(cap, ops);
    ShrinkingStaysFull(cap, ops);
    FullIsLast(Execute(cap, ops));
  }

  /** In every reachable state the ring is the last min(cap, n) entries exactly when it is
      full or holds every id there ever was; both can be read off the store. */
  lemma RingHoldsTheNewestIff(cap: nat, ops: seq<Op>)
    ensures
      var w := Execute(cap, ops);
      w.mem.entries == Last(w.log, w.cap) <==> |w.mem.entries| == w.cap || |w.mem.entries| == w.mem.nextID
  {
    RunKeepsInv(cap, ops);
    var w := Execute(cap, ops);
    if w.room == |w.log| { assert w.log[0..] == w.log; }
  }

  /** What a smaller store dropped, a larger one cannot bring back: two entries, saved
      through a store of capacity 1, restored into one of capacity 2. */
  lemma GrowingDoesNotRefill(e: Entry) returns (ops: seq<Op>)
    ensures
      var w := Execute(2, ops);
      |w.log| == 2 && w.cap == 2 && |w.mem.entries| == 1
  {
    ops := [DoRecord(e, 1)];
    ExecuteStep(2, [], DoRecord(e, 1));
    assert [] + [DoRecord(e, 1)] == ops;
    ExecuteStep(2, ops, DoRecord(e, 2));
    ops := ops + [DoRecord(e, 2)];
    assert Execute(2, ops).mem.entries == [Stamp(e, 1, 1), Stamp(e, 2, 2)];
    ExecuteStep(2, ops, DoSnapshot);
    ops := ops + [DoSnapshot];
    ExecuteStep(2, ops, DoRestore(1));
    ops := ops + [DoRestore(1)];
    assert |Execute(2, ops).mem.entries| == 1;
    ExecuteStep(2, ops, DoSnapshot);
    ops := ops + [DoSnapshot];
    ExecuteStep(2, ops, DoRestore(2));
    ops := ops + [DoRestore(2)];
  }

  lemma ExecuteStep(cap: nat, ops: seq<Op>, op: Op)
    ensures Execute(cap, ops + [op]) == Apply(Execute(cap, ops), op)
  {
    assert (ops + [op])[..|ops|] == ops;
  }
}

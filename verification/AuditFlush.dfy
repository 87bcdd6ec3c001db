/** The durable audit log: the ring of AuditRing, flushed to a ConfigMap when a dirty
    flag is set and reloaded when the process starts. */
module AuditFlush {
  import opened Common
  import opened AuditRing

  /** The gzipped JSON under the "log" key, as an invertible constructor. */
  datatype Blob = GzipJson(saved: Saved)

  /** The goroutine that runs Run: waiting for its ticker, or inside a Flush.  `last`
      marks the flush that Run does when it is cancelled. */
  datatype Flusher =
    | Waiting
    | Flushing(last: bool)
    | Holding(saved: Saved, last: bool)
    | Writing(saved: Saved, found: bool, last: bool)
    | Stopped

  /** `between` counts the Record calls that have written the ring and not yet the flag.
      `lastFailed`: the last write failed and nothing was recorded since.
      `cutOff`: the ring does not carry on the stored log, because the reload could not read
      that and started afresh. */
  datatype State = State(cap: nat, mem: Saved, dirty: bool, between: nat, flusher: Flusher,
                         stored: Option<Blob>, lastFailed: bool, cutOff: bool)

  datatype Action =
    | RecordRing(e: Entry, now: int)
    | RecordFlag
    | Tick
    | Cancel
    | TakeSnapshot
    | Fetch(ok: bool)
    | Commit(ok: bool)
    | Restart(capacity: nat, readable: bool)

  const EMPTY := Saved([], 0)

  function Init(cap: nat): State {
    State(cap, EMPTY, false, 0, Waiting, None, false, false)
  }

  function Done(last: bool): Flusher { if last then Stopped else Waiting }

  /** What a new process starts with: nothing when the ConfigMap is absent or unreadable. */
  function Loaded(stored: Option<Blob>, readable: bool, cap: nat): Saved {
    if readable && stored.Some? then Restored(stored.value.saved, cap) else EMPTY
  }

  /** One atomic step; an action that is not enabled does nothing. */
  function Step(s: State, a: Action): State {
    match a
    case RecordRing(e, now) =>
      s.(mem := Recorded(s.mem, s.cap, e, now), between := s.between + 1, lastFailed := false)
    case RecordFlag =>
      if s.between == 0 then s else s.(dirty := true, between := s.between - 1)
    case Tick =>
      if s.flusher.Waiting? && s.dirty then s.(dirty := false, flusher := Flushing(false)) else s
    case Cancel =>
      if s.flusher.Waiting? then s.(flusher := Flushing(true)) else s
    case TakeSnapshot =>
      if s.flusher.Flushing? then s.(flusher := Holding(s.mem, s.flusher.last)) else s
    case Fetch(ok) =>
      if !s.flusher.Holding? then s
      else if ok then s.(flusher := Writing(s.flusher.saved, s.stored.Some?, s.flusher.last))
      else s.(flusher := Done(s.flusher.last), lastFailed := true)
    case Commit(ok) =>
      if !s.flusher.Writing? then s
      else if ok then
        s.(flusher := Done(s.flusher.last), stored := Some(GzipJson(s.flusher.saved)),
           lastFailed := false, cutOff := false)
      else s.(flusher := Done(s.flusher.last), lastFailed := true)
    case Restart(capacity, readable) =>
      State(capacity, Loaded(s.stored, readable, capacity), false, 0, Waiting,
            s.stored, false, !readable && s.stored.Some?)
  }

  /** Where a run that starts in `s` stands after its first `n` steps. */
  function Reached(s: State, actions: seq<Action>, n: nat): State
    requires n <= |actions|
  {
    if n == 0 then s else Step(Reached(s, actions, n - 1), actions[n - 1])
  }

  function Execute(cap: nat, actions: seq<Action>): State {
    Reached(Init(cap), actions, |actions|)
  }

  // ---------------------------------------------------------------- what every step keeps

  ghost predicate Contiguous(s: Saved) {
    && |s.entries| <= s.nextID
    && forall i :: 0 <= i < |s.entries| ==> s.entries[i].id == s.nextID - |s.entries| + 1 + i
  }

  /** Everything in the ring is in the ConfigMap, as part of the same log. */
  ghost predicate Synced(s: State) {
    s.mem.entries == [] || (s.stored.Some? && !s.cutOff && s.mem == Restored(s.stored.value.saved, s.cap))
  }

  predicate Quiet(s: State) {
    !s.dirty && s.between == 0
  }

  predicate Busy(s: State) {
    s.flusher.Flushing? || s.flusher.Holding? || s.flusher.Writing?
  }

  ghost predicate Inv(s: State) {
    && |s.mem.entries| <= s.cap
    && Contiguous(s.mem) && (s.stored.Some? ==> Contiguous(s.stored.value.saved))
    && (s.flusher.Holding? || s.flusher.Writing? ==> Contiguous(s.flusher.saved))
    && ((s.flusher.Holding? || s.flusher.Writing?) && Quiet(s) ==> s.flusher.saved == s.mem)
    && (!Busy(s) && Quiet(s) && !s.lastFailed ==> Synced(s))
  }

  lemma RecordedContiguous(s: Saved, cap: nat, e: Entry, now: int)
    requires Contiguous(s) && |s.entries| <= cap
    ensures Contiguous(Recorded(s, cap, e, now)) && |Recorded(s, cap, e, now).entries| <= cap
  {
    var t := s.entries + [Stamp(e, s.nextID + 1, now)];
    assert forall i :: 0 <= i < |t| ==> t[i].id == s.nextID + 1 - |t| + 1 + i;
  }

  lemma RestoredContiguous(s: Saved, cap: nat)
    requires Contiguous(s)
    ensures Contiguous(Restored(s, cap)) && |Restored(s, cap).entries| <= cap
  {
  }

  lemma StepKeepsInv(s: State, a: Action)
    requires Inv(s)
    ensures Inv(Step(s, a))
  {
    match a
    case RecordRing(e, now) => RecordedContiguous(s.mem, s.cap, e, now);
    case Restart(capacity, readable) => if s.stored.Some? { RestoredContiguous(s.stored.value.saved, capacity); }
    case _ =>
  }

  lemma {:induction false} RunKeepsInv(cap: nat, actions: seq<Action>, n: nat)
    requires n <= |actions|
    ensures Inv(Reached(Init(cap), actions, n))
  {
    if n > 0 {
      RunKeepsInv(cap, actions, n - 1);
      StepKeepsInv(Reached(Init(cap), actions, n - 1), actions[n - 1]);
    }
  }

  // ---------------------------------------------------------------- durability

  /** The entry itself is in the ConfigMap, not an equal one of a log that was cut off. */
  predicate IsStored(s: State, e: Entry) {
    !s.cutOff && s.stored.Some? && e in s.stored.value.saved.entries
  }

  /** In every reachable state each entry of the ring is in the ConfigMap, unless a
      flush is owed (the flag is set, or a Record is about to set it), one is under way,
      or the last write failed with nothing recorded since. */
  lemma EveryEntryIsCovered(cap: nat, actions: seq<Action>, e: Entry)
    ensures
      var s := Execute(cap, actions);
      e in s.mem.entries ==>
        || IsStored(s, e)
        || s.dirty || s.between > 0 || Busy(s) || s.lastFailed
  {
    RunKeepsInv(cap, actions, |actions|);
  }

  /** Step `k` of a run copies the ring for a flush. */
  predicate Copies(cap: nat, actions: seq<Action>, k: nat) {
    k < |actions| && actions[k].TakeSnapshot? && Reached(Init(cap), actions, k).flusher.Flushing?
  }

  /** Step `i` writes what a flush holds to the ConfigMap. */
  predicate Commits(cap: nat, actions: seq<Action>, i: nat) {
    i < |actions| && actions[i] == Commit(true) && Reached(Init(cap), actions, i).flusher.Writing?
  }

  /** Step `k` is the copy that the flush under way before step `i` holds: the last one
      before `i`, in the same process. */
  ghost predicate CopyOf(cap: nat, actions: seq<Action>, k: nat, i: nat) {
    && k < i <= |actions| && Copies(cap, actions, k)
    && forall j :: k < j < i ==> !Copies(cap, actions, j) && !actions[j].Restart?
  }

  predicate Holds(f: Flusher) {
    f.Holding? || f.Writing?
  }

  lemma HeldAfterStep(s: State, a: Action)
    requires Holds(Step(s, a).flusher)
    ensures
      if a.TakeSnapshot? && s.flusher.Flushing? then Step(s, a).flusher.saved == s.mem
      else !a.Restart? && Holds(s.flusher) && Step(s, a).flusher.saved == s.flusher.saved
  {
  }

  lemma StoredAfterStep(s: State, a: Action)
    ensures Step(s, a).stored == if a == Commit(true) && s.flusher.Writing? then Some(GzipJson(s.flusher.saved))
      else s.stored
  {
  }

  /** What a flush holds is the ring as it stood at its own copy. */
  lemma {:induction false} HeldIsACopy(cap: nat, actions: seq<Action>, i: nat) returns (k: nat)
    requires i <= |actions| && Holds(Reached(Init(cap), actions, i).flusher)
    ensures CopyOf(cap, actions, k, i)
    ensures Reached(Init(cap), actions, i).flusher.saved == Reached(Init(cap), actions, k).mem
    decreases i
  {
    var n := i - 1;
    HeldAfterStep(Reached(Init(cap), actions, n), actions[n]);
    k := n;
    if !Copies(cap, actions, n) {
      k := HeldIsACopy(cap, actions, n);
    }
  }

  /** The ConfigMap holds what the last write put there. */
  lemma {:induction false} StoredIsLastWrite(cap: nat, actions: seq<Action>, i: nat, n: nat)
    requires i < n <= |actions| && Commits(cap, actions, i) && forall j :: i < j < n ==> !Commits(cap, actions, j)
    ensures Reached(Init(cap), actions, n).stored == Some(GzipJson(Reached(Init(cap), actions, i).flusher.saved))
    decreases n
  {
    StoredAfterStep(Reached(Init(cap), actions, n - 1), actions[n - 1]);
    if i < n - 1 {
      StoredIsLastWrite(cap, actions, i, n - 1);
      assert !Commits(cap, actions, n - 1);
    }
  }

  lemma {:induction false} NothingWritten(cap: nat, actions: seq<Action>, n: nat)
    requires n <= |actions| && forall j :: 0 <= j < n ==> !Commits(cap, actions, j)
    ensures Reached(Init(cap), actions, n).stored == None
    decreases n
  {
    if n > 0 {
      StoredAfterStep(Reached(Init(cap), actions, n - 1), actions[n - 1]);
      NothingWritten(cap, actions, n - 1);
      assert !Commits(cap, actions, n - 1);
    }
  }

  /** A crash at any point and a reload give exactly the ring as it stood when the last
      successful flush, the one that wrote at step `i`, copied it at step `k`; cut to the
      new capacity. */
  lemma CrashRestoresLastFlush(cap: nat, actions: seq<Action>, i: nat, capacity: nat) returns (k: nat)
    requires Commits(cap, actions, i) && forall j :: i < j < |actions| ==> !Commits(cap, actions, j)
    ensures CopyOf(cap, actions, k, i)
    ensures Step(Execute(cap, actions), Restart(capacity, true)).mem
      == Restored(Reached(Init(cap), actions, k).mem, capacity)
  {
    k := HeldIsACopy(cap, actions, i);
    StoredIsLastWrite(cap, actions, i, |actions|);
  }

  /** Before any successful flush, or when the ConfigMap cannot be read, it gives an empty
      ring. */
  lemma CrashWithoutAFlush(cap: nat, actions: seq<Action>, capacity: nat, readable: bool)
    requires readable ==> forall j :: 0 <= j < |actions| ==> !Commits(cap, actions, j)
    ensures Step(Execute(cap, actions), Restart(capacity, readable)).mem == EMPTY
  {
    if readable { NothingWritten(cap, actions, |actions|); }
  }

  /** When nothing is owed, a crash and reload lose nothing. */
  lemma QuietCrashLosesNothing(cap: nat, actions: seq<Action>)
    ensures
      var s := Execute(cap, actions);
      Quiet(s) && !Busy(s) && !s.lastFailed && s.mem.entries != [] ==> Step(s, Restart(s.cap, true)).mem == s.mem
  {
    RunKeepsInv(cap, actions, |actions|);
  }

  /** Ids stay contiguous and end at nextID in every reachable state, across crashes too. */
  lemma IdsContiguousAcrossCrashes(cap: nat, actions: seq<Action>)
    ensures Contiguous(Execute(cap, actions).mem)
  {
    RunKeepsInv(cap, actions, |actions|);
  }

  /** A flush during which nothing is recorded leaves the whole ring in the ConfigMap if both
      its calls work, and the ConfigMap alone if not.  The ring and the flag stay; the flush
      of a cancelled Run is the last one. */
  lemma FlushPersistsTheRing(s: State, getOk: bool, writeOk: bool)
    requires s.flusher.Flushing?
    ensures
      var t := Step(Step(Step(s, TakeSnapshot), Fetch(getOk)), Commit(writeOk));
      && t.stored == (if getOk && writeOk then Some(GzipJson(s.mem)) else s.stored)
      && t.mem == s.mem && t.dirty == s.dirty && t.lastFailed == !(getOk && writeOk)
      && t.flusher == if s.flusher.last then Stopped else Waiting
  {
  }

  /** Cancelling Run flushes once more, whether or not the flag is set, and then never again:
      nothing is written until a restart. */
  lemma CancelFlushesOnce(s: State)
    requires s.flusher.Waiting?
    ensures
      var t := Step(Step(Step(Step(s, Cancel), TakeSnapshot), Fetch(true)), Commit(true));
      t.stored == Some(GzipJson(s.mem)) && t.flusher == Stopped
  {
    FlushPersistsTheRing(Step(s, Cancel), true, true);
  }

  lemma {:induction false} StoppedWritesNothing(s: State, actions: seq<Action>, n: nat)
    requires s.flusher == Stopped && n <= |actions| && forall i :: 0 <= i < n ==> !actions[i].Restart?
    ensures Reached(s, actions, n).flusher == Stopped && Reached(s, actions, n).stored == s.stored
  {
    if n > 0 { StoppedWritesNothing(s, actions, n - 1); }
  }

  /** Step `u` fails a flush, at its fetch or at its write. */
  ghost predicate FailsAt(cap: nat, actions: seq<Action>, u: nat) {
    && u < |actions|
    && var f := Reached(Init(cap), actions, u).flusher;
    (actions[u] == Fetch(false) && f.Holding?) || (actions[u] == Commit(false) && f.Writing?)
  }

  /** The last write failed at step `u`, with nothing recorded since, up to step `n`. */
  ghost predicate FailedSince(cap: nat, actions: seq<Action>, u: nat, n: nat) {
    && u < n <= |actions| && FailsAt(cap, actions, u)
    && forall j :: u < j < n ==> !actions[j].RecordRing? && !actions[j].Restart? && !Commits(cap, actions, j)
  }

  lemma FailedAfterStep(s: State, a: Action)
    ensures Step(s, a).lastFailed ==
      if (a == Fetch(false) && s.flusher.Holding?) || (a == Commit(false) && s.flusher.Writing?) then true
      else s.lastFailed && !a.RecordRing? && !a.Restart? && !(a == Commit(true) && s.flusher.Writing?)
  {
  }

  /** What `lastFailed` says, by the steps of the run. */
  lemma {:induction false} LastFailedIff(cap: nat, actions: seq<Action>, n: nat)
    requires n <= |actions|
    ensures Reached(Init(cap), actions, n).lastFailed <==> exists u: nat :: FailedSince(cap, actions, u, n)
  {
    if n > 0 {
      LastFailedIff(cap, actions, n - 1);
      var s, a, m := Reached(Init(cap), actions, n - 1), actions[n - 1], n - 1;
      FailedAfterStep(s, a);
      if FailsAt(cap, actions, m) {
        assert FailedSince(cap, actions, m, n);
      } else {
        if u: nat :| FailedSince(cap, actions, u, m) { FailedSinceNext(cap, actions, u, n); }
        if u: nat :| FailedSince(cap, actions, u, n) { FailedSinceNext(cap, actions, u, n); }
      }
    }
  }

  lemma FailedSinceNext(cap: nat, actions: seq<Action>, u: nat, n: nat)
    requires 0 < n <= |actions| && !FailsAt(cap, actions, n - 1)
    ensures FailedSince(cap, actions, u, n) <==>
      && FailedSince(cap, actions, u, n - 1)
      && !actions[n - 1].RecordRing? && !actions[n - 1].Restart? && !Commits(cap, actions, n - 1)
  {
    if u == n - 1 {
      assert !FailedSince(cap, actions, u, n);
    } else if FailedSince(cap, actions, u, n) {
      assert FailedSince(cap, actions, u, n - 1);
    }
  }

  // ---------------------------------------------------------------- the failed write

  /** Once nothing is owed, nothing happens until a new Record, a cancel or a restart:
      a write that failed is not tried again. */
  lemma {:induction false} NoRetryOnItsOwn(s: State, actions: seq<Action>, n: nat)
    requires Quiet(s) && !Busy(s) && n <= |actions|
    requires forall i :: 0 <= i < n ==> !actions[i].RecordRing? && !actions[i].Cancel? && !actions[i].Restart?
    ensures Reached(s, actions, n) == s
  {
    if n > 0 { NoRetryOnItsOwn(s, actions, n - 1); }
  }

  /** A Record and the tick that flushes it, up to the write. */
  function RecordAndFlush(e: Entry, now: int, written: bool): seq<Action> {
    [RecordRing(e, now), RecordFlag, Tick, TakeSnapshot, Fetch(true), Commit(written)]
  }

  /** Steps `i` to `i + 6` of a run are a Record and its flush. */
  predicate RecordsAndFlushes(actions: seq<Action>, i: nat, e: Entry, now: int, written: bool) {
    && i + 6 <= |actions| && actions[i] == RecordRing(e, now) && actions[i + 1] == RecordFlag && actions[i + 2] == Tick
    && actions[i + 3] == TakeSnapshot && actions[i + 4] == Fetch(true) && actions[i + 5] == Commit(written)
  }

  lemma RecordAndFlushRuns(s0: State, actions: seq<Action>, i: nat, e: Entry, now: int, written: bool)
    requires RecordsAndFlushes(actions, i, e, now, written)
    requires Quiet(Reached(s0, actions, i)) && Reached(s0, actions, i).flusher == Waiting
    ensures
      var s, t := Reached(s0, actions, i), Reached(s0, actions, i + 6);
      var mem := Recorded(s.mem, s.cap, e, now);
      && t.cap == s.cap && t.mem == mem && Quiet(t) && t.flusher == Waiting
      && t.stored == (if written then Some(GzipJson(mem)) else s.stored)
      && t.lastFailed == !written && t.cutOff == (s.cutOff && !written)
  {
    var s := Reached(s0, actions, i);
    var mem := Recorded(s.mem, s.cap, e, now);
    var s1 := s.(mem := mem, between := 1, lastFailed := false);
    assert Reached(s0, actions, i + 1) == s1;
    assert Reached(s0, actions, i + 2) == s1.(between := 0, dirty := true);
    assert Reached(s0, actions, i + 3) == s1.(between := 0, flusher := Flushing(false));
    assert Reached(s0, actions, i + 4) == s1.(between := 0, flusher := Holding(mem, false));
    assert Reached(s0, actions, i + 5) == s1.(between := 0, flusher := Writing(mem, s.stored.Some?, false));
  }

  /** The exception for a failed write is needed: this run ends with an entry in the
      ring that is in no ConfigMap, with no flush owed or under way. */
  lemma FailedWriteLeavesEntryUncovered(cap: nat, e: Entry, now: int)
    requires cap >= 1
    ensures
      var s := Execute(cap, RecordAndFlush(e, now, false));
      |s.mem.entries| == 1 && s.stored == None && Quiet(s) && s.flusher == Waiting && s.lastFailed
  {
    RecordAndFlushRuns(Init(cap), RecordAndFlush(e, now, false), 0, e, now, false);
  }

  // ---------------------------------------------------------------- what is stored stays stored

  function StoredID(s: State): int {
    if s.stored.Some? then s.stored.value.saved.nextID else 0
  }

  /** `b` carries on the log of `a`: only entries too old for it are missing. */
  ghost predicate CarriesOn(b: Saved, a: Saved) {
    && a.nextID <= b.nextID
    && forall e :: e in a.entries && e.id > b.nextID - |b.entries| ==> e in b.entries
  }

  lemma RecordedCarriesOn(a: Saved, s: Saved, cap: nat, e: Entry, now: int)
    requires Contiguous(s) && |s.entries| <= cap && CarriesOn(s, a)
    ensures CarriesOn(Recorded(s, cap, e, now), a)
  {
    var t := Recorded(s, cap, e, now);
    forall x | x in a.entries && x.id > t.nextID - |t.entries| ensures x in t.entries {
      var i :| 0 <= i < |s.entries| && s.entries[i] == x;
      var more := s.entries + [Stamp(e, s.nextID + 1, now)];
      var dropped := |more| - |t.entries|;
      assert t.entries[i - dropped] == more[i] == x;
    }
  }

  lemma RestoredCarriesOn(s: Saved, cap: nat)
    requires Contiguous(s)
    ensures CarriesOn(Restored(s, cap), s)
  {
    var t := Restored(s, cap);
    forall x | x in s.entries && x.id > t.nextID - |t.entries| ensures x in t.entries {
      var i :| 0 <= i < |s.entries| && s.entries[i] == x;
      assert t.entries[i - (|s.entries| - |t.entries|)] == x;
    }
  }

  /** Unless it was cut off the ring carries on the stored log, and so does what a flush
      holds; the ring carries on what a flush holds anyway.  With the same last id they are
      the same. */
  ghost predicate OneLog(s: State) {
    && (s.stored.None? ==> !s.cutOff)
    && (Holds(s.flusher) ==>
          CarriesOn(s.mem, s.flusher.saved) && (s.flusher.saved.nextID == s.mem.nextID ==> s.flusher.saved == s.mem))
    && (!s.cutOff && s.stored.Some? ==>
          && CarriesOn(s.mem, s.stored.value.saved)
          && (StoredID(s) == s.mem.nextID ==> s.mem == Restored(s.stored.value.saved, s.cap))
          && (Holds(s.flusher) ==> CarriesOn(s.flusher.saved, s.stored.value.saved)))
  }

  lemma StepKeepsOneLog(s: State, a: Action)
    requires Inv(s) && OneLog(s)
    ensures OneLog(Step(s, a))
  {
    match a
    case RecordRing(e, now) =>
      if Holds(s.flusher) { RecordedCarriesOn(s.flusher.saved, s.mem, s.cap, e, now); }
      if s.stored.Some? && !s.cutOff { RecordedCarriesOn(s.stored.value.saved, s.mem, s.cap, e, now); }
    case Restart(capacity, readable) =>
      if s.stored.Some? { RestoredCarriesOn(s.stored.value.saved, capacity); }
    case _ =>
  }

  lemma {:induction false} RunIsOneLog(cap: nat, actions: seq<Action>, n: nat)
    requires n <= |actions|
    ensures OneLog(Reached(Init(cap), actions, n))
  {
    if n > 0 {
      RunIsOneLog(cap, actions, n - 1);
      RunKeepsInv(cap, actions, n - 1);
      StepKeepsOneLog(Reached(Init(cap), actions, n - 1), actions[n - 1]);
    }
  }

  /** In every reachable state every entry of the ring is stored exactly when the ring is not
      cut off and the stored last id is its own. */
  lemma EveryEntryIsStoredIff(cap: nat, actions: seq<Action>)
    ensures
      var s := Execute(cap, actions);
      (forall e :: e in s.mem.entries ==> IsStored(s, e)) <==>
      s.mem.entries == [] || (!s.cutOff && s.stored.Some? && StoredID(s) == s.mem.nextID)
  {
    RunIsOneLog(cap, actions, |actions|);
    RunKeepsInv(cap, actions, |actions|);
    var s := Execute(cap, actions);
    if s.mem.entries != [] {
      var newest := s.mem.entries[|s.mem.entries| - 1];
      assert newest.id == s.mem.nextID && newest in s.mem.entries;
      if s.stored.Some? {
        var saved := s.stored.value.saved;
        assert forall e :: e in saved.entries ==> e.id <= saved.nextID;
        assert forall e :: e in Last(saved.entries, s.cap) ==> e in saved.entries;
      }
    }
  }

  /** The ring is cut off exactly when the last restart could not read a ConfigMap that was
      there and nothing was written since. */
  lemma {:induction false} CutOffIff(cap: nat, actions: seq<Action>, n: nat)
    requires n <= |actions|
    ensures Reached(Init(cap), actions, n).cutOff <==> exists u :: CutOffAt(cap, actions, u, n)
  {
    if n > 0 {
      CutOffIff(cap, actions, n - 1);
      var a := actions[n - 1];
      CutOffAfterStep(Reached(Init(cap), actions, n - 1), a);
      if a.Restart? || Commits(cap, actions, n - 1) {
        forall u | CutOffAt(cap, actions, u, n) ensures u == n - 1 { }
        if Reached(Init(cap), actions, n).cutOff { assert CutOffAt(cap, actions, n - 1, n); }
      } else {
        var m := n - 1;
        if u :| CutOffAt(cap, actions, u, m) { CutOffAtNext(cap, actions, u, n); }
        if u :| CutOffAt(cap, actions, u, n) { CutOffAtNext(cap, actions, u, n); }
      }
    }
  }

  lemma CutOffAfterStep(s: State, a: Action)
    ensures Step(s, a).cutOff ==
      if a.Restart? then !a.readable && s.stored.Some?
      else s.cutOff && !(a == Commit(true) && s.flusher.Writing?)
  {
  }

  lemma CutOffAtNext(cap: nat, actions: seq<Action>, u: int, n: nat)
    requires 0 < n <= |actions| && !actions[n - 1].Restart? && !Commits(cap, actions, n - 1)
    ensures CutOffAt(cap, actions, u, n) <==> CutOffAt(cap, actions, u, n - 1)
  {
  }

  ghost predicate CutOffAt(cap: nat, actions: seq<Action>, u: int, n: nat) {
    && 0 <= u < n <= |actions| && actions[u].Restart? && !actions[u].readable
    && Reached(Init(cap), actions, u).stored.Some?
    && forall j :: u < j < n ==> !actions[j].Restart? && !Commits(cap, actions, j)
  }

  /** A write carries a stored entry over: it is part of the same log and still there. */
  predicate CarriesOver(s: State, e: Entry) {
    !s.cutOff && s.flusher.Writing? && e in s.flusher.saved.entries
  }

  /** A write carries a stored entry over exactly when the ring is not cut off and the entry is
      within its window.  So it loses stored entries for another reason than the capacity
      exactly when the ring was cut off: then it replaces the log. */
  lemma WriteCarriesOverIff(cap: nat, actions: seq<Action>, e: Entry)
    requires
      var s := Execute(cap, actions);
      s.flusher.Writing? && s.stored.Some? && e in s.stored.value.saved.entries
    ensures
      var s := Execute(cap, actions);
      var held := s.flusher.saved;
      && Step(s, Commit(true)).stored == Some(GzipJson(held))
      && (CarriesOver(s, e) <==> !s.cutOff && e.id > held.nextID - |held.entries|)
  {
    RunIsOneLog(cap, actions, |actions|);
    RunKeepsInv(cap, actions, |actions|);
  }

  /** The stored last id goes down exactly in a write of an older one, and that takes a ring
      that was cut off. */
  lemma StoredIdDropsIff(cap: nat, actions: seq<Action>, a: Action)
    ensures
      var s := Execute(cap, actions);
      && (StoredID(Step(s, a)) < StoredID(s) <==>
        a == Commit(true) && s.flusher.Writing? && s.flusher.saved.nextID < StoredID(s))
      && (StoredID(Step(s, a)) < StoredID(s) ==> s.cutOff)
  {
    RunIsOneLog(cap, actions, |actions|);
    RunKeepsInv(cap, actions, |actions|);
    StoredAfterStep(Execute(cap, actions), a);
  }

  lemma {:induction false} ReadableIsNeverCutOff(cap: nat, actions: seq<Action>, n: nat)
    requires n <= |actions| && forall i :: 0 <= i < n && actions[i].Restart? ==> actions[i].readable
    ensures !Reached(Init(cap), actions, n).cutOff
  {
    if n > 0 {
      ReadableIsNeverCutOff(cap, actions, n - 1);
      CutOffAfterStep(Reached(Init(cap), actions, n - 1), actions[n - 1]);
    }
  }

  lemma WriteCarriesOn(s: State, a: Action)
    requires OneLog(s) && !s.cutOff
    ensures s.stored.Some? ==> Step(s, a).stored.Some? && StoredID(s) <= StoredID(Step(s, a))
    ensures s.stored.None? && Step(s, a).stored.Some? ==> a == Commit(true)
  {
    StoredAfterStep(s, a);
  }

  /** What is stored in `s` is still there in `t`, under no lower last id. */
  predicate StoredGrows(s: State, t: State) {
    s.stored.Some? ==> t.stored.Some? && StoredID(s) <= StoredID(t)
  }

  lemma StoredGrowsOn(cap: nat, actions: seq<Action>, s: State, n: nat)
    requires 0 < n <= |actions| && forall i :: 0 <= i < n && actions[i].Restart? ==> actions[i].readable
    requires StoredGrows(s, Reached(Init(cap), actions, n - 1))
    ensures StoredGrows(s, Reached(Init(cap), actions, n))
  {
    ReadableIsNeverCutOff(cap, actions, n - 1);
    RunIsOneLog(cap, actions, n - 1);
    WriteCarriesOn(Reached(Init(cap), actions, n - 1), actions[n - 1]);
  }

  /** So with reloads that can read what is there the stored last id never goes down over a
      run, and every write carries on the stored log. */
  lemma {:induction false} StoredLogOnlyGrows(cap: nat, actions: seq<Action>, m: nat, n: nat)
    requires m <= n <= |actions| && forall i :: 0 <= i < n && actions[i].Restart? ==> actions[i].readable
    ensures StoredGrows(Reached(Init(cap), actions, m), Reached(Init(cap), actions, n))
    decreases n
  {
    if m < n {
      StoredLogOnlyGrows(cap, actions, m, n - 1);
      StoredGrowsOn(cap, actions, Reached(Init(cap), actions, m), n);
    }
  }

  /** A reload that cannot read the ConfigMap, then a Record and its flush: the whole stored log
      is replaced by the new entry, which gets the first id again. */
  lemma UnreadableReloadLosesTheLog(cap: nat, e: Entry, f: Entry, now: int)
    requires cap >= 1
    ensures
      var run := RecordAndFlush(e, now, true) + [Restart(cap, false)] + RecordAndFlush(f, now, true);
      && Reached(Init(cap), run, 6).stored == Some(GzipJson(Saved([Stamp(e, 1, now)], 1)))
      && Reached(Init(cap), run, 13).stored == Some(GzipJson(Saved([Stamp(f, 1, now)], 1)))
  {
    var run := RecordAndFlush(e, now, true) + [Restart(cap, false)] + RecordAndFlush(f, now, true);
    assert Recorded(EMPTY, cap, e, now) == Saved([Stamp(e, 1, now)], 1);
    assert Recorded(EMPTY, cap, f, now) == Saved([Stamp(f, 1, now)], 1);
    RecordAndFlushRuns(Init(cap), run, 0, e, now, true);
    assert Reached(Init(cap), run, 7) == Step(Reached(Init(cap), run, 6), Restart(cap, false));
    RecordAndFlushRuns(Init(cap), run, 7, f, now, true);
  }

  // ---------------------------------------------------------------- the object

  class ApiServer {
    var log: Option<Blob>
    constructor () ensures log == None { log := None; }
  }

  /** The store with one caller at a time: each method is the run of the steps above. */
  class ConfigMapStore {
    const mem: MemoryStore
    const api: ApiServer
    var dirty: bool
    ghost var lastFailed: bool
    ghost var cutOff: bool

    ghost predicate Valid()
      reads this, mem
    {
      mem.Valid()
    }

    ghost function View(flusher: Flusher): State
      reads this, mem, api
    {
      State(mem.cap, mem.Contents(), dirty, 0, flusher, api.log, lastFailed, cutOff)
    }

    /** Starts from what is in the ConfigMap. */
    constructor (api: ApiServer, capacity: int, readable: bool)
      ensures Valid() && this.api == api && fresh(mem) && api.log == old(api.log)
      ensures mem.cap == if capacity <= 0 then DEFAULT_CAPACITY else capacity
      ensures forall s: State :: s.stored == api.log ==> View(Waiting) == Step(s, Restart(mem.cap, readable))
      ensures !dirty && !lastFailed
    {
      this.api := api;
      var ring := new MemoryStore(capacity);
      mem := ring;
      dirty := false;
      lastFailed := false;
      cutOff := !readable && api.log.Some?;
      new;
      if readable && api.log.Some? {
        mem.Restore(api.log.value.saved);
      }
    }

    method Record(e: Entry, now: int)
      requires Valid()
      modifies this, mem
      ensures Valid()
      ensures View(Waiting) == Step(Step(old(View(Waiting)), RecordRing(e, now)), RecordFlag)
    {
      mem.Record(e, now);
      lastFailed := false;
      dirty := true;
    }

    method Flush(getOk: bool, writeOk: bool)
      requires Valid()
      modifies this, api
      ensures Valid()
      ensures View(Waiting) ==
        Step(Step(Step(old(View(Flushing(false))), TakeSnapshot), Fetch(getOk)), Commit(writeOk))
    {
      var saved := mem.Snapshot();
      var data := GzipJson(saved);
      lastFailed := true;
      if getOk && writeOk {
        api.log := Some(data);
        lastFailed, cutOff := false, false;
      }
    }

    /** One turn of Run's ticker. */
    method OnTick(getOk: bool, writeOk: bool)
      requires Valid()
      modifies this, api
      ensures Valid()
      ensures View(Waiting) ==
        Step(Step(Step(Step(old(View(Waiting)), Tick), TakeSnapshot), Fetch(getOk)), Commit(writeOk))
    {
      var was := dirty;
      dirty := false;
      if was { Flush(getOk, writeOk); }
    }
  }
}

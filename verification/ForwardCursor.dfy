/** The forwarding cursor under any interleaving of the scheduler's steps, of config
    requests and of new audit entries. */
module ForwardCursor {
  import opened Common
  import opened AuditRing
  import opened AuditForward

  // ---------------------------------------------------------------- a log in order of time

  function LastTime(log: seq<Entry>): int {
    if log == [] then 0 else log[|log| - 1].timestamp
  }

  ghost predicate Increasing(log: seq<Entry>) {
    && (forall i :: 0 <= i < |log| ==> log[i].timestamp > 0)
    && (forall i, j :: 0 <= i < j < |log| ==> log[i].timestamp < log[j].timestamp)
  }

  /** How many leading entries are at or before `c`. */
  function CountUpTo(log: seq<Entry>, c: int): (n: nat)
    ensures n <= |log|
  {
    if log == [] then 0
    else if log[|log| - 1].timestamp <= c then |log|
    else CountUpTo(log[..|log| - 1], c)
  }

  lemma {:induction false} CountSplits(log: seq<Entry>, c: int, i: nat)
    requires Increasing(log) && i < |log|
    ensures log[i].timestamp <= c <==> i < CountUpTo(log, c)
  {
    var n := |log| - 1;
    if log[n].timestamp > c && i < n {
      CountSplits(log[..n], c, i);
    }
  }

  // ---------------------------------------------------------------- what one collection sees

  /** List(1000, 0) over a ring of capacity `cap`. */
  function Listing(log: seq<Entry>, cap: nat): seq<Entry> {
    Page(Last(log, cap), LISTED, 0)
  }

  /** No more entries after the cursor than a listing can hold. */
  predicate FewNew(log: seq<Entry>, since: int, cap: nat) {
    |log| - CountUpTo(log, since) <= (if cap < LISTED then cap else LISTED)
  }

  lemma ListingLength(log: seq<Entry>, cap: nat)
    ensures |Listing(log, cap)| == Min(Min(|log|, cap), LISTED)
  {
    PageExtends(Last(log, cap), LISTED, 0);
  }

  lemma ListingAt(log: seq<Entry>, cap: nat, i: nat)
    requires i < |Listing(log, cap)|
    ensures i < |log| && Listing(log, cap)[i] == log[|log| - 1 - i]
  {
    var ring := Last(log, cap);
    ListingLength(log, cap);
    FullPageAt(ring, LISTED, 0, i);
    assert ring[|ring| - 1 - i] == log[|log| - 1 - i];
  }

  lemma {:induction false} NewerIsPrefix(listing: seq<Entry>, since: int, n: nat)
    requires n <= |listing|
    requires forall i :: 0 <= i < |listing| ==> (listing[i].timestamp > since <==> i < n)
    ensures Newer(listing, since) == listing[..n]
  {
    if listing != [] {
      var m := |listing| - 1;
      if n == |listing| {
        NewerIsPrefix(listing[..m], since, m);
        assert listing[..n] == listing[..m][..m] + [listing[m]];
      } else {
        NewerIsPrefix(listing[..m], since, n);
        assert listing[..m][..n] == listing[..n];
      }
    }
  }

  /** `batch` is the end of the log, newest first. */
  ghost predicate NewestFirst(batch: seq<Entry>, log: seq<Entry>) {
    |batch| <= |log| && forall i :: 0 <= i < |batch| ==> batch[i] == log[|log| - 1 - i]
  }

  lemma ListingSplits(log: seq<Entry>, cap: nat, since: int, i: nat)
    requires Increasing(log) && i < |Listing(log, cap)|
    ensures i < |log| && Listing(log, cap)[i] == log[|log| - 1 - i]
    ensures Listing(log, cap)[i].timestamp > since <==> i < |log| - CountUpTo(log, since)
  {
    ListingAt(log, cap, i);
    CountSplits(log, since, |log| - 1 - i);
  }

  /** A collection picks up exactly the entries after the cursor, newest first. */
  lemma CollectsTheNewSuffix(log: seq<Entry>, cap: nat, since: int)
    requires Increasing(log) && FewNew(log, since, cap)
    ensures |Newer(Listing(log, cap), since)| == |log| - CountUpTo(log, since)
    ensures NewestFirst(Newer(Listing(log, cap), since), log)
  {
    var listing, n := Listing(log, cap), |log| - CountUpTo(log, since);
    ListingLength(log, cap);
    forall i | 0 <= i < |listing|
      ensures i < |log| && listing[i] == log[|log| - 1 - i]
      ensures listing[i].timestamp > since <==> i < n
    {
      ListingSplits(log, cap, since, i);
    }
    NewerIsPrefix(listing, since, n);
  }

  lemma CollectsEachNewEntry(log: seq<Entry>, cap: nat, since: int, e: Entry)
    requires Increasing(log) && FewNew(log, since, cap) && e in log && e.timestamp > since
    ensures e in Newer(Listing(log, cap), since)
  {
    var batch := Newer(Listing(log, cap), since);
    CollectsTheNewSuffix(log, cap, since);
    var i :| 0 <= i < |log| && log[i] == e;
    CountSplits(log, since, i);
    assert batch[|log| - 1 - i] == e;
  }

  lemma OldestFirst(batch: seq<Entry>, log: seq<Entry>)
    requires NewestFirst(batch, log)
    ensures log[..|log| - |batch|] + Reverse(batch) == log
  {
    forall j | 0 <= j < |batch| ensures Reverse(batch)[j] == log[|log| - |batch| + j] {
      assert batch[|batch| - 1 - j] == log[|log| - 1 - (|batch| - 1 - j)];
    }
  }

  /** With more new entries than a listing holds, the oldest of them is left out. */
  lemma OverflowSkipsAnEntry(log: seq<Entry>, cap: nat, since: int)
    requires Increasing(log) && !FewNew(log, since, cap)
    ensures
      var e := log[CountUpTo(log, since)];
      e.timestamp > since && e !in Newer(Listing(log, cap), since)
  {
    var k := CountUpTo(log, since);
    CountSplits(log, since, k);
    NewerMembers(Listing(log, cap), since, log[k]);
    ListingLength(log, cap);
    forall i | 0 <= i < |Listing(log, cap)| ensures Listing(log, cap)[i] != log[k] {
      ListingAt(log, cap, i);
      assert log[k].timestamp < log[|log| - 1 - i].timestamp;
    }
  }

  /** A collection misses nothing exactly when the new entries fit a listing. */
  lemma CollectsEverythingIff(log: seq<Entry>, cap: nat, since: int)
    requires Increasing(log)
    ensures FewNew(log, since, cap) <==>
      forall e :: e in log && e.timestamp > since ==> e in Newer(Listing(log, cap), since)
  {
    if FewNew(log, since, cap) {
      forall e | e in log && e.timestamp > since ensures e in Newer(Listing(log, cap), since) {
        CollectsEachNewEntry(log, cap, since, e);
      }
    } else {
      OverflowSkipsAnEntry(log, cap, since);
      assert log[CountUpTo(log, since)] in log;
    }
  }

  lemma NewestOfSuffix(log: seq<Entry>, cap: nat, since: int)
    requires Increasing(log) && FewNew(log, since, cap)
    ensures
      var batch := Newer(Listing(log, cap), since);
      Newest(batch) == if CountUpTo(log, since) < |log| then LastTime(log) else 0
  {
    var batch := Newer(Listing(log, cap), since);
    CollectsTheNewSuffix(log, cap, since);
    if batch != [] {
      NewestBounds(batch, batch[0]);
      NewestAttained(batch);
      assert batch[0] == log[|log| - 1];
    }
  }

  // ---------------------------------------------------------------- the protocol

  datatype Scheduler =
    | Resting
    | Loaded(cfg: Config)
    | Collected(cfg: Config, batch: seq<Entry>, newest: int)
    | Sent(result: RunResult, cursor: int)
    | Reloaded(cfg: Config, cursor: int)

  /** A config request between its load and its save. */
  datatype Client = Client(input: Config, cur: Config)

  /** `log`: every entry recorded so far.  `delivered`: those in a batch dispatched with
      no errors; `forwarded`: the same batches joined, each oldest first.  `clean`: no
      save has replaced the stored cursor by another than the scheduler's newest, and
      the scheduler has failed to save none. */
  datatype State = State(log: seq<Entry>, cap: nat, secret: Option<Config>, sched: Scheduler, clients: map<nat, Client>,
                         delivered: set<Entry>, forwarded: seq<Entry>, clean: bool)

  datatype Action =
    | Append(e: Entry)
    | Load(getOk: bool)
    | Collect
    | Send(others: nat, verdict: Verdict)
    | Reload(getOk: bool, now: int)
    | Save(saveOk: bool)
    | PutLoad(client: nat, input: Config, getOk: bool)
    | PutSave(client: nat, saveOk: bool)

  function Cursor(secret: Option<Config>): int {
    if secret.Some? then secret.value.lastAuditTS else 0
  }

  /** One step; an action that is not enabled does nothing.  One rule of the environment:
      entries are recorded in strictly increasing time. */
  function Step(s: State, a: Action): State {
    match a
    case Append(e) =>
      if e.timestamp > LastTime(s.log) then s.(log := s.log + [e]) else s
    case Load(getOk) =>
      if s.sched.Resting? && getOk && s.secret.Some? && s.secret.value.enabled && !s.secret.value.target.Empty()
      then s.(sched := Loaded(Read(s.secret))) else s
    case Collect =>
      if !s.sched.Loaded? then s
      else if !s.sched.cfg.signals.audit then s.(sched := Collected(s.sched.cfg, [], 0))
      else
        var batch := Newer(Listing(s.log, s.cap), s.sched.cfg.lastAuditTS);
        s.(sched := Collected(s.sched.cfg, batch, Newest(batch)))
    case Send(others, v) =>
      if !s.sched.Collected? then s
      else
        var n, target := |s.sched.batch| + others, s.sched.cfg.target;
        var result := Ran(n, SentCount(n, target, v), Refusals(n, target, v));
        if Accepted(n, target, v) then
          s.(sched := Sent(result, s.sched.newest),
             delivered := s.delivered + (set e | e in s.sched.batch),
             forwarded := s.forwarded + Reverse(s.sched.batch))
        else s.(sched := Sent(result, 0))
    case Reload(getOk, now) =>
      if !s.sched.Sent? then s
      else if getOk && s.secret.Some? then
        s.(sched := Reloaded(WithRun(Read(s.secret), now, s.sched.result, s.sched.cursor), s.sched.cursor))
      else s.(sched := Resting, clean := s.clean && s.sched.cursor == 0)
    case Save(saveOk) =>
      if !s.sched.Reloaded? then s
      else if saveOk then s.(sched := Resting, secret := Some(s.sched.cfg))
      else s.(sched := Resting, clean := s.clean && s.sched.cursor == 0)
    case PutLoad(p, input, getOk) =>
      if p in s.clients then s
      else s.(clients := s.clients[p := Client(input, if getOk then Read(s.secret) else DEFAULT_CONFIG)])
    case PutSave(p, saveOk) =>
      if p !in s.clients then s
      else
        var c, rest := s.clients[p], s.clients - {p};
        if saveOk then
          s.(clients := rest,
             secret := Some(Merge(c.input, c.cur)),
             clean := s.clean && c.cur.lastAuditTS == Cursor(s.secret))
        else s.(clients := rest)
  }

  /** A process that starts with a config that has forwarded nothing yet. */
  predicate Fresh(secret: Option<Config>) { Cursor(secret) == 0 }

  function Start(cap: nat, secret: Option<Config>): State {
    State([], cap, secret, Resting, map[], {}, [], true)
  }

  /** The state after the first `n` actions. */
  function Reached(cap: nat, secret: Option<Config>, actions: seq<Action>, n: nat): State
    requires n <= |actions|
  {
    if n == 0 then Start(cap, secret) else Step(Reached(cap, secret, actions, n - 1), actions[n - 1])
  }

  function Execute(cap: nat, secret: Option<Config>, actions: seq<Action>): State {
    Reached(cap, secret, actions, |actions|)
  }

  // ---------------------------------------------------------------- never past an undelivered entry

  /** Every entry at or below `c` was delivered, and `c` is not in the future. */
  ghost predicate Safe(log: seq<Entry>, delivered: set<Entry>, c: int) {
    c <= LastTime(log) && forall e :: e in log && e.timestamp <= c ==> e in delivered
  }

  /** The cursor values the scheduler may still write or collect from. */
  predicate SchedulerHolds(sched: Scheduler, c: int) {
    match sched
    case Resting => false
    case Loaded(cfg) => c == cfg.lastAuditTS
    case Collected(cfg, batch, newest) => c == cfg.lastAuditTS
    case Sent(result, cursor) => c == cursor
    case Reloaded(cfg, cursor) => c == cfg.lastAuditTS
  }

  /** Every cursor value in the Secret or in the hands of anyone who may save it. */
  ghost predicate Held(s: State, c: int) {
    || c == 0 || c == Cursor(s.secret) || SchedulerHolds(s.sched, c)
    || exists p :: p in s.clients && s.clients[p].cur.lastAuditTS == c
  }

  /** A batch in hand holds recorded entries, none newer than its newest, which is after the
      loaded cursor. */
  ghost predicate BatchSound(log: seq<Entry>, sched: Scheduler) {
    sched.Collected? ==>
      && sched.newest <= LastTime(log) && (sched.newest == 0 || sched.newest > sched.cfg.lastAuditTS)
      && forall e :: e in sched.batch ==> 0 < e.timestamp <= sched.newest
  }

  ghost predicate HeldSafe(s: State) {
    forall c :: Held(s, c) ==> Safe(s.log, s.delivered, c)
  }

  ghost predicate AllSafe(s: State) {
    Increasing(s.log) && HeldSafe(s) && BatchSound(s.log, s.sched)
  }

  /** The batch in hand leaves out an entry after the loaded cursor, up to its newest, that
      was not delivered either. */
  ghost predicate LeavesOut(s: State) {
    s.sched.Collected? &&
    exists e :: e in s.log && s.sched.cfg.lastAuditTS < e.timestamp <= s.sched.newest && e !in s.sched.batch
      && e !in s.delivered
  }

  predicate Takes(s: State, a: Action) {
    a.Send? && s.sched.Collected? && Accepted(|s.sched.batch| + a.others, s.sched.cfg.target, a.verdict)
  }

  /** A batch that leaves out such an entry is sent, and every target takes it. */
  ghost predicate LeftOut(s: State, a: Action) {
    Takes(s, a) && LeavesOut(s)
  }

  lemma LastTimeIsLast(log: seq<Entry>, e: Entry)
    requires Increasing(log) && e in log
    ensures 0 < e.timestamp <= LastTime(log)
  {
    var i :| 0 <= i < |log| && log[i] == e;
  }

  lemma AppendIsIncreasing(log: seq<Entry>, e: Entry)
    requires Increasing(log) && e.timestamp > LastTime(log)
    ensures Increasing(log + [e]) && LastTime(log + [e]) == e.timestamp
  {
    assert log != [] ==> LastTime(log) > 0;
  }

  lemma SafeGrows(log: seq<Entry>, delivered: set<Entry>, more: set<Entry>, c: int)
    requires Safe(log, delivered, c) && delivered <= more
    ensures Safe(log, more, c)
  {
  }

  lemma SafeLater(log: seq<Entry>, delivered: set<Entry>, e: Entry, c: int)
    requires Safe(log, delivered, c) && e.timestamp > LastTime(log)
    ensures Safe(log + [e], delivered, c)
  {
  }

  lemma AppendKeepsSafe(s: State, e: Entry)
    requires AllSafe(s) && e.timestamp > LastTime(s.log)
    ensures AllSafe(s.(log := s.log + [e]))
  {
    var t := s.(log := s.log + [e]);
    AppendIsIncreasing(s.log, e);
    forall c | Held(t, c) ensures Safe(t.log, t.delivered, c) {
      assert Held(s, c);
      SafeLater(s.log, s.delivered, e, c);
    }
  }

  lemma BatchIsSound(log: seq<Entry>, cap: nat, since: int, e: Entry)
    requires Increasing(log) && e in Newer(Listing(log, cap), since)
    ensures e in log && 0 < e.timestamp <= Newest(Newer(Listing(log, cap), since))
  {
    var listing := Listing(log, cap);
    NewestBounds(Newer(listing, since), e);
    NewerMembers(listing, since, e);
    var i :| 0 <= i < |listing| && listing[i] == e;
    ListingAt(log, cap, i);
  }

  lemma NewestIsPast(log: seq<Entry>, cap: nat, since: int)
    requires Increasing(log)
    ensures var n := Newest(Newer(Listing(log, cap), since)); n <= LastTime(log) && (n == 0 || n > since)
  {
    var batch := Newer(Listing(log, cap), since);
    NewestIsNewer(Listing(log, cap), since);
    NewestAttained(batch);
    if log != [] { LastTimeIsLast(log, log[|log| - 1]); }
    if Newest(batch) != 0 {
      var i :| 0 <= i < |batch| && batch[i].timestamp == Newest(batch);
      BatchIsSound(log, cap, since, batch[i]);
      LastTimeIsLast(log, batch[i]);
    }
  }

  lemma CollectKeepsSafe(s: State)
    requires AllSafe(s)
    ensures AllSafe(Step(s, Collect))
  {
    var t := Step(s, Collect);
    forall c | Held(t, c) ensures Held(s, c) { }
    assert Safe(s.log, s.delivered, 0) by { assert Held(s, 0); }
    if s.sched.Loaded? && s.sched.cfg.signals.audit {
      var since := s.sched.cfg.lastAuditTS;
      NewestIsPast(s.log, s.cap, since);
      forall e | e in t.sched.batch ensures 0 < e.timestamp <= t.sched.newest { BatchIsSound(s.log, s.cap, since, e); }
    }
  }

  /** A batch that is taken gives the scheduler a safe cursor exactly when it leaves out no
      undelivered entry. */
  lemma TakenIsSafeIff(s: State, a: Action)
    requires AllSafe(s) && Takes(s, a)
    ensures Safe(s.log, Step(s, a).delivered, s.sched.newest) <==> !LeavesOut(s)
  {
    var since, t := s.sched.cfg.lastAuditTS, Step(s, a);
    assert Safe(s.log, s.delivered, since) by { assert Held(s, since); }
    assert forall e :: e in t.delivered <==> e in s.delivered || e in s.sched.batch;
    if LeavesOut(s) {
      var e :| e in s.log && since < e.timestamp <= s.sched.newest && e !in s.sched.batch && e !in s.delivered;
      assert e !in t.delivered;
    }
  }

  lemma SendKeepsSafe(s: State, others: nat, v: Verdict)
    requires AllSafe(s) && s.sched.Collected? && !LeftOut(s, Send(others, v))
    ensures AllSafe(Step(s, Send(others, v)))
  {
    var t := Step(s, Send(others, v));
    if Takes(s, Send(others, v)) { TakenIsSafeIff(s, Send(others, v)); }
    forall c | Held(t, c) ensures Safe(t.log, t.delivered, c) {
      if Held(s, c) {
        SafeGrows(s.log, s.delivered, t.delivered, c);
      } else {
        assert t.sched.cursor == c == s.sched.newest;
      }
    }
  }

  /** Configs are only ever copied: no other step brings in a new cursor value. */
  lemma OthersHoldNothingNew(s: State, a: Action, c: int)
    requires !a.Append? && !a.Collect? && !a.Send? && Held(Step(s, a), c)
    ensures Held(s, c)
  {
    match a
    case PutLoad(p, input, getOk) =>
      var t := Step(s, a);
      if !(c == 0 || c == Cursor(t.secret) || SchedulerHolds(t.sched, c)) {
        var q :| q in t.clients && t.clients[q].cur.lastAuditTS == c;
        if q != p { assert q in s.clients && s.clients[q].cur.lastAuditTS == c; }
      }
    case PutSave(p, saveOk) =>
      if p in s.clients && saveOk { MergeKeepsStatus(s.clients[p].input, s.clients[p].cur); }
    case _ =>
  }

  lemma OthersKeepTheLog(s: State, a: Action)
    requires !a.Append? && !a.Collect? && !a.Send?
    ensures Step(s, a).log == s.log && Step(s, a).delivered == s.delivered
    ensures Step(s, a).sched.Collected? ==> Step(s, a).sched == s.sched
  {
  }

  lemma StepKeepsSafe(s: State, a: Action)
    requires AllSafe(s) && !LeftOut(s, a)
    ensures AllSafe(Step(s, a))
  {
    if a.Append? {
      if a.e.timestamp > LastTime(s.log) { AppendKeepsSafe(s, a.e); }
    } else if a.Collect? {
      CollectKeepsSafe(s);
    } else if a.Send? {
      if s.sched.Collected? { SendKeepsSafe(s, a.others, a.verdict); }
    } else {
      OthersKeepTheLog(s, a);
      forall c | Held(Step(s, a), c) ensures Safe(s.log, s.delivered, c) { OthersHoldNothingNew(s, a, c); }
    }
  }

  /** In the first `n` steps no batch that leaves out an undelivered entry is taken. */
  ghost predicate NothingLeftOut(cap: nat, secret: Option<Config>, actions: seq<Action>, n: nat)
    requires n <= |actions|
  {
    n == 0 ||
    (NothingLeftOut(cap, secret, actions, n - 1) && !LeftOut(Reached(cap, secret, actions, n - 1), actions[n - 1]))
  }

  ghost predicate HeldSafeThroughout(cap: nat, secret: Option<Config>, actions: seq<Action>, n: nat)
    requires n <= |actions|
  {
    HeldSafe(Reached(cap, secret, actions, n)) && (n == 0 || HeldSafeThroughout(cap, secret, actions, n - 1))
  }

  lemma {:induction false} RunKeepsSafe(cap: nat, secret: Option<Config>, actions: seq<Action>, n: nat)
    requires Fresh(secret) && n <= |actions| && NothingLeftOut(cap, secret, actions, n)
    ensures AllSafe(Reached(cap, secret, actions, n))
  {
    if n > 0 {
      RunKeepsSafe(cap, secret, actions, n - 1);
      StepKeepsSafe(Reached(cap, secret, actions, n - 1), actions[n - 1]);
    }
  }

  lemma LeftOutIsUnsafe(s: State, a: Action)
    requires AllSafe(s) && LeftOut(s, a)
    ensures !HeldSafe(Step(s, a))
  {
    TakenIsSafeIff(s, a);
    assert Held(Step(s, a), s.sched.newest);
  }

  /** Whatever interleaves: no cursor in the Secret or in anyone's hands is ever past an
      undelivered entry, exactly when no batch that leaves out an undelivered entry is taken. */
  lemma {:induction false} CursorsAreSafeIff(cap: nat, secret: Option<Config>, actions: seq<Action>, n: nat)
    requires Fresh(secret) && n <= |actions|
    ensures HeldSafeThroughout(cap, secret, actions, n) <==> NothingLeftOut(cap, secret, actions, n)
  {
    if NothingLeftOut(cap, secret, actions, n) { RunKeepsSafe(cap, secret, actions, n); }
    if n > 0 {
      CursorsAreSafeIff(cap, secret, actions, n - 1);
      var s, a := Reached(cap, secret, actions, n - 1), actions[n - 1];
      if NothingLeftOut(cap, secret, actions, n - 1) && LeftOut(s, a) {
        RunKeepsSafe(cap, secret, actions, n - 1);
        LeftOutIsUnsafe(s, a);
      }
    }
  }

  /** So every recorded entry at or below the stored cursor was in a batch that was dispatched
      with no errors. */
  lemma CursorNeverPassesUndelivered(cap: nat, secret: Option<Config>, actions: seq<Action>, e: Entry)
    requires Fresh(secret) && NothingLeftOut(cap, secret, actions, |actions|)
    ensures
      var s := Execute(cap, secret, actions);
      e in s.log && e.timestamp <= Cursor(s.secret) ==> e in s.delivered
  {
    RunKeepsSafe(cap, secret, actions, |actions|);
    assert Held(Execute(cap, secret, actions), Cursor(Execute(cap, secret, actions).secret));
  }

  /** A batch in hand is everything between its cursor and its newest entry. */
  ghost predicate BatchComplete(s: State) {
    s.sched.Collected? ==>
      && s.sched.newest <= LastTime(s.log)
      && forall e :: e in s.log && s.sched.cfg.lastAuditTS < e.timestamp <= s.sched.newest ==> e in s.sched.batch
  }

  /** A collection meets no more new entries than a listing holds. */
  predicate Fits(s: State, a: Action) {
    a.Collect? && s.sched.Loaded? && s.sched.cfg.signals.audit ==> FewNew(s.log, s.sched.cfg.lastAuditTS, s.cap)
  }

  predicate AllFit(cap: nat, secret: Option<Config>, actions: seq<Action>, n: nat)
    requires n <= |actions|
  {
    n == 0 || (AllFit(cap, secret, actions, n - 1) && Fits(Reached(cap, secret, actions, n - 1), actions[n - 1]))
  }

  lemma CollectIsComplete(log: seq<Entry>, cap: nat, since: int)
    requires Increasing(log) && FewNew(log, since, cap)
    ensures forall e :: e in log && since < e.timestamp ==> e in Newer(Listing(log, cap), since)
  {
    forall e | e in log && since < e.timestamp ensures e in Newer(Listing(log, cap), since) {
      CollectsEachNewEntry(log, cap, since, e);
    }
  }

  lemma CollectGetsComplete(s: State)
    requires Increasing(s.log) && BatchComplete(s) && Fits(s, Collect)
    ensures BatchComplete(Step(s, Collect))
  {
    if s.sched.Loaded? {
      var since := s.sched.cfg.lastAuditTS;
      NewestIsPast(s.log, s.cap, since);
      if s.sched.cfg.signals.audit {
        CollectIsComplete(s.log, s.cap, since);
      } else {
        assert forall e :: e in s.log ==> e.timestamp > 0;
        if s.log != [] { LastTimeIsLast(s.log, s.log[|s.log| - 1]); }
      }
    }
  }

  lemma StepKeepsComplete(s: State, a: Action)
    requires Increasing(s.log) && BatchComplete(s) && Fits(s, a)
    ensures Increasing(Step(s, a).log) && BatchComplete(Step(s, a))
  {
    if a.Append? {
      if a.e.timestamp > LastTime(s.log) { AppendIsIncreasing(s.log, a.e); }
    } else if a.Collect? {
      CollectGetsComplete(s);
    } else if !a.Send? {
      OthersKeepTheLog(s, a);
    }
  }

  /** Nothing is left out in a run whose collections all fit a listing. */
  lemma {:induction false} FittingRunsLeaveNothingOut(cap: nat, secret: Option<Config>, actions: seq<Action>, n: nat)
    requires n <= |actions| && AllFit(cap, secret, actions, n)
    ensures NothingLeftOut(cap, secret, actions, n)
    ensures Increasing(Reached(cap, secret, actions, n).log) && BatchComplete(Reached(cap, secret, actions, n))
  {
    if n > 0 {
      FittingRunsLeaveNothingOut(cap, secret, actions, n - 1);
      StepKeepsComplete(Reached(cap, secret, actions, n - 1), actions[n - 1]);
    }
  }

  // ---------------------------------------------------------------- overflow

  lemma OverflowReachesTheEnd(log: seq<Entry>, cap: nat, since: int)
    requires Increasing(log) && !FewNew(log, since, cap) && cap >= 1
    ensures Newest(Newer(Listing(log, cap), since)) >= LastTime(log)
  {
    var k, batch := CountUpTo(log, since), Newer(Listing(log, cap), since);
    CountSplits(log, since, |log| - 1);
    ListingLength(log, cap);
    ListingAt(log, cap, 0);
    var last := log[|log| - 1];
    assert Listing(log, cap)[0] == last && last in Listing(log, cap);
    NewerMembers(Listing(log, cap), since, last);
    NewestBounds(batch, last);
  }

  /** A collection that overflows, and whose batch is then sent and saved, puts the stored
      cursor past the first entry it left out. */
  lemma OverflowPassesUndelivered(s: State, others: nat, v: Verdict, now: int)
    requires Increasing(s.log) && s.cap >= 1 && s.secret.Some? && s.sched.Loaded? && s.sched.cfg.signals.audit
    requires !FewNew(s.log, s.sched.cfg.lastAuditTS, s.cap)
    requires s.log[CountUpTo(s.log, s.sched.cfg.lastAuditTS)] !in s.delivered
    requires Accepted(|Newer(Listing(s.log, s.cap), s.sched.cfg.lastAuditTS)| + others, s.sched.cfg.target, v)
    ensures
      var e := s.log[CountUpTo(s.log, s.sched.cfg.lastAuditTS)];
      var t := Step(Step(Step(Step(s, Collect), Send(others, v)), Reload(true, now)), Save(true));
      e in t.log && e.timestamp <= Cursor(t.secret) && e !in t.delivered
  {
    var since := s.sched.cfg.lastAuditTS;
    var k := CountUpTo(s.log, since);
    OverflowSkipsAnEntry(s.log, s.cap, since);
    OverflowReachesTheEnd(s.log, s.cap, since);
    LastTimeIsLast(s.log, s.log[k]);
  }

  // ---------------------------------------------------------------- exactly once

  ghost predicate UpTo(s: State, c: int) {
    && s.forwarded == s.log[..CountUpTo(s.log, c)]
    && forall e :: e in s.delivered ==> e.timestamp <= c
  }

  /** While `clean` holds, what was forwarded is exactly the log up to the cursor. */
  ghost predicate Exact(s: State) {
    match s.sched
    case Resting => UpTo(s, Cursor(s.secret))
    case Loaded(cfg) => cfg.lastAuditTS == Cursor(s.secret) && UpTo(s, Cursor(s.secret))
    case Collected(cfg, batch, newest) =>
      && cfg.lastAuditTS == Cursor(s.secret) && UpTo(s, Cursor(s.secret))
      && (LeavesOut(s) ||
          s.forwarded + Reverse(batch) == s.log[..CountUpTo(s.log, if newest == 0 then Cursor(s.secret) else newest)])
    case Sent(result, cursor) => UpTo(s, if cursor == 0 then Cursor(s.secret) else cursor)
    case Reloaded(cfg, cursor) =>
      UpTo(s, cfg.lastAuditTS) && (cursor == 0 ==> cfg.lastAuditTS == Cursor(s.secret))
  }

  lemma CountIgnoresNewer(log: seq<Entry>, e: Entry, c: int)
    requires c < e.timestamp
    ensures CountUpTo(log + [e], c) == CountUpTo(log, c)
    ensures (log + [e])[..CountUpTo(log, c)] == log[..CountUpTo(log, c)]
  {
    assert (log + [e])[..|log|] == log;
  }

  lemma HeldIsPast(s: State, c: int)
    requires AllSafe(s) && Held(s, c)
    ensures c <= LastTime(s.log)
  {
  }

  lemma AppendKeepsExact(s: State, e: Entry)
    requires AllSafe(s) && Exact(s) && e.timestamp > LastTime(s.log)
    ensures Exact(s.(log := s.log + [e]))
  {
    HeldIsPast(s, Cursor(s.secret));
    CountIgnoresNewer(s.log, e, Cursor(s.secret));
    match s.sched
    case Resting =>
    case Loaded(cfg) =>
    case Collected(cfg, batch, newest) =>
      CountIgnoresNewer(s.log, e, newest);
    case Sent(result, cursor) =>
      HeldIsPast(s, cursor);
      CountIgnoresNewer(s.log, e, cursor);
    case Reloaded(cfg, cursor) =>
      HeldIsPast(s, cfg.lastAuditTS);
      CountIgnoresNewer(s.log, e, cfg.lastAuditTS);
  }

  lemma LastCountsAll(log: seq<Entry>)
    requires Increasing(log)
    ensures log[..CountUpTo(log, LastTime(log))] == log
  {
  }

  lemma CollectReachesTheEnd(log: seq<Entry>, cap: nat, since: int)
    requires Increasing(log) && FewNew(log, since, cap)
    ensures
      var batch := Newer(Listing(log, cap), since);
      log[..CountUpTo(log, since)] + Reverse(batch)
        == log[..CountUpTo(log, if Newest(batch) == 0 then since else Newest(batch))]
  {
    var batch, k := Newer(Listing(log, cap), since), CountUpTo(log, since);
    CollectsTheNewSuffix(log, cap, since);
    NewestOfSuffix(log, cap, since);
    OldestFirst(batch, log);
    if k < |log| {
      LastCountsAll(log);
      LastTimeIsLast(log, log[|log| - 1]);
    }
  }

  /** A collection that overflows leaves something out, if the store holds anything. */
  lemma OverflowLeavesOut(s: State)
    requires Increasing(s.log) && s.cap >= 1 && s.sched.Loaded? && s.sched.cfg.signals.audit
    requires !FewNew(s.log, s.sched.cfg.lastAuditTS, s.cap)
    requires forall e :: e in s.delivered ==> e.timestamp <= s.sched.cfg.lastAuditTS
    ensures LeavesOut(Step(s, Collect))
  {
    var since := s.sched.cfg.lastAuditTS;
    var e := s.log[CountUpTo(s.log, since)];
    OverflowSkipsAnEntry(s.log, s.cap, since);
    OverflowReachesTheEnd(s.log, s.cap, since);
    LastTimeIsLast(s.log, e);
    assert e in Step(s, Collect).log;
  }

  lemma CollectKeepsExact(s: State)
    requires AllSafe(s) && Exact(s)
    ensures Exact(Step(s, Collect))
  {
    if s.sched.Loaded? && s.sched.cfg.signals.audit {
      var since := s.sched.cfg.lastAuditTS;
      if FewNew(s.log, since, s.cap) {
        CollectReachesTheEnd(s.log, s.cap, since);
      } else if s.cap >= 1 {
        OverflowLeavesOut(s);
      } else {
        ListingLength(s.log, s.cap);
      }
    }
  }

  lemma SendKeepsExact(s: State, others: nat, v: Verdict)
    requires AllSafe(s) && Exact(s) && s.sched.Collected? && !LeftOut(s, Send(others, v))
    ensures Exact(Step(s, Send(others, v)))
  {
    var t := Step(s, Send(others, v));
    if Takes(s, Send(others, v)) {
      assert forall e :: e in t.delivered ==> e in s.delivered || e in s.sched.batch;
    }
  }

  lemma StepKeepsExact(s: State, a: Action)
    requires AllSafe(s) && (s.clean ==> Exact(s)) && !LeftOut(s, a)
    ensures Step(s, a).clean ==> Exact(Step(s, a))
  {
    if s.clean {
      match a
      case Append(e) => if e.timestamp > LastTime(s.log) { AppendKeepsExact(s, e); }
      case Collect => CollectKeepsExact(s);
      case Send(others, v) => if s.sched.Collected? { SendKeepsExact(s, others, v); }
      case _ =>
    }
  }

  lemma {:induction false} RunKeepsExact(cap: nat, secret: Option<Config>, actions: seq<Action>, n: nat)
    requires Fresh(secret) && n <= |actions| && NothingLeftOut(cap, secret, actions, n)
    ensures Reached(cap, secret, actions, n).clean ==> Exact(Reached(cap, secret, actions, n))
  {
    if n > 0 {
      RunKeepsExact(cap, secret, actions, n - 1);
      RunKeepsSafe(cap, secret, actions, n - 1);
      StepKeepsExact(Reached(cap, secret, actions, n - 1), actions[n - 1]);
    }
  }

  /** As long as nothing is left out, no save moves the cursor aside and none of the
      scheduler's is lost, the batches joined are a prefix of the log: each entry once, none
      skipped, in order. */
  lemma BatchesTileTheLog(cap: nat, secret: Option<Config>, actions: seq<Action>)
    requires Fresh(secret) && NothingLeftOut(cap, secret, actions, |actions|) && Execute(cap, secret, actions).clean
    ensures
      var s := Execute(cap, secret, actions);
      exists k :: 0 <= k <= |s.log| && s.forwarded == s.log[..k]
  {
    RunKeepsExact(cap, secret, actions, |actions|);
  }

  ghost predicate NoTrouble(a: Action) {
    match a
    case Reload(getOk, now) => getOk
    case Save(saveOk) => saveOk
    case PutSave(p, saveOk) => !saveOk
    case _ => true
  }

  /** Loads and saves that succeed, with no config request saved, are clean. */
  lemma {:induction false} UntroubledRunsAreClean(cap: nat, cfg: Config, actions: seq<Action>, n: nat)
    requires n <= |actions| && forall i :: 0 <= i < n ==> NoTrouble(actions[i])
    ensures Reached(cap, Some(cfg), actions, n).clean && Reached(cap, Some(cfg), actions, n).secret.Some?
  {
    if n > 0 {
      UntroubledRunsAreClean(cap, cfg, actions, n - 1);
      assert NoTrouble(actions[n - 1]);
    }
  }

  // ---------------------------------------------------------------- what a cycle does

  predicate HasAddress(t: Target) { t.syslogAddr != "" || t.httpURL != "" || t.hecURL != "" }

  /** A cycle under way has a config that asks for forwarding, and collects audit entries only
      if that asks for them. */
  predicate AskedFor(sched: Scheduler) {
    match sched
    case Loaded(cfg) => cfg.enabled && HasAddress(cfg.target)
    case Collected(cfg, batch, newest) =>
      cfg.enabled && HasAddress(cfg.target) && (batch != [] || newest != 0 ==> cfg.signals.audit)
    case _ => true
  }

  /** Over any run: nothing is forwarded while disabled, to no address, or without the signal. */
  lemma {:induction false} OnlyWhatIsAskedFor(cap: nat, secret: Option<Config>, actions: seq<Action>, n: nat)
    requires n <= |actions|
    ensures AskedFor(Reached(cap, secret, actions, n).sched)
  {
    if n > 0 { OnlyWhatIsAskedFor(cap, secret, actions, n - 1); }
  }

  /** Step `k` sends a batch with the entry in it, and every target takes it. */
  ghost predicate DeliversAt(cap: nat, secret: Option<Config>, actions: seq<Action>, k: int, e: Entry) {
    && 0 <= k < |actions|
    && var s := Reached(cap, secret, actions, k);
    Takes(s, actions[k]) && e in s.sched.batch
  }

  lemma DeliveredAfterStep(s: State, a: Action, e: Entry)
    ensures e in Step(s, a).delivered <==> e in s.delivered || (Takes(s, a) && e in s.sched.batch)
  {
  }

  ghost predicate DeliveredBefore(cap: nat, secret: Option<Config>, actions: seq<Action>, n: nat, e: Entry) {
    exists k :: 0 <= k < n && DeliversAt(cap, secret, actions, k, e)
  }

  lemma DeliveredBeforeNext(cap: nat, secret: Option<Config>, actions: seq<Action>, n: nat, e: Entry)
    ensures DeliveredBefore(cap, secret, actions, n + 1, e) <==>
      DeliveredBefore(cap, secret, actions, n, e) || DeliversAt(cap, secret, actions, n, e)
  {
  }

  /** What is delivered, by the steps of the run. */
  lemma {:induction false} DeliveredIff(cap: nat, secret: Option<Config>, actions: seq<Action>, n: nat, e: Entry)
    requires n <= |actions|
    ensures e in Reached(cap, secret, actions, n).delivered <==> DeliveredBefore(cap, secret, actions, n, e)
  {
    if n > 0 {
      DeliveredIff(cap, secret, actions, n - 1, e);
      DeliveredAfterStep(Reached(cap, secret, actions, n - 1), actions[n - 1], e);
      DeliveredBeforeNext(cap, secret, actions, n - 1, e);
    }
  }

  /** The state of a cycle that nobody interrupts: at rest, with a config that asks for the
      audit log, and new entries that fit a listing. */
  predicate ReadyToForward(s: State) {
    && s.sched == Resting && s.secret.Some? && s.secret.value.enabled && HasAddress(s.secret.value.target)
    && s.secret.value.signals.audit && FewNew(s.log, Cursor(s.secret), s.cap)
  }

  function Cycle(s: State, others: nat, v: Verdict, now: int): State {
    Step(Step(Step(Step(Step(s, Load(true)), Collect), Send(others, v)), Reload(true, now)), Save(true))
  }

  lemma LoadAndCollect(s: State)
    requires ReadyToForward(s)
    ensures
      var batch := Newer(Listing(s.log, s.cap), Cursor(s.secret));
      Step(Step(s, Load(true)), Collect) == s.(sched := Collected(Read(s.secret), batch, Newest(batch)))
  {
    ReadFillsInTheInterval(s.secret);
    assert Step(s, Load(true)) == s.(sched := Loaded(Read(s.secret)));
  }

  lemma SendBatch(s: State, others: nat, v: Verdict)
    requires s.sched.Collected?
    ensures
      var n, target, batch := |s.sched.batch| + others, s.sched.cfg.target, s.sched.batch;
      var result := Ran(n, SentCount(n, target, v), Refusals(n, target, v));
      Step(s, Send(others, v)) ==
        if Accepted(n, target, v) then
          s.(sched := Sent(result, s.sched.newest), delivered := s.delivered + (set e | e in batch),
             forwarded := s.forwarded + Reverse(batch))
        else s.(sched := Sent(result, 0))
  {
  }

  lemma ReloadAndSave(s: State, now: int)
    requires s.sched.Sent? && s.secret.Some?
    ensures Step(Step(s, Reload(true, now)), Save(true))
      == s.(sched := Resting, secret := Some(WithRun(Read(s.secret), now, s.sched.result, s.sched.cursor)))
  {
  }

  /** What such a cycle leaves, with this batch among `n` events. */
  function Afterwards(s: State, batch: seq<Entry>, n: nat, v: Verdict, now: int): State {
    var cfg := Read(s.secret);
    var result := Ran(n, SentCount(n, cfg.target, v), Refusals(n, cfg.target, v));
    if Accepted(n, cfg.target, v) then
      s.(secret := Some(WithRun(cfg, now, result, Newest(batch))), forwarded := s.forwarded + Reverse(batch),
         delivered := s.delivered + (set e | e in batch))
    else s.(secret := Some(WithRun(cfg, now, result, 0)))
  }

  lemma CycleAtOnce(s: State, others: nat, v: Verdict, now: int)
    requires ReadyToForward(s)
    ensures
      var batch := Newer(Listing(s.log, s.cap), Cursor(s.secret));
      Cycle(s, others, v, now) == Afterwards(s, batch, |batch| + others, v, now)
  {
    LoadAndCollect(s);
    var s2 := Step(Step(s, Load(true)), Collect);
    SendBatch(s2, others, v);
    ReloadAndSave(Step(s2, Send(others, v)), now);
  }

  /** `batch` is all of the log after `c`, newest first. */
  ghost predicate IsTheNew(log: seq<Entry>, c: int, batch: seq<Entry>) {
    var k := CountUpTo(log, c);
    && |batch| == |log| - k && Reverse(batch) == log[k..]
    && Newest(batch) == (if k < |log| then LastTime(log) else 0)
    && (k < |log| ==> LastTime(log) > 0)
    && forall e :: e in batch <==> e in log && e.timestamp > c
  }

  /** What a cycle that starts in `s` and ends in `t` promises, with `n` events in its batch. */
  ghost predicate ForwardedTheNew(s: State, n: nat, v: Verdict, now: int, t: State)
    requires s.secret.Some?
  {
    var c, target := Cursor(s.secret), s.secret.value.target;
    var k := CountUpTo(s.log, c);
    && t.sched == Resting && t.log == s.log && t.clients == s.clients && t.secret.Some?
    && t.secret.value == Read(s.secret).(lastRun := now, lastAuditTS := Cursor(t.secret),
        lastResult := Ran(n, SentCount(n, target, v), Refusals(n, target, v)))
    && if Accepted(n, target, v) then
         && t.forwarded == s.forwarded + s.log[k..]
         && (forall e :: e in t.delivered <==> e in s.delivered || (e in s.log && e.timestamp > c))
         && Cursor(t.secret) == if k < |s.log| then LastTime(s.log) else c
       else t.forwarded == s.forwarded && t.delivered == s.delivered && Cursor(t.secret) == c
  }

  lemma AfterwardsKeepsThePromise(s: State, batch: seq<Entry>, n: nat, v: Verdict, now: int)
    requires s.secret.Some? && s.sched == Resting && IsTheNew(s.log, Cursor(s.secret), batch)
    ensures ForwardedTheNew(s, n, v, now, Afterwards(s, batch, n, v, now))
  {
    ReadFillsInTheInterval(s.secret);
  }

  /** Such a cycle delivers exactly the entries after the cursor, oldest first, and stores the
      time of the newest as the cursor, if every target takes the batch; otherwise it delivers
      nothing and leaves the cursor.  Either way it records the run and changes no setting. */
  lemma CycleForwardsTheNewEntries(s: State, others: nat, v: Verdict, now: int)
    requires Increasing(s.log) && ReadyToForward(s)
    ensures
      var n := |s.log| - CountUpTo(s.log, Cursor(s.secret)) + others;
      ForwardedTheNew(s, n, v, now, Cycle(s, others, v, now))
  {
    var batch := Newer(Listing(s.log, s.cap), Cursor(s.secret));
    CycleAtOnce(s, others, v, now);
    BatchIsTheNew(s.log, s.cap, Cursor(s.secret));
    AfterwardsKeepsThePromise(s, batch, |batch| + others, v, now);
  }

  lemma BatchIsTheNew(log: seq<Entry>, cap: nat, c: int)
    requires Increasing(log) && FewNew(log, c, cap)
    ensures IsTheNew(log, c, Newer(Listing(log, cap), c))
  {
    var batch := Newer(Listing(log, cap), c);
    BatchReversed(log, cap, c);
    NewestOfSuffix(log, cap, c);
    if log != [] { LastIsPositive(log); }
    forall e ensures e in batch <==> e in log && e.timestamp > c { CollectedExactly(log, cap, c, e); }
  }

  lemma LastIsPositive(log: seq<Entry>)
    requires Increasing(log) && log != []
    ensures LastTime(log) > 0
  {
  }

  lemma BatchReversed(log: seq<Entry>, cap: nat, c: int)
    requires Increasing(log) && FewNew(log, c, cap)
    ensures
      var batch, k := Newer(Listing(log, cap), c), CountUpTo(log, c);
      |batch| == |log| - k && Reverse(batch) == log[k..]
  {
    CollectsTheNewSuffix(log, cap, c);
    OldestFirst(Newer(Listing(log, cap), c), log);
    SuffixAfter(log, Reverse(Newer(Listing(log, cap), c)));
  }

  lemma SuffixAfter(log: seq<Entry>, rest: seq<Entry>)
    requires |rest| <= |log| && log[..|log| - |rest|] + rest == log
    ensures rest == log[|log| - |rest|..]
  {
    assert (log[..|log| - |rest|] + rest)[|log| - |rest|..] == rest;
  }

  lemma CollectedExactly(log: seq<Entry>, cap: nat, c: int, e: Entry)
    requires Increasing(log) && FewNew(log, c, cap)
    ensures e in Newer(Listing(log, cap), c) <==> e in log && e.timestamp > c
  {
    if e in Newer(Listing(log, cap), c) {
      NewerMembers(Listing(log, cap), c, e);
      BatchIsSound(log, cap, c, e);
    }
    if e in log && e.timestamp > c { CollectsEachNewEntry(log, cap, c, e); }
  }

  /** With nobody in between, the steps of a config request and of the end of a cycle do what
      their handlers do; and whatever fails, the request is over and the next cycle can begin. */
  lemma StepsAreTheHandlers(s: State, p: nat, input: Config, getOk: bool, saveOk: bool, now: int)
    ensures p !in s.clients ==>
      Step(Step(s, PutLoad(p, input, getOk)), PutSave(p, saveOk)).secret ==
        if saveOk then Some(Merge(input, if getOk then Read(s.secret) else DEFAULT_CONFIG)) else s.secret
    ensures s.sched.Sent? ==>
      Step(Step(s, Reload(getOk, now)), Save(saveOk)).secret ==
        if getOk && s.secret.Some? && saveOk
        then Some(WithRun(Read(s.secret), now, s.sched.result, s.sched.cursor)) else s.secret
    ensures p !in s.clients ==> Step(Step(s, PutLoad(p, input, getOk)), PutSave(p, saveOk)).clients == s.clients
    ensures s.sched.Sent? ==> Step(Step(s, Reload(getOk, now)), Save(saveOk)).sched == Resting
  {
    if p !in s.clients {
      var c := Client(input, if getOk then Read(s.secret) else DEFAULT_CONFIG);
      assert s.clients[p := c] - {p} == s.clients;
    }
  }

  // ---------------------------------------------------------------- when the cursor moves back

  /** A save of a config request, or of the scheduler, of an older cursor than the stored. */
  predicate MovesBack(s: State, a: Action) {
    || (a.PutSave? && a.saveOk && a.client in s.clients && s.clients[a.client].cur.lastAuditTS < Cursor(s.secret))
    || (a.Save? && a.saveOk && s.sched.Reloaded? && s.sched.cfg.lastAuditTS < Cursor(s.secret))
  }

  /** The cursor moves back exactly in such a save. */
  lemma MovesBackIff(s: State, a: Action)
    ensures Cursor(Step(s, a).secret) < Cursor(s.secret) <==> MovesBack(s, a)
  {
    if a.PutSave? && a.client in s.clients { MergeKeepsStatus(s.clients[a.client].input, s.clients[a.client].cur); }
  }

  predicate NeverDecreases(cap: nat, secret: Option<Config>, actions: seq<Action>, n: nat)
    requires n <= |actions|
  {
    n == 0 || (NeverDecreases(cap, secret, actions, n - 1) &&
               Cursor(Reached(cap, secret, actions, n - 1).secret) <= Cursor(Reached(cap, secret, actions, n).secret))
  }

  predicate NoStaleSave(cap: nat, secret: Option<Config>, actions: seq<Action>, n: nat)
    requires n <= |actions|
  {
    n == 0 || (NoStaleSave(cap, secret, actions, n - 1)
      && !MovesBack(Reached(cap, secret, actions, n - 1), actions[n - 1]))
  }

  /** Over a run it never decreases exactly when there is no such save. */
  lemma {:induction false} NeverDecreasesIff(cap: nat, secret: Option<Config>, actions: seq<Action>, n: nat)
    requires n <= |actions|
    ensures NeverDecreases(cap, secret, actions, n) <==> NoStaleSave(cap, secret, actions, n)
  {
    if n > 0 {
      NeverDecreasesIff(cap, secret, actions, n - 1);
      MovesBackIff(Reached(cap, secret, actions, n - 1), actions[n - 1]);
    }
  }

  /** A config request that is saved meets the cursor it loaded. */
  predicate RequestIsCurrent(s: State, a: Action) {
    a.PutSave? && a.saveOk && a.client in s.clients ==> s.clients[a.client].cur.lastAuditTS == Cursor(s.secret)
  }

  predicate RequestsAreCurrent(cap: nat, secret: Option<Config>, actions: seq<Action>, n: nat)
    requires n <= |actions|
  {
    n == 0 || (RequestsAreCurrent(cap, secret, actions, n - 1)
      && RequestIsCurrent(Reached(cap, secret, actions, n - 1), actions[n - 1]))
  }

  /** Whatever the scheduler holds is not behind the stored cursor. */
  predicate Ahead(s: State) {
    var c := Cursor(s.secret);
    match s.sched
    case Resting => true
    case Loaded(cfg) => cfg.lastAuditTS == c
    case Collected(cfg, batch, newest) => cfg.lastAuditTS == c && (newest == 0 || newest >= c)
    case Sent(result, cursor) => cursor == 0 || cursor >= c
    case Reloaded(cfg, cursor) => cfg.lastAuditTS >= c
  }

  lemma NewestIsNewer(listing: seq<Entry>, since: int)
    ensures var n := Newest(Newer(listing, since)); n == 0 || n > since
  {
    var batch := Newer(listing, since);
    NewestAttained(batch);
    if Newest(batch) != 0 {
      var i :| 0 <= i < |batch| && batch[i].timestamp == Newest(batch);
      NewerMembers(listing, since, batch[i]);
    }
  }

  lemma StepKeepsAhead(s: State, a: Action)
    requires Ahead(s) && RequestIsCurrent(s, a)
    ensures Ahead(Step(s, a)) && !MovesBack(s, a)
  {
    match a
    case Collect =>
      if s.sched.Loaded? { NewestIsNewer(Listing(s.log, s.cap), s.sched.cfg.lastAuditTS); }
    case PutSave(p, saveOk) =>
      if p in s.clients { MergeKeepsStatus(s.clients[p].input, s.clients[p].cur); }
    case _ =>
  }

  /** So the cursor never decreases if every config request that is saved still meets the
      cursor it loaded: the scheduler alone never moves it back. */
  lemma {:induction false} CurrentRequestsNeverMoveBack(cap: nat, secret: Option<Config>, actions: seq<Action>, n: nat)
    requires n <= |actions| && RequestsAreCurrent(cap, secret, actions, n)
    ensures Ahead(Reached(cap, secret, actions, n)) && NeverDecreases(cap, secret, actions, n)
  {
    if n > 0 {
      CurrentRequestsNeverMoveBack(cap, secret, actions, n - 1);
      StepKeepsAhead(Reached(cap, secret, actions, n - 1), actions[n - 1]);
      MovesBackIff(Reached(cap, secret, actions, n - 1), actions[n - 1]);
    }
  }

  // ---------------------------------------------------------------- two ways back

  lemma {:induction false} ReachedPrefix(cap: nat, secret: Option<Config>, actions: seq<Action>, a: Action, n: nat)
    requires n <= |actions|
    ensures Reached(cap, secret, actions + [a], n) == Reached(cap, secret, actions, n)
  {
    if n > 0 { ReachedPrefix(cap, secret, actions, a, n - 1); }
  }

  lemma ExecuteStep(cap: nat, secret: Option<Config>, actions: seq<Action>, a: Action)
    ensures Execute(cap, secret, actions + [a]) == Step(Execute(cap, secret, actions), a)
  {
    ReachedPrefix(cap, secret, actions, a, |actions|);
  }

  /** A config that forwards the audit log, and has forwarded nothing. */
  predicate Unsent(cfg: Config) {
    cfg.enabled && cfg.signals.audit && !cfg.target.Empty() && cfg.interval != 0 && cfg.lastAuditTS == 0
  }

  /** One entry in the log, an unsent config stored, the scheduler at rest. */
  predicate OneEntry(s: State, cfg: Config, e: Entry) {
    s.log == [e] && e.timestamp > 0 && s.cap == LISTED && s.secret == Some(cfg) && Unsent(cfg) && s.sched == Resting
  }

  lemma CollectsTheOnlyEntry(e: Entry)
    requires e.timestamp > 0
    ensures FewNew([e], 0, LISTED) && Newer(Listing([e], LISTED), 0) == [e] && Newest([e]) == e.timestamp
  {
    CollectsTheNewSuffix([e], LISTED, 0);
    NewestOfSuffix([e], LISTED, 0);
  }

  const ALL_FAIL := Verdict(true, true, true, 0)
  const ALL_TAKE := Verdict(false, false, false, 1)

  /** A cycle that collects the entry, and whose batch is taken or refused. */
  lemma CycleUpToReload(cap: nat, secret: Option<Config>, actions: seq<Action>, cfg: Config, e: Entry, taken: bool)
    returns (more: seq<Action>)
    requires OneEntry(Execute(cap, secret, actions), cfg, e)
    ensures
      var s, t := Execute(cap, secret, actions), Execute(cap, secret, more);
      && t.sched.Reloaded? && t.sched.cfg.lastAuditTS == (if taken then e.timestamp else 0)
      && t.sched.cfg == cfg.(lastRun := 0, lastResult := t.sched.cfg.lastResult, lastAuditTS := t.sched.cfg.lastAuditTS)
      && (t.log, t.cap, t.secret, t.clients) == (s.log, s.cap, s.secret, s.clients)
      && (taken ==> e in t.delivered)
  {
    var s := Execute(cap, secret, actions);
    CollectsTheOnlyEntry(e);
    LoadAndCollect(s);
    ExecuteStep(cap, secret, actions, Load(true));
    more := actions + [Load(true)];
    ExecuteStep(cap, secret, more, Collect);
    more := more + [Collect];
    var s2 := s.(sched := Collected(cfg, [e], e.timestamp));
    assert Execute(cap, secret, more) == s2;
    var verdict := if taken then ALL_TAKE else ALL_FAIL;
    SendBatch(s2, 0, verdict);
    ExecuteStep(cap, secret, more, Send(0, verdict));
    more := more + [Send(0, verdict)];
    ExecuteStep(cap, secret, more, Reload(true, 0));
    more := more + [Reload(true, 0)];
  }

  /** A config request loads before a whole cycle forwards the entry and saves. */
  lemma CycleBehindARequest(cfg: Config, input: Config, e: Entry) returns (actions: seq<Action>)
    requires Unsent(cfg) && e.timestamp > 0
    ensures
      var s := Execute(LISTED, Some(cfg), actions);
      && s.log == [e] && s.cap == LISTED && s.sched == Resting && e in s.delivered
      && s.secret.Some? && Cursor(s.secret) == e.timestamp && s.secret.value.interval != 0
      && s.clients == map[1 := Client(input, cfg)]
  {
    ExecuteStep(LISTED, Some(cfg), [], PutLoad(1, input, true));
    actions := [] + [PutLoad(1, input, true)];
    ExecuteStep(LISTED, Some(cfg), actions, Append(e));
    actions := actions + [Append(e)];
    assert OneEntry(Execute(LISTED, Some(cfg), actions), cfg, e);
    actions := CycleUpToReload(LISTED, Some(cfg), actions, cfg, e, true);
    ExecuteStep(LISTED, Some(cfg), actions, Save(true));
    actions := actions + [Save(true)];
  }

  /** The cursor can move back: the request then saves the cursor it had loaded. */
  lemma CursorCanMoveBack(cfg: Config, input: Config, e: Entry) returns (actions: seq<Action>)
    requires Unsent(cfg) && e.timestamp > 0
    ensures
      var s, t := Execute(LISTED, Some(cfg), actions), Execute(LISTED, Some(cfg), actions + [PutSave(1, true)]);
      Cursor(s.secret) == e.timestamp && Cursor(t.secret) == 0 && t.log == [e] && e in t.delivered
  {
    actions := CycleBehindARequest(cfg, input, e);
    ExecuteStep(LISTED, Some(cfg), actions, PutSave(1, true));
  }

  /** A second request loads in between, the first saves, and a cycle whose batch is refused
      reloads: its own save, after the second request's, will move the cursor back. */
  lemma SchedulerCanMoveBack(cfg: Config, input: Config, e: Entry) returns (actions: seq<Action>)
    requires Unsent(cfg) && e.timestamp > 0 && input.enabled && input.signals.audit && !input.target.Empty()
    ensures
      var s, t := Execute(LISTED, Some(cfg), actions), Execute(LISTED, Some(cfg), actions + [Save(true)]);
      Cursor(s.secret) == e.timestamp && Cursor(t.secret) == 0
  {
    actions := CycleBehindARequest(cfg, input, e);
    var first := Execute(LISTED, Some(cfg), actions).secret.value;
    ExecuteStep(LISTED, Some(cfg), actions, PutLoad(2, input, true));
    actions := actions + [PutLoad(2, input, true)];
    ExecuteStep(LISTED, Some(cfg), actions, PutSave(1, true));
    actions := actions + [PutSave(1, true)];
    assert Execute(LISTED, Some(cfg), actions).clients == map[2 := Client(input, first)];
    var stored := Merge(input, cfg);
    assert Unsent(stored) && OneEntry(Execute(LISTED, Some(cfg), actions), stored, e);
    actions := CycleUpToReload(LISTED, Some(cfg), actions, stored, e, false);
    ExecuteStep(LISTED, Some(cfg), actions, PutSave(2, true));
    actions := actions + [PutSave(2, true)];
    ExecuteStep(LISTED, Some(cfg), actions, Save(true));
  }
}

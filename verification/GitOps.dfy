/** GitOps sources: the stored list, edited under a lock by requests, by single syncs and
    by the scheduler; one reconcile; and the plan's counters. */
module GitOps {
  import opened Common
  import Strip

  const MIN_INTERVAL := 30
  const DEFAULT_INTERVAL := 300

  /** Errors are numbered texts; 0 is no error. */
  datatype Status = Status(lastChecked: int, lastSynced: int, inSync: bool, create: nat, update: nat, errors: nat,
                           lastError: nat)

  datatype Source = Source(id: string, name: string, repo: string, gitRef: string, path: string,
                           interval: int, autoApply: bool, status: Status)

  // ---------------------------------------------------------------- the list, edited

  /** The first position of an id, |srcs| if there is none. */
  function Position(srcs: seq<Source>, id: string): (i: nat)
    ensures i <= |srcs|
    decreases |srcs|
  {
    if srcs == [] || srcs[0].id == id then 0 else 1 + Position(srcs[1..], id)
  }

  lemma {:induction false} PositionIsFirst(srcs: seq<Source>, id: string)
    ensures Position(srcs, id) < |srcs| ==> srcs[Position(srcs, id)].id == id
    ensures forall i :: 0 <= i < Position(srcs, id) ==> srcs[i].id != id
    decreases |srcs|
  {
    if srcs != [] && srcs[0].id != id { PositionIsFirst(srcs[1..], id); }
  }

  function Edited(s: Source, input: Source): Source {
    s.(name := input.name, interval := input.interval, autoApply := input.autoApply)
  }

  /** CreateSource on the list: edits the source of that id, or appends a new one. */
  function WithSource(srcs: seq<Source>, input: Source): seq<Source> {
    var i := Position(srcs, input.id);
    if i < |srcs| then srcs[i := Edited(srcs[i], input)] else srcs + [input]
  }

  /** A create of an id that is there edits the first source of that id: it takes over the name,
      the interval and whether to apply, and nothing else.  No other source changes. */
  lemma CreateEditsInPlace(srcs: seq<Source>, input: Source, k: nat)
    requires k < |srcs| && srcs[k].id == input.id && forall i :: 0 <= i < k ==> srcs[i].id != input.id
    ensures
      var out := WithSource(srcs, input);
      && |out| == |srcs| && (forall i :: 0 <= i < |srcs| && i != k ==> out[i] == srcs[i])
      && (out[k].name, out[k].interval, out[k].autoApply) == (input.name, input.interval, input.autoApply)
      && (out[k].id, out[k].repo) == (srcs[k].id, srcs[k].repo)
      && (out[k].gitRef, out[k].path, out[k].status) == (srcs[k].gitRef, srcs[k].path, srcs[k].status)
  {
    PositionIsFirst(srcs, input.id);
    assert Position(srcs, input.id) == k;
  }

  /** Any other create appends the source as it is. */
  lemma CreateAppends(srcs: seq<Source>, input: Source)
    requires forall i :: 0 <= i < |srcs| ==> srcs[i].id != input.id
    ensures WithSource(srcs, input) == srcs + [input]
  {
    PositionIsFirst(srcs, input.id);
  }

  function Without(srcs: seq<Source>, id: string): seq<Source> {
    if srcs == [] then []
    else
      var front, s := Without(srcs[..|srcs| - 1], id), srcs[|srcs| - 1];
      if s.id != id then front + [s] else front
  }

  /** A delete leaves every other source as it is, behind those before it, and none of the id. */
  lemma {:induction false} OthersStayInOrder(srcs: seq<Source>, id: string, k: nat)
    requires k < |srcs|
    ensures forall s :: s in Without(srcs, id) ==> s.id != id
    ensures
      var n := |Without(srcs[..k], id)|;
      && |Without(srcs[..k + 1], id)| == (if srcs[k].id == id then n else n + 1)
      && (srcs[k].id != id ==> n < |Without(srcs, id)| && Without(srcs, id)[n] == srcs[k])
  {
    var n := |srcs| - 1;
    assert srcs[..k + 1][..k] == srcs[..k];
    if k < n {
      OthersStayInOrder(srcs[..n], id, k);
      assert srcs[..n][..k] == srcs[..k] && srcs[..n][..k + 1] == srcs[..k + 1];
    } else {
      assert srcs[..k + 1] == srcs;
      if n > 0 { OthersStayInOrder(srcs[..n], id, 0); }
    }
  }

  /** persistStatus on the list: replaces the source of that id, if it is still there. */
  function WithStatus(srcs: seq<Source>, s: Source): seq<Source> {
    var i := Position(srcs, s.id);
    if i < |srcs| then srcs[i := s] else srcs
  }

  function Ids(srcs: seq<Source>): (ids: seq<string>)
    ensures |ids| == |srcs| && forall i :: 0 <= i < |srcs| ==> ids[i] == srcs[i].id
  {
    seq(|srcs|, i requires 0 <= i < |srcs| => srcs[i].id)
  }

  lemma SameIds(a: seq<Source>, b: seq<Source>)
    requires |a| == |b| && forall i :: 0 <= i < |a| ==> a[i].id == b[i].id
    ensures Ids(a) == Ids(b)
  {
  }

  // ---------------------------------------------------------------- what creates and deletes mean for the ids

  function AddId(ids: seq<string>, id: string): seq<string> {
    if id in ids then ids else ids + [id]
  }

  function RemoveId(ids: seq<string>, id: string): seq<string> {
    if ids == [] then []
    else
      var front, x := RemoveId(ids[..|ids| - 1], id), ids[|ids| - 1];
      if x != id then front + [x] else front
  }

  lemma WithSourceAddsId(srcs: seq<Source>, input: Source)
    ensures Ids(WithSource(srcs, input)) == AddId(Ids(srcs), input.id)
  {
    var i := Position(srcs, input.id);
    PositionIsFirst(srcs, input.id);
    if i < |srcs| {
      assert Ids(srcs)[i] == input.id;
    } else {
      assert forall k :: 0 <= k < |srcs| ==> Ids(srcs)[k] != input.id;
    }
  }

  lemma {:induction false} WithoutRemovesId(srcs: seq<Source>, id: string)
    ensures Ids(Without(srcs, id)) == RemoveId(Ids(srcs), id)
  {
    if srcs != [] {
      var front := srcs[..|srcs| - 1];
      WithoutRemovesId(front, id);
      assert Ids(srcs)[..|srcs| - 1] == Ids(front);
    }
  }

  lemma WithStatusKeepsIds(srcs: seq<Source>, s: Source)
    ensures Ids(WithStatus(srcs, s)) == Ids(srcs)
  {
    PositionIsFirst(srcs, s.id);
    SameIds(WithStatus(srcs, s), srcs);
  }

  ghost predicate Distinct(ids: seq<string>) {
    forall i, j :: 0 <= i < j < |ids| ==> ids[i] != ids[j]
  }

  lemma {:induction false} RemoveIdKeepsDistinct(ids: seq<string>, id: string)
    requires Distinct(ids)
    ensures Distinct(RemoveId(ids, id))
    ensures forall x :: x in RemoveId(ids, id) <==> x in ids && x != id
  {
    if ids != [] {
      var front := ids[..|ids| - 1];
      var last := ids[|ids| - 1];
      assert ids == front + [last];
      RemoveIdKeepsDistinct(front, id);
      forall x | x in RemoveId(front, id) ensures x != last {
        var k :| 0 <= k < |front| && front[k] == x;
        assert ids[k] == x;
      }
      if last != id {
        var left := RemoveId(front, id);
        assert RemoveId(ids, id) == left + [last];
        forall i, j | 0 <= i < j <= |left| ensures (left + [last])[i] != (left + [last])[j] {
          assert left[i] in left;
        }
      }
    }
  }

  // ---------------------------------------------------------------- the handler, step by step

  function Normalized(input: Source, id: string): Source {
    input.(id := id,
           interval := if input.interval < MIN_INTERVAL then DEFAULT_INTERVAL else input.interval,
           name := if input.name == "" then input.repo else input.name)
  }

  /** What is stored of a request: its own id, an interval of at least 30 seconds, by default five
      minutes, and a name, by default the repository; the rest is as asked. */
  lemma NormalizedIsUsable(input: Source, id: string)
    ensures
      var s := Normalized(input, id);
      && s.id == id && s.interval >= 30 && s.interval == (if input.interval >= 30 then input.interval else 300)
      && s.name == (if input.name != "" then input.name else input.repo) && (input.repo != "" ==> s.name != "")
      && (s.repo, s.gitRef, s.path) == (input.repo, input.gitRef, input.path)
      && s.autoApply == input.autoApply && s.status == input.status
  {
  }

  /** A slice filtered into its own front, as `srcs[:0]` does. */
  method FilterInPlace(srcs: array<Source>, id: string) returns (n: nat)
    modifies srcs
    ensures n <= srcs.Length
    ensures srcs[..n] == Without(old(srcs[..]), id)
  {
    n := 0;
    ghost var was := srcs[..];
    for i := 0 to srcs.Length
      invariant n <= i && srcs[..n] == Without(was[..i], id)
      invariant srcs[i..] == was[i..]
    {
      var s := srcs[i];
      assert s == srcs[i..][0] == was[i];
      assert was[..i + 1][..i] == was[..i];
      assert srcs[i + 1..] == srcs[i..][1..] == was[i + 1..];
      if s.id != id {
        ghost var front := srcs[..n];
        srcs[n] := s;
        n := n + 1;
        assert srcs[..n] == front + [s];
        assert srcs[i + 1..] == was[i + 1..];
      }
    }
    assert was[..srcs.Length] == was;
  }

  /** The search-and-edit loop of CreateSource, and the append when nothing was found. */
  method Replace(srcs: seq<Source>, input: Source) returns (out: seq<Source>, s: Source)
    ensures out == WithSource(srcs, input) && |out| > Position(srcs, input.id)
    ensures s == out[Position(srcs, input.id)] && s.id == input.id
  {
    PositionIsFirst(srcs, input.id);
    for i := 0 to |srcs|
      invariant i <= Position(srcs, input.id)
    {
      if srcs[i].id == input.id {
        s := srcs[i].(name := input.name, interval := input.interval, autoApply := input.autoApply);
        out := srcs[i := s];
        assert out[i] == s;
        return;
      }
    }
    out, s := srcs + [input], input;
    assert out[|srcs|] == s;
  }

  class GitOpsHandler {
    /** The ConfigMap: None when it does not exist. */
    var stored: Option<seq<Source>>
    const idOf: (string, string, string) -> string

    constructor (idOf: (string, string, string) -> string)
      ensures this.idOf == idOf && stored == None
    {
      this.idOf := idOf;
      stored := None;
    }

    function List(): seq<Source>
      reads this
    {
      if stored.Some? then stored.value else []
    }

    /** Under the lock.  Returns the source as stored, or None for an error. */
    method CreateSource(input: Source, loadOk: bool, saveOk: bool) returns (r: Option<Source>)
      modifies this
      ensures
        var s := Normalized(input, idOf(input.repo, input.gitRef, input.path));
        if input.repo != "" && loadOk && saveOk then
          && stored == Some(WithSource(old(List()), s))
          && |stored.value| > Position(old(List()), s.id)
          && r == Some(stored.value[Position(old(List()), s.id)]) && r.value.id == s.id
        else stored == old(stored) && r == None
    {
      if input.repo == "" { return None; }
      var s := input;
      if s.interval < MIN_INTERVAL { s := s.(interval := DEFAULT_INTERVAL); }
      if s.name == "" { s := s.(name := s.repo); }
      s := s.(id := idOf(s.repo, s.gitRef, s.path));
      if !loadOk { return None; }
      var srcs := List();
      srcs, s := Replace(srcs, s);
      if !saveOk { return None; }
      stored := Some(srcs);
      return Some(s);
    }

    method DeleteSource(id: string, loadOk: bool, saveOk: bool) returns (ok: bool)
      modifies this
      ensures ok == (loadOk && saveOk)
      ensures stored ==
        if ok then Some(Without(if old(stored).Some? then old(stored).value else [], id)) else old(stored)
    {
      if !loadOk { return false; }
      var srcs := List();
      var a := new Source[|srcs|](i requires 0 <= i < |srcs| => srcs[i]);
      assert a[..] == srcs;
      var n := FilterInPlace(a, id);
      if !saveOk { return false; }
      stored := Some(a[..n]);
      return true;
    }

    /** The first source of an id, found without the lock. */
    method Find(id: string, loadOk: bool) returns (r: Option<Source>)
      ensures r == if loadOk && Position(List(), id) < |List()| then Some(List()[Position(List(), id)]) else None
    {
      if !loadOk { return None; }
      var srcs := List();
      PositionIsFirst(srcs, id);
      for i := 0 to |srcs|
        invariant i <= Position(srcs, id)
      {
        if srcs[i].id == id { return Some(srcs[i]); }
      }
      return None;
    }

    /** Under the lock. */
    method PersistStatus(s: Source, loadOk: bool, saveOk: bool)
      modifies this
      ensures stored ==
        if loadOk && saveOk && Position(old(List()), s.id) < |old(List())| then Some(WithStatus(old(List()), s))
          else old(stored)
    {
      if !loadOk { return; }
      var srcs := List();
      PositionIsFirst(srcs, s.id);
      for i := 0 to |srcs|
        invariant i <= Position(srcs, s.id) && stored == old(stored)
      {
        if srcs[i].id == s.id {
          if saveOk { stored := Some(srcs[i := s]); }
          return;
        }
      }
    }

    /** A sync with nobody in between: the source is reconciled and its status kept. */
    method SyncSource(id: string, w: World, now: int, later: int, loadOk: bool, persistOk: bool)
      returns (r: Option<Source>)
      modifies this
      ensures r.Some? <==> loadOk && Position(old(List()), id) < |old(List())|
      ensures r.Some? ==> r.value.id == id && Reconciled(old(List())[Position(old(List()), id)], w, now, later, r.value)
      ensures stored == if r.Some? && persistOk then Some(WithStatus(old(List()), r.value)) else old(stored)
      ensures Ids(List()) == Ids(old(List()))
    {
      var found := Find(id, loadOk);
      if found.None? { return None; }
      PositionIsFirst(List(), id);
      var s, _ := Reconcile(found.value, w, now, later);
      WithStatusKeepsIds(List(), s);
      PersistStatus(s, persistOk, persistOk);
      return Some(s);
    }

    /** One tick of the scheduler with nobody in between. */
    method Tick(now: int, worlds: seq<World>, loadOk: bool, saveOk: bool)
      requires |worlds| >= |List()|
      modifies this
      ensures OnlyStatusDiffers(List(), old(List())) && Ids(List()) == Ids(old(List()))
      ensures forall i :: 0 <= i < |List()| ==>
        if loadOk && saveOk && Due(old(List())[i], now) then Reconciled(old(List())[i], worlds[i], now, now, List()[i])
          else List()[i] == old(List())[i]
    {
      if !loadOk { return; }
      var srcs, changed := SchedulerPass(List(), now, worlds);
      SameIds(srcs, List());
      if changed && saveOk { stored := Some(srcs); }
    }
  }

  /** A source is due until it was checked, and again an interval later. */
  predicate Due(s: Source, now: int) {
    s.status.lastChecked == 0 ||
    now - s.status.lastChecked >= if s.interval < MIN_INTERVAL then DEFAULT_INTERVAL else s.interval
  }

  /** A source that was never checked is due, and a checked one again exactly when its interval is
      over; one too short counts as five minutes. */
  lemma DueAgainIff(s: Source, now: int)
    ensures s.status.lastChecked == 0 ==> Due(s, now)
    ensures s.status.lastChecked != 0 ==>
      (Due(s, now) <==> s.status.lastChecked + (if s.interval >= 30 then s.interval else 300) <= now)
  {
  }

  /** Reconciles the due sources of a loaded list; `worlds` says what each reconcile meets. */
  method SchedulerPass(srcs: seq<Source>, now: int, worlds: seq<World>) returns (out: seq<Source>, changed: bool)
    requires |worlds| >= |srcs|
    ensures OnlyStatusDiffers(out, srcs)
    ensures forall i :: 0 <= i < |srcs| ==> if Due(srcs[i], now) then Reconciled(srcs[i], worlds[i], now, now, out[i])
      else out[i] == srcs[i]
    ensures changed <==> exists i :: 0 <= i < |srcs| && Due(srcs[i], now)
  {
    out, changed := srcs, false;
    for i := 0 to |srcs|
      invariant |out| == |srcs| && out[i..] == srcs[i..]
      invariant forall k :: 0 <= k < i ==> out[k] == srcs[k].(status := out[k].status)
      invariant forall k :: 0 <= k < i ==> if Due(srcs[k], now) then Reconciled(srcs[k], worlds[k], now, now, out[k])
        else out[k] == srcs[k]
      invariant changed <==> exists k :: 0 <= k < i && Due(srcs[k], now)
    {
      assert out[i] == out[i..][0] == srcs[i];
      assert out[i + 1..] == out[i..][1..] == srcs[i + 1..];
      if !Due(out[i], now) { continue; }
      var s, _ := Reconcile(out[i], worlds[i], now, now);
      out := out[i := s];
      assert out[i + 1..] == srcs[i + 1..];
      changed := true;
    }
  }

  // ---------------------------------------------------------------- settings

  const NO_STATUS := Status(0, 0, false, 0, 0, 0, 0)

  /** A source without its status: what requests set and a reconcile must not change. */
  function Blank(s: Source): Source { s.(status := NO_STATUS) }

  function Settings(srcs: seq<Source>): (r: seq<Source>)
    ensures |r| == |srcs| && forall i :: 0 <= i < |srcs| ==> r[i] == Blank(srcs[i])
  {
    seq(|srcs|, i requires 0 <= i < |srcs| => Blank(srcs[i]))
  }

  /** The settings of the source of an id. */
  function SettingOf(srcs: seq<Source>, id: string): Option<Source> {
    var i := Position(srcs, id);
    if i < |srcs| then Some(Blank(srcs[i])) else None
  }

  lemma {:induction false} PositionInSettings(srcs: seq<Source>, id: string)
    ensures Position(Settings(srcs), id) == Position(srcs, id)
    decreases |srcs|
  {
    if srcs != [] && srcs[0].id != id {
      PositionInSettings(srcs[1..], id);
      assert Settings(srcs)[1..] == Settings(srcs[1..]);
    }
  }

  lemma SettingsOfWithSource(srcs: seq<Source>, input: Source)
    ensures Settings(WithSource(srcs, input)) == WithSource(Settings(srcs), Blank(input))
  {
    PositionInSettings(srcs, input.id);
  }

  lemma {:induction false} SettingsOfWithout(srcs: seq<Source>, id: string)
    ensures Settings(Without(srcs, id)) == Without(Settings(srcs), id)
  {
    if srcs != [] {
      var n := |srcs| - 1;
      SettingsOfWithout(srcs[..n], id);
      assert Settings(srcs)[..n] == Settings(srcs[..n]);
    }
  }

  /** A persisted source changes no setting exactly when its id is gone or its settings are
      those stored. */
  lemma PersistKeepsSettingsIff(srcs: seq<Source>, s: Source)
    ensures Settings(WithStatus(srcs, s)) == Settings(srcs) <==>
      SettingOf(srcs, s.id) == None || SettingOf(srcs, s.id) == Some(Blank(s))
  {
    var i := Position(srcs, s.id);
    if i < |srcs| {
      assert Settings(WithStatus(srcs, s))[i] == Blank(s) && Settings(srcs)[i] == Blank(srcs[i]);
    }
  }

  lemma OnlyStatusIsSettings(a: seq<Source>, b: seq<Source>)
    ensures OnlyStatusDiffers(a, b) <==> Settings(a) == Settings(b)
  {
    if Settings(a) == Settings(b) {
      assert |a| == |Settings(a)| == |b|;
      forall i | 0 <= i < |a| ensures a[i] == b[i].(status := a[i].status) {
        assert Blank(a[i]) == Settings(a)[i] == Blank(b[i]);
      }
    }
    if OnlyStatusDiffers(a, b) {
      forall i | 0 <= i < |a| ensures Settings(a)[i] == Settings(b)[i] { }
    }
  }

  lemma IdsOfSettings(srcs: seq<Source>)
    ensures Ids(Settings(srcs)) == Ids(srcs)
  {
    SameIds(Settings(srcs), srcs);
  }

  // ---------------------------------------------------------------- interleavings

  datatype Change = Created(input: Source) | Deleted(id: string)

  /** `syncs`: single syncs between load and persist, with their reconciled copy.  `bulk`:
      the scheduler's list between load and save.  `log`: the creates, edits and deletes
      that took effect, in lock order. */
  datatype State = State(stored: seq<Source>, syncs: map<nat, Source>, bulk: Option<seq<Source>>, log: seq<Change>)

  datatype Action =
    | Create(input: Source)
    | Delete(id: string)
    | SyncLoad(w: nat, id: string, status: Status)
    | SyncPersist(w: nat)
    | BulkLoad(reconciled: seq<Source>)
    | BulkSave

  /** Reconciling a list changes status fields only. */
  ghost predicate OnlyStatusDiffers(a: seq<Source>, b: seq<Source>) {
    |a| == |b| && forall i :: 0 <= i < |a| ==> a[i] == b[i].(status := a[i].status)
  }

  /** One lock section, or one unlocked load; an action that is not enabled, or whose load
      or save fails, does nothing. */
  ghost function Step(s: State, a: Action): State {
    match a
    case Create(input) => s.(stored := WithSource(s.stored, input), log := s.log + [Created(input)])
    case Delete(id) => s.(stored := Without(s.stored, id), log := s.log + [Deleted(id)])
    case SyncLoad(w, id, status) =>
      if Loads(s, a) then s.(syncs := s.syncs[w := s.stored[Position(s.stored, id)].(status := status)]) else s
    case SyncPersist(w) =>
      if w !in s.syncs then s else s.(stored := WithStatus(s.stored, s.syncs[w]), syncs := s.syncs - {w})
    case BulkLoad(reconciled) =>
      if Loads(s, a) then s.(bulk := Some(reconciled)) else s
    case BulkSave =>
      if s.bulk.None? then s else s.(stored := s.bulk.value, bulk := None)
  }

  /** Whether a load takes place. */
  ghost predicate Loads(s: State, a: Action) {
    || (a.SyncLoad? && a.w !in s.syncs && Position(s.stored, a.id) < |s.stored|)
    || (a.BulkLoad? && s.bulk.None? && OnlyStatusDiffers(a.reconciled, s.stored))
  }

  const INIT := State([], map[], None, [])

  /** The state after the first `n` actions. */
  ghost function Reached(actions: seq<Action>, n: nat): State
    requires n <= |actions|
  {
    if n == 0 then INIT else Step(Reached(actions, n - 1), actions[n - 1])
  }

  ghost function Execute(actions: seq<Action>): State {
    Reached(actions, |actions|)
  }

  /** The ids that creates and deletes alone leave. */
  function Fold(log: seq<Change>): seq<string> {
    if log == [] then []
    else Applied(Fold(log[..|log| - 1]), log[|log| - 1])
  }

  function Applied(ids: seq<string>, c: Change): seq<string> {
    if c.Created? then AddId(ids, c.input.id) else RemoveId(ids, c.id)
  }

  /** The settings that creates, edits and deletes alone leave. */
  function Requested(log: seq<Change>): seq<Source> {
    if log == [] then []
    else
      var before, c := Requested(log[..|log| - 1]), log[|log| - 1];
      if c.Created? then WithSource(before, Blank(c.input)) else Without(before, c.id)
  }

  lemma LogGrows(log: seq<Change>, c: Change)
    ensures Fold(log + [c]) == Applied(Fold(log), c)
    ensures Requested(log + [c]) == if c.Created? then WithSource(Requested(log), Blank(c.input))
      else Without(Requested(log), c.id)
  {
    assert (log + [c])[..|log|] == log;
  }

  // ---------------------------------------------------------------- ids

  ghost predicate Inv(s: State) {
    Distinct(Ids(s.stored)) && (s.bulk.Some? ==> Distinct(Ids(s.bulk.value)))
  }

  lemma StepKeepsInv(s: State, a: Action)
    requires Inv(s)
    ensures Inv(Step(s, a))
  {
    match a
    case Create(input) =>
      WithSourceAddsId(s.stored, input);
    case Delete(id) =>
      WithoutRemovesId(s.stored, id);
      RemoveIdKeepsDistinct(Ids(s.stored), id);
    case SyncLoad(w, id, status) =>
    case SyncPersist(w) =>
      if w in s.syncs { WithStatusKeepsIds(s.stored, s.syncs[w]); }
    case BulkLoad(reconciled) =>
      if OnlyStatusDiffers(reconciled, s.stored) { SameIds(reconciled, s.stored); }
    case BulkSave =>
  }

  /** Ids stay unique whatever interleaves, the scheduler's saves included. */
  lemma {:induction false} IdsStayUnique(actions: seq<Action>, n: nat)
    requires n <= |actions|
    ensures Inv(Reached(actions, n))
  {
    if n > 0 {
      IdsStayUnique(actions, n - 1);
      StepKeepsInv(Reached(actions, n - 1), actions[n - 1]);
    }
  }

  /** A save of the scheduler's list that brings back no source and drops none: the ids it
      loaded are the ids stored. */
  ghost predicate KeepsIds(s: State, a: Action) {
    a.BulkSave? && s.bulk.Some? ==> Ids(s.bulk.value) == Ids(s.stored)
  }

  ghost predicate IdsFollow(s: State) {
    Ids(s.stored) == Fold(s.log)
  }

  lemma StepFollowsIdsIff(s: State, a: Action)
    requires IdsFollow(s)
    ensures IdsFollow(Step(s, a)) <==> KeepsIds(s, a)
  {
    match a
    case Create(input) =>
      WithSourceAddsId(s.stored, input);
      LogGrows(s.log, Created(input));
    case Delete(id) =>
      WithoutRemovesId(s.stored, id);
      LogGrows(s.log, Deleted(id));
    case SyncPersist(w) =>
      if w in s.syncs { WithStatusKeepsIds(s.stored, s.syncs[w]); }
    case _ =>
  }

  lemma IdsFollowStep(actions: seq<Action>, k: nat)
    requires k < |actions| && IdsFollow(Reached(actions, k))
    ensures IdsFollow(Reached(actions, k + 1)) <==> KeepsIds(Reached(actions, k), actions[k])
  {
    StepFollowsIdsIff(Reached(actions, k), actions[k]);
  }

  /** At each of the first `n` steps, and after each. */
  ghost predicate AllKeepIds(actions: seq<Action>, n: nat)
    requires n <= |actions|
  {
    n == 0 || (AllKeepIds(actions, n - 1) && KeepsIds(Reached(actions, n - 1), actions[n - 1]))
  }

  ghost predicate IdsFollowThroughout(actions: seq<Action>, n: nat)
    requires n <= |actions|
  {
    IdsFollow(Reached(actions, n)) && (n == 0 || IdsFollowThroughout(actions, n - 1))
  }

  /** Throughout any interleaving the stored ids are the fold of the creates and deletes in
      lock order, exactly when each of the scheduler's saves meets the ids it loaded. */
  lemma {:induction false} IdsFollowIff(actions: seq<Action>, n: nat)
    requires n <= |actions|
    ensures IdsFollowThroughout(actions, n) <==> AllKeepIds(actions, n)
  {
    if n > 0 {
      IdsFollowIff(actions, n - 1);
      if IdsFollowThroughout(actions, n - 1) { IdsFollowStep(actions, n - 1); }
    }
  }

  /** So under creates, deletes and single syncs alone: no sync brings a deleted source back
      or drops a new one. */
  lemma {:induction false} SyncsNeverChangeTheIds(actions: seq<Action>, n: nat)
    requires n <= |actions| && forall i :: 0 <= i < |actions| ==> !actions[i].BulkSave?
    ensures Ids(Reached(actions, n).stored) == Fold(Reached(actions, n).log)
  {
    if n > 0 {
      SyncsNeverChangeTheIds(actions, n - 1);
      IdsFollowStep(actions, n - 1);
    }
  }

  // ---------------------------------------------------------------- settings

  /** A write of a reconciled source or list that undoes no request: its settings are those
      stored, or the source is gone. */
  ghost predicate Harmless(s: State, a: Action) {
    && (a.SyncPersist? && a.w in s.syncs ==>
          var r := s.syncs[a.w];
          SettingOf(s.stored, r.id) == None || SettingOf(s.stored, r.id) == Some(Blank(r)))
    && (a.BulkSave? && s.bulk.Some? ==> Settings(s.bulk.value) == Settings(s.stored))
  }

  ghost predicate SettingsFollow(s: State) {
    Settings(s.stored) == Requested(s.log)
  }

  lemma StepFollowsSettingsIff(s: State, a: Action)
    requires SettingsFollow(s)
    ensures SettingsFollow(Step(s, a)) <==> Harmless(s, a)
  {
    match a
    case Create(input) =>
      SettingsOfWithSource(s.stored, input);
      LogGrows(s.log, Created(input));
    case Delete(id) =>
      SettingsOfWithout(s.stored, id);
      LogGrows(s.log, Deleted(id));
    case SyncPersist(w) =>
      if w in s.syncs { PersistKeepsSettingsIff(s.stored, s.syncs[w]); }
    case _ =>
  }

  lemma SettingsFollowStep(actions: seq<Action>, k: nat)
    requires k < |actions| && SettingsFollow(Reached(actions, k))
    ensures SettingsFollow(Reached(actions, k + 1)) <==> Harmless(Reached(actions, k), actions[k])
  {
    StepFollowsSettingsIff(Reached(actions, k), actions[k]);
  }

  ghost predicate AllHarmless(actions: seq<Action>, n: nat)
    requires n <= |actions|
  {
    n == 0 || (AllHarmless(actions, n - 1) && Harmless(Reached(actions, n - 1), actions[n - 1]))
  }

  ghost predicate SettingsFollowThroughout(actions: seq<Action>, n: nat)
    requires n <= |actions|
  {
    SettingsFollow(Reached(actions, n)) && (n == 0 || SettingsFollowThroughout(actions, n - 1))
  }

  /** Throughout any interleaving the stored settings are those that the creates, edits and
      deletes leave in lock order, exactly when every write of a sync and of the scheduler is
      harmless. */
  lemma {:induction false} SettingsFollowIff(actions: seq<Action>, n: nat)
    requires n <= |actions|
    ensures SettingsFollowThroughout(actions, n) <==> AllHarmless(actions, n)
  {
    if n > 0 {
      SettingsFollowIff(actions, n - 1);
      if SettingsFollowThroughout(actions, n - 1) { SettingsFollowStep(actions, n - 1); }
    }
  }

  lemma SettingsDetermine(a: seq<Source>, b: seq<Source>, id: string)
    requires Settings(a) == Settings(b)
    ensures SettingOf(a, id) == SettingOf(b, id)
  {
    PositionInSettings(a, id);
    PositionInSettings(b, id);
    var i := Position(a, id);
    if i < |a| { assert Settings(a)[i] == Settings(b)[i]; }
  }

  lemma {:induction false} PositionIs(srcs: seq<Source>, id: string, i: nat)
    requires i <= |srcs| && (forall k :: 0 <= k < i ==> srcs[k].id != id) && (i < |srcs| ==> srcs[i].id == id)
    ensures Position(srcs, id) == i
    decreases |srcs|
  {
    if i > 0 {
      assert srcs[0].id != id;
      PositionIs(srcs[1..], id, i - 1);
    }
  }

  lemma OtherSourceStays(srcs: seq<Source>, input: Source, id: string)
    requires input.id != id
    ensures SettingOf(WithSource(srcs, input), id) == SettingOf(srcs, id)
  {
    PositionIsFirst(srcs, id);
    PositionIsFirst(srcs, input.id);
    var i, more := Position(srcs, id), WithSource(srcs, input);
    PositionIs(more, id, if i < |srcs| then i else |more|);
  }

  lemma {:induction false} PositionAppend(srcs: seq<Source>, s: Source, id: string)
    ensures Position(srcs + [s], id) == if Position(srcs, id) < |srcs| || s.id == id then Position(srcs, id)
      else |srcs| + 1
  {
    PositionIsFirst(srcs, id);
    var i := Position(srcs, id);
    PositionIs(srcs + [s], id, if i < |srcs| || s.id == id then i else |srcs| + 1);
  }

  lemma SettingAppend(srcs: seq<Source>, s: Source, id: string)
    ensures SettingOf(srcs + [s], id) ==
      if SettingOf(srcs, id).Some? then SettingOf(srcs, id) else if s.id == id then Some(Blank(s)) else None
  {
    PositionAppend(srcs, s, id);
  }

  lemma {:induction false} DeleteKeepsOthers(srcs: seq<Source>, x: string, id: string)
    ensures SettingOf(Without(srcs, x), id) == if x == id then None else SettingOf(srcs, id)
  {
    if srcs != [] {
      var front, s := srcs[..|srcs| - 1], srcs[|srcs| - 1];
      DeleteKeepsOthers(front, x, id);
      assert srcs == front + [s];
      SettingAppend(front, s, id);
      SettingAppend(Without(front, x), s, id);
    }
  }

  predicate Concerns(c: Change, id: string) {
    if c.Created? then c.input.id == id else c.id == id
  }

  lemma RequestedOfOthers(log: seq<Change>, c: Change, id: string)
    requires !Concerns(c, id)
    ensures SettingOf(Requested(log + [c]), id) == SettingOf(Requested(log), id)
  {
    LogGrows(log, c);
    if c.Created? {
      OtherSourceStays(Requested(log), Blank(c.input), id);
    } else {
      DeleteKeepsOthers(Requested(log), c.id, id);
    }
  }

  lemma RequestedOfCreated(log: seq<Change>, x: Source)
    ensures
      var before, after := SettingOf(Requested(log), x.id), SettingOf(Requested(log + [Created(x)]), x.id);
      && after.Some?
      && (after.value.name, after.value.interval, after.value.autoApply) == (x.name, x.interval, x.autoApply)
      && (after.value.repo, after.value.gitRef, after.value.path) ==
        (if before.Some? then (before.value.repo, before.value.gitRef, before.value.path)
         else (x.repo, x.gitRef, x.path))
  {
    LogGrows(log, Created(x));
    var srcs := Requested(log);
    PositionIsFirst(srcs, x.id);
    var i := Position(srcs, x.id);
    if i < |srcs| {
      CreateEditsInPlace(srcs, Blank(x), i);
      PositionIs(WithSource(srcs, Blank(x)), x.id, i);
    } else {
      PositionIs(srcs + [Blank(x)], x.id, i);
    }
  }

  /** What the requests leave of an id: its last create or edit decides the name, the interval
      and whether to apply, unless a delete came later; then, or if there was none, there is no
      source of that id. */
  lemma {:induction false} LastRequestWins(log: seq<Change>, id: string, k: nat)
    requires k < |log| && Concerns(log[k], id) && forall i :: k < i < |log| ==> !Concerns(log[i], id)
    ensures
      var s := SettingOf(Requested(log), id);
      if log[k].Deleted? then s == None
      else
        && s.Some?
        && (s.value.name, s.value.interval, s.value.autoApply)
          == (log[k].input.name, log[k].input.interval, log[k].input.autoApply)
    decreases |log|
  {
    var n := |log| - 1;
    assert log == log[..n] + [log[n]];
    if k < n {
      LastRequestWins(log[..n], id, k);
      RequestedOfOthers(log[..n], log[n], id);
    } else if log[n].Created? {
      RequestedOfCreated(log[..n], log[n].input);
    } else {
      LogGrows(log[..n], log[n]);
      DeleteKeepsOthers(Requested(log[..n]), id, id);
    }
  }

  lemma {:induction false} NeverRequested(log: seq<Change>, id: string)
    requires forall i :: 0 <= i < |log| ==> !Concerns(log[i], id)
    ensures SettingOf(Requested(log), id) == None
  {
    if log != [] {
      var n := |log| - 1;
      assert log == log[..n] + [log[n]];
      NeverRequested(log[..n], id);
      RequestedOfOthers(log[..n], log[n], id);
    }
  }

  /** Only a create or edit of an id, or a harmful write, changes its settings to others. */
  lemma StepLeavesSetting(s: State, a: Action, id: string)
    requires Harmless(s, a) && (a.Create? ==> a.input.id != id)
    ensures SettingOf(Step(s, a).stored, id) == SettingOf(s.stored, id) || SettingOf(Step(s, a).stored, id) == None
  {
    match a
    case Create(input) => OtherSourceStays(s.stored, input, id);
    case Delete(x) => DeleteKeepsOthers(s.stored, x, id);
    case SyncPersist(w) =>
      if w in s.syncs {
        PersistKeepsSettingsIff(s.stored, s.syncs[w]);
        SettingsDetermine(Step(s, a).stored, s.stored, id);
      }
    case BulkSave =>
      if s.bulk.Some? { SettingsDetermine(Step(s, a).stored, s.stored, id); }
    case _ =>
  }

  /** The copy a sync holds is of this source, and undoes nothing if it is persisted now. */
  ghost predicate Current(s: State, w: nat, id: string) {
    w in s.syncs && s.syncs[w].id == id && Harmless(s, SyncPersist(w))
  }

  lemma LoadIsCurrent(s: State, a: Action)
    requires a.SyncLoad? && Loads(s, a)
    ensures Current(Step(s, a), a.w, a.id)
  {
    PositionIsFirst(s.stored, a.id);
  }

  lemma StepKeepsCurrent(s: State, a: Action, w: nat, id: string)
    requires Current(s, w, id) && Harmless(s, a)
    requires a != SyncPersist(w) && (a.Create? ==> a.input.id != id)
    ensures Current(Step(s, a), w, id)
  {
    StepLeavesSetting(s, a, id);
  }

  /** A sync that loads at step `i` undoes nothing up to step `n` if until then its source is
      not edited, nor deleted and created again, and no other write is harmful. */
  lemma {:induction false} QuietSyncIsHarmless(actions: seq<Action>, i: nat, n: nat)
    requires i < n <= |actions| && actions[i].SyncLoad? && Loads(Reached(actions, i), actions[i])
    requires forall j :: i < j < n ==>
      Harmless(Reached(actions, j), actions[j]) && actions[j] != SyncPersist(actions[i].w)
      && (actions[j].Create? ==> actions[j].input.id != actions[i].id)
    ensures Current(Reached(actions, n), actions[i].w, actions[i].id)
    decreases n
  {
    var s, a := Reached(actions, n - 1), actions[n - 1];
    if n == i + 1 {
      LoadIsCurrent(s, a);
    } else {
      QuietSyncIsHarmless(actions, i, n - 1);
      StepKeepsCurrent(s, a, actions[i].w, actions[i].id);
    }
  }

  /** The scheduler's list is the one it loaded, and undoes nothing if it is saved now. */
  ghost predicate BulkCurrent(s: State, bulk: seq<Source>) {
    s.bulk == Some(bulk) && Settings(bulk) == Settings(s.stored)
  }

  lemma BulkLoadIsCurrent(s: State, a: Action)
    requires a.BulkLoad? && Loads(s, a)
    ensures BulkCurrent(Step(s, a), a.reconciled)
  {
    OnlyStatusIsSettings(a.reconciled, s.stored);
  }

  lemma StepKeepsBulkCurrent(s: State, a: Action, bulk: seq<Source>)
    requires BulkCurrent(s, bulk) && Harmless(s, a) && !a.Create? && !a.Delete? && !a.BulkSave?
    ensures BulkCurrent(Step(s, a), bulk)
  {
    if a.SyncPersist? && a.w in s.syncs { PersistKeepsSettingsIff(s.stored, s.syncs[a.w]); }
  }

  lemma BulkCurrentIsHarmless(s: State, bulk: seq<Source>)
    requires BulkCurrent(s, bulk)
    ensures Harmless(s, BulkSave) && KeepsIds(s, BulkSave)
  {
    IdsOfSettings(bulk);
    IdsOfSettings(s.stored);
  }

  /** The scheduler's list undoes nothing, and changes no id, as long as nobody creates, edits
      or deletes a source after its load, and no other write is harmful. */
  lemma {:induction false} QuietSchedulerIsHarmless(actions: seq<Action>, i: nat, n: nat)
    requires i < n <= |actions| && actions[i].BulkLoad? && Loads(Reached(actions, i), actions[i])
    requires forall j :: i < j < n ==>
      Harmless(Reached(actions, j), actions[j]) && !actions[j].Create? && !actions[j].Delete? && !actions[j].BulkSave?
    ensures BulkCurrent(Reached(actions, n), actions[i].reconciled)
    ensures Harmless(Reached(actions, n), BulkSave) && KeepsIds(Reached(actions, n), BulkSave)
    decreases n
  {
    var s, a := Reached(actions, n - 1), actions[n - 1];
    if n == i + 1 {
      BulkLoadIsCurrent(s, a);
    } else {
      QuietSchedulerIsHarmless(actions, i, n - 1);
      StepKeepsBulkCurrent(s, a, actions[i].reconciled);
    }
    BulkCurrentIsHarmless(Reached(actions, n), actions[i].reconciled);
  }

  // ---------------------------------------------------------------- right by the timing of requests

  /** Step `i` is the load of the copy that sync `w` holds before step `n`. */
  ghost predicate SyncLoadedAt(actions: seq<Action>, w: nat, i: nat, n: nat) {
    && i < n <= |actions| && actions[i].SyncLoad? && actions[i].w == w && Loads(Reached(actions, i), actions[i])
    && forall j :: i < j < n ==> actions[j] != SyncPersist(w)
  }

  /** Step `i` is the load of the list that the scheduler holds before step `n`. */
  ghost predicate BulkLoadedAt(actions: seq<Action>, i: nat, n: nat) {
    && i < n <= |actions| && actions[i].BulkLoad? && Loads(Reached(actions, i), actions[i])
    && forall j :: i < j < n ==> !actions[j].BulkSave?
  }

  lemma {:induction false} PendingSyncLoaded(actions: seq<Action>, w: nat, n: nat) returns (i: nat)
    requires n <= |actions| && w in Reached(actions, n).syncs
    ensures SyncLoadedAt(actions, w, i, n)
  {
    var s, a := Reached(actions, n - 1), actions[n - 1];
    if a.SyncLoad? && a.w == w && Loads(s, a) {
      i := n - 1;
    } else {
      i := PendingSyncLoaded(actions, w, n - 1);
    }
  }

  lemma {:induction false} PendingBulkLoaded(actions: seq<Action>, n: nat) returns (i: nat)
    requires n <= |actions| && Reached(actions, n).bulk.Some?
    ensures BulkLoadedAt(actions, i, n)
  {
    var s, a := Reached(actions, n - 1), actions[n - 1];
    if a.BulkLoad? && Loads(s, a) {
      i := n - 1;
    } else {
      i := PendingBulkLoaded(actions, n - 1);
    }
  }

  /** Nobody creates or edits a sync's source between its load and its persist. */
  ghost predicate SyncsUndisturbed(actions: seq<Action>) {
    forall i: nat, k: nat, j ::
      k < |actions| && actions[k].SyncPersist? && SyncLoadedAt(actions, actions[k].w, i, k) && i < j < k ==>
      (actions[j].Create? ==> actions[j].input.id != actions[i].id)
  }

  /** Nobody creates, edits or deletes a source between the scheduler's load and its save. */
  ghost predicate SchedulerUndisturbed(actions: seq<Action>) {
    forall i: nat, k: nat, j :: k < |actions| && actions[k].BulkSave? && BulkLoadedAt(actions, i, k) && i < j < k ==>
      !actions[j].Create? && !actions[j].Delete?
  }

  lemma {:induction false} HarmlessAt(actions: seq<Action>, n: nat, j: nat)
    requires j < n <= |actions| && AllHarmless(actions, n)
    ensures Harmless(Reached(actions, j), actions[j])
  {
    if j < n - 1 { HarmlessAt(actions, n - 1, j); }
  }

  lemma NextIsRight(actions: seq<Action>, k: nat)
    requires k < |actions| && AllHarmless(actions, k) && SyncsUndisturbed(actions) && SchedulerUndisturbed(actions)
    ensures Harmless(Reached(actions, k), actions[k]) && KeepsIds(Reached(actions, k), actions[k])
  {
    var s, a := Reached(actions, k), actions[k];
    if a.SyncPersist? && a.w in s.syncs {
      var i := PendingSyncLoaded(actions, a.w, k);
      forall j | i < j < k ensures Harmless(Reached(actions, j), actions[j]) { HarmlessAt(actions, k, j); }
      QuietSyncIsHarmless(actions, i, k);
    } else if a.BulkSave? && s.bulk.Some? {
      var i := PendingBulkLoaded(actions, k);
      forall j | i < j < k ensures Harmless(Reached(actions, j), actions[j]) { HarmlessAt(actions, k, j); }
      QuietSchedulerIsHarmless(actions, i, k);
    }
  }

  /** So no write of any sync or of the scheduler undoes a request, and no id is lost or
      brought back, in any run in which requests stay out of the way: none for a source under
      sync, and none at all while the scheduler is between its load and its save. */
  lemma {:induction false} UndisturbedRunsAreRight(actions: seq<Action>, n: nat)
    requires n <= |actions| && SyncsUndisturbed(actions) && SchedulerUndisturbed(actions)
    ensures AllHarmless(actions, n) && AllKeepIds(actions, n)
    ensures SettingsFollowThroughout(actions, n) && IdsFollowThroughout(actions, n)
  {
    if n > 0 {
      UndisturbedRunsAreRight(actions, n - 1);
      NextIsRight(actions, n - 1);
    }
    SettingsFollowIff(actions, n);
    IdsFollowIff(actions, n);
  }

  // ---------------------------------------------------------------- runs that go wrong

  lemma ExecuteFour(a: Action, b: Action, c: Action, d: Action)
    ensures Execute([a, b, c, d]) == Step(Step(Step(Step(INIT, a), b), c), d)
  {
    var actions := [a, b, c, d];
    assert Reached(actions, 1) == Step(INIT, a);
    assert Reached(actions, 2) == Step(Reached(actions, 1), b);
    assert Reached(actions, 3) == Step(Reached(actions, 2), c);
  }

  lemma FirstCreate(s: Source)
    ensures Step(INIT, Create(s)) == State([s], map[], None, [Created(s)])
  {
    assert WithSource([], s) == [s];
  }

  lemma CreatedThenDeleted(s: Source)
    ensures Fold([Created(s), Deleted(s.id)]) == []
  {
    LogGrows([], Created(s));
    assert [] + [Created(s)] == [Created(s)];
    assert Fold([Created(s)]) == [s.id];
    LogGrows([Created(s)], Deleted(s.id));
    assert [Created(s)] + [Deleted(s.id)] == [Created(s), Deleted(s.id)];
    assert [s.id][..0] == [] && RemoveId([s.id], s.id) == RemoveId([], s.id);
  }

  /** The scheduler's save brings a deleted source back. */
  lemma SchedulerCanResurrect(s: Source)
    ensures
      var t := Execute([Create(s), BulkLoad([s]), Delete(s.id), BulkSave]);
      t.stored == [s] && Fold(t.log) == []
  {
    ExecuteFour(Create(s), BulkLoad([s]), Delete(s.id), BulkSave);
    FirstCreate(s);
    CreatedThenDeleted(s);
    var t := Step(INIT, Create(s));
    var u := Step(t, BulkLoad([s]));
    assert u == t.(bulk := Some([s]));
    var v := Step(u, Delete(s.id));
    assert v.bulk == Some([s]) && v.log == [Created(s)] + [Deleted(s.id)];
    assert v.log == [Created(s), Deleted(s.id)];
  }

  /** A sync writes back the whole source it loaded: an edit made in between is undone. */
  lemma SyncCanUndoAnEdit(s: Source, edit: Source, status: Status)
    requires edit.id == s.id
    ensures Execute([Create(s), SyncLoad(0, s.id, status), Create(edit), SyncPersist(0)]).stored
      == [s.(status := status)]
  {
    ExecuteFour(Create(s), SyncLoad(0, s.id, status), Create(edit), SyncPersist(0));
    FirstCreate(s);
    var t := Step(INIT, Create(s));
    var u := Step(t, SyncLoad(0, s.id, status));
    assert Position([s], s.id) == 0;
    assert u == t.(syncs := map[0 := s.(status := status)]);
    var v := Step(u, Create(edit));
    assert v.stored == [Edited(s, edit)] && v.syncs == u.syncs;
    assert Position(v.stored, s.id) == 0;
  }

  /** So is one made between the scheduler's load and its save, although no id changes. */
  lemma SchedulerCanUndoAnEdit(s: Source, edit: Source)
    requires edit.id == s.id
    ensures Execute([Create(s), BulkLoad([s]), Create(edit), BulkSave]).stored == [s]
  {
    ExecuteFour(Create(s), BulkLoad([s]), Create(edit), BulkSave);
    FirstCreate(s);
    var t := Step(INIT, Create(s));
    var u := Step(t, BulkLoad([s]));
    assert u == t.(bulk := Some([s]));
    assert Step(u, Create(edit)).bulk == Some([s]);
  }

  /** A persisted status touches no other source. */
  lemma PersistTouchesOnlyItsSource(srcs: seq<Source>, s: Source, i: nat)
    requires i < |srcs| && srcs[i].id != s.id
    ensures WithStatus(srcs, s)[i] == srcs[i]
  {
    PositionIsFirst(srcs, s.id);
  }

  // ---------------------------------------------------------------- one reconcile

  datatype Verdict = CreateIt | UpdateIt | Unchanged | Failed

  datatype PlanItem = PlanItem(kind: string, name: string, ns: string, verdict: Verdict)

  /** A document of a manifest, and what planning it meets: `exact` and `byKind` are the two
      ways of resolving its kind, `live` the object read, `dryRun` the object a dry run of a
      server-side apply would leave; None for an error. */
  datatype Doc = Doc(decodes: bool, kind: string, name: string, ns: string, exact: Option<bool>, byKind: Option<bool>,
                     live: Option<Strip.Fields>, dryRun: Option<Strip.Fields>)

  datatype Plan = Plan(items: seq<PlanItem>, create: nat, update: nat, same: nat, errors: nat, inSync: bool)

  /** An empty document or a separator gives no item. */
  function ItemOf(d: Doc): Option<PlanItem> {
    if !d.decodes then Some(PlanItem("", "", "", Failed))
    else if d.kind == "" || d.name == "" then None
    else Some(PlanItem(d.kind, d.name, d.ns,
      if d.exact.None? && d.byKind.None? then Failed
      else if d.live.None? then CreateIt
      else if d.dryRun.None? then Failed
      else if Strip.ForDiff(d.dryRun.value) != Strip.ForDiff(d.live.value) then UpdateIt
      else Unchanged))
  }

  function Items(docs: seq<Doc>): seq<PlanItem> {
    if docs == [] then []
    else
      var front, item := Items(docs[..|docs| - 1]), ItemOf(docs[|docs| - 1]);
      if item.Some? then front + [item.value] else front
  }

  /** The item of each document in its place, behind those of the documents before it. */
  lemma {:induction false} ItemInOrder(docs: seq<Doc>, k: nat)
    requires k < |docs|
    ensures
      var n := |Items(docs[..k])|;
      && |Items(docs[..k + 1])| == (if ItemOf(docs[k]).Some? then n + 1 else n)
      && (ItemOf(docs[k]).Some? ==> n < |Items(docs)| && Items(docs)[n] == ItemOf(docs[k]).value)
    decreases |docs|
  {
    var n := |docs| - 1;
    assert docs[..k + 1][..k] == docs[..k];
    if k < n {
      ItemInOrder(docs[..n], k);
      assert docs[..n][..k] == docs[..k] && docs[..n][..k + 1] == docs[..k + 1];
    } else {
      assert docs[..k + 1] == docs;
    }
  }

  /** A dry run would change what the plan looks at: the snapshot, or the revision. */
  ghost predicate WouldChange(d: Doc) {
    && d.live.Some? && d.dryRun.Some?
    && !(Strip.Stripped(d.dryRun.value) == Strip.Stripped(d.live.value)
         && Strip.RevisionOf(d.dryRun.value) == Strip.RevisionOf(d.live.value))
  }

  /** What a plan says of a document that names an object: to be created if the object is not
      there, to be updated if a dry run would change it, unchanged if not, and an error if the
      kind does not resolve or the dry run fails. */
  lemma VerdictIff(d: Doc)
    requires d.decodes && d.kind != "" && d.name != ""
    ensures ItemOf(d).Some?
    ensures
      var item, known := ItemOf(d).value, d.exact.Some? || d.byKind.Some?;
      && (item.kind, item.name, item.ns) == (d.kind, d.name, d.ns)
      && (item.verdict == CreateIt <==> known && d.live.None?)
      && (item.verdict == UpdateIt <==> known && WouldChange(d))
      && (item.verdict == Unchanged <==> known && d.live.Some? && d.dryRun.Some? && !WouldChange(d))
      && (item.verdict == Failed <==> !known || (d.live.Some? && d.dryRun.None?))
  {
    if d.live.Some? && d.dryRun.Some? { Strip.PlanEqualSnapshotsAgree(d.dryRun.value, d.live.value); }
  }

  /** A document that cannot be decoded is an error without a name, and one that names no object
      gives no item. */
  lemma NamelessDocuments(d: Doc)
    ensures !d.decodes ==> ItemOf(d) == Some(PlanItem("", "", "", Failed))
    ensures d.decodes && (d.kind == "" || d.name == "") ==> ItemOf(d) == None
  {
  }

  function Count(items: seq<PlanItem>, v: Verdict): nat {
    if items == [] then 0 else Count(items[..|items| - 1], v) + if items[|items| - 1].verdict == v then 1 else 0
  }

  lemma CountAppend(items: seq<PlanItem>, item: PlanItem)
    ensures forall w :: Count(items + [item], w) == Count(items, w) + if item.verdict == w then 1 else 0
  {
    assert (items + [item])[..|items|] == items;
  }

  function PositionsOf(items: seq<PlanItem>, v: Verdict): set<nat> {
    set i: nat | i < |items| && items[i].verdict == v
  }

  /** A count is the number of items with that verdict. */
  lemma {:induction false} CountIsNumber(items: seq<PlanItem>, v: Verdict)
    ensures Count(items, v) == |PositionsOf(items, v)|
  {
    if items != [] {
      var n := |items| - 1;
      CountIsNumber(items[..n], v);
      var front := PositionsOf(items[..n], v);
      assert PositionsOf(items, v) == if items[n].verdict == v then front + {n} else front;
    }
  }

  /** The four counters tally the items. */
  ghost predicate Tallied(p: Plan) {
    && p.create == Count(p.items, CreateIt) && p.update == Count(p.items, UpdateIt)
    && p.same == Count(p.items, Unchanged) && p.errors == Count(p.items, Failed)
  }

  lemma {:induction false} CountsAddUp(items: seq<PlanItem>)
    ensures Count(items, CreateIt) + Count(items, UpdateIt) + Count(items, Unchanged) + Count(items, Failed) == |items|
    ensures Count(items, Unchanged) == |items| <==> forall i :: 0 <= i < |items| ==> items[i].verdict == Unchanged
    ensures Count(items, Unchanged) <= |items|
  {
    if items != [] {
      var front, v := items[..|items| - 1], items[|items| - 1];
      CountsAddUp(front);
      assert items == front + [v];
      if v.verdict == Unchanged {
        assert forall i :: 0 <= i < |front| ==> items[i] == front[i];
      }
    }
  }

  lemma {:induction false} ItemsAreOfDocs(docs: seq<Doc>)
    ensures forall d :: d in docs && ItemOf(d).Some? ==> ItemOf(d).value in Items(docs)
    ensures forall item :: item in Items(docs) ==> exists d :: d in docs && ItemOf(d) == Some(item)
  {
    if docs != [] {
      var front := docs[..|docs| - 1];
      ItemsAreOfDocs(front);
      assert docs == front + [docs[|docs| - 1]];
    }
  }

  /** One document of the loop: its item, and which counter goes up. */
  method PlanDocument(d: Doc, p: Plan) returns (q: Plan)
    requires Tallied(p)
    ensures q.items == (if ItemOf(d).Some? then p.items + [ItemOf(d).value] else p.items) && Tallied(q)
  {
    if !d.decodes { return Bump(p, PlanItem("", "", "", Failed)); }
    if d.kind == "" || d.name == "" { return p; }
    var verdict := Unchanged;
    if d.exact.None? && d.byKind.None? {
      verdict := Failed;
    } else if d.live.None? {
      verdict := CreateIt;
    } else if d.dryRun.None? {
      verdict := Failed;
    } else if Strip.ForDiff(d.dryRun.value) != Strip.ForDiff(d.live.value) {
      verdict := UpdateIt;
    }
    return Bump(p, PlanItem(d.kind, d.name, d.ns, verdict));
  }

  function Bump(p: Plan, item: PlanItem): (q: Plan)
    ensures q.items == p.items + [item]
    ensures Tallied(p) ==> Tallied(q)
  {
    CountAppend(p.items, item);
    var q := p.(items := p.items + [item]);
    match item.verdict
    case CreateIt => q.(create := p.create + 1)
    case UpdateIt => q.(update := p.update + 1)
    case Unchanged => q.(same := p.same + 1)
    case Failed => q.(errors := p.errors + 1)
  }

  /** None when the manifest cannot be split. */
  method PlanManifest(docs: seq<Doc>, splits: bool) returns (plan: Option<Plan>)
    ensures plan.Some? <==> splits
    ensures splits ==>
      var p := plan.value;
      && p.items == Items(docs) && Tallied(p)
      && p.create + p.update + p.same + p.errors == |p.items|
      && (p.inSync <==> forall i :: 0 <= i < |p.items| ==> p.items[i].verdict == Unchanged)
  {
    if !splits { return None; }
    var p := Plan([], 0, 0, 0, 0, false);
    for i := 0 to |docs|
      invariant p.items == Items(docs[..i]) && Tallied(p)
    {
      assert docs[..i + 1][..i] == docs[..i];
      p := PlanDocument(docs[i], p);
    }
    assert docs[..|docs|] == docs;
    CountsAddUp(p.items);
    p := p.(inSync := p.create == 0 && p.update == 0 && p.errors == 0);
    return Some(p);
  }

  /** A plan in sync: every document that names an object resolves, is there, and a dry run
      would change nothing that the plan or a snapshot looks at. */
  lemma InSyncIff(docs: seq<Doc>)
    ensures
      (forall i :: 0 <= i < |Items(docs)| ==> Items(docs)[i].verdict == Unchanged) <==>
      forall d :: d in docs ==> d.decodes && (d.kind != "" && d.name != "" ==>
        && (d.exact.Some? || d.byKind.Some?) && d.live.Some? && d.dryRun.Some?
        && Strip.Stripped(d.dryRun.value) == Strip.Stripped(d.live.value)
        && Strip.RevisionOf(d.dryRun.value) == Strip.RevisionOf(d.live.value))
  {
    ItemsAreOfDocs(docs);
    forall d | d in docs && d.dryRun.Some? && d.live.Some?
      ensures Strip.ForDiff(d.dryRun.value) == Strip.ForDiff(d.live.value) <==>
        Strip.Stripped(d.dryRun.value) == Strip.Stripped(d.live.value)
          && Strip.RevisionOf(d.dryRun.value) == Strip.RevisionOf(d.live.value)
    {
      Strip.PlanEqualSnapshotsAgree(d.dryRun.value, d.live.value);
    }
    if forall i :: 0 <= i < |Items(docs)| ==> Items(docs)[i].verdict == Unchanged {
      forall d | d in docs ensures ItemOf(d).Some? ==> ItemOf(d).value.verdict == Unchanged {
        if ItemOf(d).Some? { assert ItemOf(d).value in Items(docs); }
      }
    } else {
      var i :| 0 <= i < |Items(docs)| && Items(docs)[i].verdict != Unchanged;
      assert Items(docs)[i] in Items(docs);
      var d :| d in docs && ItemOf(d) == Some(Items(docs)[i]);
    }
  }

  /** What fetching, planning, applying and planning again come to; an error is its text's
      number, never 0. */
  datatype World = World(fetchError: nat, planError: nat, plan: Plan, applyError: nat, planAgainError: nat,
                         planAgain: Plan)

  /** Whether a reconcile applies the manifests: both are there, and differ without an error. */
  predicate Applies(s: Source, w: World) {
    w.fetchError == 0 && w.planError == 0 && s.autoApply && !w.plan.inSync && w.plan.errors == 0
  }

  /** `r` is `s` reconciled: only the status differs, and it is that of the last plan made, with
      the error that ended it. */
  ghost predicate Reconciled(s: Source, w: World, now: int, later: int, r: Source) {
    var last := if Applies(s, w) && w.applyError == 0 && w.planAgainError == 0 then w.planAgain else w.plan;
    && r == s.(status := r.status) && r.status.lastChecked == now
    && r.status.lastSynced == (if Applies(s, w) && w.applyError == 0 then later else s.status.lastSynced)
    && (if w.fetchError != 0 || w.planError != 0 then
          && r.status.lastError == (if w.fetchError != 0 then w.fetchError else w.planError) && !r.status.inSync
          && (r.status.create, r.status.update, r.status.errors)
            == (s.status.create, s.status.update, s.status.errors)
        else
          && r.status.lastError == (if Applies(s, w) then w.applyError else 0)
          && (r.status.create, r.status.update, r.status.errors, r.status.inSync)
            == (last.create, last.update, last.errors, last.inSync))
  }

  method Reconcile(s: Source, w: World, now: int, later: int) returns (r: Source, applied: bool)
    ensures Reconciled(s, w, now, later, r)
    ensures applied <==> w.fetchError == 0 && w.planError == 0 && s.autoApply && !w.plan.inSync && w.plan.errors == 0
    ensures applied <==> Applies(s, w)
    ensures r.status.inSync ==> r.status.lastError == 0
  {
    applied := false;
    var t := s.status.(lastChecked := now, lastError := 0);
    if w.fetchError != 0 { return s.(status := t.(lastError := w.fetchError, inSync := false)), false; }
    if w.planError != 0 { return s.(status := t.(lastError := w.planError, inSync := false)), false; }
    t := t.(create := w.plan.create, update := w.plan.update, errors := w.plan.errors, inSync := w.plan.inSync);
    if s.autoApply && !w.plan.inSync && w.plan.errors == 0 {
      applied := true;
      if w.applyError != 0 { return s.(status := t.(lastError := w.applyError)), true; }
      if w.planAgainError == 0 {
        var p := w.planAgain;
        t := t.(create := p.create, update := p.update, errors := p.errors, inSync := p.inSync);
      }
      t := t.(lastSynced := later);
    }
    r := s.(status := t);
  }
}

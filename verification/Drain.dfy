/** Draining a node: classify its pods, evict the rest in passes until none is left or
    the deadline is reached. */
module Drain {
  import opened Text

  const WAIT_MS := 5000
  const DEFAULT_TIMEOUT_MS := 120000

  datatype Phase = Pending | Running | Succeeded | Failed | Unknown

  datatype Pod = Pod(ns: string, name: string, phase: Phase, deleting: bool, mirror: bool, ownerKinds: seq<string>)

  /** The reasons a report gives, one constructor per text. */
  datatype Reason =
    | NoReason
    | AlreadySucceeded
    | AlreadyFailed
    | Terminating
    | MirrorPod
    | DaemonSetManaged
    | BlockedAtDeadline

  datatype DrainPod = DrainPod(ns: string, name: string, reason: Reason, pdb: string)

  datatype Report = Report(evictable: seq<DrainPod>, skipped: seq<DrainPod>, evicted: seq<DrainPod>,
                           blocked: seq<DrainPod>, timedOut: bool)

  datatype Outcome = CordonFailed | ListFailed | Cancelled(report: Report) | Finished(report: Report)

  datatype Verdict = Accepted | NotFound | TooManyRequests | OtherError

  datatype Call = Call(ns: string, name: string, grace: int, verdict: Verdict)

  // ---------------------------------------------------------------- classification

  /** Why a pod is exempt from eviction, if it is. */
  function Exemption(p: Pod): Reason {
    if p.phase.Succeeded? then AlreadySucceeded
    else if p.phase.Failed? then AlreadyFailed
    else if p.deleting then Terminating
    else if p.mirror then MirrorPod
    else if "DaemonSet" in p.ownerKinds then DaemonSetManaged
    else NoReason
  }

  predicate Exempt(p: Pod) { Exemption(p) != NoReason }

  /** Exempt is exactly: finished, being deleted, static, or owned by a DaemonSet. */
  lemma ExemptExactly(p: Pod)
    ensures Exempt(p) <==>
      p.phase == Succeeded || p.phase == Failed || p.deleting || p.mirror ||
      exists i :: 0 <= i < |p.ownerKinds| && p.ownerKinds[i] == "DaemonSet"
  {
  }

  /** The reason given is the first that applies: the phase, then the deletion, then the two
      kinds of owner. */
  lemma ReasonIsRight(p: Pod)
    ensures Exemption(p) == AlreadySucceeded <==> p.phase == Succeeded
    ensures Exemption(p) == AlreadyFailed <==> p.phase == Failed
    ensures Exemption(p) == Terminating <==> p.deleting && p.phase != Succeeded && p.phase != Failed
    ensures Exemption(p) == MirrorPod <==> p.mirror && !p.deleting && p.phase != Succeeded && p.phase != Failed
    ensures Exemption(p) == DaemonSetManaged ==> "DaemonSet" in p.ownerKinds
    ensures Exemption(p) != BlockedAtDeadline
  {
  }

  function Kept(pods: seq<Pod>): seq<Pod> {
    if pods == [] then []
    else if Exempt(pods[|pods| - 1]) then Kept(pods[..|pods| - 1])
    else Kept(pods[..|pods| - 1]) + [pods[|pods| - 1]]
  }

  function Skipped(pods: seq<Pod>): seq<DrainPod> {
    if pods == [] then []
    else
      var front, p := Skipped(pods[..|pods| - 1]), pods[|pods| - 1];
      if Exempt(p) then front + [DrainPod(p.ns, p.name, Exemption(p), "")] else front
  }

  function Plan(kept: seq<Pod>, pdbOf: Pod -> string): seq<DrainPod> {
    if kept == [] then []
    else
      var p := kept[|kept| - 1];
      Plan(kept[..|kept| - 1], pdbOf) + [DrainPod(p.ns, p.name, NoReason, pdbOf(p))]
  }

  method BuildDrainReport(pods: seq<Pod>, pdbOf: Pod -> string) returns (rep: Report, kept: seq<Pod>)
    ensures kept == Kept(pods)
    ensures rep == Report(Plan(kept, pdbOf), Skipped(pods), [], [], false)
  {
    var evictable: seq<DrainPod>, skipped: seq<DrainPod> := [], [];
    kept := [];
    for i := 0 to |pods|
      invariant kept == Kept(pods[..i]) && skipped == Skipped(pods[..i]) && evictable == Plan(kept, pdbOf)
    {
      var pod := pods[i];
      assert pods[..i + 1][..i] == pods[..i];
      var reason := Exemption(pod);
      if reason != NoReason {
        skipped := skipped + [DrainPod(pod.ns, pod.name, reason, "")];
      } else {
        evictable := evictable + [DrainPod(pod.ns, pod.name, NoReason, pdbOf(pod))];
        assert (kept + [pod])[..|kept|] == kept;
        kept := kept + [pod];
      }
    }
    assert pods[..|pods|] == pods;
    rep := Report(evictable, skipped, [], [], false);
  }

  function PodIds(pods: seq<Pod>): multiset<(string, string)> {
    if pods == [] then multiset{}
    else PodIds(pods[..|pods| - 1]) + multiset{(pods[|pods| - 1].ns, pods[|pods| - 1].name)}
  }

  function Ids(s: seq<DrainPod>): multiset<(string, string)> {
    if s == [] then multiset{} else Ids(s[..|s| - 1]) + multiset{(s[|s| - 1].ns, s[|s| - 1].name)}
  }

  lemma {:induction false} PlanIds(kept: seq<Pod>, pdbOf: Pod -> string)
    ensures Ids(Plan(kept, pdbOf)) == PodIds(kept)
  {
    if kept != [] {
      PlanIds(kept[..|kept| - 1], pdbOf);
      var front := Plan(kept[..|kept| - 1], pdbOf);
      assert Plan(kept, pdbOf)[..|front|] == front;
    }
  }

  lemma IdsAppend(s: seq<DrainPod>, dp: DrainPod)
    ensures Ids(s + [dp]) == Ids(s) + multiset{(dp.ns, dp.name)}
  {
    assert (s + [dp])[..|s|] == s;
  }

  lemma PodIdsAppend(s: seq<Pod>, p: Pod)
    ensures PodIds(s + [p]) == PodIds(s) + multiset{(p.ns, p.name)}
  {
    assert (s + [p])[..|s|] == s;
  }

  lemma {:induction false} SkippedPlusKept(pods: seq<Pod>)
    ensures Ids(Skipped(pods)) + PodIds(Kept(pods)) == PodIds(pods)
  {
    if pods != [] {
      var front, p := pods[..|pods| - 1], pods[|pods| - 1];
      SkippedPlusKept(front);
      if Exempt(p) {
        IdsAppend(Skipped(front), DrainPod(p.ns, p.name, Exemption(p), ""));
      } else {
        PodIdsAppend(Kept(front), p);
      }
    }
  }

  /** Classification loses no pod: skipped plus evictable is every pod listed. */
  lemma SkippedPlusEvictable(pods: seq<Pod>, pdbOf: Pod -> string)
    ensures Ids(Skipped(pods)) + Ids(Plan(Kept(pods), pdbOf)) == PodIds(pods)
  {
    SkippedPlusKept(pods);
    PlanIds(Kept(pods), pdbOf);
  }

  lemma {:induction false} KeptMembers(pods: seq<Pod>, p: Pod)
    ensures p in Kept(pods) <==> p in pods && !Exempt(p)
  {
    if pods != [] {
      KeptMembers(pods[..|pods| - 1], p);
      assert pods == pods[..|pods| - 1] + [pods[|pods| - 1]];
    }
  }

  /** Each listed pod in its place: behind the evictable, or the skipped, of those before it. */
  lemma {:induction false} ReportInOrder(pods: seq<Pod>, k: nat)
    requires k < |pods|
    ensures
      var p, kept, skipped := pods[k], |Kept(pods[..k])|, |Skipped(pods[..k])|;
      if Exempt(p) then
        skipped < |Skipped(pods)| && Skipped(pods)[skipped] == DrainPod(p.ns, p.name, Exemption(p), "")
      else kept < |Kept(pods)| && Kept(pods)[kept] == p
    decreases |pods|
  {
    var n := |pods| - 1;
    if k < n {
      ReportInOrder(pods[..n], k);
      assert pods[..n][..k] == pods[..k];
    }
  }

  // ---------------------------------------------------------------- the map of pods still to evict

  function Key(ns: string, name: string): string { ns + "/" + name }

  function Todo(kept: seq<Pod>): map<string, DrainPod> {
    if kept == [] then map[]
    else
      var p := kept[|kept| - 1];
      Todo(kept[..|kept| - 1])[Key(p.ns, p.name) := DrainPod(p.ns, p.name, NoReason, "")]
  }

  function Keys(s: seq<DrainPod>): seq<string> {
    if s == [] then [] else Keys(s[..|s| - 1]) + [Key(s[|s| - 1].ns, s[|s| - 1].name)]
  }

  lemma KeysAppend(s: seq<DrainPod>, dp: DrainPod)
    ensures Keys(s + [dp]) == Keys(s) + [Key(dp.ns, dp.name)]
  {
    assert (s + [dp])[..|s|] == s;
  }

  /** Each value is a bare name under its own key. */
  ghost predicate Plain(m: map<string, DrainPod>) {
    forall k :: k in m ==> m[k] == DrainPod(m[k].ns, m[k].name, NoReason, "") && Key(m[k].ns, m[k].name) == k
  }

  lemma PlainAt(m: map<string, DrainPod>, k: string)
    requires Plain(m) && k in m
    ensures m[k] == DrainPod(m[k].ns, m[k].name, NoReason, "") && Key(m[k].ns, m[k].name) == k
  {
  }

  lemma {:induction false} TodoOfKept(kept: seq<Pod>)
    ensures Plain(Todo(kept))
    ensures forall k :: k in Todo(kept) ==>
      exists i :: 0 <= i < |kept| && kept[i].ns == Todo(kept)[k].ns && kept[i].name == Todo(kept)[k].name
    ensures forall i :: 0 <= i < |kept| ==> Key(kept[i].ns, kept[i].name) in Todo(kept)
  {
    if kept != [] { TodoOfKept(kept[..|kept| - 1]); }
  }

  // ---------------------------------------------------------------- the books, as functions of the calls

  predicate TookDown(c: Call) { c.verdict.Accepted? || c.verdict.NotFound? }

  /** The keys of the calls that took a pod down, in order. */
  function Successes(calls: seq<Call>): seq<string> {
    if calls == [] then []
    else
      var front, c := Successes(calls[..|calls| - 1]), calls[|calls| - 1];
      if TookDown(c) then front + [Key(c.ns, c.name)] else front
  }

  /** The keys some call for which was refused. */
  function Refused(calls: seq<Call>): set<string> {
    if calls == [] then {}
    else
      var front, c := Refused(calls[..|calls| - 1]), calls[|calls| - 1];
      if TookDown(c) then front else front + {Key(c.ns, c.name)}
  }

  /** What is left of `todo` after the calls. */
  function Left(todo: map<string, DrainPod>, calls: seq<Call>): map<string, DrainPod> {
    if calls == [] then todo
    else
      var front, c := Left(todo, calls[..|calls| - 1]), calls[|calls| - 1];
      if TookDown(c) then front - {Key(c.ns, c.name)} else front
  }

  /** The pods taken down, in order. */
  function Evicted(todo: map<string, DrainPod>, calls: seq<Call>): seq<DrainPod> {
    if calls == [] then []
    else
      var front, c := Evicted(todo, calls[..|calls| - 1]), calls[|calls| - 1];
      if TookDown(c) then front + [DrainPod(c.ns, c.name, NoReason, "")] else front
  }

  /** Every call was for a pod then still left, with the request's grace period. */
  predicate Orderly(todo: map<string, DrainPod>, grace: int, calls: seq<Call>) {
    calls == [] ||
    (var front, c := calls[..|calls| - 1], calls[|calls| - 1];
     && Orderly(todo, grace, front) && c.grace == grace
     && Key(c.ns, c.name) in Left(todo, front)
     && Left(todo, front)[Key(c.ns, c.name)] == DrainPod(c.ns, c.name, NoReason, ""))
  }

  lemma {:induction false} LeftIsPart(todo: map<string, DrainPod>, calls: seq<Call>)
    ensures Left(todo, calls).Keys <= todo.Keys
    ensures forall k :: k in Left(todo, calls) ==> Left(todo, calls)[k] == todo[k]
  {
    if calls != [] { LeftIsPart(todo, calls[..|calls| - 1]); }
  }

  /** The books are in order: what is left and who was evicted follow from the calls made. */
  ghost predicate Books(todo: map<string, DrainPod>, grace: int, made: seq<Call>, left: map<string, DrainPod>,
                        evicted: seq<DrainPod>) {
    Plain(todo) && Orderly(todo, grace, made) && left == Left(todo, made) && evicted == Evicted(todo, made)
  }

  /** What one more call does to the books. */
  lemma OneMoreCall(todo: map<string, DrainPod>, grace: int, calls: seq<Call>, c: Call)
    requires Orderly(todo, grace, calls)
    requires c.grace == grace
    requires
      var k := Key(c.ns, c.name);
      k in Left(todo, calls) && Left(todo, calls)[k] == DrainPod(c.ns, c.name, NoReason, "")
    ensures Orderly(todo, grace, calls + [c])
    ensures
      if TookDown(c) then
        && Left(todo, calls + [c]) == Left(todo, calls) - {Key(c.ns, c.name)}
        && Evicted(todo, calls + [c]) == Evicted(todo, calls) + [DrainPod(c.ns, c.name, NoReason, "")]
        && Refused(calls + [c]) == Refused(calls)
      else
        && Left(todo, calls + [c]) == Left(todo, calls)
        && Evicted(todo, calls + [c]) == Evicted(todo, calls)
        && Refused(calls + [c]) == Refused(calls) + {Key(c.ns, c.name)}
  {
    var all := calls + [c];
    assert all != [] && all[|all| - 1] == c && all[..|all| - 1] == calls;
  }

  /** How often a pod was tried. */
  function Tries(calls: seq<Call>, k: string): nat {
    if calls == [] then 0
    else Tries(calls[..|calls| - 1], k) + if Key(calls[|calls| - 1].ns, calls[|calls| - 1].name) == k then 1 else 0
  }

  lemma TriesAppend(calls: seq<Call>, c: Call, k: string)
    ensures Tries(calls + [c], k) == Tries(calls, k) + if Key(c.ns, c.name) == k then 1 else 0
  {
    assert (calls + [c])[..|calls|] == calls;
  }

  /** A pass, from the calls `before` to the calls `after`, has tried each of these pods once,
      and no other. */
  ghost predicate TriedOnce(before: seq<Call>, after: seq<Call>, keys: set<string>) {
    forall k :: Tries(after, k) == Tries(before, k) + if k in keys then 1 else 0
  }

  ghost predicate TriedEqually(calls: seq<Call>, keys: set<string>, n: nat) {
    forall k :: k in keys ==> Tries(calls, k) == n
  }

  lemma TriedOneMore(before: seq<Call>, after: seq<Call>, c: Call, keys: set<string>)
    requires TriedOnce(before, after, keys) && Key(c.ns, c.name) !in keys
    ensures TriedOnce(before, after + [c], keys + {Key(c.ns, c.name)})
  {
    forall k ensures Tries(after + [c], k) == Tries(before, k) + if k in keys + {Key(c.ns, c.name)} then 1 else 0 {
      TriesAppend(after, c, k);
    }
  }

  /** After `n` passes: a pod that is left was refused, and tried in each of them. */
  ghost predicate PassesSoFar(todo: map<string, DrainPod>, made: seq<Call>, left: set<string>, n: nat) {
    && TriedEqually(made, left, n)
    && if n == 0 then left == todo.Keys else todo.Keys != {} && left <= Refused(made)
  }

  lemma NextPass(todo: map<string, DrainPod>, before: seq<Call>, after: seq<Call>, keys: set<string>,
                 left: set<string>, n: nat)
    requires PassesSoFar(todo, before, keys, n) && keys != {} && TriedOnce(before, after, keys)
    requires left <= keys && left <= Refused(after)
    ensures PassesSoFar(todo, after, left, n + 1)
  {
  }

  lemma {:induction false} TriedIffCalled(calls: seq<Call>, k: string)
    ensures Tries(calls, k) > 0 <==> exists i :: 0 <= i < |calls| && Key(calls[i].ns, calls[i].name) == k
  {
    if calls != [] {
      var n := |calls| - 1;
      TriedIffCalled(calls[..n], k);
      assert forall i :: 0 <= i < n ==> calls[..n][i] == calls[i];
    }
  }

  /** Some call for the pod was accepted, or found it gone. */
  ghost predicate TakenDown(calls: seq<Call>, k: string) {
    exists i :: 0 <= i < |calls| && Key(calls[i].ns, calls[i].name) == k
      && (calls[i].verdict == Accepted || calls[i].verdict == NotFound)
  }

  lemma {:induction false} RefusedIff(calls: seq<Call>, k: string)
    ensures k in Refused(calls) <==>
      exists i :: 0 <= i < |calls| && Key(calls[i].ns, calls[i].name) == k
        && (calls[i].verdict == TooManyRequests || calls[i].verdict == OtherError)
  {
    if calls != [] {
      var n := |calls| - 1;
      RefusedIff(calls[..n], k);
      assert forall i :: 0 <= i < n ==> calls[..n][i] == calls[i];
    }
  }

  /** The books by the verdicts of the calls. */
  lemma {:induction false} SuccessesIff(calls: seq<Call>, k: string)
    ensures k in Successes(calls) <==> TakenDown(calls, k)
  {
    if calls != [] {
      var n := |calls| - 1;
      SuccessesIff(calls[..n], k);
      assert forall i :: 0 <= i < n ==> calls[..n][i] == calls[i];
    }
  }

  lemma {:induction false} EvictedAreSuccesses(todo: map<string, DrainPod>, calls: seq<Call>)
    ensures Keys(Evicted(todo, calls)) == Successes(calls)
  {
    if calls != [] {
      var front, c := calls[..|calls| - 1], calls[|calls| - 1];
      EvictedAreSuccesses(todo, front);
      KeysAppend(Evicted(todo, front), DrainPod(c.ns, c.name, NoReason, ""));
    }
  }

  lemma TakeOut(m: map<string, DrainPod>, k: string)
    requires k in m
    ensures multiset(m.Keys) == multiset((m - {k}).Keys) + multiset{k}
  {
    assert (m - {k}).Keys == m.Keys - {k};
  }

  /** Every pod of `todo` is, once, either taken down or left. */
  lemma {:induction false} OrderlyCallsLoseNoPod(todo: map<string, DrainPod>, grace: int, calls: seq<Call>)
    requires Orderly(todo, grace, calls)
    ensures multiset(Keys(Evicted(todo, calls))) + multiset(Left(todo, calls).Keys) == multiset(todo.Keys)
  {
    if calls != [] {
      var front, c := calls[..|calls| - 1], calls[|calls| - 1];
      OrderlyCallsLoseNoPod(todo, grace, front);
      if TookDown(c) {
        KeysAppend(Evicted(todo, front), DrainPod(c.ns, c.name, NoReason, ""));
        TakeOut(Left(todo, front), Key(c.ns, c.name));
      }
    }
  }

  lemma {:induction false} OrderlyCallsStayInside(todo: map<string, DrainPod>, grace: int, calls: seq<Call>, i: nat)
    requires Orderly(todo, grace, calls) && i < |calls|
    ensures Key(calls[i].ns, calls[i].name) in todo
    ensures todo[Key(calls[i].ns, calls[i].name)] == DrainPod(calls[i].ns, calls[i].name, NoReason, "")
    ensures calls[i].grace == grace
  {
    var n := |calls| - 1;
    LeftIsPart(todo, calls[..n]);
    if i < n { OrderlyCallsStayInside(todo, grace, calls[..n], i); }
  }

  // ---------------------------------------------------------------- the cluster

  /** The API server and the clock: any verdict, any delay. */
  class Cluster {
    var now: int
    var calls: seq<Call>

    constructor (now: int)
      ensures this.now == now && calls == []
    {
      this.now := now;
      calls := [];
    }

    method Evict(ns: string, name: string, grace: int) returns (v: Verdict)
      modifies this
      ensures now >= old(now) && calls == old(calls) + [Call(ns, name, grace, v)]
    {
      v := *;
      var delay :| delay >= 0;
      now := now + delay;
      calls := calls + [Call(ns, name, grace, v)];
    }

    /** Waits five seconds, unless the request is cancelled first. */
    method Wait() returns (cancelled: bool)
      modifies this`now
      ensures now >= old(now) && (!cancelled ==> now >= old(now) + WAIT_MS)
    {
      cancelled := *;
      var delay :| delay >= 0;
      now := now + delay;
      if !cancelled { now := now + WAIT_MS; }
    }

    /** One eviction and its entry in the books.  `base` are the calls before this drain,
        `prior` those of this drain so far. */
    method EvictOne(ghost todo: map<string, DrainPod>, remaining: map<string, DrainPod>, evicted: seq<DrainPod>,
                    key: string, grace: int, ghost base: seq<Call>, ghost prior: seq<Call>)
      returns (left: map<string, DrainPod>, done: seq<DrainPod>, refused: bool, ghost c: Call)
      requires Books(todo, grace, prior, remaining, evicted) && calls == base + prior
      requires key in remaining
      modifies this
      ensures now >= old(now) && calls == base + (prior + [c]) && Key(c.ns, c.name) == key
      ensures Books(todo, grace, prior + [c], left, done)
      ensures left.Keys == if refused then remaining.Keys else remaining.Keys - {key}
      ensures Refused(prior + [c]) == if refused then Refused(prior) + {key} else Refused(prior)
    {
      var dp := remaining[key];
      LeftIsPart(todo, prior);
      PlainAt(todo, key);
      var v := Evict(dp.ns, dp.name, grace);
      c := Call(dp.ns, dp.name, grace, v);
      OneMoreCall(todo, grace, prior, c);
      left, done, refused := remaining, evicted, true;
      if v.Accepted? || v.NotFound? {
        left, done, refused := remaining - {key}, evicted + [dp], false;
      }
    }

    /** One walk over the remaining pods, in any order. */
    method EvictPass(ghost todo: map<string, DrainPod>, remaining: map<string, DrainPod>, evicted: seq<DrainPod>,
                     grace: int, ghost base: seq<Call>, ghost prior: seq<Call>)
      returns (left: map<string, DrainPod>, done: seq<DrainPod>, blocked: bool, ghost made: seq<Call>)
      requires Books(todo, grace, prior, remaining, evicted) && calls == base + prior
      modifies this
      ensures now >= old(now) && calls == base + made
      ensures Books(todo, grace, made, left, done)
      ensures left.Keys <= remaining.Keys && left.Keys <= Refused(made)
      ensures blocked <==> left.Keys != {}
      ensures TriedOnce(prior, made, remaining.Keys)
    {
      left, done, blocked, made := remaining, evicted, false, prior;
      var visit := remaining.Keys;
      ghost var stay: set<string>, tried: set<string> := {}, {};
      while exists k :: k in visit
        invariant Midway(remaining.Keys, left.Keys, visit, stay, tried, prior, made)
        invariant now >= old(now) && calls == base + made && Books(todo, grace, made, left, done)
        invariant blocked <==> stay != {}
        decreases visit
      {
        var key :| key in visit;
        var refused;
        ghost var c;
        ghost var was := left.Keys;
        MidwayIn(remaining.Keys, was, visit, stay, tried, prior, made, key);
        left, done, refused, c := EvictOne(todo, left, done, key, grace, base, made);
        MidwayNext(remaining.Keys, was, visit, stay, tried, prior, made, c, refused);
        made := made + [c];
        visit, tried := visit - {key}, tried + {key};
        if refused { stay, blocked := stay + {key}, true; }
      }
    }

    /** One turn of the retry loop: a pass and, if anything is left, the wait. */
    method PassAndWait(ghost todo: map<string, DrainPod>, remaining: map<string, DrainPod>, evicted: seq<DrainPod>,
                       grace: int, ghost base: seq<Call>, ghost prior: seq<Call>, ghost passes: nat)
      returns (left: map<string, DrainPod>, done: seq<DrainPod>, cancelled: bool, ghost made: seq<Call>)
      requires Books(todo, grace, prior, remaining, evicted) && calls == base + prior
      requires PassesSoFar(todo, prior, remaining.Keys, passes) && |remaining| > 0
      modifies this
      ensures calls == base + made && Books(todo, grace, made, left, done)
      ensures PassesSoFar(todo, made, left.Keys, passes + 1) && |left| <= |remaining|
      ensures now >= old(now) && (!cancelled ==> left.Keys == {} || now >= old(now) + WAIT_MS)
    {
      var blocked;
      cancelled := false;
      FewerKeys(remaining, remaining);
      left, done, blocked, made := EvictPass(todo, remaining, evicted, grace, base, prior);
      FewerKeys(left, remaining);
      NextPass(todo, prior, made, remaining.Keys, left.Keys, passes);
      if |left| > 0 && blocked { cancelled := Wait(); }
    }

    /** The retry loop: passes over the pods of `todo` until none is left or time is up. */
    method EvictUntil(todo: map<string, DrainPod>, limit: int, grace: int)
      returns (remaining: map<string, DrainPod>, evicted: seq<DrainPod>, cancelled: bool, passes: nat,
        ghost made: seq<Call>)
      requires Plain(todo) && limit > 0
      modifies this
      ensures calls == old(calls) + made && Books(todo, grace, made, remaining, evicted)
      ensures PassesSoFar(todo, made, remaining.Keys, passes) && (passes == 0 ==> remaining.Keys == {})
      ensures passes > 0 ==> WAIT_MS * (passes - 1) < limit
      ensures !cancelled && remaining.Keys != {} ==> now >= old(now) + limit
    {
      remaining, evicted, cancelled, passes, made := todo, [], false, 0, [];
      var start := now;
      var deadline := start + limit;
      while |remaining| > 0 && now < deadline
        invariant calls == old(calls) + made && (if passes == 0 then now == start else now >= start)
        invariant Books(todo, grace, made, remaining, evicted)
        invariant PassesSoFar(todo, made, remaining.Keys, passes)
        invariant passes > 0 ==> WAIT_MS * (passes - 1) < limit
        invariant remaining.Keys != {} ==> now >= start + WAIT_MS * passes
        decreases |remaining|, deadline - now
      {
        FewerKeys(remaining, remaining);
        remaining, evicted, cancelled, made := PassAndWait(todo, remaining, evicted, grace, old(calls), made, passes);
        passes := passes + 1;
        if cancelled { return; }
        FewerKeys(remaining, remaining);
      }
      FewerKeys(remaining, remaining);
    }

    /** The drain itself.  `passes` counts the walks over the remaining pods. */
    method DrainNode(cordonOk: bool, listOk: bool, pods: seq<Pod>, pdbOf: Pod -> string, grace: int, timeoutMs: int)
      returns (outcome: Outcome, passes: nat, ghost made: seq<Call>)
      modifies this
      ensures calls == old(calls) + made
      ensures !cordonOk ==> outcome == CordonFailed && made == []
      ensures cordonOk && !listOk ==> outcome == ListFailed && made == []
      ensures cordonOk && listOk ==>
        (outcome.Finished? || outcome.Cancelled?) && DrainedWell(pods, pdbOf, grace, outcome, passes, made)
      ensures passes <= PassLimit(timeoutMs)
      ensures outcome.Finished? && outcome.report.timedOut ==>
        now >= old(now) + if timeoutMs <= 0 then DEFAULT_TIMEOUT_MS else timeoutMs
    {
      passes, made := 0, [];
      if !cordonOk { outcome := CordonFailed; return; }
      if !listOk { outcome := ListFailed; return; }
      var limit := if timeoutMs <= 0 then DEFAULT_TIMEOUT_MS else timeoutMs;
      var rep, kept := BuildDrainReport(pods, pdbOf);
      var todo := BuildTodo(kept);
      TodoOfKept(kept);
      assert Plain(todo);
      var remaining, evicted, cancelled;
      var asked := 0;
      if grace > 0 { asked := grace; }
      remaining, evicted, cancelled, passes, made := EvictUntil(todo, limit, asked);
      if cancelled {
        CancelledWell(pods, pdbOf, grace, passes, made);
        outcome := Cancelled(rep.(evicted := evicted));
        return;
      }
      LeftIsPart(todo, made);
      var stuck := BlockedPods(rep.evictable, remaining);
      FinishedWell(pods, pdbOf, grace, stuck, passes, made);
      outcome := Finished(rep.(evicted := evicted, blocked := stuck, timedOut := |remaining| > 0));
    }
  }

  lemma CancelledWell(pods: seq<Pod>, pdbOf: Pod -> string, grace: int, passes: nat, made: seq<Call>)
    requires
      var todo := Todo(Kept(pods));
      Orderly(todo, AskedGrace(grace), made) && PassesSoFar(todo, made, Left(todo, made).Keys, passes)
        && (passes == 0 ==> Left(todo, made).Keys == {})
    ensures
      var kept := Kept(pods);
      DrainedWell(pods, pdbOf, grace,
        Cancelled(Report(Plan(kept, pdbOf), Skipped(pods), Evicted(Todo(kept), made), [], false)), passes, made)
  {
    var todo := Todo(Kept(pods));
    OrderlyCallsLoseNoPod(todo, AskedGrace(grace), made);
    EvictedAreSuccesses(todo, made);
    TodoOfKept(Kept(pods));
  }

  lemma FinishedWell(pods: seq<Pod>, pdbOf: Pod -> string, grace: int, stuck: seq<DrainPod>, passes: nat,
                     made: seq<Call>)
    requires
      var todo := Todo(Kept(pods));
      Orderly(todo, AskedGrace(grace), made) && PassesSoFar(todo, made, Left(todo, made).Keys, passes)
        && (passes == 0 ==> Left(todo, made).Keys == {})
    requires
      var left := Left(Todo(Kept(pods)), made);
      && multiset(Keys(stuck)) == multiset(left.Keys) && |stuck| == |left|
      && BlockedWell(stuck, Plan(Kept(pods), pdbOf)) && NamedIn(stuck, left)
    ensures
      var kept := Kept(pods);
      var timedOut := |Left(Todo(kept), made)| > 0;
      DrainedWell(pods, pdbOf, grace,
        Finished(Report(Plan(kept, pdbOf), Skipped(pods), Evicted(Todo(kept), made), stuck, timedOut)), passes, made)
  {
    var todo := Todo(Kept(pods));
    CancelledWell(pods, pdbOf, grace, passes, made);
    OrderlyCallsLoseNoPod(todo, AskedGrace(grace), made);
    StuckKeys(stuck, Left(todo, made).Keys);
    NamedInAll(stuck, todo, made);
  }

  lemma StuckKeys(stuck: seq<DrainPod>, keys: set<string>)
    requires multiset(Keys(stuck)) == multiset(keys)
    ensures forall k :: k in Keys(stuck) ==> k in keys
  {
    forall k | k in Keys(stuck) ensures k in keys { assert k in multiset(Keys(stuck)); }
  }

  method BuildTodo(kept: seq<Pod>) returns (todo: map<string, DrainPod>)
    ensures todo == Todo(kept)
  {
    todo := map[];
    for i := 0 to |kept|
      invariant todo == Todo(kept[..i])
    {
      assert kept[..i + 1][..i] == kept[..i];
      todo := todo[Key(kept[i].ns, kept[i].name) := DrainPod(kept[i].ns, kept[i].name, NoReason, "")];
    }
    assert kept[..|kept|] == kept;
  }

  lemma MoveOne(stuck: seq<DrainPod>, rest: map<string, DrainPod>, k: string, dp: DrainPod)
    requires k in rest && Key(dp.ns, dp.name) == k
    ensures multiset(Keys(stuck + [dp])) + multiset((rest - {k}).Keys) == multiset(Keys(stuck)) + multiset(rest.Keys)
    ensures |rest - {k}| == |rest| - 1 && (rest - {k}).Keys <= rest.Keys
  {
    KeysAppend(stuck, dp);
    TakeOut(rest, k);
    assert (rest - {k}).Keys == rest.Keys - {k};
    assert |(rest - {k}).Keys| == |rest - {k}|;
  }

  lemma BlockedAppend(stuck: seq<DrainPod>, dp: DrainPod, evictable: seq<DrainPod>)
    requires BlockedWell(stuck, evictable) && dp == BlockedPod(dp, evictable)
    ensures BlockedWell(stuck + [dp], evictable)
  {
  }

  lemma NamedAppend(stuck: seq<DrainPod>, dp: DrainPod, m: map<string, DrainPod>)
    requires NamedIn(stuck, m) && Key(dp.ns, dp.name) in m
    requires m[Key(dp.ns, dp.name)].ns == dp.ns && m[Key(dp.ns, dp.name)].name == dp.name
    ensures NamedIn(stuck + [dp], m)
  {
  }

  lemma NamedInAll(stuck: seq<DrainPod>, todo: map<string, DrainPod>, made: seq<Call>)
    requires NamedIn(stuck, Left(todo, made))
    ensures NamedIn(stuck, todo)
  {
    LeftIsPart(todo, made);
  }

  method BlockedPods(evictable: seq<DrainPod>, remaining: map<string, DrainPod>) returns (stuck: seq<DrainPod>)
    requires Plain(remaining)
    ensures multiset(Keys(stuck)) == multiset(remaining.Keys)
    ensures BlockedWell(stuck, evictable) && NamedIn(stuck, remaining)
    ensures |stuck| == |remaining|
  {
    stuck := [];
    var rest := remaining;
    ghost var all := multiset(remaining.Keys);
    assert multiset(Keys(stuck)) == multiset{};
    while exists k :: k in rest
      invariant rest.Keys <= remaining.Keys && Plain(rest)
      invariant multiset(Keys(stuck)) + multiset(rest.Keys) == all
      invariant BlockedWell(stuck, evictable) && NamedIn(stuck, remaining)
      invariant forall k :: k in rest ==> rest[k] == remaining[k]
      invariant |stuck| + |rest| == |remaining|
      decreases |rest|
    {
      var k :| k in rest;
      PlainAt(rest, k);
      var dp := BlockedPod(rest[k], evictable);
      MoveOne(stuck, rest, k, dp);
      BlockedAppend(stuck, dp, evictable);
      NamedAppend(stuck, dp, remaining);
      stuck, rest := stuck + [dp], rest - {k};
    }
    assert rest.Keys == {} && multiset(rest.Keys) == multiset{};
  }

  /** The budget recorded for a pod in the plan: that of the first pod of that name. */
  function PdbNameFor(evictable: seq<DrainPod>, ns: string, name: string): string
    decreases |evictable|
  {
    if evictable == [] then ""
    else if evictable[0].ns == ns && evictable[0].name == name then evictable[0].pdb
    else PdbNameFor(evictable[1..], ns, name)
  }

  function BlockedPod(dp: DrainPod, evictable: seq<DrainPod>): DrainPod {
    DrainPod(dp.ns, dp.name, BlockedAtDeadline, PdbNameFor(evictable, dp.ns, dp.name))
  }

  ghost predicate BlockedWell(blocked: seq<DrainPod>, evictable: seq<DrainPod>) {
    forall i :: 0 <= i < |blocked| ==> blocked[i] == BlockedPod(blocked[i], evictable)
  }

  /** Each has the name of an entry of the map. */
  ghost predicate NamedIn(s: seq<DrainPod>, m: map<string, DrainPod>) {
    forall i :: 0 <= i < |s| ==>
      var k := Key(s[i].ns, s[i].name);
      k in m && m[k].ns == s[i].ns && m[k].name == s[i].name
  }

  /** It is the ceiling of the timeout, by default two minutes, over the wait. */
  lemma PassLimitIsCeil(timeoutMs: int)
    ensures
      var limit, n := if timeoutMs <= 0 then 120000 else timeoutMs, PassLimit(timeoutMs);
      5000 * (n - 1) < limit <= 5000 * n
  {
  }

  /** ceil(timeout / 5s). */
  function PassLimit(timeoutMs: int): nat {
    ((if timeoutMs <= 0 then DEFAULT_TIMEOUT_MS else timeoutMs) + WAIT_MS - 1) / WAIT_MS
  }

  /** The keys left are those still to visit and those that stay, apart. */
  ghost predicate Walk(keys: set<string>, visit: set<string>, stay: set<string>) {
    keys == visit + stay && visit !! stay
  }

  /** A pass over the keys `all` midway, from the calls `before` to the calls `after`: `left` are
      those still left, `visit` those still to visit, `stay` those refused and `tried` those tried. */
  ghost predicate Midway(all: set<string>, left: set<string>, visit: set<string>, stay: set<string>, tried: set<string>,
                         before: seq<Call>, after: seq<Call>) {
    && Walk(left, visit, stay) && Walk(all, visit, tried) && left <= all && stay <= Refused(after)
    && TriedOnce(before, after, tried)
  }

  lemma MidwayIn(all: set<string>, left: set<string>, visit: set<string>, stay: set<string>, tried: set<string>,
                 before: seq<Call>, after: seq<Call>, key: string)
    requires Midway(all, left, visit, stay, tried, before, after) && key in visit
    ensures key in left
  {
  }

  lemma MidwayNext(all: set<string>, left: set<string>, visit: set<string>, stay: set<string>, tried: set<string>,
                   before: seq<Call>, after: seq<Call>, c: Call, refused: bool)
    requires Midway(all, left, visit, stay, tried, before, after) && Key(c.ns, c.name) in visit
    requires
      var key := Key(c.ns, c.name);
      Refused(after + [c]) == if refused then Refused(after) + {key} else Refused(after)
    ensures
      var key := Key(c.ns, c.name);
      Midway(all, if refused then left else left - {key}, visit - {key}, if refused then stay + {key} else stay,
        tried + {key}, before, after + [c])
  {
    Visited(left, visit, stay, Key(c.ns, c.name));
    Visited(all, visit, tried, Key(c.ns, c.name));
    TriedOneMore(before, after, c, tried);
  }

  lemma Visited(keys: set<string>, visit: set<string>, stay: set<string>, key: string)
    requires Walk(keys, visit, stay) && key in visit
    ensures key in keys
    ensures Walk(keys, visit - {key}, stay + {key})
    ensures Walk(keys - {key}, visit - {key}, stay)
  {
  }

  lemma FewerKeys(a: map<string, DrainPod>, b: map<string, DrainPod>)
    requires a.Keys <= b.Keys
    ensures |a| <= |b|
    ensures a.Keys != {} <==> |a| > 0
    ensures a.Keys == b.Keys ==> |a| == |b|
  {
    assert |a.Keys| == |a| && |b.Keys| == |b|;
    SubsetSize(a.Keys, b.Keys);
  }

  lemma {:induction false} SubsetSize(a: set<string>, b: set<string>)
    requires a <= b
    ensures |a| <= |b|
    decreases |a|
  {
    if x :| x in a { SubsetSize(a - {x}, b - {x}); }
  }

  /** A grace period of 0 or less asks for the pod's own; 0 stands for that in a call. */
  function AskedGrace(grace: int): int {
    if grace <= 0 then 0 else grace
  }

  /** What a drain promises of its report and of the calls it made. */
  ghost predicate DrainedWell(pods: seq<Pod>, pdbOf: Pod -> string, grace: int, outcome: Outcome, passes: nat,
                              made: seq<Call>)
    requires outcome.Finished? || outcome.Cancelled?
  {
    var rep, kept := outcome.report, Kept(pods);
    && rep.skipped == Skipped(pods) && rep.evictable == Plan(kept, pdbOf)
    && Orderly(Todo(kept), AskedGrace(grace), made)
    && Keys(rep.evicted) == Successes(made) && rep.evicted == Evicted(Todo(kept), made)
    && (outcome.Finished? ==>
          && multiset(Keys(rep.evicted)) + multiset(Keys(rep.blocked)) == multiset(Todo(kept).Keys)
          && (rep.timedOut <==> rep.blocked != [])
          && BlockedWell(rep.blocked, rep.evictable) && NamedIn(rep.blocked, Todo(kept))
          && (forall k :: k in Keys(rep.blocked) ==> k in Refused(made) && Tries(made, k) == passes))
    && (passes > 0 <==> kept != [])
    && (outcome.Cancelled? ==>
          && rep.blocked == [] && !rep.timedOut
          && multiset(Keys(rep.evicted)) <= multiset(Todo(kept).Keys))
  }

  // ---------------------------------------------------------------- from keys back to pods

  /** What the API server lists: namespaces without a slash, no pod twice. */
  ghost predicate WellListed(pods: seq<Pod>) {
    && (forall i :: 0 <= i < |pods| ==> '/' !in pods[i].ns)
    && (forall i, j :: 0 <= i < j < |pods| ==> (pods[i].ns, pods[i].name) != (pods[j].ns, pods[j].name))
  }

  lemma KeyInjective(ns: string, name: string, ns': string, name': string)
    requires '/' !in ns && '/' !in ns' && Key(ns, name) == Key(ns', name')
    ensures ns == ns' && name == name'
  {
    assert Key(ns, name) == ns + ['/'] + name && Key(ns', name') == ns' + ['/'] + name';
    SplitAtFirst('/', ns, name, ns', name');
  }

  lemma {:induction false} KeptIsWellListed(pods: seq<Pod>)
    requires WellListed(pods)
    ensures WellListed(Kept(pods))
  {
    if pods != [] {
      var front, p := pods[..|pods| - 1], pods[|pods| - 1];
      KeptIsWellListed(front);
      if !Exempt(p) {
        var kept := Kept(front);
        forall i | 0 <= i < |kept| ensures (kept[i].ns, kept[i].name) != (p.ns, p.name) {
          KeptMembers(front, kept[i]);
          var j :| 0 <= j < |front| && front[j] == kept[i];
          assert pods[j] == front[j];
        }
      }
    }
  }

  /** Whatever happens, no exempt pod is the target of an eviction call: each call is
      for a listed pod that is not exempt. */
  lemma NoExemptPodIsCalled(pods: seq<Pod>, grace: int, made: seq<Call>, i: nat, p: Pod)
    requires Orderly(Todo(Kept(pods)), AskedGrace(grace), made) && i < |made|
    ensures grace > 0 ==> made[i].grace == grace
    ensures grace <= 0 ==> made[i].grace == 0
    ensures exists q :: q in pods && !Exempt(q) && q.ns == made[i].ns && q.name == made[i].name
    ensures WellListed(pods) && p in pods && Exempt(p) ==> (p.ns, p.name) != (made[i].ns, made[i].name)
  {
    var kept := Kept(pods);
    OrderlyCallsStayInside(Todo(kept), AskedGrace(grace), made, i);
    TodoOfKept(kept);
    var j :| 0 <= j < |kept| && kept[j].ns == made[i].ns && kept[j].name == made[i].name;
    KeptMembers(pods, kept[j]);
    if WellListed(pods) && p in pods && Exempt(p) {
      var a :| 0 <= a < |pods| && pods[a] == p;
      var b :| 0 <= b < |pods| && pods[b] == kept[j];
      assert a != b;
    }
  }

  lemma {:induction false} TodoSize(kept: seq<Pod>)
    requires WellListed(kept)
    ensures |Todo(kept)| == |kept|
  {
    if kept != [] {
      var front, p := kept[..|kept| - 1], kept[|kept| - 1];
      TodoSize(front);
      TodoOfKept(front);
      var k := Key(p.ns, p.name);
      if k in Todo(front) {
        PlainAt(Todo(front), k);
        var i :| 0 <= i < |front| && front[i].ns == Todo(front)[k].ns && front[i].name == Todo(front)[k].name;
        assert kept[i] == front[i];
        KeyInjective(p.ns, p.name, front[i].ns, front[i].name);
      }
      assert k !in Todo(front);
    }
  }

  /** A drain that is not cancelled accounts for every evictable pod exactly once, as
      evicted or as blocked, and for nothing else. */
  lemma EachPodOnce(pods: seq<Pod>, pdbOf: Pod -> string, grace: int, outcome: Outcome, passes: nat, made: seq<Call>,
                    p: Pod)
    requires outcome.Finished? && DrainedWell(pods, pdbOf, grace, outcome, passes, made)
    requires p in pods && !Exempt(p)
    ensures multiset(Keys(outcome.report.evicted) + Keys(outcome.report.blocked))[Key(p.ns, p.name)] == 1
    ensures WellListed(pods) ==> |outcome.report.evicted| + |outcome.report.blocked| == |Kept(pods)|
  {
    var rep, kept := outcome.report, Kept(pods);
    KeptMembers(pods, p);
    var i :| 0 <= i < |kept| && kept[i] == p;
    TodoOfKept(kept);
    assert Key(p.ns, p.name) in Todo(kept).Keys;
    assert multiset(Keys(rep.evicted) + Keys(rep.blocked)) == multiset(Todo(kept).Keys);
    if WellListed(pods) {
      KeptIsWellListed(pods);
      TodoSize(kept);
      KeysLength(rep.evicted);
      KeysLength(rep.blocked);
      assert |multiset(Keys(rep.evicted) + Keys(rep.blocked))| == |Keys(rep.evicted)| + |Keys(rep.blocked)|;
      assert |multiset(Todo(kept).Keys)| == |Todo(kept).Keys| == |Todo(kept)|;
    }
  }

  lemma {:induction false} KeysLength(s: seq<DrainPod>)
    ensures |Keys(s)| == |s|
  {
    if s != [] { KeysLength(s[..|s| - 1]); }
  }

  lemma {:induction false} PlanAt(kept: seq<Pod>, pdbOf: Pod -> string, i: nat)
    requires i < |kept|
    ensures |Plan(kept, pdbOf)| == |kept|
    ensures Plan(kept, pdbOf)[i] == DrainPod(kept[i].ns, kept[i].name, NoReason, pdbOf(kept[i]))
  {
    var n := |kept| - 1;
    if n > 0 { PlanAt(kept[..n], pdbOf, if i < n then i else 0); }
  }

  lemma {:induction false} FirstOfItsName(plan: seq<DrainPod>, i: nat)
    requires i < |plan|
    requires forall j :: 0 <= j < i ==> (plan[j].ns, plan[j].name) != (plan[i].ns, plan[i].name)
    ensures PdbNameFor(plan, plan[i].ns, plan[i].name) == plan[i].pdb
    decreases i
  {
    if i > 0 {
      assert (plan[0].ns, plan[0].name) != (plan[i].ns, plan[i].name);
      forall j | 0 <= j < i - 1 ensures (plan[1..][j].ns, plan[1..][j].name) != (plan[i].ns, plan[i].name) {
        assert plan[1..][j] == plan[j + 1];
      }
      FirstOfItsName(plan[1..], i - 1);
    }
  }

  /** The budget shown for a blocked pod is the one found for that pod when it was listed. */
  lemma BlockedShowsItsBudget(pods: seq<Pod>, pdbOf: Pod -> string, p: Pod)
    requires WellListed(pods) && p in pods && !Exempt(p)
    ensures PdbNameFor(Plan(Kept(pods), pdbOf), p.ns, p.name) == pdbOf(p)
  {
    var kept := Kept(pods);
    KeptMembers(pods, p);
    KeptIsWellListed(pods);
    var i :| 0 <= i < |kept| && kept[i] == p;
    PlanAt(kept, pdbOf, i);
    forall j | 0 <= j < i
      ensures (Plan(kept, pdbOf)[j].ns, Plan(kept, pdbOf)[j].name) != (p.ns, p.name)
    {
      PlanAt(kept, pdbOf, j);
    }
    FirstOfItsName(Plan(kept, pdbOf), i);
  }

  // ---------------------------------------------------------------- the report by the verdicts

  /** Whether it ends or is cancelled, a drain reports a pod as evicted exactly when the API
      server accepted its eviction, or no longer found it. */
  lemma EvictedByVerdict(pods: seq<Pod>, pdbOf: Pod -> string, grace: int, outcome: Outcome, passes: nat,
                         made: seq<Call>, k: string)
    requires outcome.Finished? || outcome.Cancelled?
    requires DrainedWell(pods, pdbOf, grace, outcome, passes, made)
    ensures k in Keys(outcome.report.evicted) <==> TakenDown(made, k)
  {
    SuccessesIff(made, k);
  }

  /** One that ends leaves an evictable pod blocked, and says that it timed out, exactly when no
      call for it did; each pass has tried it. */
  lemma BlockedByVerdict(pods: seq<Pod>, pdbOf: Pod -> string, grace: int, outcome: Outcome, passes: nat,
                         made: seq<Call>, p: Pod)
    requires outcome.Finished? && DrainedWell(pods, pdbOf, grace, outcome, passes, made)
    requires p in pods && !Exempt(p)
    ensures
      var rep, k := outcome.report, Key(p.ns, p.name);
      && passes > 0
      && (k in Keys(rep.blocked) <==> !TakenDown(made, k))
      && (!TakenDown(made, k) ==> rep.timedOut && Tries(made, k) == passes)
  {
    var rep, k := outcome.report, Key(p.ns, p.name);
    KeptMembers(pods, p);
    EvictedByVerdict(pods, pdbOf, grace, outcome, passes, made, k);
    EachPodOnce(pods, pdbOf, grace, outcome, passes, made, p);
    assert multiset(Keys(rep.evicted) + Keys(rep.blocked))[k]
        == multiset(Keys(rep.evicted))[k] + multiset(Keys(rep.blocked))[k] == 1;
    if k in Keys(rep.blocked) { assert k in multiset(Keys(rep.blocked)); }
    if k in Keys(rep.evicted) { assert k in multiset(Keys(rep.evicted)); }
  }

  lemma {:induction false} EvictedEntry(todo: map<string, DrainPod>, made: seq<Call>, k: string) returns (i: nat)
    requires TakenDown(made, k)
    ensures i < |made| && Key(made[i].ns, made[i].name) == k
    ensures DrainPod(made[i].ns, made[i].name, NoReason, "") in Evicted(todo, made)
  {
    var n := |made| - 1;
    if TookDown(made[n]) && Key(made[n].ns, made[n].name) == k {
      i := n;
      assert Evicted(todo, made)[|Evicted(todo, made)| - 1] == DrainPod(made[n].ns, made[n].name, NoReason, "");
    } else {
      assert forall j :: 0 <= j < n ==> made[..n][j] == made[j];
      i := EvictedEntry(todo, made[..n], k);
    }
  }

  lemma {:induction false} KeyMember(s: seq<DrainPod>, k: string) returns (i: nat)
    requires k in Keys(s)
    ensures i < |s| && Key(s[i].ns, s[i].name) == k
  {
    i := |s| - 1;
    if Key(s[i].ns, s[i].name) != k { i := KeyMember(s[..i], k); }
  }

  /** A drain that ends has tried every evictable pod.  It shows as evicted the ones taken
      down, and as blocked, with its budget, each pod whose every call was refused, in one
      call a pass up to the deadline; then it says that it timed out. */
  lemma EveryPodByVerdict(pods: seq<Pod>, pdbOf: Pod -> string, grace: int, outcome: Outcome, passes: nat,
                          made: seq<Call>, p: Pod)
    requires outcome.Finished? && DrainedWell(pods, pdbOf, grace, outcome, passes, made)
    requires WellListed(pods) && p in pods && !Exempt(p)
    ensures passes > 0 && Tries(made, Key(p.ns, p.name)) > 0
    ensures
      var rep, k := outcome.report, Key(p.ns, p.name);
      if TakenDown(made, k) then DrainPod(p.ns, p.name, NoReason, "") in rep.evicted && k !in Keys(rep.blocked)
      else
        && DrainPod(p.ns, p.name, BlockedAtDeadline, pdbOf(p)) in rep.blocked && k !in Keys(rep.evicted)
        && rep.timedOut && Tries(made, k) == passes
  {
    var rep, kept, k := outcome.report, Kept(pods), Key(p.ns, p.name);
    EvictedByVerdict(pods, pdbOf, grace, outcome, passes, made, k);
    BlockedByVerdict(pods, pdbOf, grace, outcome, passes, made, p);
    if TakenDown(made, k) {
      var i := EvictedEntry(Todo(kept), made, k);
      NoExemptPodIsCalled(pods, grace, made, i, p);
      KeyInjective(p.ns, p.name, made[i].ns, made[i].name);
      TriedIffCalled(made, k);
    } else {
      var i := KeyMember(rep.blocked, k);
      TodoOfKept(kept);
      var j :| 0 <= j < |kept| && kept[j].ns == rep.blocked[i].ns && kept[j].name == rep.blocked[i].name;
      KeptMembers(pods, kept[j]);
      KeyInjective(p.ns, p.name, rep.blocked[i].ns, rep.blocked[i].name);
      BlockedShowsItsBudget(pods, pdbOf, p);
      assert rep.blocked[i] == BlockedPod(rep.blocked[i], rep.evictable);
    }
  }
}

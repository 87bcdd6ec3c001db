/** Any number of Puts on one resource, interleaved step by step: each reads the
    ConfigMap, computes, and then creates or updates it.  The API server refuses a
    create of what exists and an update with a stale resource version. */
module SnapshotRaces {
  import opened Common
  import opened SnapshotStore
  import opened SnapshotRetention

  datatype Versioned = Absent | At(cm: ConfigMap, rv: nat)

  /** A Put between its read and its write. */
  datatype Pending = Pending(s: Snapshot, seen: Versioned)

  datatype Finished = Finished(s: Snapshot, result: PutResult)

  /** `log` lists the Puts that ended without an error, in order of taking effect. */
  datatype System = System(stored: Versioned, nextRv: nat, writers: map<nat, Pending>, log: seq<Finished>)

  datatype Action =
    | Begin(writer: nat, s: Snapshot, getOk: bool)
    | Write(writer: nat, writeOk: bool)

  function CmOf(v: Versioned): Option<ConfigMap> {
    if v.At? then Some(v.cm) else None
  }

  /** The server's own check, apart from other failures. */
  predicate Current(sys: System, seen: Versioned) {
    if seen.Absent? then sys.stored.Absent? else sys.stored.At? && sys.stored.rv == seen.rv
  }

  /** One step and, when it ends a Put, that Put's result. */
  ghost function Step(sz: Sizes, sys: System, a: Action): (System, Option<PutResult>) {
    match a
    case Begin(w, s, getOk) =>
      if w in sys.writers then (sys, None)
      else if |s.content| > MAX_CONTENT_BYTES then
        (sys.(log := sys.log + [Finished(s, Unchanged)]), Some(Unchanged))
      else if !getOk then (sys, Some(Failed))
      else if Repeats(CmOf(sys.stored), s) then
        (sys.(log := sys.log + [Finished(s, Unchanged)]), Some(Unchanged))
      else (sys.(writers := sys.writers[w := Pending(s, sys.stored)]), None)
    case Write(w, writeOk) =>
      if w !in sys.writers then (sys, None)
      else
        var p := sys.writers[w];
        var rest := sys.writers - {w};
        if writeOk && Current(sys, p.seen) then
          (System(At(Candidate(sz, CmOf(p.seen), p.s), sys.nextRv), sys.nextRv + 1, rest,
            sys.log + [Finished(p.s, Stored)]),
           Some(Stored))
        else (sys.(writers := rest), Some(Failed))
  }

  /** Where a run stands after its first `n` steps. */
  ghost function Reached(sz: Sizes, actions: seq<Action>, n: nat): System
    requires n <= |actions|
  {
    if n == 0 then System(Absent, 0, map[], []) else Step(sz, Reached(sz, actions, n - 1), actions[n - 1]).0
  }

  ghost function Execute(sz: Sizes, actions: seq<Action>): System {
    Reached(sz, actions, |actions|)
  }

  /** What step `k` of a run reports. */
  ghost function Reported(sz: Sizes, actions: seq<Action>, k: nat): Option<PutResult>
    requires k < |actions|
  {
    Step(sz, Reached(sz, actions, k), actions[k]).1
  }

  function Puts(log: seq<Finished>): (puts: seq<Snapshot>)
    ensures |puts| == |log|
  {
    if log == [] then [] else Puts(log[..|log| - 1]) + [log[|log| - 1].s]
  }

  /** The log replayed one Put at a time gives the same results and the same ConfigMap. */
  ghost predicate Serial(sz: Sizes, log: seq<Finished>, stored: Option<ConfigMap>) {
    && stored == Run(sz, Puts(log))
    && forall i :: 0 <= i < |log| ==> log[i].result == PutSpec(sz, Run(sz, Puts(log[..i])), log[i].s).1
  }

  ghost predicate Inv(sz: Sizes, sys: System) {
    && Serial(sz, sys.log, CmOf(sys.stored))
    && (sys.stored.At? ==> sys.stored.rv < sys.nextRv)
    && forall w :: w in sys.writers ==>
         var seen := sys.writers[w].seen;
         && Accepts(CmOf(seen), sys.writers[w].s)
         && (seen.At? ==> sys.stored.At? && seen.rv <= sys.stored.rv)
         && (Current(sys, seen) ==> seen == sys.stored)
  }

  lemma LogGrows(sz: Sizes, log: seq<Finished>, stored: Option<ConfigMap>, s: Snapshot)
    requires Serial(sz, log, stored)
    ensures Serial(sz, log + [Finished(s, PutSpec(sz, stored, s).1)], PutSpec(sz, stored, s).0)
  {
    var more := log + [Finished(s, PutSpec(sz, stored, s).1)];
    assert more[..|log|] == log;
    assert Puts(more)[..|log|] == Puts(log);
    forall i | 0 <= i < |more| ensures more[i].result == PutSpec(sz, Run(sz, Puts(more[..i])), more[i].s).1 {
      if i < |log| { assert more[..i] == log[..i]; }
    }
  }

  lemma WriteKeepsInv(sz: Sizes, sys: System, w: nat)
    requires Inv(sz, sys) && w in sys.writers && Current(sys, sys.writers[w].seen)
    ensures Inv(sz, Step(sz, sys, Write(w, true)).0)
  {
    var p := sys.writers[w];
    var next := Step(sz, sys, Write(w, true)).0;
    assert p.seen == sys.stored;
    LogGrows(sz, sys.log, CmOf(sys.stored), p.s);
    assert CmOf(next.stored) == PutSpec(sz, CmOf(sys.stored), p.s).0;
    assert next.stored.rv == sys.nextRv;
    forall v | v in next.writers
      ensures next.writers[v] == sys.writers[v] && !Current(next, sys.writers[v].seen)
    {
    }
  }

  lemma BeginKeepsInv(sz: Sizes, sys: System, w: nat, s: Snapshot)
    requires Inv(sz, sys) && w !in sys.writers && Accepts(CmOf(sys.stored), s)
    ensures Inv(sz, sys.(writers := sys.writers[w := Pending(s, sys.stored)]))
  {
  }

  lemma SkipKeepsInv(sz: Sizes, sys: System, s: Snapshot)
    requires Inv(sz, sys) && !Accepts(CmOf(sys.stored), s)
    ensures Inv(sz, sys.(log := sys.log + [Finished(s, Unchanged)]))
  {
    LogGrows(sz, sys.log, CmOf(sys.stored), s);
  }

  lemma StepKeepsInv(sz: Sizes, sys: System, a: Action)
    requires Inv(sz, sys)
    ensures Inv(sz, Step(sz, sys, a).0)
  {
    match a
    case Begin(w, s, getOk) =>
      if w !in sys.writers {
        if Accepts(CmOf(sys.stored), s) { BeginKeepsInv(sz, sys, w, s); } else { SkipKeepsInv(sz, sys, s); }
      }
    case Write(w, writeOk) =>
      if w in sys.writers && writeOk && Current(sys, sys.writers[w].seen) { WriteKeepsInv(sz, sys, w); }
  }

  /** Every interleaving is serial: what is stored is what the Puts that reported no
      error store when run one at a time, and each reported what it reports there. */
  lemma {:induction false} EveryInterleavingIsSerial(sz: Sizes, actions: seq<Action>, n: nat)
    requires n <= |actions|
    ensures Inv(sz, Reached(sz, actions, n))
  {
    if n > 0 {
      EveryInterleavingIsSerial(sz, actions, n - 1);
      StepKeepsInv(sz, Reached(sz, actions, n - 1), actions[n - 1]);
    }
  }

  /** After any interleaving the ConfigMap is a correct ring of the snapshots that count. */
  lemma RingSurvivesRaces(sz: Sizes, actions: seq<Action>)
    requires DistinctTimes(Collapse(Puts(Execute(sz, actions).log)))
    ensures Retained(CmOf(Execute(sz, actions).stored), Collapse(Puts(Execute(sz, actions).log)))
  {
    EveryInterleavingIsSerial(sz, actions, |actions|);
    RunIsRetained(sz, Puts(Execute(sz, actions).log));
  }

  // ---------------------------------------------------------------- who stores

  /** Step `i` begins the Put that writer `w` has under way before step `n`: it found the
      writer free, reported nothing yet, and the Put's write is still to come. */
  ghost predicate BegunAt(sz: Sizes, actions: seq<Action>, w: nat, i: nat, n: nat) {
    && i < n <= |actions| && actions[i].Begin? && actions[i].writer == w
    && w !in Reached(sz, actions, i).writers && Reported(sz, actions, i) == None
    && forall j :: i < j < n ==> !(actions[j].Write? && actions[j].writer == w)
  }

  ghost predicate NoneStored(sz: Sizes, actions: seq<Action>, i: int, n: nat)
    requires n <= |actions|
  {
    forall k :: 0 <= k && i < k < n ==> Reported(sz, actions, k) != Some(Stored)
  }

  /** What a Put under way knows, and what the others have done since. */
  lemma {:induction false} SinceItBegan(sz: Sizes, actions: seq<Action>, w: nat, i: nat, n: nat)
    requires BegunAt(sz, actions, w, i, n)
    ensures
      var before, sys := Reached(sz, actions, i), Reached(sz, actions, n);
      && w in sys.writers && sys.writers[w] == Pending(actions[i].s, before.stored)
      && sys.nextRv >= before.nextRv
      && if NoneStored(sz, actions, i, n) then sys.stored == before.stored
        else sys.stored.At? && sys.stored.rv >= before.nextRv
    decreases n
  {
    if i < n - 1 {
      SinceItBegan(sz, actions, w, i, n - 1);
      var sys, a := Reached(sz, actions, n - 1), actions[n - 1];
      assert !(a.Write? && a.writer == w);
      StoresOnlyWhenReported(sz, sys, a);
      if NoneStored(sz, actions, i, n) {
        assert NoneStored(sz, actions, i, n - 1);
        assert Reported(sz, actions, n - 1) != Some(Stored);
      } else {
        assert Reported(sz, actions, n - 1) == Some(Stored) || !NoneStored(sz, actions, i, n - 1);
      }
    }
  }

  lemma StoresOnlyWhenReported(sz: Sizes, sys: System, a: Action)
    ensures
      var (next, result) := Step(sz, sys, a);
      && next.nextRv >= sys.nextRv
      && if result == Some(Stored) then next.stored.At? && next.stored.rv == sys.nextRv else next.stored == sys.stored
  {
  }

  /** A Put that gets to its write stores its snapshot exactly when the call works and no
      other Put stored one since it began, whether it had found a ConfigMap or none. */
  lemma WriteStoresIff(sz: Sizes, actions: seq<Action>, w: nat, i: nat, n: nat)
    requires n < |actions| && actions[n].Write? && actions[n].writer == w && BegunAt(sz, actions, w, i, n)
    ensures Reported(sz, actions, n) ==
      Some(if actions[n].writeOk && NoneStored(sz, actions, i, n) then Stored else Failed)
  {
    SinceItBegan(sz, actions, w, i, n);
    EveryInterleavingIsSerial(sz, actions, i);
  }

  /** Every Put under way began at some step. */
  lemma {:induction false} UnderWayBegan(sz: Sizes, actions: seq<Action>, w: nat, n: nat) returns (i: nat)
    requires n <= |actions| && w in Reached(sz, actions, n).writers
    ensures BegunAt(sz, actions, w, i, n)
  {
    var sys, a := Reached(sz, actions, n - 1), actions[n - 1];
    if w !in sys.writers {
      i := n - 1;
    } else {
      i := UnderWayBegan(sz, actions, w, n - 1);
    }
  }

  /** Nobody in between: the two steps are a Put of the store, error for error, from any
      state in which the writer is free. */
  lemma AloneIsPut(sz: Sizes, sys: System, w: nat, s: Snapshot, answers: Answers)
    requires w !in sys.writers
    ensures
      var (begun, early) := Step(sz, sys, Begin(w, s, answers.getOk));
      var (next, late) := Step(sz, begun, Write(w, answers.writeOk));
      var result := if early.Some? then early else late;
      var stored := CmOf(sys.stored);
      && (early.Some? ==> late == None)
      && result == Some(
        if |s.content| > MAX_CONTENT_BYTES then Unchanged
        else if !answers.getOk then Failed
        else if Repeats(stored, s) then Unchanged
        else if answers.writeOk then Stored else Failed)
      && (result == Some(Stored) ==> (CmOf(next.stored), Stored) == PutSpec(sz, stored, s))
      && (result != Some(Stored) ==> next.stored == sys.stored)
      && next.writers == sys.writers
      && next.log == if result == Some(Failed) then sys.log else sys.log + [Finished(s, result.value)]
  {
    var (begun, early) := Step(sz, sys, Begin(w, s, answers.getOk));
    if early.None? { assert begun.writers - {w} == sys.writers; }
  }

  /** A Put that loses a race reports an error and leaves the ConfigMap and the log
      alone; one that wins wrote on top of exactly what is stored. */
  lemma LoserChangesNothing(sz: Sizes, actions: seq<Action>, a: Action)
    ensures
      var sys := Execute(sz, actions);
      var (next, result) := Step(sz, sys, a);
      && (result == Some(Failed) ==> next.stored == sys.stored && next.log == sys.log)
      && (next.stored != sys.stored ==> result == Some(Stored))
      && (result == Some(Stored) ==>
            && a.Write? && a.writer in sys.writers && next.stored != sys.stored
            && CmOf(next.stored) == Some(Candidate(sz, CmOf(sys.stored), sys.writers[a.writer].s)))
  {
    EveryInterleavingIsSerial(sz, actions, |actions|);
  }

  /** Of two Puts that read the same version, the second to write fails. */
  lemma OneWinnerPerVersion(sz: Sizes, actions: seq<Action>, v: nat, w: nat, ok: bool)
    requires
      var sys := Execute(sz, actions);
      v != w && v in sys.writers && w in sys.writers && sys.writers[v].seen == sys.writers[w].seen
    requires Step(sz, Execute(sz, actions), Write(v, true)).1 == Some(Stored)
    ensures Step(sz, Step(sz, Execute(sz, actions), Write(v, true)).0, Write(w, ok)).1 == Some(Failed)
  {
    EveryInterleavingIsSerial(sz, actions, |actions|);
  }
}

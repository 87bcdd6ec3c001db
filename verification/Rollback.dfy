/** A deployment's revision history: the owned ReplicaSets sorted by revision, and the one
    a rollback goes back to. */
module Rollback {
  import opened Common

  /** `revision` is the number in the revision annotation, 0 when there is none to read. */
  datatype ReplicaSet = ReplicaSet(name: string, owners: seq<string>, revision: int, template: string)

  // ---------------------------------------------------------------- ownership

  function Owned(sets: seq<ReplicaSet>, uid: string): seq<ReplicaSet> {
    if sets == [] then []
    else
      var front, rs := Owned(sets[..|sets| - 1], uid), sets[|sets| - 1];
      if uid in rs.owners then front + [rs] else front
  }

  /** Every owned set as often as it is listed, however often it names its owner. */
  lemma {:induction false} OwnedExactly(sets: seq<ReplicaSet>, uid: string, rs: ReplicaSet)
    ensures multiset(Owned(sets, uid))[rs] == if uid in rs.owners then multiset(sets)[rs] else 0
  {
    if sets != [] {
      OwnedExactly(sets[..|sets| - 1], uid, rs);
      assert sets == sets[..|sets| - 1] + [sets[|sets| - 1]];
    }
  }

  /** Each in its place, behind the owned ones listed before it. */
  lemma {:induction false} OwnedInOrder(sets: seq<ReplicaSet>, uid: string, k: nat)
    requires k < |sets| && uid in sets[k].owners
    ensures
      var n := |Owned(sets[..k], uid)|;
      n < |Owned(sets, uid)| && Owned(sets, uid)[n] == sets[k]
    decreases |sets|
  {
    var n := |sets| - 1;
    if k < n {
      OwnedInOrder(sets[..n], uid, k);
      assert sets[..n][..k] == sets[..k];
    }
  }

  method FilterOwned(sets: seq<ReplicaSet>, uid: string) returns (owned: seq<ReplicaSet>)
    ensures owned == Owned(sets, uid)
  {
    owned := [];
    for i := 0 to |sets|
      invariant owned == Owned(sets[..i], uid)
    {
      assert sets[..i + 1][..i] == sets[..i];
      var rs := sets[i];
      var isOwned := false;
      for j := 0 to |rs.owners|
        invariant !isOwned && uid !in rs.owners[..j]
      {
        if rs.owners[j] == uid { isOwned := true; break; }
        assert rs.owners[..j + 1] == rs.owners[..j] + [rs.owners[j]];
      }
      assert isOwned <==> uid in rs.owners by { assert rs.owners[..|rs.owners|] == rs.owners; }
      if isOwned { owned := owned + [rs]; }
    }
    assert sets[..|sets|] == sets;
  }

  // ---------------------------------------------------------------- the list

  ghost predicate Descending(s: seq<ReplicaSet>) {
    forall i, j :: 0 <= i < j < |s| ==> s[i].revision >= s[j].revision
  }

  method Swap(a: array<ReplicaSet>, i: nat, j: nat)
    requires i < j < a.Length
    modifies a
    ensures a[i] == old(a[j]) && a[j] == old(a[i]) && forall k :: 0 <= k < a.Length && k != i && k != j ==>
      a[k] == old(a[k])
    ensures multiset(a[..]) == multiset(old(a[..]))
  {
    a[i], a[j] := a[j], a[i];
  }

  /** No element after `i` and before `to` has a higher revision than the one at `i`. */
  ghost predicate Tops(a: array<ReplicaSet>, i: nat, to: nat)
    requires i < a.Length && to <= a.Length
    reads a
  {
    forall l :: i < l < to ==> a[i].revision >= a[l].revision
  }

  /** The inner loop: the highest of the rest ends up at `i`. */
  method BringUp(a: array<ReplicaSet>, i: nat)
    requires i < a.Length && forall k :: 0 <= k < i ==> Tops(a, k, a.Length)
    modifies a
    ensures forall k :: 0 <= k <= i ==> Tops(a, k, a.Length)
    ensures multiset(a[..]) == multiset(old(a[..]))
  {
    for j := i + 1 to a.Length
      invariant forall k :: 0 <= k < i ==> Tops(a, k, a.Length)
      invariant Tops(a, i, j)
      invariant multiset(a[..]) == multiset(old(a[..]))
    {
      if a[j].revision > a[i].revision {
        ghost var was := a[..];
        forall k, l | 0 <= k < i && k < l < a.Length ensures was[k].revision >= was[l].revision {
          assert Tops(a, k, a.Length);
        }
        Swap(a, i, j);
        forall k, l | 0 <= k < i && k < l < a.Length ensures a[k].revision >= a[l].revision {
          assert a[k] == was[k] && (a[l] == was[l] || a[l] == was[i] || a[l] == was[j]);
        }
      }
    }
  }

  /** The exchange sort, in place. */
  method SortByRevision(a: array<ReplicaSet>)
    modifies a
    ensures Descending(a[..]) && multiset(a[..]) == multiset(old(a[..]))
  {
    for i := 0 to a.Length
      invariant forall k :: 0 <= k < i ==> Tops(a, k, a.Length)
      invariant multiset(a[..]) == multiset(old(a[..]))
    {
      BringUp(a, i);
    }
    forall i, j | 0 <= i < j < a.Length ensures a[..][i].revision >= a[..][j].revision {
      assert Tops(a, i, a.Length);
    }
  }

  method ListReplicaSets(sets: seq<ReplicaSet>, uid: string) returns (list: seq<ReplicaSet>)
    ensures Descending(list) && multiset(list) == multiset(Owned(sets, uid))
  {
    var owned := FilterOwned(sets, uid);
    var a := new ReplicaSet[|owned|](i requires 0 <= i < |owned| => owned[i]);
    assert a[..] == owned;
    SortByRevision(a);
    list := a[..];
  }

  // ---------------------------------------------------------------- the choice

  /** The highest revision, at least 0. */
  function MaxRevision(owned: seq<ReplicaSet>): int {
    if owned == [] then 0
    else
      var m, r := MaxRevision(owned[..|owned| - 1]), owned[|owned| - 1].revision;
      if r > m then r else m
  }

  lemma {:induction false} MaxRevisionIsMax(owned: seq<ReplicaSet>)
    ensures MaxRevision(owned) >= 0 && forall i :: 0 <= i < |owned| ==> owned[i].revision <= MaxRevision(owned)
    ensures MaxRevision(owned) > 0 ==> exists i :: 0 <= i < |owned| && owned[i].revision == MaxRevision(owned)
  {
    if owned != [] {
      var front, last := owned[..|owned| - 1], owned[|owned| - 1];
      MaxRevisionIsMax(front);
      assert owned == front + [last];
      assert forall i :: 0 <= i < |front| ==> owned[i] == front[i];
      if last.revision > MaxRevision(front) {
        assert owned[|owned| - 1].revision == MaxRevision(owned);
      }
    }
  }

  predicate Below(owned: seq<ReplicaSet>, max: int, i: int) {
    0 <= i < |owned| && 0 < owned[i].revision < max
  }

  /** The first of the highest positive revisions below the maximum. */
  ghost predicate IsPick(owned: seq<ReplicaSet>, max: int, i: int) {
    && Below(owned, max, i)
    && (forall k :: Below(owned, max, k) ==> owned[k].revision <= owned[i].revision)
    && (forall k :: 0 <= k < i ==> owned[k].revision != owned[i].revision)
  }

  /** The two loops over the owned sets: where the pick is. */
  method Pick(owned: seq<ReplicaSet>) returns (pick: Option<nat>)
    ensures pick.Some? ==> IsPick(owned, MaxRevision(owned), pick.value)
    ensures pick.None? ==> forall k :: !Below(owned, MaxRevision(owned), k)
  {
    var maxRev, prevRev := 0, 0;
    for i := 0 to |owned|
      invariant maxRev == MaxRevision(owned[..i])
    {
      assert owned[..i + 1][..i] == owned[..i];
      if owned[i].revision > maxRev { maxRev := owned[i].revision; }
    }
    assert owned[..|owned|] == owned;
    pick := None;
    for i := 0 to |owned|
      invariant pick.None? ==> prevRev == 0
      invariant pick.Some? ==>
        pick.value < i && Below(owned, maxRev, pick.value) && prevRev == owned[pick.value].revision
      invariant forall k :: 0 <= k < i && Below(owned, maxRev, k) ==> owned[k].revision <= prevRev
      invariant pick.Some? ==> forall k :: 0 <= k < pick.value ==> owned[k].revision != prevRev
    {
      if owned[i].revision < maxRev && owned[i].revision > prevRev {
        prevRev, pick := owned[i].revision, Some(i);
      }
    }
  }

  /** There is something to go back to exactly when two owned sets have different positive
      revisions. */
  ghost predicate TwoRevisions(owned: seq<ReplicaSet>) {
    exists a, b :: a in owned && b in owned && 0 < a.revision < b.revision
  }

  lemma PickExistsIff(owned: seq<ReplicaSet>)
    ensures (exists k :: Below(owned, MaxRevision(owned), k)) <==> TwoRevisions(owned)
  {
    MaxRevisionIsMax(owned);
    if k :| Below(owned, MaxRevision(owned), k) {
      var j :| 0 <= j < |owned| && owned[j].revision == MaxRevision(owned);
      assert owned[k] in owned && owned[j] in owned;
    }
    if a, b :| a in owned && b in owned && 0 < a.revision < b.revision {
      var i :| 0 <= i < |owned| && owned[i] == a;
      var j :| 0 <= j < |owned| && owned[j] == b;
      assert Below(owned, MaxRevision(owned), i);
    }
  }

  class Deployment {
    const uid: string
    var template: string

    constructor (uid: string, template: string)
      ensures this.uid == uid && this.template == template
    {
      this.uid, this.template := uid, template;
    }

    /** `got`, `listed` and `patched` are the three calls' outcomes. */
    method RollBack(sets: seq<ReplicaSet>, got: bool, listed: bool, patched: bool) returns (ok: bool)
      modifies this
      ensures ok <==> got && listed && patched && TwoRevisions(Owned(sets, uid))
      ensures !ok ==> template == old(template)
      ensures ok ==> exists i ::
        IsPick(Owned(sets, uid), MaxRevision(Owned(sets, uid)), i) && template == Owned(sets, uid)[i].template
    {
      if !got || !listed { return false; }
      var owned := FilterOwned(sets, uid);
      PickExistsIff(owned);
      if |owned| < 2 {
        assert forall a, b :: a in owned && b in owned ==> a == b;
        return false;
      }
      var pick := Pick(owned);
      if pick.None? || !patched { return false; }
      template := owned[pick.value].template;
      return true;
    }
  }

  // ---------------------------------------------------------------- the choice and the list

  lemma SameMembers(a: seq<ReplicaSet>, b: seq<ReplicaSet>, i: nat) returns (j: nat)
    requires multiset(a) == multiset(b) && i < |a|
    ensures j < |b| && b[j] == a[i]
  {
    assert a[i] in multiset(a) && a[i] in multiset(b);
    j :| 0 <= j < |b| && b[j] == a[i];
  }

  lemma ListStartsAtMax(owned: seq<ReplicaSet>, list: seq<ReplicaSet>)
    requires Descending(list) && multiset(list) == multiset(owned) && |list| > 0 && MaxRevision(owned) > 0
    ensures list[0].revision == MaxRevision(owned)
  {
    MaxRevisionIsMax(owned);
    var i :| 0 <= i < |owned| && owned[i].revision == MaxRevision(owned);
    var j := SameMembers(owned, list, i);
    var k := SameMembers(list, owned, 0);
  }

  /** In the sorted list the pick's revision is that of the first entry below the head. */
  lemma PickIsFirstBelowHead(owned: seq<ReplicaSet>, list: seq<ReplicaSet>, i: int, n: nat)
    requires Descending(list) && multiset(list) == multiset(owned)
    requires n < |list| && list[n].revision < list[0].revision && forall k :: 0 <= k < n ==>
      list[k].revision == list[0].revision
    requires IsPick(owned, MaxRevision(owned), i)
    ensures list[n].revision == owned[i].revision
  {
    ListStartsAtMax(owned, list);
    var j := SameMembers(owned, list, i);
    var k := SameMembers(list, owned, n);
    assert j >= n;
    assert Below(owned, MaxRevision(owned), k);
  }

  /** With distinct positive revisions, and at least two sets, rollback goes back to the
      second entry of the list. */
  lemma PickIsSecond(owned: seq<ReplicaSet>, list: seq<ReplicaSet>)
    requires Descending(list) && multiset(list) == multiset(owned) && |list| >= 2
    requires forall k :: 0 <= k < |list| ==> list[k].revision > 0
    requires forall k, l :: 0 <= k < l < |list| ==> list[k].revision != list[l].revision
    ensures exists k :: Below(owned, MaxRevision(owned), k)
    ensures forall i :: IsPick(owned, MaxRevision(owned), i) ==> owned[i] == list[1]
  {
    var h := SameMembers(list, owned, 0);
    var s := SameMembers(list, owned, 1);
    assert list[1].revision < list[0].revision;
    PickExistsIff(owned);
    assert owned[s] in owned && owned[h] in owned;
    forall i | IsPick(owned, MaxRevision(owned), i) ensures owned[i] == list[1] {
      PickIsFirstBelowHead(owned, list, i, 1);
      var j := SameMembers(owned, list, i);
    }
  }

  /** A revision that cannot be read counts as 0 and is never gone back to, even when it is
      the only other set. */
  lemma UnreadableRevisionIsNoTarget(a: ReplicaSet, b: ReplicaSet)
    requires a.revision <= 0
    ensures forall k :: !Below([a, b], MaxRevision([a, b]), k) && !Below([b, a], MaxRevision([b, a]), k)
  {
    PickExistsIff([a, b]);
    PickExistsIff([b, a]);
  }
}

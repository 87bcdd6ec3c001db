/** Who changed a resource: each snapshot of a timeline is credited to an audit entry. */
module DriftTimeline {
  import opened Common
  import opened SnapshotStore
  import AuditRing
  import SliceSort

  const AUDIT_LIMIT := 2000

  datatype Origin = Initial | External | KubeUI(changedBy: string, changedVia: string)

  datatype Attributed = Attributed(row: Row, origin: Origin)

  /** A successful entry for the resource in the window (after, upTo]. */
  predicate Matches(e: AuditRing.Entry, ref: Ref, after: int, upTo: int) {
    e.status < 300 && e.kind == ref.kind && e.ns == ref.ns && e.name == ref.name && after < e.timestamp <= upTo
  }

  /** The position of the first match, |entries| if there is none. */
  function FirstMatch(entries: seq<AuditRing.Entry>, ref: Ref, after: int, upTo: int, from: nat): (k: nat)
    requires from <= |entries|
    ensures from <= k <= |entries|
    ensures k < |entries| ==> Matches(entries[k], ref, after, upTo)
    decreases |entries| - from
  {
    if from == |entries| || Matches(entries[from], ref, after, upTo) then from
    else FirstMatch(entries, ref, after, upTo, from + 1)
  }

  lemma {:induction false} FirstMatchIsFirst(entries: seq<AuditRing.Entry>, ref: Ref, after: int, upTo: int, from: nat)
    requires from <= |entries|
    ensures forall j :: from <= j < FirstMatch(entries, ref, after, upTo, from) ==>
      !Matches(entries[j], ref, after, upTo)
    decreases |entries| - from
  {
    if from < |entries| && !Matches(entries[from], ref, after, upTo) {
      FirstMatchIsFirst(entries, ref, after, upTo, from + 1);
    }
  }

  method MatchAudit(entries: seq<AuditRing.Entry>, ref: Ref, after: int, upTo: int) returns (k: nat)
    ensures k == FirstMatch(entries, ref, after, upTo, 0)
  {
    k := 0;
    while k < |entries|
      invariant k <= |entries| && FirstMatch(entries, ref, after, upTo, k) == FirstMatch(entries, ref, after, upTo, 0)
    {
      var e := entries[k];
      if e.status >= 300 || e.kind != ref.kind || e.ns != ref.ns || e.name != ref.name {
        k := k + 1;
        continue;
      }
      if e.timestamp > after && !(e.timestamp > upTo) { return; }
      k := k + 1;
    }
  }

  /** The position of the entry row `i` is credited to, |audits| for none. */
  function Credit(rows: seq<Row>, audits: seq<AuditRing.Entry>, ref: Ref, i: nat): nat
    requires i + 1 < |rows|
  {
    FirstMatch(audits, ref, rows[i + 1].taken, rows[i].taken, 0)
  }

  function OriginOf(rows: seq<Row>, audits: seq<AuditRing.Entry>, ref: Ref, i: nat): Origin
    requires i < |rows|
  {
    if i + 1 == |rows| then Initial
    else
      var k := Credit(rows, audits, ref, i);
      if k == |audits| then External
      else KubeUI(if audits[k].email == "" then audits[k].user else audits[k].email, audits[k].action)
  }

  method Attribute(rows: seq<Row>, audits: seq<AuditRing.Entry>, ref: Ref) returns (out: seq<Attributed>)
    ensures |out| == |rows|
    ensures forall i :: 0 <= i < |rows| ==> out[i] == Attributed(rows[i], OriginOf(rows, audits, ref, i))
  {
    out := [];
    for i := 0 to |rows|
      invariant |out| == i
      invariant forall j :: 0 <= j < i ==> out[j] == Attributed(rows[j], OriginOf(rows, audits, ref, j))
    {
      var origin := External;
      if i == |rows| - 1 {
        origin := Initial;
      } else {
        var k := MatchAudit(audits, ref, rows[i + 1].taken, rows[i].taken);
        if k < |audits| {
          var who := audits[k].email;
          if who == "" { who := audits[k].user; }
          origin := KubeUI(who, audits[k].action);
        }
      }
      out := out + [Attributed(rows[i], origin)];
    }
  }

  datatype Response = BadRequest | StoreError | Rows(rows: seq<Attributed>)

  function RowsIn(out: seq<Attributed>): (rows: seq<Row>)
    ensures |rows| == |out|
  {
    seq(|out|, i requires 0 <= i < |out| => out[i].row)
  }

  class DriftHandler {
    const store: ConfigMapStore
    const audit: AuditRing.MemoryStore?

    constructor (store: ConfigMapStore, audit: AuditRing.MemoryStore?)
      ensures this.store == store && this.audit == audit
    {
      this.store, this.audit := store, audit;
    }

    /** Without a kind and a name the request is refused, and a failing read is an error.
        The snapshots come newest first, in whatever order the index has them, and are
        credited to the entries of the audit ring. */
    method Timeline(ref: Ref, getOk: bool) returns (out: Response)
      ensures out == BadRequest <==> ref.kind == "" || ref.name == ""
      ensures out == StoreError <==> ref.kind != "" && ref.name != "" && !getOk
      ensures out.Rows? ==>
        var rows, found := RowsIn(out.rows), store.Find(ref);
        var audits := if audit == null then [] else AuditRing.Page(audit.entries, AUDIT_LIMIT, 0);
        && multiset(rows) == (if found.Some? then multiset(RowsOf(found.value, ref, IndexOf(found.value)))
          else multiset{})
        && NewestFirst(rows)
        && (found.Some? && Increasing(IndexOf(found.value)) ==>
          rows == Reverse(RowsOf(found.value, ref, IndexOf(found.value))))
        && forall i :: 0 <= i < |rows| ==> out.rows[i].origin == OriginOf(rows, audits, ref, i)
    {
      if ref.kind == "" || ref.name == "" { return BadRequest; }
      var rows := store.Timeline(ref, getOk);
      if rows.None? { return StoreError; }
      var audits := [];
      if audit != null {
        var total: nat;
        audits, total := audit.List(AUDIT_LIMIT, 0);
      }
      var attributed := Attribute(rows.value, audits, ref);
      assert RowsIn(attributed) == rows.value;
      OrderedIsNewestFirst(rows.value);
      return Rows(attributed);
    }
  }

  // ---------------------------------------------------------------- the windows

  ghost predicate NewestFirst(rows: seq<Row>) {
    forall i, j :: 0 <= i < j < |rows| ==> rows[i].taken >= rows[j].taken
  }

  lemma OrderedIsNewestFirst(rows: seq<Row>)
    requires SliceSort.Ordered(rows, NewerFirst)
    ensures NewestFirst(rows)
  {
    forall i, j | 0 <= i < j < |rows| ensures rows[i].taken >= rows[j].taken { assert !NewerFirst(rows[j], rows[i]); }
  }

  predicate InWindow(rows: seq<Row>, i: nat, t: int) {
    i + 1 < |rows| && rows[i + 1].taken < t <= rows[i].taken
  }

  /** The windows of a timeline partition the time it spans. */
  lemma WindowsPartition(rows: seq<Row>, t: int) returns (i: nat)
    requires NewestFirst(rows) && |rows| >= 1 && rows[|rows| - 1].taken < t <= rows[0].taken
    ensures InWindow(rows, i, t) && forall j: nat :: InWindow(rows, j, t) ==> j == i
  {
    i := 0;
    while t <= rows[i + 1].taken
      invariant i + 1 < |rows| && t <= rows[i].taken
      decreases |rows| - i
    {
      i := i + 1;
    }
    forall j: nat | j < i ensures !InWindow(rows, j, t) { assert rows[j + 1].taken >= rows[i].taken; }
    forall j: nat | i < j < |rows| ensures !InWindow(rows, j, t) { assert rows[i + 1].taken >= rows[j].taken; }
  }

  /** No entry is credited to two snapshots. */
  lemma NoEntryCreditedTwice(rows: seq<Row>, audits: seq<AuditRing.Entry>, ref: Ref, i: nat, j: nat)
    requires NewestFirst(rows) && i < j && j + 1 < |rows|
    requires Credit(rows, audits, ref, i) < |audits|
    ensures Credit(rows, audits, ref, i) != Credit(rows, audits, ref, j)
  {
    assert rows[i + 1].taken >= rows[j].taken;
  }

  /** An audit listing in order of time, newest first. */
  ghost predicate TimesFall(audits: seq<AuditRing.Entry>) {
    forall i, j :: 0 <= i < j < |audits| ==> audits[i].timestamp >= audits[j].timestamp
  }

  /** A snapshot but the oldest is external exactly when no listed entry matches in its
      window; otherwise the credited one is the first that does, and the newest when the
      listing is in order of time. */
  lemma CreditIsTheNewestMatch(rows: seq<Row>, audits: seq<AuditRing.Entry>, ref: Ref, i: nat, k: nat)
    requires i + 1 < |rows|
    ensures OriginOf(rows, audits, ref, i) == External <==>
      forall e :: e in audits ==> !Matches(e, ref, rows[i + 1].taken, rows[i].taken)
    ensures k < |audits| && Matches(audits[k], ref, rows[i + 1].taken, rows[i].taken) ==>
      Credit(rows, audits, ref, i) <= k
        && (TimesFall(audits) ==> audits[Credit(rows, audits, ref, i)].timestamp >= audits[k].timestamp)
  {
    FirstMatchIsFirst(audits, ref, rows[i + 1].taken, rows[i].taken, 0);
    var c := Credit(rows, audits, ref, i);
    if c < |audits| {
      assert audits[c] in audits;
    } else {
      forall e | e in audits ensures !Matches(e, ref, rows[i + 1].taken, rows[i].taken) {
        var j :| 0 <= j < |audits| && audits[j] == e;
      }
    }
  }

  /** A successful change of this resource through KubeUI, after the older row and no later than
      the newer. */
  predicate ChangedBetween(e: AuditRing.Entry, ref: Ref, older: Row, newer: Row) {
    && e.status < 300 && (e.kind, e.ns, e.name) == (ref.kind, ref.ns, ref.name)
    && older.taken < e.timestamp && e.timestamp <= newer.taken
  }

  /** What a row's origin tells: the oldest is initial; another names who made the first listed
      change between it and the one before, and through what action; and is external exactly when
      no such change is listed. */
  lemma OriginTells(rows: seq<Row>, audits: seq<AuditRing.Entry>, ref: Ref, i: nat)
    requires i < |rows|
    ensures OriginOf(rows, audits, ref, i) == Initial <==> i == |rows| - 1
    ensures i + 1 < |rows| ==>
      match OriginOf(rows, audits, ref, i)
      case Initial => false
      case External => forall e :: e in audits ==> !ChangedBetween(e, ref, rows[i + 1], rows[i])
      case KubeUI(changedBy, changedVia) =>
        exists k :: 0 <= k < |audits| && ChangedBetween(audits[k], ref, rows[i + 1], rows[i])
          && (forall j :: 0 <= j < k ==> !ChangedBetween(audits[j], ref, rows[i + 1], rows[i]))
          && changedVia == audits[k].action
          && changedBy == (if audits[k].email != "" then audits[k].email else audits[k].user)
  {
    if i + 1 < |rows| {
      CreditIsTheNewestMatch(rows, audits, ref, i, 0);
      FirstMatchIsFirst(audits, ref, rows[i + 1].taken, rows[i].taken, 0);
      var k := Credit(rows, audits, ref, i);
      forall e | e in audits
        ensures Matches(e, ref, rows[i + 1].taken, rows[i].taken) <==> ChangedBetween(e, ref, rows[i + 1], rows[i])
      {
      }
      if k < |audits| {
        assert audits[k] in audits;
        forall j | 0 <= j < k ensures !ChangedBetween(audits[j], ref, rows[i + 1], rows[i]) {
          assert audits[j] in audits;
        }
      }
    }
  }

  /** Every change made through KubeUI between two snapshots, and still listed, is credited
      or beaten to it by a newer one: the snapshot of its window is not external. */
  lemma ListedChangeIsNotExternal(rows: seq<Row>, audits: seq<AuditRing.Entry>, ref: Ref, e: AuditRing.Entry)
    returns (i: nat)
    requires NewestFirst(rows) && |rows| >= 1
    requires e in audits && ChangedBetween(e, ref, rows[|rows| - 1], rows[0])
    ensures InWindow(rows, i, e.timestamp) && OriginOf(rows, audits, ref, i).KubeUI?
  {
    i := WindowsPartition(rows, e.timestamp);
    CreditIsTheNewestMatch(rows, audits, ref, i, 0);
  }

  lemma {:induction false} PageLists(entries: seq<AuditRing.Entry>, limit: nat, offset: nat, e: AuditRing.Entry)
    requires offset + limit >= |entries| && offset <= |entries|
    ensures e in AuditRing.Page(entries, limit, offset) <==> e in entries[..|entries| - offset]
    decreases limit
  {
    if limit > 0 && offset < |entries| {
      PageLists(entries, limit - 1, offset + 1, e);
      var n := |entries| - offset;
      assert entries[..n] == entries[..n - 1] + [entries[n - 1]];
    }
  }

  /** A ring of the default capacity is listed whole, so nothing in it is overlooked. */
  lemma ExternalByTheRing(rows: seq<Row>, ring: seq<AuditRing.Entry>, ref: Ref, i: nat)
    requires i + 1 < |rows| && |ring| <= AuditRing.DEFAULT_CAPACITY
    ensures OriginOf(rows, AuditRing.Page(ring, AUDIT_LIMIT, 0), ref, i) == External <==>
      forall e :: e in ring ==> !Matches(e, ref, rows[i + 1].taken, rows[i].taken)
  {
    CreditIsTheNewestMatch(rows, AuditRing.Page(ring, AUDIT_LIMIT, 0), ref, i, 0);
    forall e ensures e in AuditRing.Page(ring, AUDIT_LIMIT, 0) <==> e in ring {
      PageLists(ring, AUDIT_LIMIT, 0, e);
      assert ring[..|ring|] == ring;
    }
  }
}

/** The two normalisers over JSON objects: the GitOps plan compares copies without
    server-owned fields, the snapshot store strips an object in place before hashing it. */
module Strip {
  import opened Common

  /** Map keys; the ones either normaliser knows by name are constructors of their own. */
  datatype Key =
    | Status | Metadata
    | ManagedFields | ResourceVersion | Uid | Generation | CreationTimestamp | SelfLink
    | Annotations
    | LastApplied | Revision
    | Other(name: string)

  datatype Json = Null | Bool(b: bool) | Num(n: int) | Str(s: string) | Arr(items: seq<Json>) | Obj(fields: Fields)

  type Fields = map<Key, Json>

  const META_NOISE := {ManagedFields, ResourceVersion, Uid, Generation, CreationTimestamp, SelfLink}

  // ---------------------------------------------------------------- what is left of an object

  predicate HasObject(o: Fields, k: Key) {
    k in o && o[k].Obj?
  }

  /** Metadata without its noise and the given annotations; annotations left empty go too. */
  function CleanMetadata(md: Fields, noise: set<Key>): Fields {
    var m := md - META_NOISE;
    if !HasObject(m, Annotations) then m
    else
      var ann := m[Annotations].fields - noise;
      if ann == map[] then m - {Annotations} else m[Annotations := Obj(ann)]
  }

  function Clean(o: Fields, noise: set<Key>): Fields {
    var c := o - {Status};
    if HasObject(c, Metadata) then c[Metadata := Obj(CleanMetadata(c[Metadata].fields, noise))] else c
  }

  const PLAN_NOISE: set<Key> := {LastApplied}
  const SNAPSHOT_NOISE: set<Key> := {LastApplied, Revision}

  function ForDiff(o: Fields): Fields { Clean(o, PLAN_NOISE) }

  function Stripped(o: Fields): Fields { Clean(o, SNAPSHOT_NOISE) }

  // ---------------------------------------------------------------- laws

  lemma CleanMetadataComposes(md: Fields, a: set<Key>, b: set<Key>)
    ensures CleanMetadata(CleanMetadata(md, a), b) == CleanMetadata(md, a + b)
  {
    var m := md - META_NOISE;
    if HasObject(m, Annotations) {
      var ann := m[Annotations].fields;
      assert (ann - a) - b == ann - (a + b);
      if ann - a == map[] {
        assert ann - (a + b) == map[];
        assert (m - {Annotations}) - META_NOISE == m - {Annotations};
      } else {
        assert m[Annotations := Obj(ann - a)] - META_NOISE == m[Annotations := Obj(ann - a)];
        assert m[Annotations := Obj(ann - a)] - {Annotations} == m - {Annotations};
      }
    } else {
      assert m - META_NOISE == m;
    }
  }

  /** Cleaning twice is cleaning once of both sets of annotations. */
  lemma CleanComposes(o: Fields, a: set<Key>, b: set<Key>)
    ensures Clean(Clean(o, a), b) == Clean(o, a + b)
  {
    var c := o - {Status};
    if HasObject(c, Metadata) {
      CleanMetadataComposes(c[Metadata].fields, a, b);
      var md := Obj(CleanMetadata(c[Metadata].fields, a));
      assert c[Metadata := md] - {Status} == c[Metadata := md];
    } else {
      assert c - {Status} == c;
    }
  }

  lemma NormalisersAreIdempotent(o: Fields)
    ensures ForDiff(ForDiff(o)) == ForDiff(o)
    ensures Stripped(Stripped(o)) == Stripped(o)
  {
    CleanComposes(o, PLAN_NOISE, PLAN_NOISE);
    CleanComposes(o, SNAPSHOT_NOISE, SNAPSHOT_NOISE);
    assert PLAN_NOISE + PLAN_NOISE == PLAN_NOISE && SNAPSHOT_NOISE + SNAPSHOT_NOISE == SNAPSHOT_NOISE;
  }

  /** Each normaliser absorbs the plan's. */
  lemma StripAbsorbsForDiff(o: Fields)
    ensures Stripped(ForDiff(o)) == Stripped(o) == ForDiff(Stripped(o))
  {
    CleanComposes(o, PLAN_NOISE, SNAPSHOT_NOISE);
    CleanComposes(o, SNAPSHOT_NOISE, PLAN_NOISE);
    assert PLAN_NOISE + SNAPSHOT_NOISE == SNAPSHOT_NOISE == SNAPSHOT_NOISE + PLAN_NOISE;
  }

  /** The value of the revision annotation. */
  function RevisionIn(md: Fields): Option<Json> {
    if HasObject(md, Annotations) && Revision in md[Annotations].fields then Some(md[Annotations].fields[Revision])
      else None
  }

  function RevisionOf(o: Fields): Option<Json> {
    if HasObject(o, Metadata) then RevisionIn(o[Metadata].fields) else None
  }

  /** Metadata with a revision annotation put back. */
  function WithRevision(md: Fields, v: Json): Fields {
    md[Annotations := Obj((if HasObject(md, Annotations) then md[Annotations].fields else map[])[Revision := v])]
  }

  lemma AnnotationsLessRevision(ann: Fields)
    ensures
      if Revision in ann then ann - PLAN_NOISE == (ann - SNAPSHOT_NOISE)[Revision := ann[Revision]]
      else ann - PLAN_NOISE == ann - SNAPSHOT_NOISE
  {
  }

  /** The plan's metadata is the snapshot's with the revision put back. */
  lemma PlanMetadata(md: Fields)
    ensures
      var snapshot := CleanMetadata(md, SNAPSHOT_NOISE);
      CleanMetadata(md, PLAN_NOISE) == if RevisionIn(md).Some? then WithRevision(snapshot, RevisionIn(md).value)
        else snapshot
  {
    var m := md - META_NOISE;
    if HasObject(m, Annotations) {
      var ann := m[Annotations].fields;
      AnnotationsLessRevision(ann);
      if RevisionIn(md).Some? {
        var plan := (ann - SNAPSHOT_NOISE)[Revision := ann[Revision]];
        assert plan != map[] by { assert Revision in plan; }
        assert (m - {Annotations})[Annotations := Obj(plan)] == m[Annotations := Obj(plan)];
        if ann - SNAPSHOT_NOISE == map[] {
          assert plan == map[Revision := ann[Revision]];
        } else {
          assert m[Annotations := Obj(ann - SNAPSHOT_NOISE)][Annotations := Obj(plan)] == m[Annotations := Obj(plan)];
        }
      }
    }
  }

  /** Each of the two metadata texts, and the revision, in terms of the others. */
  lemma MetadataEqualIff(a: Fields, b: Fields)
    ensures CleanMetadata(a, PLAN_NOISE) == CleanMetadata(b, PLAN_NOISE) <==>
      CleanMetadata(a, SNAPSHOT_NOISE) == CleanMetadata(b, SNAPSHOT_NOISE) && RevisionIn(a) == RevisionIn(b)
  {
    PlanMetadata(a);
    PlanMetadata(b);
    CleanKeepsRevision(a);
    CleanKeepsRevision(b);
    CleanMetadataComposes(a, PLAN_NOISE, SNAPSHOT_NOISE);
    CleanMetadataComposes(b, PLAN_NOISE, SNAPSHOT_NOISE);
    assert PLAN_NOISE + SNAPSHOT_NOISE == SNAPSHOT_NOISE;
  }

  lemma CleanKeepsRevision(md: Fields)
    ensures RevisionIn(CleanMetadata(md, PLAN_NOISE)) == RevisionIn(md)
  {
    var m := md - META_NOISE;
    if HasObject(m, Annotations) {
      var ann := m[Annotations].fields;
      assert Revision in ann ==> Revision in ann - PLAN_NOISE;
    }
  }

  /** Objects the plan considers equal get the same snapshot text, so the same hash; and two
      objects with the same snapshot are equal to the plan exactly when their revision
      annotations agree. */
  lemma PlanEqualSnapshotsAgree(a: Fields, b: Fields)
    ensures ForDiff(a) == ForDiff(b) ==> Stripped(a) == Stripped(b)
    ensures ForDiff(a) == ForDiff(b) <==> Stripped(a) == Stripped(b) && RevisionOf(a) == RevisionOf(b)
  {
    var c, d := a - {Status}, b - {Status};
    if HasObject(c, Metadata) && HasObject(d, Metadata) {
      var m, n := c[Metadata].fields, d[Metadata].fields;
      MetadataEqualIff(m, n);
      CleanParts(a, PLAN_NOISE);
      CleanParts(b, PLAN_NOISE);
      CleanParts(a, SNAPSHOT_NOISE);
      CleanParts(b, SNAPSHOT_NOISE);
      SameParts(ForDiff(a), ForDiff(b));
      SameParts(Stripped(a), Stripped(b));
    } else {
      KeepsObject(a);
      KeepsObject(b);
    }
  }

  /** A cleaned object is its cleaned metadata and everything beside it. */
  lemma CleanParts(o: Fields, noise: set<Key>)
    requires HasObject(o, Metadata)
    ensures HasObject(Clean(o, noise), Metadata)
    ensures Clean(o, noise)[Metadata] == Obj(CleanMetadata(o[Metadata].fields, noise))
    ensures Clean(o, noise) - {Metadata} == o - {Status, Metadata}
  {
  }

  lemma SameParts(a: Fields, b: Fields)
    requires Metadata in a && Metadata in b
    ensures a == b <==> a[Metadata] == b[Metadata] && a - {Metadata} == b - {Metadata}
  {
    if a[Metadata] == b[Metadata] && a - {Metadata} == b - {Metadata} {
      assert a == (a - {Metadata})[Metadata := a[Metadata]];
      assert b == (b - {Metadata})[Metadata := b[Metadata]];
    }
  }

  lemma KeepsObject(o: Fields)
    ensures HasObject(ForDiff(o), Metadata) == HasObject(o, Metadata) == HasObject(Stripped(o), Metadata)
  {
  }

  /** Annotations that hold only noise count as no annotations. */
  lemma OnlyNoiseIsNoAnnotations(md: Fields, noise: set<Key>)
    requires HasObject(md, Annotations) && md[Annotations].fields.Keys <= noise
    ensures CleanMetadata(md, noise) == CleanMetadata(md - {Annotations}, noise)
  {
    assert md[Annotations].fields - noise == map[];
    assert (md - META_NOISE) - {Annotations} == (md - {Annotations}) - META_NOISE;
  }

  function RevisionOnly(v: Json): Fields {
    map[Metadata := Obj(map[Annotations := Obj(map[Revision := v])])]
  }

  lemma CleanOnlyRevision(v: Json)
    ensures ForDiff(RevisionOnly(v)) == RevisionOnly(v)
    ensures Stripped(RevisionOnly(v)) == map[Metadata := Obj(map[])]
  {
    var o, x := RevisionOnly(v), map[Revision := v];
    var m := map[Annotations := Obj(x)];
    assert x - PLAN_NOISE == x && x - SNAPSHOT_NOISE == map[];
    assert m - META_NOISE == m && m - {Annotations} == map[] && m[Annotations := Obj(x)] == m;
    assert o - {Status} == o;
  }

  /** The converse fails: a new revision annotation alone is a change to the plan and none
      to the snapshots. */
  lemma RevisionChangesOnlyThePlan(x: Json, y: Json)
    requires x != y
    ensures ForDiff(RevisionOnly(x)) != ForDiff(RevisionOnly(y))
      && Stripped(RevisionOnly(x)) == Stripped(RevisionOnly(y))
  {
    CleanOnlyRevision(x);
    CleanOnlyRevision(y);
    assert RevisionOnly(x)[Metadata].fields[Annotations].fields[Revision] == x;
    assert RevisionOnly(y)[Metadata].fields[Annotations].fields[Revision] == y;
  }

  // ---------------------------------------------------------------- by paths

  /** The value at a path through nested objects, when there is one and it is no object. */
  function LeafAt(o: Fields, path: seq<Key>): Option<Json>
    decreases |path|
  {
    if path == [] || path[0] !in o then None
    else
      var v := o[path[0]];
      if v.Obj? then LeafAt(v.fields, path[1..])
      else if |path| == 1 then Some(v) else None
  }

  predicate NoisePath(path: seq<Key>, noise: set<Key>) {
    || (|path| >= 1 && path[0] == Status)
    || (|path| >= 2 && path[0] == Metadata &&
        path[1] in {ManagedFields, ResourceVersion, Uid, Generation, CreationTimestamp, SelfLink})
    || (|path| >= 3 && path[0] == Metadata && path[1] == Annotations && path[2] in noise)
  }

  lemma CleanMetadataLeaves(md: Fields, noise: set<Key>, path: seq<Key>)
    requires path != []
    ensures LeafAt(CleanMetadata(md, noise), path) ==
      if path[0] in META_NOISE then None
      else if |path| >= 2 && path[0] == Annotations && path[1] in noise && HasObject(md, Annotations) then None
      else LeafAt(md, path)
  {
    var m := md - META_NOISE;
    if HasObject(m, Annotations) && path[0] == Annotations {
      var ann := m[Annotations].fields;
      var rest := path[1..];
      assert LeafAt(md, path) == LeafAt(ann, rest);
      if rest != [] && rest[0] !in noise {
        assert LeafAt(ann - noise, rest) == LeafAt(ann, rest);
      }
    }
  }

  /** Nothing but noise is lost, nothing is added or changed: the leaves of a cleaned object
      are those of the object at every path that is not noise. */
  lemma CleanKeepsEveryOtherLeaf(o: Fields, noise: set<Key>, path: seq<Key>)
    ensures LeafAt(Clean(o, noise), path) == if NoisePath(path, noise) then None else LeafAt(o, path)
  {
    var c := o - {Status};
    if path != [] && path[0] == Metadata && HasObject(c, Metadata) {
      var md, rest := c[Metadata].fields, path[1..];
      assert LeafAt(o, path) == LeafAt(md, rest);
      if rest != [] {
        CleanMetadataLeaves(md, noise, rest);
      }
    }
  }

  // ---------------------------------------------------------------- the maps in the heap

  /** Only the maps on the way to the annotations are written; everything below and beside
      them is a value.  A nested map is an object of its own, shared by whoever holds it. */
  function Elements(keys: seq<Key>): set<Key> {
    set k | k in keys
  }

  lemma ElementsStep(keys: seq<Key>, i: nat)
    requires i < |keys|
    ensures Elements(keys[..i + 1]) == Elements(keys[..i]) + {keys[i]}
  {
    assert keys[..i + 1] == keys[..i] + [keys[i]];
  }

  class AnnotationMap {
    var entries: Fields

    constructor (entries: Fields)
      ensures this.entries == entries
    {
      this.entries := entries;
    }
  }

  class MetadataMap {
    /** All entries but the annotation map, which is null when there is none. */
    var entries: Fields
    var annotations: AnnotationMap?

    ghost predicate Valid()
      reads this
    {
      !HasObject(entries, Annotations) && (annotations != null ==> Annotations !in entries)
    }

    function Value(): Fields
      reads this, annotations
    {
      if annotations == null then entries else entries[Annotations := Obj(annotations.entries)]
    }

    constructor (entries: Fields, annotations: AnnotationMap?)
      ensures this.entries == entries && this.annotations == annotations
    {
      this.entries, this.annotations := entries, annotations;
    }

    method DeepCopy() returns (c: MetadataMap)
      requires Valid()
      ensures fresh(c) && c.Valid() && c.Value() == Value()
      ensures c.annotations != null ==> fresh(c.annotations)
    {
      var ann: AnnotationMap? := null;
      if annotations != null { ann := new AnnotationMap(annotations.entries); }
      c := new MetadataMap(entries, ann);
    }

    /** The key list both normalisers delete. */
    method DeleteAll(keys: seq<Key>)
      requires Valid() && Annotations !in Elements(keys)
      modifies this
      ensures Valid() && annotations == old(annotations)
      ensures entries == old(entries) - Elements(keys)
    {
      for i := 0 to |keys|
        invariant entries == old(entries) - Elements(keys[..i])
        invariant annotations == old(annotations)
      {
        ElementsStep(keys, i);
        entries := entries - {keys[i]};
      }
      assert keys[..|keys|] == keys;
    }
  }

  class ObjectMap {
    var entries: Fields
    var metadata: MetadataMap?

    ghost predicate Valid()
      reads this, metadata
    {
      && !HasObject(entries, Metadata) && (metadata != null ==> Metadata !in entries)
      && (metadata != null ==> metadata.Valid())
    }

    function Value(): Fields
      reads this, metadata, if metadata == null then null else metadata.annotations
    {
      if metadata == null then entries else entries[Metadata := Obj(metadata.Value())]
    }

    constructor (entries: Fields, metadata: MetadataMap?)
      ensures this.entries == entries && this.metadata == metadata
    {
      this.entries, this.metadata := entries, metadata;
    }

    method DeepCopy() returns (c: ObjectMap)
      requires Valid()
      ensures fresh(c) && c.Valid() && c.Value() == Value()
      ensures c.metadata != null ==>
        fresh(c.metadata) && (c.metadata.annotations != null ==> fresh(c.metadata.annotations))
    {
      var md: MetadataMap? := null;
      if metadata != null { md := metadata.DeepCopy(); }
      c := new ObjectMap(entries, md);
    }
  }

  /** Removes keys from the metadata's maps, and annotations that become empty. */
  method CleanMetadataMap(md: MetadataMap, keys: seq<Key>, noise: seq<Key>)
    requires md.Valid()
    requires Elements(keys) == META_NOISE
    modifies md, md.annotations
    ensures md.Valid() && md.Value() == CleanMetadata(old(md.Value()), Elements(noise))
    ensures md.annotations != null ==> md.annotations == old(md.annotations)
  {
    ghost var before := md.Value();
    md.DeleteAll(keys);
    assert md.Value() == before - META_NOISE;
    if md.annotations != null {
      var ann := md.annotations;
      ghost var was := ann.entries;
      for i := 0 to |noise|
        invariant ann.entries == was - Elements(noise[..i])
        invariant md.entries == before - META_NOISE - {Annotations} && md.annotations == ann
      {
        ElementsStep(noise, i);
        ann.entries := ann.entries - {noise[i]};
      }
      assert noise[..|noise|] == noise;
      if ann.entries == map[] { md.annotations := null; }
    }
  }

  lemma NoiseKeys()
    ensures Elements([ManagedFields, ResourceVersion, Generation, CreationTimestamp, Uid, SelfLink]) == META_NOISE
    ensures Elements([ManagedFields, ResourceVersion, Uid, Generation, CreationTimestamp, SelfLink]) == META_NOISE
    ensures Elements([LastApplied]) == PLAN_NOISE && Elements([LastApplied, Revision]) == SNAPSHOT_NOISE
  {}

  method CleanObjectMap(o: ObjectMap, keys: seq<Key>, noise: seq<Key>)
    requires o.Valid() && Elements(keys) == META_NOISE
    modifies o, o.metadata, if o.metadata == null then null else o.metadata.annotations
    ensures o.Valid() && o.Value() == Clean(old(o.Value()), Elements(noise))
  {
    ghost var v := o.Value();
    o.entries := o.entries - {Status};
    assert o.Value() == v - {Status};
    if o.metadata != null { CleanMetadataMap(o.metadata, keys, noise); }
  }

  /** The plan's copy: the argument keeps its value. */
  method StripForDiff(o: ObjectMap) returns (c: ObjectMap)
    requires o.Valid()
    ensures fresh(c) && c.Valid() && c.Value() == ForDiff(o.Value())
    ensures o.Value() == old(o.Value())
  {
    NoiseKeys();
    c := o.DeepCopy();
    CleanObjectMap(c, [ManagedFields, ResourceVersion, Generation, CreationTimestamp, Uid, SelfLink], [LastApplied]);
  }

  /** The snapshot store's strip, in place; `render` is the YAML text, None when the object
      cannot be rendered. */
  method StripInPlace<Text(==)>(o: ObjectMap, render: Fields -> Option<Text>, hash: Text -> string)
    returns (text: Option<Text>, h: string)
    requires o.Valid()
    modifies o, o.metadata, if o.metadata == null then null else o.metadata.annotations
    ensures o.Valid() && o.Value() == Stripped(old(o.Value()))
    ensures text == render(o.Value()) && h == if text.Some? then hash(text.value) else ""
  {
    NoiseKeys();
    CleanObjectMap(o, [ManagedFields, ResourceVersion, Uid, Generation, CreationTimestamp, SelfLink],
      [LastApplied, Revision]);
    text := render(o.Value());
    h := if text.Some? then hash(text.value) else "";
  }
}

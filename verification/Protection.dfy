/** The protection guard: manifest applies, updates, deletes, and the explicit protect
    and unprotect requests, over the objects in the cluster. */
module Protection {
  import opened Common

  /** Annotation keys; `Protected` is KubeUI's own. */
  datatype AnnotationKey = ProtectedKey | OtherKey(name: string)

  const TRUE := "true"

  type Annotations = map<AnnotationKey, string>

  datatype Object = Object(annotations: Annotations, body: string)

  /** An object's place: its resource, namespace ("" for cluster-scoped) and name. */
  datatype Place = Place(resource: string, ns: string, name: string)

  type Cluster = map<Place, Object>

  datatype Resolved = Resolved(resource: string, namespaced: bool)

  datatype Manifest = Manifest(kind: string, ns: string, name: string, annotations: Annotations, body: string)

  /** A document, and what the API server answers while it is handled: the two ways of
      resolving its kind, the existence read, the guard's read, the write. */
  datatype Doc =
    | Garbled
    | Doc(m: Manifest, exact: Option<Resolved>, byKind: Option<Resolved>,
          readOk: bool, guardReadOk: bool, writeOk: bool)

  datatype Error = Undecodable | NameRequired | UnknownKind | Unverifiable | IsProtected | WriteFailed | NoDocuments

  datatype Action = Created | Configured

  datatype ApplyResult = ApplyResult(kind: string, name: string, ns: string, action: Action)

  /** Server-side apply: what the object becomes. */
  type Merge = (Option<Object>, Manifest) -> Object

  /** The one thing needed of it: what the manifest states holds afterwards. */
  ghost predicate Applies(merge: Merge) {
    forall before: Option<Object>, m: Manifest :: Carries(merge(before, m), m)
  }

  ghost predicate Carries(o: Object, m: Manifest) {
    forall k :: k in m.annotations ==> k in o.annotations && o.annotations[k] == m.annotations[k]
  }

  predicate Marked(a: Annotations) { ProtectedKey in a && a[ProtectedKey] == TRUE }

  predicate IsProtectedAt(c: Cluster, p: Place) { p in c && Marked(c[p].annotations) }

  function Find(c: Cluster, p: Place): Option<Object> { if p in c then Some(c[p]) else None }

  function Resolve(d: Doc): Option<Resolved>
    requires d.Doc?
  {
    if d.exact.Some? then d.exact else d.byKind
  }

  // ---------------------------------------------------------------- where each call goes

  /** A call through `Namespace(ns)`, and one without; an empty namespace is none. */
  function InNamespace(resource: string, ns: string, name: string): Place { Place(resource, ns, name) }

  function ClusterWide(resource: string, name: string): Place { Place(resource, "", name) }

  /** The namespace an apply or update goes on with: a namespaced kind gets the default, any
      other keeps what the manifest says. */
  function NamespaceOf(m: Manifest, r: Resolved): string {
    if r.namespaced && m.ns == "" then "default" else m.ns
  }

  /** The existence read of an apply. */
  function ReadPlace(m: Manifest, r: Resolved): Place {
    if r.namespaced then InNamespace(r.resource, NamespaceOf(m, r), m.name) else ClusterWide(r.resource, m.name)
  }

  /** The read of IsResourceProtected. */
  function AnnotationPlace(resource: string, ns: string, name: string): Place {
    if ns != "" then InNamespace(resource, ns, name) else ClusterWide(resource, name)
  }

  /** The guard's read: it drops the namespace of a kind that has none. */
  function GuardPlace(m: Manifest, r: Resolved): Place {
    var checkNS := if !r.namespaced then "" else NamespaceOf(m, r);
    AnnotationPlace(r.resource, checkNS, m.name)
  }

  /** The patch of an apply and the update. */
  function WritePlace(m: Manifest, r: Resolved): Place {
    if r.namespaced then InNamespace(r.resource, NamespaceOf(m, r), m.name) else ClusterWide(r.resource, m.name)
  }

  /** The check before a delete, and the delete. */
  function CheckPlace(r: Resolved, ns: string, name: string): Place {
    var checkNS := if !r.namespaced then "" else ns;
    AnnotationPlace(r.resource, checkNS, name)
  }

  function DeletePlace(r: Resolved, ns: string, name: string): Place {
    if r.namespaced && ns != "" then InNamespace(r.resource, ns, name) else ClusterWide(r.resource, name)
  }

  /** The patch of a protect or unprotect request. */
  function RequestPlace(r: Resolved, ns: string, name: string): Place {
    var n := if !r.namespaced then "" else ns;
    if n != "" then InNamespace(r.resource, n, name) else ClusterWide(r.resource, name)
  }

  /** For every kind, namespaced or not, and every namespace, empty or not: the object read
      and the object checked are the object written. */
  lemma ChecksWhatItWrites(m: Manifest, r: Resolved, ns: string, name: string)
    ensures ReadPlace(m, r) == GuardPlace(m, r) == WritePlace(m, r)
    ensures CheckPlace(r, ns, name) == DeletePlace(r, ns, name) == RequestPlace(r, ns, name)
    ensures r.namespaced ==> WritePlace(m, r) == Place(r.resource, if m.ns == "" then "default" else m.ns, m.name)
    ensures !r.namespaced ==> WritePlace(m, r) == Place(r.resource, "", m.name)
    ensures DeletePlace(r, ns, name) == Place(r.resource, if r.namespaced then ns else "", name)
  {
  }

  // ---------------------------------------------------------------- one operation, as a function of the cluster

  datatype Outcome<T> = Refused(error: Error) | Done(cluster: Cluster, result: T)

  /** guardProtectedUpdate: None lets the write pass. */
  function Guard(c: Cluster, p: Place, a: Annotations, readOk: bool): Option<Error> {
    if p !in c || !readOk then Some(Unverifiable)
    else if Marked(c[p].annotations) && !Marked(a) then Some(IsProtected)
    else None
  }

  /** One document, with the clusters that its existence read, its guard and its write meet:
      others may write in between. */
  function ApplyBetween(merge: Merge, read: Cluster, guard: Cluster, c: Cluster, d: Doc): Outcome<ApplyResult> {
    if d.Garbled? then Refused(Undecodable)
    else if d.m.name == "" then Refused(NameRequired)
    else if Resolve(d).None? then Refused(UnknownKind)
    else
      var r := Resolve(d).value;
      var found := ReadPlace(d.m, r) in read && d.readOk;
      var verdict := if found then Guard(guard, GuardPlace(d.m, r), d.m.annotations, d.guardReadOk) else None;
      if verdict.Some? then Refused(verdict.value)
      else if !d.writeOk then Refused(WriteFailed)
      else
        var p := WritePlace(d.m, r);
        Done(c[p := merge(Find(c, p), d.m)],
          ApplyResult(d.m.kind, d.m.name, p.ns, if found then Configured else Created))
  }

  function ApplyDoc(merge: Merge, c: Cluster, d: Doc): Outcome<ApplyResult> {
    ApplyBetween(merge, c, c, c, d)
  }

  datatype Applied = Applied(cluster: Cluster, results: seq<ApplyResult>, error: Option<Error>)

  function ApplyDocs(merge: Merge, c: Cluster, docs: seq<Doc>): Applied
    decreases |docs|
  {
    if docs == [] then Applied(c, [], None)
    else
      match ApplyDoc(merge, c, docs[0])
      case Refused(e) => Applied(c, [], Some(e))
      case Done(c', r) =>
        Following([r], ApplyDocs(merge, c', docs[1..]))
  }

  function Following(results: seq<ApplyResult>, a: Applied): Applied {
    a.(results := results + a.results)
  }

  lemma FollowingOne(results: seq<ApplyResult>, r: ApplyResult, a: Applied)
    ensures Following(results, Following([r], a)) == Following(results + [r], a)
  {
    assert results + ([r] + a.results) == results + [r] + a.results;
  }

  /** An update replaces an object that is there. */
  function UpdateBetween(guard: Cluster, c: Cluster, d: Doc): Outcome<()> {
    if d.Garbled? then Refused(Undecodable)
    else if d.m.name == "" then Refused(NameRequired)
    else if Resolve(d).None? then Refused(UnknownKind)
    else
      var r := Resolve(d).value;
      var verdict := Guard(guard, GuardPlace(d.m, r), d.m.annotations, d.guardReadOk);
      if verdict.Some? then Refused(verdict.value)
      else if !d.writeOk || WritePlace(d.m, r) !in c then Refused(WriteFailed)
      else Done(c[WritePlace(d.m, r) := Object(d.m.annotations, d.m.body)], ())
  }

  function UpdateDoc(c: Cluster, d: Doc): Outcome<()> { UpdateBetween(c, c, d) }

  function DeleteBetween(check: Cluster, c: Cluster, kind: Option<Resolved>, ns: string, name: string, readOk: bool,
                         writeOk: bool): Outcome<()> {
    if kind.None? then Refused(UnknownKind)
    else
      var p := CheckPlace(kind.value, ns, name);
      if p !in check || !readOk then Refused(Unverifiable)
      else if Marked(check[p].annotations) then Refused(IsProtected)
      else if !writeOk || DeletePlace(kind.value, ns, name) !in c then Refused(WriteFailed)
      else Done(c - {DeletePlace(kind.value, ns, name)}, ())
  }

  function DeleteAt(c: Cluster, kind: Option<Resolved>, ns: string, name: string, readOk: bool,
                    writeOk: bool): Outcome<()> {
    DeleteBetween(c, c, kind, ns, name, readOk, writeOk)
  }

  function SetProtection(c: Cluster, on: bool, kind: Option<Resolved>, ns: string, name: string,
                         writeOk: bool): Outcome<()> {
    if kind.None? then Refused(UnknownKind)
    else
      var p := RequestPlace(kind.value, ns, name);
      if p !in c || !writeOk then Refused(WriteFailed)
      else
        var a := c[p].annotations;
        Done(c[p := c[p].(annotations := if on then a[ProtectedKey := TRUE] else a - {ProtectedKey})], ())
  }

  // ---------------------------------------------------------------- the client

  datatype Protectedness = Unreadable | Yes | No

  class Client {
    const merge: Merge
    var cluster: Cluster

    constructor (merge: Merge, cluster: Cluster)
      ensures this.merge == merge && this.cluster == cluster
    {
      this.merge := merge;
      this.cluster := cluster;
    }

    method IsResourceProtected(resource: string, ns: string, name: string, readOk: bool) returns (r: Protectedness)
      ensures
        var p := AnnotationPlace(resource, ns, name);
        r == if p !in cluster || !readOk then Unreadable else if IsProtectedAt(cluster, p) then Yes else No
      ensures
        var p := Place(resource, ns, name);
        r == Yes <==>
          && p in cluster && readOk
          && ProtectedKey in cluster[p].annotations && cluster[p].annotations[ProtectedKey] == "true"
    {
      var p := ClusterWide(resource, name);
      if ns != "" { p := InNamespace(resource, ns, name); }
      if p !in cluster || !readOk { return Unreadable; }
      var annotations := cluster[p].annotations;
      if ProtectedKey in annotations && annotations[ProtectedKey] == TRUE { return Yes; }
      return No;
    }

    method GuardProtectedUpdate(kind: Resolved, ns: string, m: Manifest, readOk: bool) returns (err: Option<Error>)
      requires ns == NamespaceOf(m, kind)
      ensures err == Guard(cluster, GuardPlace(m, kind), m.annotations, readOk)
    {
      var checkNS := ns;
      if !kind.namespaced { checkNS := ""; }
      var isProtected := IsResourceProtected(kind.resource, checkNS, m.name, readOk);
      if isProtected == Unreadable { return Some(Unverifiable); }
      if isProtected == No { return None; }
      if !(ProtectedKey in m.annotations && m.annotations[ProtectedKey] == TRUE) { return Some(IsProtected); }
      return None;
    }

    /** One turn of ApplyManifest's loop. */
    method ApplyDocument(d: Doc) returns (r: ApplyResult, error: Option<Error>)
      modifies this
      ensures match ApplyDoc(merge, old(cluster), d)
              case Refused(e) => error == Some(e) && cluster == old(cluster)
              case Done(c, result) => error == None && cluster == c && r == result
    {
      r := ApplyResult("", "", "", Configured);
      if d.Garbled? { return r, Some(Undecodable); }
      if d.m.name == "" { return r, Some(NameRequired); }
      var kind := d.exact;
      if kind.None? { kind := d.byKind; }
      if kind.None? { return r, Some(UnknownKind); }
      var ns := d.m.ns;
      var found := false;
      if kind.value.namespaced {
        if ns == "" { ns := "default"; }
        found := InNamespace(kind.value.resource, ns, d.m.name) in cluster && d.readOk;
      } else {
        found := ClusterWide(kind.value.resource, d.m.name) in cluster && d.readOk;
      }
      if found {
        error := GuardProtectedUpdate(kind.value, ns, d.m, d.guardReadOk);
        if error.Some? { return; }
      }
      if !d.writeOk { return r, Some(WriteFailed); }
      if kind.value.namespaced {
        var p := InNamespace(kind.value.resource, ns, d.m.name);
        cluster := cluster[p := merge(Find(cluster, p), d.m)];
      } else {
        ns := "";
        var p := ClusterWide(kind.value.resource, d.m.name);
        cluster := cluster[p := merge(Find(cluster, p), d.m)];
      }
      var action := Configured;
      if !found { action := Created; }
      return ApplyResult(d.m.kind, d.m.name, ns, action), None;
    }

    method ApplyManifest(docs: seq<Doc>) returns (results: seq<ApplyResult>, error: Option<Error>)
      modifies this
      ensures docs == [] ==> cluster == old(cluster) && results == [] && error == Some(NoDocuments)
      ensures docs != [] ==> Applied(cluster, results, error) == ApplyDocs(merge, old(cluster), docs)
    {
      results := [];
      if docs == [] { return [], Some(NoDocuments); }
      var i := 0;
      while i < |docs|
        invariant 0 <= i <= |docs|
        invariant Following(results, ApplyDocs(merge, cluster, docs[i..])) == ApplyDocs(merge, old(cluster), docs)
      {
        assert docs[i..][1..] == docs[i + 1..];
        var r, err := ApplyDocument(docs[i]);
        if err.Some? { return results, err; }
        FollowingOne(results, r, ApplyDocs(merge, cluster, docs[i + 1..]));
        results := results + [r];
        i := i + 1;
      }
      error := None;
    }

    method UpdateResource(d: Doc) returns (error: Option<Error>)
      modifies this
      ensures match UpdateDoc(old(cluster), d)
              case Refused(e) => error == Some(e) && cluster == old(cluster)
              case Done(c, _) => error == None && cluster == c
    {
      if d.Garbled? { return Some(Undecodable); }
      if d.m.name == "" { return Some(NameRequired); }
      var kind := d.exact;
      if kind.None? { kind := d.byKind; }
      if kind.None? { return Some(UnknownKind); }
      var ns := d.m.ns;
      if kind.value.namespaced && ns == "" { ns := "default"; }
      error := GuardProtectedUpdate(kind.value, ns, d.m, d.guardReadOk);
      if error.Some? { return; }
      var p := if kind.value.namespaced then InNamespace(kind.value.resource, ns, d.m.name)
        else ClusterWide(kind.value.resource, d.m.name);
      if !d.writeOk || p !in cluster { return Some(WriteFailed); }
      cluster := cluster[p := Object(d.m.annotations, d.m.body)];
    }

    method DeleteResource(kind: Option<Resolved>, ns: string, name: string, readOk: bool, writeOk: bool)
      returns (error: Option<Error>)
      modifies this
      ensures match DeleteAt(old(cluster), kind, ns, name, readOk, writeOk)
              case Refused(e) => error == Some(e) && cluster == old(cluster)
              case Done(c, _) => error == None && cluster == c
    {
      if kind.None? { return Some(UnknownKind); }
      var checkNS := ns;
      if !kind.value.namespaced { checkNS := ""; }
      var isProtected := IsResourceProtected(kind.value.resource, checkNS, name, readOk);
      if isProtected == Unreadable { return Some(Unverifiable); }
      if isProtected == Yes { return Some(IsProtected); }
      var p := ClusterWide(kind.value.resource, name);
      if kind.value.namespaced && ns != "" { p := InNamespace(kind.value.resource, ns, name); }
      if !writeOk || p !in cluster { return Some(WriteFailed); }
      cluster := cluster - {p};
      error := None;
    }

    method Set(on: bool, kind: Option<Resolved>, ns: string, name: string, writeOk: bool) returns (error: Option<Error>)
      modifies this
      ensures match SetProtection(old(cluster), on, kind, ns, name, writeOk)
              case Refused(e) => error == Some(e) && cluster == old(cluster)
              case Done(c, _) => error == None && cluster == c
    {
      if kind.None? { return Some(UnknownKind); }
      var p := RequestPlace(kind.value, ns, name);
      if p !in cluster || !writeOk { return Some(WriteFailed); }
      var annotations := cluster[p].annotations;
      if on { annotations := annotations[ProtectedKey := TRUE]; } else { annotations := annotations - {ProtectedKey}; }
      cluster := cluster[p := cluster[p].(annotations := annotations)];
      error := None;
    }
  }

  // ---------------------------------------------------------------- when an operation goes through, and what it does

  /** The kind a document is taken for: the exact one if that resolves, else by its name alone. */
  predicate IsOfKind(d: Doc, r: Resolved)
    requires d.Doc?
  {
    d.exact == Some(r) || (d.exact == None && d.byKind == Some(r))
  }

  /** Where a document is written: a namespaced kind without a namespace goes to the default. */
  function PlaceOf(m: Manifest, r: Resolved): Place {
    Place(r.resource, if !r.namespaced then "" else if m.ns == "" then "default" else m.ns, m.name)
  }

  /** All clusters agree but for one object. */
  ghost predicate OnlyAt(a: Cluster, b: Cluster, p: Place) {
    forall q :: q != p ==> Find(a, q) == Find(b, q)
  }

  /** The guard stops a manifest: what is there cannot be read, or is protected and would lose
      the mark. */
  predicate StoppedByGuard(c: Cluster, p: Place, m: Manifest, guardReadOk: bool) {
    p !in c || !guardReadOk || (IsProtectedAt(c, p) && !Marked(m.annotations))
  }

  /** A document of a known kind is applied exactly when it names an object, the write works
      and, if the existence read found the object, the guard lets it pass; then the object is
      what the server makes of it, and no other object changes. */
  lemma AppliesIff(merge: Merge, c: Cluster, d: Doc, r: Resolved)
    requires d.Doc? && IsOfKind(d, r)
    ensures
      var o, p := ApplyDoc(merge, c, d), PlaceOf(d.m, r);
      && (o.Done? <==>
            && d.m.name != "" && d.writeOk
            && !(p in c && d.readOk && StoppedByGuard(c, p, d.m, d.guardReadOk)))
      && (o.Done? ==> Find(o.cluster, p) == Some(merge(Find(c, p), d.m)) && OnlyAt(o.cluster, c, p))
  {
  }

  /** An update goes through exactly when the guard lets it pass and the write works; then the
      object is the manifest. */
  lemma UpdatesIff(c: Cluster, d: Doc, r: Resolved)
    requires d.Doc? && IsOfKind(d, r)
    ensures
      var o, p := UpdateDoc(c, d), PlaceOf(d.m, r);
      && (o.Done? <==> d.m.name != "" && d.writeOk && !StoppedByGuard(c, p, d.m, d.guardReadOk))
      && (o.Done? ==> Find(o.cluster, p) == Some(Object(d.m.annotations, d.m.body)) && OnlyAt(o.cluster, c, p))
  {
  }

  /** A delete goes through exactly when the object can be read, is not protected, and the call
      works; then it is gone. */
  lemma DeletesIff(c: Cluster, r: Resolved, ns: string, name: string, readOk: bool, writeOk: bool)
    ensures
      var o := DeleteAt(c, Some(r), ns, name, readOk, writeOk);
      var p := Place(r.resource, if r.namespaced then ns else "", name);
      && (o.Done? <==> p in c && readOk && !IsProtectedAt(c, p) && writeOk)
      && (o.Done? ==> p !in o.cluster && OnlyAt(o.cluster, c, p))
  {
  }

  /** The error says why: the object that could not be verified, or is protected. */
  lemma RefusalsSayWhy(merge: Merge, c: Cluster, d: Doc)
    ensures d.Garbled? ==> ApplyDoc(merge, c, d) == Refused(Undecodable) && UpdateDoc(c, d) == Refused(Undecodable)
    ensures d.Doc? && d.m.name != "" && d.exact.None? && d.byKind.None? ==>
      ApplyDoc(merge, c, d) == Refused(UnknownKind) && UpdateDoc(c, d) == Refused(UnknownKind)
    ensures d.Doc? && d.m.name == "" ==>
      ApplyDoc(merge, c, d) == Refused(NameRequired) && UpdateDoc(c, d) == Refused(NameRequired)
    ensures d.Doc? && d.m.name != "" ==> forall r :: IsOfKind(d, r) ==>
      var p := PlaceOf(d.m, r);
      && (ApplyDoc(merge, c, d) == Refused(Unverifiable) <==> p in c && d.readOk && !d.guardReadOk)
      && (ApplyDoc(merge, c, d) == Refused(IsProtected) <==>
            d.readOk && d.guardReadOk && IsProtectedAt(c, p) && !Marked(d.m.annotations))
      && (UpdateDoc(c, d) == Refused(Unverifiable) <==> p !in c || !d.guardReadOk)
      && (UpdateDoc(c, d) == Refused(IsProtected) <==>
            d.guardReadOk && IsProtectedAt(c, p) && !Marked(d.m.annotations))
  {
  }

  /** The annotations but for KubeUI's own are the same. */
  ghost predicate OthersKept(a: Annotations, b: Annotations) {
    forall k :: k != ProtectedKey ==> (k in a <==> k in b) && (k in a ==> a[k] == b[k])
  }

  /** A protect or unprotect of an object that is there, when the write works: afterwards the
      object is protected, or has no such annotation, whatever it was before.  Its other
      annotations, its body and every other object stay.  In any other case nothing changes. */
  lemma RequestTakesEffect(c: Cluster, on: bool, r: Resolved, ns: string, name: string, writeOk: bool)
    ensures
      var o := SetProtection(c, on, Some(r), ns, name, writeOk);
      var p := Place(r.resource, if r.namespaced then ns else "", name);
      && (o.Done? <==> p in c && writeOk)
      && (o.Done? ==>
            && p in o.cluster && OnlyAt(o.cluster, c, p)
            && (if on then IsProtectedAt(o.cluster, p) else ProtectedKey !in o.cluster[p].annotations)
            && OthersKept(o.cluster[p].annotations, c[p].annotations) && o.cluster[p].body == c[p].body)
    ensures SetProtection(c, on, None, ns, name, writeOk) == Refused(UnknownKind)
  {
  }

  /** An unprotect undoes a protect of an object that had no such annotation. */
  lemma UnprotectUndoesProtect(c: Cluster, r: Resolved, ns: string, name: string)
    requires
      var p := Place(r.resource, if r.namespaced then ns else "", name);
      p in c && ProtectedKey !in c[p].annotations
    ensures
      var o := SetProtection(c, true, Some(r), ns, name, true);
      o.Done? && SetProtection(o.cluster, false, Some(r), ns, name, true) == Done(c, ())
  {
    var p := Place(r.resource, if r.namespaced then ns else "", name);
    var a := c[p].annotations;
    assert a[ProtectedKey := TRUE] - {ProtectedKey} == a;
    var d := SetProtection(c, true, Some(r), ns, name, true).cluster;
    assert d[p := c[p]] == c;
  }

  // ---------------------------------------------------------------- whole runs

  datatype Op =
    | Apply(docs: seq<Doc>)
    | Update(doc: Doc)
    | Delete(kind: Option<Resolved>, ns: string, name: string, readOk: bool, writeOk: bool)
    | Protect(kind: Option<Resolved>, ns: string, name: string, writeOk: bool)
    | Unprotect(kind: Option<Resolved>, ns: string, name: string, writeOk: bool)

  function After<T>(c: Cluster, o: Outcome<T>): Cluster {
    if o.Done? then o.cluster else c
  }

  function Perform(merge: Merge, c: Cluster, op: Op): Cluster {
    match op
    case Apply(docs) => ApplyDocs(merge, c, docs).cluster
    case Update(d) => After(c, UpdateDoc(c, d))
    case Delete(kind, ns, name, readOk, writeOk) => After(c, DeleteAt(c, kind, ns, name, readOk, writeOk))
    case Protect(kind, ns, name, writeOk) => After(c, SetProtection(c, true, kind, ns, name, writeOk))
    case Unprotect(kind, ns, name, writeOk) => After(c, SetProtection(c, false, kind, ns, name, writeOk))
  }

  ghost predicate AllApply(merges: seq<Merge>) {
    forall i :: 0 <= i < |merges| ==> Applies(merges[i])
  }

  /** The cluster after the first `n` operations.  The server may merge each manifest in its
      own way: that depends on who owns which field. */
  function Run(merges: seq<Merge>, c: Cluster, ops: seq<Op>, n: nat): Cluster
    requires n <= |ops| <= |merges|
  {
    if n == 0 then c else Perform(merges[n - 1], Run(merges, c, ops, n - 1), ops[n - 1])
  }

  /** The condition under which a document may take the protection off `p`: it writes there,
      without the mark, after an existence read that failed although the object is there. */
  predicate Exposes(d: Doc, p: Place) {
    && d.Doc? && d.m.name != "" && Resolve(d).Some? && WritePlace(d.m, Resolve(d).value) == p
    && !d.readOk && d.writeOk && !Marked(d.m.annotations)
  }

  /** An apply that forgets what was there before. */
  function ReplaceAll(before: Option<Object>, m: Manifest): Object { Object(m.annotations, m.body) }

  /** With others writing in between: an object protected when a document is written stays
      so, however the server merges, exactly when the document does not write there, keeps
      the mark, or was stopped.  It is not stopped if the existence read missed the object,
      or the guard met it unprotected. */
  lemma RacingApplyKeepsProtectionIff(read: Cluster, guard: Cluster, c: Cluster, d: Doc, p: Place)
    requires IsProtectedAt(c, p)
    ensures
      (forall merge: Merge :: Applies(merge) ==>
        IsProtectedAt(After(c, ApplyBetween(merge, read, guard, c, d)), p)) <==>
      !(&& d.Doc? && d.m.name != "" && Resolve(d).Some? && WritePlace(d.m, Resolve(d).value) == p
        && d.writeOk && !Marked(d.m.annotations)
        && (p !in read || !d.readOk || (p in guard && d.guardReadOk && !Marked(guard[p].annotations))))
  {
    forall merge: Merge | Applies(merge) && d.Doc? && Marked(d.m.annotations)
      ensures Marked(merge(Find(c, p), d.m).annotations)
    {
      assert Carries(merge(Find(c, p), d.m), d.m);
    }
    assert Applies(ReplaceAll);
  }

  /** Nobody in between: exactly when the document does not expose the object. */
  lemma ApplyKeepsProtectionIff(c: Cluster, d: Doc, p: Place)
    requires IsProtectedAt(c, p)
    ensures (forall merge: Merge :: Applies(merge) ==> IsProtectedAt(After(c, ApplyDoc(merge, c, d)), p)) <==>
      !Exposes(d, p)
  {
    RacingApplyKeepsProtectionIff(c, c, c, d, p);
    forall merge: Merge ensures ApplyDoc(merge, c, d) == ApplyBetween(merge, c, c, c, d) { }
  }

  /** The same for updates and deletes: a protect that lands between the check and the write
      is lost exactly when the check met the object unprotected. */
  lemma RacingUpdateKeepsProtectionIff(guard: Cluster, c: Cluster, d: Doc, p: Place)
    requires IsProtectedAt(c, p)
    ensures IsProtectedAt(After(c, UpdateBetween(guard, c, d)), p) <==>
      !(&& d.Doc? && d.m.name != "" && Resolve(d).Some? && WritePlace(d.m, Resolve(d).value) == p
        && d.writeOk && !Marked(d.m.annotations)
        && p in guard && d.guardReadOk && !Marked(guard[p].annotations))
  {
  }

  lemma RacingDeleteKeepsProtectionIff(check: Cluster, c: Cluster, kind: Option<Resolved>, ns: string, name: string,
                                       readOk: bool, writeOk: bool, p: Place)
    requires IsProtectedAt(c, p)
    ensures IsProtectedAt(After(c, DeleteBetween(check, c, kind, ns, name, readOk, writeOk)), p) <==>
      !(kind.Some? && DeletePlace(kind.value, ns, name) == p && writeOk && p in check && readOk
        && !Marked(check[p].annotations))
  {
  }

  // ---------------------------------------------------------------- whole manifests

  /** One more document on top of what was applied. */
  function Then(merge: Merge, a: Applied, d: Doc): Applied {
    if a.error.Some? then a
    else
      match ApplyDoc(merge, a.cluster, d)
      case Refused(e) => Applied(a.cluster, a.results, Some(e))
      case Done(c, r) => Applied(c, a.results + [r], None)
  }

  lemma {:induction false} ApplyOneMore(merge: Merge, c: Cluster, docs: seq<Doc>, d: Doc)
    ensures ApplyDocs(merge, c, docs + [d]) == Then(merge, ApplyDocs(merge, c, docs), d)
    decreases |docs|
  {
    assert (docs + [d])[1..] == if docs == [] then [] else docs[1..] + [d];
    if docs != [] {
      var o := ApplyDoc(merge, c, docs[0]);
      if o.Done? {
        ApplyOneMore(merge, o.cluster, docs[1..], d);
        var a := ApplyDocs(merge, o.cluster, docs[1..]);
        if a.error.None? && ApplyDoc(merge, a.cluster, d).Done? {
          var r := ApplyDoc(merge, a.cluster, d).result;
          assert [o.result] + (a.results + [r]) == [o.result] + a.results + [r];
        }
      }
    }
  }

  lemma ApplyNext(merge: Merge, c: Cluster, docs: seq<Doc>, k: nat)
    requires k < |docs|
    ensures ApplyDocs(merge, c, docs[..k + 1]) == Then(merge, ApplyDocs(merge, c, docs[..k]), docs[k])
  {
    ApplyOneMore(merge, c, docs[..k], docs[k]);
    assert docs[..k + 1] == docs[..k] + [docs[k]];
  }

  /** Whatever is in the first cluster is in the second, and whatever is marked there. */
  ghost predicate Covered(a: Cluster, b: Cluster) {
    forall q :: q in a ==> q in b && (Marked(a[q].annotations) ==> Marked(b[q].annotations))
  }

  /** A server that forgets what was there stops no document that another lets pass. */
  lemma ForgetfulStopsLess(merge: Merge, a: Cluster, b: Cluster, d: Doc)
    requires Applies(merge) && Covered(a, b) && ApplyDoc(merge, b, d).Done?
    ensures ApplyDoc(ReplaceAll, a, d).Done?
    ensures Covered(ApplyDoc(ReplaceAll, a, d).cluster, ApplyDoc(merge, b, d).cluster)
  {
    assert Carries(merge(Find(b, WritePlace(d.m, Resolve(d).value)), d.m), d.m);
  }

  lemma {:induction false} ForgetfulGoesFurther(merge: Merge, c: Cluster, docs: seq<Doc>, k: nat)
    requires Applies(merge) && k <= |docs| && ApplyDocs(merge, c, docs[..k]).error == None
    ensures ApplyDocs(ReplaceAll, c, docs[..k]).error == None
    ensures Covered(ApplyDocs(ReplaceAll, c, docs[..k]).cluster, ApplyDocs(merge, c, docs[..k]).cluster)
  {
    if k > 0 {
      ApplyNext(merge, c, docs, k - 1);
      ApplyNext(ReplaceAll, c, docs, k - 1);
      ForgetfulGoesFurther(merge, c, docs, k - 1);
      var a, b := ApplyDocs(ReplaceAll, c, docs[..k - 1]), ApplyDocs(merge, c, docs[..k - 1]);
      ForgetfulStopsLess(merge, a.cluster, b.cluster, docs[k - 1]);
    }
  }

  /** The object is protected before the manifest and after each of its documents. */
  ghost predicate ManifestKeeps(merge: Merge, c: Cluster, docs: seq<Doc>, p: Place) {
    forall k :: 0 <= k <= |docs| ==> IsProtectedAt(ApplyDocs(merge, c, docs[..k]).cluster, p)
  }

  /** A server that forgets what was there gets as far as a document that exposes `p`. */
  ghost predicate ReachesExposed(c: Cluster, docs: seq<Doc>, p: Place) {
    exists i :: 0 <= i < |docs| && Exposes(docs[i], p) && ApplyDocs(ReplaceAll, c, docs[..i]).error == None
  }

  lemma {:induction false} UnreachedKeeps(merge: Merge, c: Cluster, docs: seq<Doc>, p: Place, k: nat)
    requires Applies(merge) && IsProtectedAt(c, p) && k <= |docs| && !ReachesExposed(c, docs, p)
    ensures IsProtectedAt(ApplyDocs(merge, c, docs[..k]).cluster, p)
  {
    if k > 0 {
      UnreachedKeeps(merge, c, docs, p, k - 1);
      ApplyNext(merge, c, docs, k - 1);
      var a := ApplyDocs(merge, c, docs[..k - 1]);
      if a.error.None? {
        ForgetfulGoesFurther(merge, c, docs, k - 1);
        assert !Exposes(docs[k - 1], p);
        ApplyKeepsProtectionIff(a.cluster, docs[k - 1], p);
        assert IsProtectedAt(After(a.cluster, ApplyDoc(merge, a.cluster, docs[k - 1])), p);
      }
    }
  }

  lemma ReachedLoses(c: Cluster, docs: seq<Doc>, p: Place)
    requires ReachesExposed(c, docs, p)
    ensures !ManifestKeeps(ReplaceAll, c, docs, p)
  {
    var i :| 0 <= i < |docs| && Exposes(docs[i], p) && ApplyDocs(ReplaceAll, c, docs[..i]).error == None;
    ApplyNext(ReplaceAll, c, docs, i);
    var a := ApplyDocs(ReplaceAll, c, docs[..i]);
    if IsProtectedAt(a.cluster, p) {
      assert ApplyDoc(ReplaceAll, a.cluster, docs[i]).Done?;
      assert !IsProtectedAt(ApplyDocs(ReplaceAll, c, docs[..i + 1]).cluster, p);
    }
  }

  /** A manifest of any number of documents keeps an object protected throughout, however the
      server merges, exactly when no document that exposes it is reached. */
  lemma ManifestKeepsProtectionIff(c: Cluster, docs: seq<Doc>, p: Place)
    requires IsProtectedAt(c, p)
    ensures (forall merge: Merge :: Applies(merge) ==> ManifestKeeps(merge, c, docs, p)) <==>
      !ReachesExposed(c, docs, p)
  {
    if ReachesExposed(c, docs, p) {
      ReachedLoses(c, docs, p);
      assert Applies(ReplaceAll);
    } else {
      forall merge: Merge, k | Applies(merge) && 0 <= k <= |docs|
        ensures IsProtectedAt(ApplyDocs(merge, c, docs[..k]).cluster, p)
      {
        UnreachedKeeps(merge, c, docs, p, k);
      }
    }
  }

  // ---------------------------------------------------------------- whole runs

  ghost predicate Keeps(merge: Merge, c: Cluster, op: Op, p: Place) {
    if op.Apply? then ManifestKeeps(merge, c, op.docs, p) else IsProtectedAt(Perform(merge, c, op), p)
  }

  /** What takes the protection off, seen from the cluster the operation meets: a manifest
      that gets to a document that exposes `p`, or an unprotect of `p` that goes through. */
  ghost predicate Breaks(c: Cluster, op: Op, p: Place) {
    match op
    case Apply(docs) => ReachesExposed(c, docs, p)
    case Unprotect(kind, ns, name, writeOk) => kind.Some? && writeOk && RequestPlace(kind.value, ns, name) == p
    case _ => false
  }

  /** One operation of any kind. */
  lemma KeepsProtectionIff(c: Cluster, op: Op, p: Place)
    requires IsProtectedAt(c, p)
    ensures (forall merge: Merge :: Applies(merge) ==> Keeps(merge, c, op, p)) <==> !Breaks(c, op, p)
    ensures Breaks(c, op, p) ==> !Keeps(ReplaceAll, c, op, p)
  {
    if op.Apply? {
      ManifestKeepsProtectionIff(c, op.docs, p);
      if Breaks(c, op, p) { ReachedLoses(c, op.docs, p); }
    } else {
      assert Applies(ReplaceAll);
    }
  }

  lemma KeptAfterwards(merge: Merge, c: Cluster, op: Op, p: Place)
    requires Keeps(merge, c, op, p)
    ensures IsProtectedAt(Perform(merge, c, op), p)
  {
    if op.Apply? { assert op.docs[..|op.docs|] == op.docs; }
  }

  /** Protected at first, after each document and after each of the first `n` operations. */
  ghost predicate ProtectedThroughout(merges: seq<Merge>, c: Cluster, ops: seq<Op>, p: Place, n: nat)
    requires n <= |ops| <= |merges|
  {
    if n == 0 then IsProtectedAt(c, p)
    else
      && ProtectedThroughout(merges, c, ops, p, n - 1)
      && Keeps(merges[n - 1], Run(merges, c, ops, n - 1), ops[n - 1], p)
  }

  ghost predicate NothingBreaks(merges: seq<Merge>, c: Cluster, ops: seq<Op>, p: Place, n: nat)
    requires n <= |ops| <= |merges|
  {
    n == 0 ||
    (NothingBreaks(merges, c, ops, p, n - 1) && !Breaks(Run(merges, c, ops, n - 1), ops[n - 1], p))
  }

  /** Over any run of operations a protected object keeps existing and stays protected, after
      every document, until an operation breaks that. */
  lemma {:induction false} ProtectedSurvives(merges: seq<Merge>, c: Cluster, ops: seq<Op>, n: nat, p: Place)
    requires n <= |ops| <= |merges| && AllApply(merges) && IsProtectedAt(c, p)
    requires NothingBreaks(merges, c, ops, p, n)
    ensures ProtectedThroughout(merges, c, ops, p, n) && IsProtectedAt(Run(merges, c, ops, n), p)
  {
    if n > 0 {
      ProtectedSurvives(merges, c, ops, n - 1, p);
      var met := Run(merges, c, ops, n - 1);
      KeepsProtectionIff(met, ops[n - 1], p);
      assert Applies(merges[n - 1]);
      KeptAfterwards(merges[n - 1], met, ops[n - 1], p);
    }
  }

  /** For instance when every existence read finds what is there, and nobody unprotects `p`. */
  lemma {:induction false} ReliableReadsBreakNothing(merges: seq<Merge>, c: Cluster, ops: seq<Op>, n: nat, p: Place)
    requires n <= |ops| <= |merges|
    requires forall i :: 0 <= i < n ==>
      && (ops[i].Apply? ==> forall j :: 0 <= j < |ops[i].docs| && ops[i].docs[j].Doc? ==> ops[i].docs[j].readOk)
      && (ops[i].Unprotect? && ops[i].kind.Some? ==> RequestPlace(ops[i].kind.value, ops[i].ns, ops[i].name) != p)
    ensures NothingBreaks(merges, c, ops, p, n)
  {
    if n > 0 { ReliableReadsBreakNothing(merges, c, ops, n - 1, p); }
  }

  lemma {:induction false} RunsAlike(a: seq<Merge>, b: seq<Merge>, c: Cluster, ops: seq<Op>, n: nat)
    requires n <= |ops| <= |a| && |ops| <= |b| && forall i :: 0 <= i < n ==> a[i] == b[i]
    ensures Run(a, c, ops, n) == Run(b, c, ops, n)
  {
    if n > 0 { RunsAlike(a, b, c, ops, n - 1); }
  }

  lemma {:induction false} EndsProtected(merges: seq<Merge>, c: Cluster, ops: seq<Op>, p: Place, n: nat)
    requires n <= |ops| <= |merges| && ProtectedThroughout(merges, c, ops, p, n)
    ensures IsProtectedAt(Run(merges, c, ops, n), p)
  {
    if n > 0 { KeptAfterwards(merges[n - 1], Run(merges, c, ops, n - 1), ops[n - 1], p); }
  }

  /** If an operation breaks it, some server loses the protection there. */
  lemma BreakingLoses(merges: seq<Merge>, c: Cluster, ops: seq<Op>, p: Place, n: nat)
    requires 0 < n <= |ops| <= |merges| && AllApply(merges) && Breaks(Run(merges, c, ops, n - 1), ops[n - 1], p)
    ensures AllApply(merges[n - 1 := ReplaceAll]) && !ProtectedThroughout(merges[n - 1 := ReplaceAll], c, ops, p, n)
  {
    var other := merges[n - 1 := ReplaceAll];
    assert Applies(ReplaceAll);
    RunsAlike(merges, other, c, ops, n - 1);
    if ProtectedThroughout(other, c, ops, p, n) {
      EndsProtected(other, c, ops, p, n - 1);
      KeepsProtectionIff(Run(other, c, ops, n - 1), ops[n - 1], p);
    }
  }

  /** Exactly when: over runs of multi-document applies, updates, deletes, protects and
      unprotects, a protected object stays protected throughout, however the server merges,
      if and only if no operation meets a cluster in which it breaks that. */
  lemma {:induction false} StaysProtectedIff(c: Cluster, ops: seq<Op>, p: Place, n: nat)
    requires IsProtectedAt(c, p) && n <= |ops|
    ensures
      (forall merges: seq<Merge> :: |merges| == |ops| && AllApply(merges) ==>
        ProtectedThroughout(merges, c, ops, p, n)) <==>
      (forall merges: seq<Merge> :: |merges| == |ops| && AllApply(merges) ==> NothingBreaks(merges, c, ops, p, n))
  {
    if forall merges: seq<Merge> :: |merges| == |ops| && AllApply(merges) ==> NothingBreaks(merges, c, ops, p, n) {
      forall merges: seq<Merge> | |merges| == |ops| && AllApply(merges)
        ensures ProtectedThroughout(merges, c, ops, p, n)
      {
        ProtectedSurvives(merges, c, ops, n, p);
      }
    }
    if n > 0 &&
      forall merges: seq<Merge> :: |merges| == |ops| && AllApply(merges) ==> ProtectedThroughout(merges, c, ops, p, n)
    {
      StaysProtectedIff(c, ops, p, n - 1);
      forall merges: seq<Merge> | |merges| == |ops| && AllApply(merges) ensures NothingBreaks(merges, c, ops, p, n) {
        assert ProtectedThroughout(merges, c, ops, p, n);
        if Breaks(Run(merges, c, ops, n - 1), ops[n - 1], p) {
          BreakingLoses(merges, c, ops, p, n);
        }
      }
    }
  }

  /** For instance: when the existence read fails on a protected object, the guard is skipped
      and a document without the annotation takes the protection off. */
  lemma UnreliableReadLosesProtection(c: Cluster, m: Manifest, r: Resolved)
    requires m.name != "" && !Marked(m.annotations) && IsProtectedAt(c, WritePlace(m, r))
    ensures
      var d := Doc(m, Some(r), None, false, true, true);
      && Applies(ReplaceAll) && ApplyDoc(ReplaceAll, c, d).Done?
      && !IsProtectedAt(ApplyDoc(ReplaceAll, c, d).cluster, WritePlace(m, r))
  {
  }

  // ---------------------------------------------------------------- what is checked is what is written

  /** The place whose protection an operation on one object reads, and the one it writes. */
  function Checked(op: Op): Option<Place> {
    match op
    case Update(d) => if d.Doc? && Resolve(d).Some? then Some(GuardPlace(d.m, Resolve(d).value)) else None
    case Delete(kind, ns, name, _, _) => if kind.Some? then Some(CheckPlace(kind.value, ns, name)) else None
    case _ => None
  }

  /** A write touches one object only.  An update or delete wrote the object it had checked,
      and that was not protected, or the update keeps its mark. */
  lemma WritesOnlyWhatItChecked(merge: Merge, c: Cluster, op: Op, q: Place)
    requires !op.Apply? && Find(Perform(merge, c, op), q) != Find(c, q)
    ensures q in c && (op.Update? || op.Delete? ==> Checked(op) == Some(q))
    ensures IsProtectedAt(c, q) ==>
      op.Protect? || op.Unprotect? || (op.Update? && IsProtectedAt(Perform(merge, c, op), q))
  {
  }

  /** A document writes the object it looked for and guarded. */
  lemma ApplyDocWritesOnlyWhatItChecked(merge: Merge, c: Cluster, d: Doc, q: Place)
    requires Applies(merge) && Find(After(c, ApplyDoc(merge, c, d)), q) != Find(c, q)
    ensures d.Doc? && Resolve(d).Some?
    ensures ReadPlace(d.m, Resolve(d).value) == GuardPlace(d.m, Resolve(d).value) == q
    ensures d.readOk && IsProtectedAt(c, q) ==> Marked(d.m.annotations)
  {
  }

  // ---------------------------------------------------------------- results are the applied prefix

  lemma {:induction false} ResultsAreTheAppliedPrefix(merge: Merge, c: Cluster, docs: seq<Doc>)
    ensures
      var a := ApplyDocs(merge, c, docs);
      var n := |a.results|;
      && n <= |docs|
      && (a.error == None <==> n == |docs|)
      && ApplyDocs(merge, c, docs[..n]) == Applied(a.cluster, a.results, None)
      && (n < |docs| ==> ApplyDoc(merge, a.cluster, docs[n]) == Refused(a.error.value))
    decreases |docs|
  {
    if docs != [] {
      match ApplyDoc(merge, c, docs[0])
      case Refused(e) =>
        assert docs[..0] == [];
      case Done(c', r) =>
        ResultsAreTheAppliedPrefix(merge, c', docs[1..]);
        var n := |ApplyDocs(merge, c', docs[1..]).results|;
        assert docs[..n + 1][1..] == docs[1..][..n];
        assert docs[..n + 1][0] == docs[0];
        if n + 1 < |docs| { assert docs[1..][n] == docs[n + 1]; }
    }
  }

  /** A result names its document, and says "created" exactly when the object was not there
      before that document, or could not be read. */
  ghost predicate Names(r: ApplyResult, d: Doc, before: Cluster) {
    && d.Doc? && Resolve(d).Some?
    && var p := WritePlace(d.m, Resolve(d).value);
    && r.kind == d.m.kind && r.name == d.m.name && r.ns == p.ns
    && (r.action == Created <==> p !in before || !d.readOk)
  }

  lemma OneResultNames(merge: Merge, c: Cluster, d: Doc)
    requires ApplyDoc(merge, c, d).Done?
    ensures Names(ApplyDoc(merge, c, d).result, d, c)
  {
  }

  lemma {:induction false} ResultNamesItsDocument(merge: Merge, c: Cluster, docs: seq<Doc>, i: nat)
    requires i < |ApplyDocs(merge, c, docs).results|
    ensures i < |docs| && Names(ApplyDocs(merge, c, docs).results[i], docs[i], ApplyDocs(merge, c, docs[..i]).cluster)
    decreases |docs|
  {
    var o := ApplyDoc(merge, c, docs[0]);
    if i == 0 {
      OneResultNames(merge, c, docs[0]);
      assert docs[..0] == [];
    } else {
      ResultNamesItsDocument(merge, o.cluster, docs[1..], i - 1);
      assert docs[1..][i - 1] == docs[i];
      assert docs[..i][1..] == docs[1..][..i - 1] && docs[..i][0] == docs[0];
    }
  }
}

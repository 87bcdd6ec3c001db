/** Who can reach cluster-admin: roles classified by what their rules grant, followed
    through the bindings to the subjects they name. */
module AdminReach {
  import opened Common
  import SliceSort
  import Text

  /** Verbs, groups and resources; the ones the code knows by name are constructors.  The
      core group is the empty string of the API. */
  datatype Token =
    | Star
    | Create | Update | Patch | Delete | DeleteCollection
    | Escalate | Bind | Impersonate
    | RbacGroup | CoreGroup
    | Roles | ClusterRoles | RoleBindings | ClusterRoleBindings
    | Users | Groups | ServiceAccounts
    | Other(name: string)

  datatype Rule = Rule(verbs: seq<Token>, groups: seq<Token>, resources: seq<Token>)

  datatype Via = Wildcard | RbacWrite | EscalateVia | BindVia | ImpersonateVia | ClusterAdmin

  const ROLE_RESOURCES: set<Token> := {Roles, ClusterRoles, Star}
  const BINDING_RESOURCES: set<Token> := {RoleBindings, ClusterRoleBindings, Star}
  const IDENTITIES: set<Token> := {Users, Groups, ServiceAccounts, Star}
  const WRITE_VERBS: set<Token> := {Create, Update, Patch, Delete, DeleteCollection, Star}

  // ---------------------------------------------------------------- rules

  predicate Has(list: seq<Token>, want: Token) {
    want in list || Star in list
  }

  method HasStr(list: seq<Token>, want: Token) returns (found: bool)
    ensures found == Has(list, want)
  {
    for i := 0 to |list|
      invariant !Has(list[..i], want)
    {
      if list[i] == want || list[i] == Star { return true; }
      assert list[..i + 1] == list[..i] + [list[i]];
    }
    assert list[..|list|] == list;
    return false;
  }

  ghost predicate Grants(r: Rule, verb: Token, group: Token, resources: set<Token>) {
    Has(r.verbs, verb) && Has(r.groups, group) && exists res :: res in r.resources && res in resources
  }

  method RuleGrants(r: Rule, verb: Token, group: Token, resources: set<Token>) returns (grants: bool)
    ensures grants == Grants(r, verb, group, resources)
  {
    var hasVerb := HasStr(r.verbs, verb);
    if !hasVerb { return false; }
    var hasGroup := HasStr(r.groups, group);
    if !hasGroup { return false; }
    for i := 0 to |r.resources|
      invariant forall k :: 0 <= k < i ==> r.resources[k] !in resources
    {
      if r.resources[i] in resources { return true; }
    }
    return false;
  }

  ghost predicate RuleVia(r: Rule, via: Via) {
    match via
    case Wildcard => Has(r.verbs, Star) && Has(r.groups, Star) && Has(r.resources, Star)
    case RbacWrite => exists v :: v in WRITE_VERBS && Grants(r, v, RbacGroup, BINDING_RESOURCES)
    case EscalateVia => Grants(r, Escalate, RbacGroup, ROLE_RESOURCES)
    case BindVia => Grants(r, Bind, RbacGroup, BINDING_RESOURCES) || Grants(r, Bind, RbacGroup, ROLE_RESOURCES)
    case ImpersonateVia => Grants(r, Impersonate, CoreGroup, IDENTITIES)
    case ClusterAdmin => false
  }

  /** What a rule allows: the verb on the resource of the group. */
  predicate Allows(r: Rule, verb: Token, group: Token, resource: Token) {
    Has(r.verbs, verb) && Has(r.groups, group) && Has(r.resources, resource)
  }

  /** A rule grants over a set with the wildcard in it exactly when it allows the verb on
      some member other than the wildcard. */
  lemma GrantsAllowsAResource(r: Rule, verb: Token, group: Token, resources: set<Token>, some: Token)
    requires Star in resources && some in resources && some != Star
    ensures Grants(r, verb, group, resources) <==>
      exists res :: res in resources && res != Star && Allows(r, verb, group, res)
  {
    if Grants(r, verb, group, resources) {
      var res :| res in r.resources && res in resources;
      assert Allows(r, verb, group, if res == Star then some else res);
    }
  }

  function Longest(list: seq<Token>): (n: nat)
    ensures forall t :: t in list && t.Other? ==> |t.name| <= n
  {
    if list == [] then 0
    else
      var n, t := Longest(list[..|list| - 1]), list[|list| - 1];
      if t.Other? && |t.name| > n then |t.name| else n
  }

  /** A name no list mentions. */
  lemma Unmentioned(list: seq<Token>) returns (t: Token)
    ensures t !in list && t != Star
  {
    t := Other(seq(Longest(list) + 1, _ => 'x'));
  }

  /** A rule is a wildcard exactly when it allows everything. */
  lemma WildcardAllowsEverything(r: Rule)
    ensures RuleVia(r, Wildcard) <==> forall verb, group, res :: Allows(r, verb, group, res)
  {
    if forall verb, group, res :: Allows(r, verb, group, res) {
      var v := Unmentioned(r.verbs);
      var g := Unmentioned(r.groups);
      var res := Unmentioned(r.resources);
      assert Allows(r, v, g, res);
    }
  }

  /** The concrete verbs that write, and the concrete kinds of binding. */
  predicate IsWrite(verb: Token) {
    verb.Create? || verb.Update? || verb.Patch? || verb.Delete? || verb.DeleteCollection?
  }

  predicate IsBindingKind(res: Token) { res.RoleBindings? || res.ClusterRoleBindings? }

  /** The other reasons, by what the rule allows. */
  lemma RbacWriteAllowsBindingWrites(r: Rule)
    ensures RuleVia(r, RbacWrite) <==>
      exists verb, res :: IsWrite(verb) && IsBindingKind(res) && Allows(r, verb, RbacGroup, res)
  {
    if RuleVia(r, RbacWrite) {
      var v :| v in WRITE_VERBS && Grants(r, v, RbacGroup, BINDING_RESOURCES);
      var w := if v == Star then Create else v;
      assert Grants(r, w, RbacGroup, BINDING_RESOURCES);
      GrantsAllowsABinding(r, w);
    }
    if verb, res :| IsWrite(verb) && IsBindingKind(res) && Allows(r, verb, RbacGroup, res) {
      GrantsAllowsABinding(r, verb);
    }
  }

  lemma GrantsAllowsABinding(r: Rule, verb: Token)
    ensures Grants(r, verb, RbacGroup, BINDING_RESOURCES) <==>
      exists res :: IsBindingKind(res) && Allows(r, verb, RbacGroup, res)
  {
    GrantsAllowsAResource(r, verb, RbacGroup, BINDING_RESOURCES, RoleBindings);
    if res :| res in BINDING_RESOURCES && res != Star && Allows(r, verb, RbacGroup, res) {
      assert IsBindingKind(res);
    }
  }

  lemma EscalateByWhatIsAllowed(r: Rule)
    ensures RuleVia(r, EscalateVia) <==>
      exists res :: res in {Roles, ClusterRoles} && Allows(r, Escalate, RbacGroup, res)
  {
    GrantsAllowsAResource(r, Escalate, RbacGroup, ROLE_RESOURCES, Roles);
  }

  lemma BindByWhatIsAllowed(r: Rule)
    ensures RuleVia(r, BindVia) <==>
      exists res :: res in {Roles, ClusterRoles, RoleBindings, ClusterRoleBindings} && Allows(r, Bind, RbacGroup, res)
  {
    GrantsAllowsAResource(r, Bind, RbacGroup, ROLE_RESOURCES, Roles);
    GrantsAllowsAResource(r, Bind, RbacGroup, BINDING_RESOURCES, RoleBindings);
  }

  lemma ImpersonateByWhatIsAllowed(r: Rule)
    ensures RuleVia(r, ImpersonateVia) <==>
      exists res :: res in {Users, Groups, ServiceAccounts} && Allows(r, Impersonate, CoreGroup, res)
  {
    GrantsAllowsAResource(r, Impersonate, CoreGroup, IDENTITIES, Users);
  }

  // ---------------------------------------------------------------- rule sets

  /** A Go map used as a set: it is shared by everyone who looked it up. */
  class ViaSet {
    var vias: set<Via>

    constructor ()
      ensures vias == {}
    {
      vias := {};
    }
  }

  ghost predicate Gives(rules: seq<Rule>, via: Via) {
    exists r :: r in rules && RuleVia(r, via)
  }

  method ClassifyRule(m: ViaSet, r: Rule)
    modifies m
    ensures forall via :: via in m.vias <==> via in old(m.vias) || RuleVia(r, via)
  {
    var verb := HasStr(r.verbs, Star);
    var group := HasStr(r.groups, Star);
    var res := HasStr(r.resources, Star);
    if verb && group && res { m.vias := m.vias + {Wildcard}; }
    var left := WRITE_VERBS;
    var writes := false;
    while exists v :: v in left
      invariant left <= WRITE_VERBS
      invariant writes <==> exists v :: v in WRITE_VERBS - left && Grants(r, v, RbacGroup, BINDING_RESOURCES)
      invariant m.vias ==
        old(m.vias) + (if RuleVia(r, Wildcard) then {Wildcard} else {}) + (if writes then {RbacWrite} else {})
      decreases left
    {
      var v :| v in left;
      left := left - {v};
      var g := RuleGrants(r, v, RbacGroup, BINDING_RESOURCES);
      if g { m.vias := m.vias + {RbacWrite}; writes := true; }
    }
    var escalate := RuleGrants(r, Escalate, RbacGroup, ROLE_RESOURCES);
    if escalate { m.vias := m.vias + {EscalateVia}; }
    var bindBinding := RuleGrants(r, Bind, RbacGroup, BINDING_RESOURCES);
    var bindRole := RuleGrants(r, Bind, RbacGroup, ROLE_RESOURCES);
    if bindBinding || bindRole { m.vias := m.vias + {BindVia}; }
    var impersonate := RuleGrants(r, Impersonate, CoreGroup, IDENTITIES);
    if impersonate { m.vias := m.vias + {ImpersonateVia}; }
  }

  method ClassifyRules(rules: seq<Rule>) returns (m: ViaSet)
    ensures fresh(m) && forall via :: via in m.vias <==> Gives(rules, via)
  {
    m := new ViaSet();
    for i := 0 to |rules|
      invariant fresh(m) && forall via :: via in m.vias <==> Gives(rules[..i], via)
    {
      assert rules[..i + 1] == rules[..i] + [rules[i]];
      ClassifyRule(m, rules[i]);
    }
    assert rules[..|rules|] == rules;
  }

  // ---------------------------------------------------------------- roles

  datatype RoleName = ClusterAdminRole | Named(name: string)

  datatype Role<K> = Role(key: K, rules: seq<Rule>)

  /** The rules under a key; a later role of the same key replaces an earlier one. */
  function RulesOf<K(==)>(roles: seq<Role<K>>, key: K): Option<seq<Rule>> {
    if roles == [] then None
    else if roles[|roles| - 1].key == key then Some(roles[|roles| - 1].rules)
    else RulesOf(roles[..|roles| - 1], key)
  }

  /** The last role of a key is the one that counts. */
  lemma {:induction false} LastRoleCounts<K>(roles: seq<Role<K>>, key: K, i: nat)
    requires i < |roles| && roles[i].key == key && forall j :: i < j < |roles| ==> roles[j].key != key
    ensures RulesOf(roles, key) == Some(roles[i].rules)
  {
    var n := |roles| - 1;
    if i < n { LastRoleCounts(roles[..n], key, i); }
  }

  lemma {:induction false} NoRoleNoRules<K>(roles: seq<Role<K>>, key: K)
    requires forall j :: 0 <= j < |roles| ==> roles[j].key != key
    ensures RulesOf(roles, key) == None
  {
    if roles != [] { NoRoleNoRules(roles[..|roles| - 1], key); }
  }

  ghost predicate RoleGives<K>(roles: seq<Role<K>>, key: K, via: Via) {
    RulesOf(roles, key).Some? && Gives(RulesOf(roles, key).value, via)
  }

  /** The built-in cluster-admin counts even when the server hides its rules. */
  ghost predicate ClusterGives(roles: seq<Role<RoleName>>, name: RoleName, via: Via) {
    RoleGives(roles, name, via) || (name == ClusterAdminRole && via == ClusterAdmin)
  }

  method ClassifyRoles<K(==, !new)>(roles: seq<Role<K>>) returns (m: map<K, ViaSet>)
    ensures forall k :: k in m ==> fresh(m[k])
    ensures forall a, b :: a in m && b in m && a != b ==> m[a] != m[b]
    ensures forall k :: k in m <==> RulesOf(roles, k).Some?
    ensures forall k, via :: k in m ==> (via in m[k].vias <==> RoleGives(roles, k, via))
  {
    m := map[];
    for i := 0 to |roles|
      invariant forall k :: k in m ==> fresh(m[k])
      invariant forall a, b :: a in m && b in m && a != b ==> m[a] != m[b]
      invariant forall k :: k in m <==> RulesOf(roles[..i], k).Some?
      invariant forall k, via :: k in m ==> (via in m[k].vias <==> RoleGives(roles[..i], k, via))
    {
      var c := ClassifyRules(roles[i].rules);
      m := m[roles[i].key := c];
      assert roles[..i + 1][..i] == roles[..i];
    }
    assert roles[..|roles|] == roles;
  }

  /** What MarkAdmin's writes leave of the classified cluster roles: at most the marker is
      added, and only to the role it is about. */
  ghost predicate Classified(m: map<RoleName, ViaSet>, roles: seq<Role<RoleName>>)
    reads m.Values
  {
    && (forall a, b :: a in m && b in m && a != b ==> m[a] != m[b])
    && (forall k :: k in m <==> RulesOf(roles, k).Some?)
    && (forall k, via :: k in m && via in m[k].vias ==> ClusterGives(roles, k, via))
    && (forall k, via :: k in m && RoleGives(roles, k, via) ==> via in m[k].vias)
  }

  /** Writes into the shared set. */
  method MarkAdmin(m: map<RoleName, ViaSet>, name: RoleName, ghost roles: seq<Role<RoleName>>) returns (v: ViaSet?)
    requires Classified(m, roles)
    modifies m.Values
    ensures Classified(m, roles)
    ensures forall via :: ClusterGives(roles, name, via) <==> v != null && via in v.vias
  {
    v := if name in m then m[name] else null;
    if name == ClusterAdminRole {
      if v == null { v := new ViaSet(); }
      v.vias := v.vias + {ClusterAdmin};
    }
  }

  // ---------------------------------------------------------------- subjects and paths

  datatype Subject = Subject(kind: string, ns: string, name: string)

  /** The key of a subject, and of a namespaced role: a text with separators. */
  function SubjectKey(s: Subject): string { s.kind + ['|'] + (s.ns + ['|'] + s.name) }

  function RoleKey(ns: string, name: string): string { ns + ['/'] + name }

  lemma KeysAreInjective(a: Subject, b: Subject)
    requires '|' !in a.kind && '|' !in a.ns && '|' !in b.kind && '|' !in b.ns
    ensures SubjectKey(a) == SubjectKey(b) ==> a == b
    ensures '/' !in a.ns && '/' !in b.ns && RoleKey(a.ns, a.name) == RoleKey(b.ns, b.name) ==>
      a.ns == b.ns && a.name == b.name
  {
    if SubjectKey(a) == SubjectKey(b) {
      Text.SplitAtFirst('|', a.kind, a.ns + ['|'] + a.name, b.kind, b.ns + ['|'] + b.name);
      Text.SplitAtFirst('|', a.ns, a.name, b.ns, b.name);
    }
    if '/' !in a.ns && '/' !in b.ns && RoleKey(a.ns, a.name) == RoleKey(b.ns, b.name) {
      Text.SplitAtFirst('/', a.ns, a.name, b.ns, b.name);
    }
  }

  datatype Scope = Cluster | InNamespace(ns: string)

  datatype Path = Path(binding: string, scope: Scope, role: RoleName, via: Via)

  predicate Critical(via: Via) {
    via == Wildcard || via == RbacWrite || via == ClusterAdmin
  }

  datatype Entry = Entry(critical: bool, paths: seq<Path>)

  class Collector {
    var subjects: map<Subject, Entry>
    /** Everything added so far. */
    ghost var added: set<(Subject, Path)>

    ghost predicate Valid()
      reads this
    {
      && (forall s, p :: (s, p) in added <==> s in subjects && p in subjects[s].paths)
      && (forall s :: s in subjects ==> subjects[s].paths != [])
      && (forall s :: s in subjects ==>
        (subjects[s].critical <==> exists p :: p in subjects[s].paths && Critical(p.via)))
    }

    constructor ()
      ensures Valid() && added == {}
    {
      subjects, added := map[], {};
    }

    method Add(s: Subject, path: Path)
      requires Valid()
      modifies this
      ensures Valid() && added == old(added) + {(s, path)}
      ensures s in subjects && forall x :: x != s ==> (x in subjects <==> x in old(subjects))
      ensures forall x :: x != s && x in subjects ==> subjects[x] == old(subjects)[x]
      ensures subjects[s].paths == (if s in old(subjects) then old(subjects)[s].paths else []) + [path]
    {
      var sub := if s in subjects then subjects[s] else Entry(false, []);
      sub := sub.(paths := sub.paths + [path]);
      assert sub.paths[|sub.paths| - 1] == path;
      if Critical(path.via) { sub := sub.(critical := true); }
      subjects := subjects[s := sub];
      added := added + {(s, path)};
    }

    /** The two loops of one binding: every reason for every subject. */
    method AddBinding(name: string, scope: Scope, role: RoleName, vias: ViaSet?, named: seq<Subject>)
      requires Valid()
      modifies this
      ensures Valid()
      ensures forall s, p :: (s, p) in added <==>
        || (s, p) in old(added)
        || (s in named && p == Path(name, scope, role, p.via) && vias != null && p.via in vias.vias)
    {
      if vias == null { return; }
      var left := vias.vias;
      while exists via :: via in left
        invariant Valid() && left <= vias.vias
        invariant forall s, p :: (s, p) in added <==>
          (s, p) in old(added) || (s in named && p == Path(name, scope, role, p.via) && p.via in vias.vias - left)
        decreases left
      {
        var via :| via in left;
        var path := Path(name, scope, role, via);
        ghost var before := added;
        for j := 0 to |named|
          invariant Valid() && vias.vias == old(vias.vias)
          invariant forall s, p :: (s, p) in added <==> (s, p) in before || (s in named[..j] && p == path)
        {
          assert named[..j + 1] == named[..j] + [named[j]];
          Add(named[j], path);
        }
        assert named[..|named|] == named;
        left := left - {via};
      }
    }
  }

  // ---------------------------------------------------------------- the report

  datatype ClusterBinding = ClusterBinding(name: string, role: RoleName, subjects: seq<Subject>)

  datatype NamespacedBinding = NamespacedBinding(ns: string, name: string, ofCluster: bool, role: RoleName,
                                                 subjects: seq<Subject>)

  datatype Input = Input(clusterRoles: seq<Role<RoleName>>, roles: seq<Role<(string, RoleName)>>,
                         clusterBindings: seq<ClusterBinding>, bindings: seq<NamespacedBinding>)

  ghost predicate ClusterPath(input: Input, b: ClusterBinding, s: Subject, p: Path) {
    s in b.subjects && p == Path(b.name, Cluster, b.role, p.via) && ClusterGives(input.clusterRoles, b.role, p.via)
  }

  ghost predicate NamespacedPath(input: Input, b: NamespacedBinding, s: Subject, p: Path) {
    && s in b.subjects && p == Path(b.name, InNamespace(b.ns), b.role, p.via)
    && if b.ofCluster then ClusterGives(input.clusterRoles, b.role, p.via)
      else RoleGives(input.roles, (b.ns, b.role), p.via)
  }

  ghost predicate ByCluster(input: Input, bs: seq<ClusterBinding>, s: Subject, p: Path) {
    exists b :: b in bs && ClusterPath(input, b, s, p)
  }

  ghost predicate ByNamespace(input: Input, bs: seq<NamespacedBinding>, s: Subject, p: Path) {
    exists b :: b in bs && NamespacedPath(input, b, s, p)
  }

  /** Some binding names the subject and its role's rules give the reason. */
  ghost predicate Reaches(input: Input, s: Subject, p: Path) {
    ByCluster(input, input.clusterBindings, s, p) || ByNamespace(input, input.bindings, s, p)
  }

  datatype Row = Row(subject: Subject, critical: bool, paths: seq<Path>)

  /** Critical first, then by name. */
  predicate RowLess(a: Row, b: Row) {
    if a.critical != b.critical then a.critical else Text.Less(a.subject.name, b.subject.name)
  }

  predicate PathLess(a: Path, b: Path) { Text.Less(a.binding, b.binding) }

  lemma OrdersAreWeak()
    ensures SliceSort.StrictWeakOrder(RowLess) && SliceSort.StrictWeakOrder(PathLess)
  {
    Text.LessIsTotal();
  }

  ghost predicate RowIsRight(input: Input, r: Row) {
    && r.paths != [] && (forall p :: p in r.paths <==> Reaches(input, r.subject, p))
    && (r.critical <==> exists p :: p in r.paths && Critical(p.via))
  }

  ghost predicate OncePerSubject(rows: seq<Row>) {
    forall i, j :: 0 <= i < j < |rows| ==> rows[i].subject != rows[j].subject
  }

  /** The report: a row for every subject that reaches cluster-admin and no other. */
  ghost predicate Report(input: Input, rows: seq<Row>) {
    && (forall r :: r in rows ==> RowIsRight(input, r))
    && OncePerSubject(rows)
    && (forall s, p :: Reaches(input, s, p) ==> exists r :: r in rows && r.subject == s)
  }

  lemma ByClusterStep(input: Input, bs: seq<ClusterBinding>, i: nat, s: Subject, p: Path)
    requires i < |bs|
    ensures ByCluster(input, bs[..i + 1], s, p) <==> ByCluster(input, bs[..i], s, p) || ClusterPath(input, bs[i], s, p)
  {
    assert bs[..i + 1] == bs[..i] + [bs[i]];
  }

  lemma ByNamespaceStep(input: Input, bs: seq<NamespacedBinding>, i: nat, s: Subject, p: Path)
    requires i < |bs|
    ensures ByNamespace(input, bs[..i + 1], s, p) <==>
      ByNamespace(input, bs[..i], s, p) || NamespacedPath(input, bs[i], s, p)
  {
    assert bs[..i + 1] == bs[..i] + [bs[i]];
  }

  method CollectCluster(c: Collector, input: Input, m: map<RoleName, ViaSet>)
    requires c.Valid() && c.added == {} && Classified(m, input.clusterRoles)
    modifies c, m.Values
    ensures c.Valid() && Classified(m, input.clusterRoles)
    ensures forall s, p :: (s, p) in c.added <==> ByCluster(input, input.clusterBindings, s, p)
  {
    var bs := input.clusterBindings;
    for i := 0 to |bs|
      invariant c.Valid() && Classified(m, input.clusterRoles)
      invariant forall s, p :: (s, p) in c.added <==> ByCluster(input, bs[..i], s, p)
    {
      ghost var before := c.added;
      var vias := MarkAdmin(m, bs[i].role, input.clusterRoles);
      c.AddBinding(bs[i].name, Cluster, bs[i].role, vias, bs[i].subjects);
      forall s, p ensures (s, p) in c.added <==> ByCluster(input, bs[..i + 1], s, p) {
        ByClusterStep(input, bs, i, s, p);
        assert (s, p) in c.added <==> (s, p) in before || ClusterPath(input, bs[i], s, p);
      }
    }
    assert bs[..|bs|] == bs;
  }

  method CollectNamespaced(c: Collector, input: Input, m: map<RoleName, ViaSet>, n: map<(string, RoleName), ViaSet>)
    requires c.Valid() && Classified(m, input.clusterRoles) && m.Values !! n.Values
    requires forall k :: k in n <==> RulesOf(input.roles, k).Some?
    requires forall k, via :: k in n ==> (via in n[k].vias <==> RoleGives(input.roles, k, via))
    modifies c, m.Values
    ensures c.Valid()
    ensures forall s, p :: (s, p) in c.added <==> (s, p) in old(c.added) || ByNamespace(input, input.bindings, s, p)
  {
    var bs := input.bindings;
    for i := 0 to |bs|
      invariant c.Valid() && Classified(m, input.clusterRoles)
      invariant forall k, via :: k in n ==> (via in n[k].vias <==> RoleGives(input.roles, k, via))
      invariant forall s, p :: (s, p) in c.added <==> (s, p) in old(c.added) || ByNamespace(input, bs[..i], s, p)
    {
      ghost var before := c.added;
      var b, vias: ViaSet? := bs[i], null;
      if b.ofCluster {
        vias := MarkAdmin(m, b.role, input.clusterRoles);
      } else if (b.ns, b.role) in n {
        vias := n[(b.ns, b.role)];
      }
      c.AddBinding(b.name, InNamespace(b.ns), b.role, vias, b.subjects);
      forall s, p ensures (s, p) in c.added <==> (s, p) in old(c.added) || ByNamespace(input, bs[..i + 1], s, p) {
        ByNamespaceStep(input, bs, i, s, p);
        assert (s, p) in c.added <==> (s, p) in before || NamespacedPath(input, b, s, p);
      }
    }
    assert bs[..|bs|] == bs;
  }

  ghost predicate RowOf(subjects: map<Subject, Entry>, r: Row) {
    && r.subject in subjects && r.critical == subjects[r.subject].critical
    && multiset(r.paths) == multiset(subjects[r.subject].paths) && SliceSort.Ordered(r.paths, PathLess)
  }

  /** The map's entries in no particular order, each with its paths sorted. */
  method Rows(subjects: map<Subject, Entry>) returns (out: seq<Row>)
    ensures forall r :: r in out ==> RowOf(subjects, r)
    ensures forall s :: s in subjects ==> exists r :: r in out && r.subject == s
    ensures OncePerSubject(out)
  {
    OrdersAreWeak();
    out := [];
    var left := subjects.Keys;
    while exists s :: s in left
      invariant left <= subjects.Keys
      invariant forall r :: r in out ==> RowOf(subjects, r) && r.subject !in left
      invariant forall s :: s in subjects ==> s in left || exists r :: r in out && r.subject == s
      invariant OncePerSubject(out)
      decreases left
    {
      var s :| s in left;
      left := left - {s};
      var paths := SliceSort.Sort(subjects[s].paths, PathLess);
      var row := Row(s, subjects[s].critical, paths);
      ghost var before := out;
      out := out + [row];
      assert out[|before|] == row;
      assert forall r :: r in before ==> r in out;
      forall x | x in subjects && x !in left ensures exists r :: r in out && r.subject == x {
        if x == s {
          assert row in out;
        } else {
          var r :| r in before && r.subject == x;
          assert r in out;
        }
      }
      forall i, j | 0 <= i < j < |out| ensures out[i].subject != out[j].subject {
        assert out[i] == before[i];
        if j < |before| { assert out[j] == before[j]; }
      }
    }
  }

  lemma TwiceIsTwo<T>(s: seq<T>, i: nat, j: nat)
    requires i < j < |s| && s[i] == s[j]
    ensures multiset(s)[s[i]] >= 2
  {
    assert s == s[..i] + [s[i]] + s[i + 1..j] + [s[j]] + s[j + 1..];
  }

  /** A permutation of distinct rows has distinct rows. */
  lemma PermutedOncePerSubject(a: seq<Row>, b: seq<Row>)
    requires multiset(a) == multiset(b) && OncePerSubject(a)
    ensures OncePerSubject(b)
  {
    forall i, j | 0 <= i < j < |b| ensures b[i].subject != b[j].subject {
      assert b[i] in multiset(b) && b[j] in multiset(b);
      var k :| 0 <= k < |a| && a[k] == b[i];
      var l :| 0 <= l < |a| && a[l] == b[j];
      if k == l {
        TwiceIsTwo(b, i, j);
        OnceIsOne(a, k);
      }
    }
  }

  lemma OnceIsOne(rows: seq<Row>, k: nat)
    requires OncePerSubject(rows) && k < |rows|
    ensures multiset(rows)[rows[k]] == 1
  {
    var rest := rows[..k] + rows[k + 1..];
    assert rows == rows[..k] + [rows[k]] + rows[k + 1..];
    forall l | 0 <= l < |rest| ensures rest[l] != rows[k] {
      assert rest[l] == if l < k then rows[l] else rows[l + 1];
    }
    assert rows[k] !in rest;
  }

  lemma SamePermutedElements<T>(a: seq<T>, b: seq<T>)
    requires multiset(a) == multiset(b)
    ensures forall x :: x in a <==> x in b
  {
    forall x ensures x in a <==> x in b { assert x in multiset(a) <==> x in multiset(b); }
  }

  lemma RowIsRightOf(input: Input, c: Collector, r: Row)
    requires c.Valid() && RowOf(c.subjects, r)
    requires forall s, p :: (s, p) in c.added <==> Reaches(input, s, p)
    ensures RowIsRight(input, r)
  {
    SamePermutedElements(r.paths, c.subjects[r.subject].paths);
    assert c.subjects[r.subject].paths[0] in r.paths;
  }

  /** Critical subjects stand before all others, and each group by name; the paths of a subject by
      their binding. */
  ghost predicate InOrder(rows: seq<Row>) {
    && (forall i, j :: 0 <= i < j < |rows| && rows[j].critical ==> rows[i].critical)
    && (forall i, j :: 0 <= i < j < |rows| && rows[i].critical == rows[j].critical ==>
          !Text.Less(rows[j].subject.name, rows[i].subject.name))
    && (forall r :: r in rows ==> forall i, j :: 0 <= i < j < |r.paths| ==>
          !Text.Less(r.paths[j].binding, r.paths[i].binding))
  }

  lemma SortedIsInOrder(rows: seq<Row>)
    requires SliceSort.Ordered(rows, RowLess) && forall r :: r in rows ==> SliceSort.Ordered(r.paths, PathLess)
    ensures InOrder(rows)
  {
    forall i, j | 0 <= i < j < |rows|
      ensures rows[j].critical ==> rows[i].critical
      ensures rows[i].critical == rows[j].critical ==> !Text.Less(rows[j].subject.name, rows[i].subject.name)
    {
      assert !RowLess(rows[j], rows[i]);
    }
    forall r, i, j | r in rows && 0 <= i < j < |r.paths|
      ensures !Text.Less(r.paths[j].binding, r.paths[i].binding)
    {
      assert !PathLess(r.paths[j], r.paths[i]);
    }
  }

  method AdminReach(input: Input, listed: bool) returns (rows: Option<seq<Row>>)
    ensures rows.Some? <==> listed
    ensures listed ==> Report(input, rows.value) && InOrder(rows.value)
  {
    if !listed { return None; }
    var m := ClassifyRoles(input.clusterRoles);
    var n := ClassifyRoles(input.roles);
    var c := new Collector();
    CollectCluster(c, input, m);
    CollectNamespaced(c, input, m, n);
    var out := Rows(c.subjects);
    OrdersAreWeak();
    var sorted := SliceSort.Sort(out, RowLess);
    SamePermutedElements(sorted, out);
    PermutedOncePerSubject(out, sorted);
    forall r | r in sorted ensures RowIsRight(input, r) { RowIsRightOf(input, c, r); }
    SortedIsInOrder(sorted);
    return Some(sorted);
  }

  // ---------------------------------------------------------------- what a report means

  /** Some binding gives the subject a role of which `rules` are the rules. */
  ghost predicate HasRules(input: Input, s: Subject, rules: seq<Rule>) {
    || (exists b :: b in input.clusterBindings && s in b.subjects && RulesOf(input.clusterRoles, b.role) == Some(rules))
    || (exists b :: b in input.bindings && s in b.subjects &&
          (if b.ofCluster then RulesOf(input.clusterRoles, b.role) else RulesOf(input.roles, (b.ns, b.role)))
            == Some(rules))
  }

  /** Some binding gives the subject the built-in cluster-admin role. */
  ghost predicate IsBuiltinAdmin(input: Input, s: Subject) {
    || (exists b :: b in input.clusterBindings && s in b.subjects && b.role == ClusterAdminRole)
    || (exists b :: b in input.bindings && s in b.subjects && b.ofCluster && b.role == ClusterAdminRole)
  }

  /** A subject has a reason exactly when one of its roles has a rule that gives it, or, for the
      built-in role, when it has that role. */
  lemma ReasonsComeFromRules(input: Input, s: Subject, via: Via)
    ensures (exists p :: Reaches(input, s, p) && p.via == via) <==>
      || (exists rules :: HasRules(input, s, rules) && Gives(rules, via))
      || (via == ClusterAdmin && IsBuiltinAdmin(input, s))
  {
    if p :| Reaches(input, s, p) && p.via == via {
      if ByCluster(input, input.clusterBindings, s, p) {
        var b :| b in input.clusterBindings && ClusterPath(input, b, s, p);
        if RoleGives(input.clusterRoles, b.role, via) {
          assert HasRules(input, s, RulesOf(input.clusterRoles, b.role).value);
        }
      } else {
        var b :| b in input.bindings && NamespacedPath(input, b, s, p);
        var rules := if b.ofCluster then RulesOf(input.clusterRoles, b.role) else RulesOf(input.roles, (b.ns, b.role));
        if rules.Some? && Gives(rules.value, via) { assert HasRules(input, s, rules.value); }
      }
    }
    if rules :| HasRules(input, s, rules) && Gives(rules, via) { RulesReach(input, s, rules, via); }
    if via == ClusterAdmin && IsBuiltinAdmin(input, s) { BuiltinReaches(input, s); }
  }

  lemma RulesReach(input: Input, s: Subject, rules: seq<Rule>, via: Via)
    requires HasRules(input, s, rules) && Gives(rules, via)
    ensures exists p :: Reaches(input, s, p) && p.via == via
  {
    if b :| b in input.clusterBindings && s in b.subjects && RulesOf(input.clusterRoles, b.role) == Some(rules) {
      assert ClusterPath(input, b, s, Path(b.name, Cluster, b.role, via));
    } else {
      var b :| b in input.bindings && s in b.subjects &&
        (if b.ofCluster then RulesOf(input.clusterRoles, b.role) else RulesOf(input.roles, (b.ns, b.role)))
          == Some(rules);
      assert NamespacedPath(input, b, s, Path(b.name, InNamespace(b.ns), b.role, via));
    }
  }

  lemma BuiltinReaches(input: Input, s: Subject)
    requires IsBuiltinAdmin(input, s)
    ensures exists p :: Reaches(input, s, p) && p.via == ClusterAdmin
  {
    if b :| b in input.clusterBindings && s in b.subjects && b.role == ClusterAdminRole {
      assert ClusterPath(input, b, s, Path(b.name, Cluster, b.role, ClusterAdmin));
    } else {
      var b :| b in input.bindings && s in b.subjects && b.ofCluster && b.role == ClusterAdminRole;
      assert NamespacedPath(input, b, s, Path(b.name, InNamespace(b.ns), b.role, ClusterAdmin));
    }
  }

  /** A rule that allows everything, or a write on a kind of binding. */
  ghost predicate AllowsTakeover(r: Rule) {
    || (forall verb, group, res :: Allows(r, verb, group, res))
    || (exists verb, res :: IsWrite(verb) && IsBindingKind(res) && Allows(r, verb, RbacGroup, res))
  }

  /** A row is critical exactly when its subject has the built-in role, or a role one rule of which
      allows everything or a write on bindings.  The right to escalate, bind or impersonate is
      not. */
  lemma CriticalByWhatIsAllowed(input: Input, rows: seq<Row>, r: Row)
    requires Report(input, rows) && r in rows
    ensures r.critical <==>
      || IsBuiltinAdmin(input, r.subject)
      || (exists rules, rule :: HasRules(input, r.subject, rules) && rule in rules && AllowsTakeover(rule))
  {
    var s := r.subject;
    assert RowIsRight(input, r);
    ReasonsComeFromRules(input, s, Wildcard);
    ReasonsComeFromRules(input, s, RbacWrite);
    ReasonsComeFromRules(input, s, ClusterAdmin);
    forall rule: Rule ensures RuleVia(rule, Wildcard) || RuleVia(rule, RbacWrite) <==> AllowsTakeover(rule) {
      WildcardAllowsEverything(rule);
      RbacWriteAllowsBindingWrites(rule);
    }
    if rules, rule :| HasRules(input, s, rules) && rule in rules && AllowsTakeover(rule) {
      assert Gives(rules, Wildcard) || Gives(rules, RbacWrite);
    }
  }

  // ---------------------------------------------------------------- what follows

  /** Map order cannot matter: any two reports of one input say the same of every subject. */
  lemma ReportsAgree(input: Input, a: seq<Row>, b: seq<Row>, r: Row)
    requires Report(input, a) && Report(input, b) && r in a
    ensures exists q ::
      q in b && q.subject == r.subject && q.critical == r.critical && (forall p :: p in q.paths <==> p in r.paths)
  {
    assert Reaches(input, r.subject, r.paths[0]);
    var q :| q in b && q.subject == r.subject;
    assert forall p :: p in q.paths <==> p in r.paths;
  }

  /** Every role keeps its rules, every binding stays. */
  ghost predicate Extends(small: Input, big: Input) {
    && (forall k, via :: RoleGives(small.clusterRoles, k, via) ==> RoleGives(big.clusterRoles, k, via))
    && (forall k, via :: RoleGives(small.roles, k, via) ==> RoleGives(big.roles, k, via))
    && (forall b :: b in small.clusterBindings ==> b in big.clusterBindings)
    && (forall b :: b in small.bindings ==> b in big.bindings)
  }

  lemma ReachesIsMonotone(small: Input, big: Input, s: Subject, p: Path)
    requires Extends(small, big) && Reaches(small, s, p)
    ensures Reaches(big, s, p)
  {
    if ByCluster(small, small.clusterBindings, s, p) {
      var b :| b in small.clusterBindings && ClusterPath(small, b, s, p);
      assert ClusterPath(big, b, s, p);
    } else {
      var b :| b in small.bindings && NamespacedPath(small, b, s, p);
      assert NamespacedPath(big, b, s, p);
    }
  }

  /** Nobody loses a path. */
  ghost predicate ReachesMore(small: Input, big: Input) {
    forall s, p :: Reaches(small, s, p) ==> Reaches(big, s, p)
  }

  lemma ExtendedReachesMore(small: Input, big: Input)
    requires Extends(small, big)
    ensures ReachesMore(small, big)
  {
    forall s, p | Reaches(small, s, p) ensures Reaches(big, s, p) { ReachesIsMonotone(small, big, s, p); }
  }

  /** Then no subject leaves the report and none becomes less severe. */
  lemma ReportsAreMonotone(small: Input, big: Input, a: seq<Row>, b: seq<Row>, r: Row)
    requires ReachesMore(small, big) && Report(small, a) && Report(big, b) && r in a
    ensures exists q ::
      q in b && q.subject == r.subject && (r.critical ==> q.critical) && (forall p :: p in r.paths ==> p in q.paths)
  {
    assert forall p :: p in r.paths ==> Reaches(big, r.subject, p);
    assert Reaches(big, r.subject, r.paths[0]);
    var q :| q in b && q.subject == r.subject;
    assert forall p :: p in r.paths ==> p in q.paths;
  }

  /** A rule added to a role takes no reason from any role. */
  lemma {:induction false} AddedRuleKeepsReasons<K>(roles: seq<Role<K>>, i: nat, rule: Rule, k: K, via: Via)
    requires i < |roles| && RoleGives(roles, k, via)
    ensures RoleGives(roles[i := Role(roles[i].key, roles[i].rules + [rule])], k, via)
  {
    var n := |roles| - 1;
    var more := roles[i := Role(roles[i].key, roles[i].rules + [rule])];
    if roles[n].key == k {
      var r :| r in roles[n].rules && RuleVia(r, via);
      assert r in more[n].rules;
    } else if i < n {
      AddedRuleKeepsReasons(roles[..n], i, rule, k, via);
      assert more[..n] == roles[..n][i := Role(roles[i].key, roles[i].rules + [rule])];
    } else {
      assert more[..n] == roles[..n];
    }
  }

  function WithRule<K>(roles: seq<Role<K>>, i: nat, rule: Rule): seq<Role<K>>
    requires i < |roles|
  {
    roles[i := Role(roles[i].key, roles[i].rules + [rule])]
  }

  lemma AddingARuleExtends(input: Input, i: nat, rule: Rule)
    ensures i < |input.clusterRoles| ==> Extends(input, input.(clusterRoles := WithRule(input.clusterRoles, i, rule)))
    ensures i < |input.roles| ==> Extends(input, input.(roles := WithRule(input.roles, i, rule)))
  {
    forall k, via | i < |input.clusterRoles| && RoleGives(input.clusterRoles, k, via)
      ensures RoleGives(WithRule(input.clusterRoles, i, rule), k, via)
    {
      AddedRuleKeepsReasons(input.clusterRoles, i, rule, k, via);
    }
    forall k, via | i < |input.roles| && RoleGives(input.roles, k, via)
      ensures RoleGives(WithRule(input.roles, i, rule), k, via)
    {
      AddedRuleKeepsReasons(input.roles, i, rule, k, via);
    }
  }

  lemma AddingABindingExtends(input: Input, b: NamespacedBinding, cb: ClusterBinding)
    ensures Extends(input, input.(bindings := input.bindings + [b], clusterBindings := input.clusterBindings + [cb]))
  {
  }

  /** A subject added to a binding takes no path from anyone either. */
  lemma AddingASubjectKeepsPaths(input: Input, i: nat, who: Subject, s: Subject, p: Path)
    requires Reaches(input, s, p)
    ensures i < |input.clusterBindings| ==>
      var b := input.clusterBindings[i];
      Reaches(input.(clusterBindings := input.clusterBindings[i := b.(subjects := b.subjects + [who])]), s, p)
    ensures i < |input.bindings| ==>
      var b := input.bindings[i];
      Reaches(input.(bindings := input.bindings[i := b.(subjects := b.subjects + [who])]), s, p)
  {
    if i < |input.clusterBindings| {
      var bs := input.clusterBindings;
      var more := bs[i := bs[i].(subjects := bs[i].subjects + [who])];
      var big := input.(clusterBindings := more);
      if ByCluster(input, bs, s, p) {
        var b :| b in bs && ClusterPath(input, b, s, p);
        var k :| 0 <= k < |bs| && bs[k] == b;
        assert more[k] in more && ClusterPath(big, more[k], s, p);
      } else {
        var b :| b in input.bindings && NamespacedPath(input, b, s, p);
        assert NamespacedPath(big, b, s, p);
      }
    }
    if i < |input.bindings| {
      var bs := input.bindings;
      var more := bs[i := bs[i].(subjects := bs[i].subjects + [who])];
      var big := input.(bindings := more);
      if ByNamespace(input, bs, s, p) {
        var b :| b in bs && NamespacedPath(input, b, s, p);
        var k :| 0 <= k < |bs| && bs[k] == b;
        assert more[k] in more && NamespacedPath(big, more[k], s, p);
      } else {
        var b :| b in input.clusterBindings && ClusterPath(input, b, s, p);
        assert ClusterPath(big, b, s, p);
      }
    }
  }
}

/** Image references: split into registry, repository, tag and digest, and printed back. */
module ImageRef {

  datatype Parts = Parts(registry: string, repository: string, tag: string, digest: string)

  const DEFAULT_REGISTRY: string := "docker.io"
  const LOCALHOST: string := "localhost"

  /** The first position of a character, |s| if there is none. */
  function Index(s: string, c: char, from: nat): (i: nat)
    requires from <= |s|
    ensures from <= i <= |s| && (i < |s| ==> s[i] == c)
    ensures forall k :: from <= k < i ==> s[k] != c
    decreases |s| - from
  {
    if from == |s| || s[from] == c then from else Index(s, c, from + 1)
  }

  /** One past the last position of a character before `to`, 0 if there is none. */
  function AfterLast(s: string, c: char, to: nat): (i: nat)
    requires to <= |s|
    ensures i <= to && (i > 0 ==> s[i - 1] == c)
    ensures forall k :: i <= k < to ==> s[k] != c
  {
    if to == 0 || s[to - 1] == c then to else AfterLast(s, c, to - 1)
  }

  /** A first segment that can only be a registry. */
  predicate HostLike(first: string) {
    first == LOCALHOST || '.' in first || ':' in first
  }

  /** What stands before the digest, and the digest. */
  function CutDigest(ref: string): (string, string) {
    var i := Index(ref, '@', 0);
    if i < |ref| then (ref[..i], ref[i + 1..]) else (ref, "")
  }

  predicate HasRegistry(rest: string) {
    var slash := Index(rest, '/', 0);
    slash < |rest| && HostLike(rest[..slash])
  }

  function CutRegistry(rest: string): (string, string) {
    var slash := Index(rest, '/', 0);
    if HasRegistry(rest) then (rest[..slash], rest[slash + 1..]) else (DEFAULT_REGISTRY, rest)
  }

  function CutTag(path: string): (string, string) {
    var i := AfterLast(path, ':', |path|);
    if i > 0 then (path[..i - 1], path[i..]) else (path, "")
  }

  function Parse(ref: string): Parts {
    var (rest, digest) := CutDigest(ref);
    var (registry, path) := CutRegistry(rest);
    var (repository, tag) := CutTag(path);
    Parts(registry, repository, tag, digest)
  }

  function WithTag(repository: string, tag: string): string {
    if tag == "" then repository else repository + [':'] + tag
  }

  function WithDigest(rest: string, digest: string): string {
    if digest == "" then rest else rest + ['@'] + digest
  }

  function WithRegistry(registry: string, path: string): string {
    registry + ['/'] + path
  }

  function Print(p: Parts): string {
    WithDigest(WithRegistry(p.registry, WithTag(p.repository, p.tag)), p.digest)
  }

  // ---------------------------------------------------------------- one cut at a time

  lemma CutDigestIff(rest: string, digest: string)
    ensures CutDigest(WithDigest(rest, digest)) == (rest, digest) <==> '@' !in rest
  {
    var s, i := WithDigest(rest, digest), Index(WithDigest(rest, digest), '@', 0);
    if '@' in rest {
      var k :| 0 <= k < |rest| && rest[k] == '@';
      assert s[k] == '@' && i <= k;
      assert |CutDigest(s).0| == i;
    } else if digest != "" {
      assert s[|rest|] == '@';
      forall k | 0 <= k < |rest| ensures s[k] != '@' { assert s[k] == rest[k]; }
      assert s[..i] == rest && s[i + 1..] == digest;
    }
  }

  lemma CutTagIff(repository: string, tag: string)
    ensures CutTag(WithTag(repository, tag)) == (repository, tag) <==> ':' !in if tag == "" then repository else tag
  {
    var s, i := WithTag(repository, tag), AfterLast(WithTag(repository, tag), ':', |WithTag(repository, tag)|);
    if tag == "" {
      if ':' in repository {
        assert |CutTag(s).0| < |s|;
      }
    } else if ':' in tag {
      var k :| 0 <= k < |tag| && tag[k] == ':';
      assert s[|repository| + 1 + k] == ':';
      assert |CutTag(s).1| == |s| - i < |tag|;
    } else {
      assert s[|repository|] == ':';
      forall k | |repository| < k < |s| ensures s[k] != ':' { assert s[k] == tag[k - |repository| - 1]; }
      assert i == |repository| + 1;
      assert s[..i - 1] == repository && s[i..] == tag;
    }
  }

  lemma CutRegistryIff(registry: string, path: string)
    ensures CutRegistry(WithRegistry(registry, path)) == (registry, path) <==> '/' !in registry && HostLike(registry)
  {
    var s, slash := WithRegistry(registry, path), Index(WithRegistry(registry, path), '/', 0);
    assert s[|registry|] == '/';
    if '/' in registry {
      var k :| 0 <= k < |registry| && registry[k] == '/';
      assert s[k] == '/' && slash < |registry|;
      assert |CutRegistry(s).1| > |path|;
    } else {
      forall k | 0 <= k < |registry| ensures s[k] != '/' { assert s[k] == registry[k]; }
      assert slash == |registry| && s[..slash] == registry && s[slash + 1..] == path;
    }
  }

  lemma CutAndJoin(s: string, i: nat)
    requires i < |s|
    ensures s == s[..i] + [s[i]] + s[i + 1..]
  {}

  lemma JoinDigest(ref: string)
    ensures WithDigest(CutDigest(ref).0, CutDigest(ref).1) == if Index(ref, '@', 0) == |ref| - 1 then CutDigest(ref).0
      else ref
  {
    var i := Index(ref, '@', 0);
    if i < |ref| { CutAndJoin(ref, i); }
  }

  lemma JoinTag(path: string)
    ensures
      var (repository, tag) := CutTag(path);
      WithTag(repository, tag) == if path != "" && path[|path| - 1] == ':' then path[..|path| - 1] else path
  {
    var i := AfterLast(path, ':', |path|);
    if i > 0 { CutAndJoin(path, i - 1); }
  }

  lemma JoinRegistry(rest: string)
    ensures
      var (registry, path) := CutRegistry(rest);
      WithRegistry(registry, path) == if HasRegistry(rest) then rest else WithRegistry(DEFAULT_REGISTRY, rest)
  {
    var slash := Index(rest, '/', 0);
    if HasRegistry(rest) { CutAndJoin(rest, slash); }
  }

  // ---------------------------------------------------------------- the registry, by characters

  /** The first segment names the registry exactly when it is localhost or has a dot or a port;
      any other belongs to the repository on the default registry. */
  lemma FirstSegmentIff(first: string, path: string)
    requires '/' !in first
    ensures
      var host := first == "localhost" || exists i :: 0 <= i < |first| && (first[i] == '.' || first[i] == ':');
      CutRegistry(first + ['/'] + path) == if host then (first, path) else ("docker.io", first + ['/'] + path)
  {
    var rest := first + ['/'] + path;
    var slash := Index(rest, '/', 0);
    assert rest[|first|] == '/';
    forall k | 0 <= k < |first| ensures rest[k] != '/' { assert rest[k] == first[k]; }
    assert slash == |first| && rest[..slash] == first && rest[slash + 1..] == path;
  }

  /** A text without a slash names no registry. */
  lemma NoSlashNoRegistry(rest: string)
    requires '/' !in rest
    ensures CutRegistry(rest) == ("docker.io", rest)
  {
  }

  // ---------------------------------------------------------------- parsing what was printed

  /** Parts that a reference can spell. */
  predicate Spellable(p: Parts) {
    && '/' !in p.registry && HostLike(p.registry)
    && ':' !in (if p.tag == "" then p.repository else p.tag)
    && '@' !in WithRegistry(p.registry, WithTag(p.repository, p.tag))
  }

  /** The parts before the digest, from the text before it. */
  function ParseRest(rest: string): (string, string, string) {
    var (registry, path) := CutRegistry(rest);
    var (repository, tag) := CutTag(path);
    (registry, repository, tag)
  }

  lemma ParseRestIff(p: Parts)
    ensures ParseRest(WithRegistry(p.registry, WithTag(p.repository, p.tag))) == (p.registry, p.repository, p.tag) <==>
      '/' !in p.registry && HostLike(p.registry) && ':' !in if p.tag == "" then p.repository else p.tag
  {
    var path := WithTag(p.repository, p.tag);
    var rest := WithRegistry(p.registry, path);
    CutRegistryIff(p.registry, path);
    CutTagIff(p.repository, p.tag);
    JoinRegistry(rest);
    if CutRegistry(rest).0 == p.registry && HasRegistry(rest) {
      assert rest[|p.registry| + 1..] == path;
      assert WithRegistry(p.registry, CutRegistry(rest).1)[|p.registry| + 1..] == CutRegistry(rest).1;
    }
  }

  /** A text one shorter than the printed parts never has those parts. */
  lemma ShorterIsDifferent(p: Parts, rest: string)
    requires |rest| + 1 == |WithRegistry(p.registry, WithTag(p.repository, p.tag))|
    ensures ParseRest(rest) != (p.registry, p.repository, p.tag)
  {
    JoinRegistry(rest);
    JoinTag(CutRegistry(rest).1);
  }

  /** Parsing printed parts gives them back exactly when they are spellable. */
  lemma ParsePrintIff(p: Parts)
    ensures Parse(Print(p)) == p <==> Spellable(p)
  {
    var rest := WithRegistry(p.registry, WithTag(p.repository, p.tag));
    ParseRestIff(p);
    CutDigestIff(rest, p.digest);
    var ref := Print(p);
    var cut := CutDigest(ref);
    assert Parse(ref) == Parts(ParseRest(cut.0).0, ParseRest(cut.0).1, ParseRest(cut.0).2, cut.1);
    if '@' in rest && cut.1 == p.digest {
      var k :| 0 <= k < |rest| && rest[k] == '@';
      assert ref[k] == '@';
      assert |cut.0| == Index(ref, '@', 0) <= k;
      assert |cut.0| + 1 + |cut.1| == |ref|;
      assert p.digest == "";
      ShorterIsDifferent(p, cut.0);
    }
  }

  // ---------------------------------------------------------------- printing what was parsed

  predicate EmptyDigest(ref: string) {
    Index(ref, '@', 0) == |ref| - 1
  }

  predicate EmptyTag(ref: string) {
    var rest := CutDigest(ref).0;
    rest != "" && rest[|rest| - 1] == ':'
  }

  /** The reference with its registry spelled out. */
  function Qualified(ref: string): string {
    if HasRegistry(CutDigest(ref).0) then ref else WithRegistry(DEFAULT_REGISTRY, ref)
  }

  lemma PathEndsAsRest(rest: string)
    ensures
      var path := CutRegistry(rest).1;
      (path != "" && path[|path| - 1] == ':') <==> (rest != "" && rest[|rest| - 1] == ':')
  {
    var slash := Index(rest, '/', 0);
    if HasRegistry(rest) {
      if slash == |rest| - 1 {
        assert rest[|rest| - 1] == '/';
      } else {
        assert rest[slash + 1..][|rest| - slash - 2] == rest[|rest| - 1];
      }
    }
  }

  lemma PrintOfParse(ref: string)
    ensures
      var (rest, digest) := CutDigest(ref);
      var tagged := if EmptyTag(ref) then rest[..|rest| - 1] else rest;
      Print(Parse(ref)) == WithDigest(if HasRegistry(rest) then tagged
        else WithRegistry(DEFAULT_REGISTRY, tagged), digest)
  {
    var rest := CutDigest(ref).0;
    var path := CutRegistry(rest).1;
    JoinRegistry(rest);
    JoinTag(path);
    PathEndsAsRest(rest);
    if EmptyTag(ref) {
      var registry := CutRegistry(rest).0;
      assert WithRegistry(registry, path[..|path| - 1]) == WithRegistry(registry, path)[..|registry| + |path|];
    }
  }

  lemma RegistryInFront(rest: string, digest: string)
    ensures WithDigest(WithRegistry(DEFAULT_REGISTRY, rest), digest)
      == WithRegistry(DEFAULT_REGISTRY, WithDigest(rest, digest))
  {
  }

  /** Printing a parsed reference gives the reference, with the default registry in front
      when it named none, exactly when it has neither an empty tag nor an empty digest. */
  lemma PrintParseIff(ref: string)
    ensures Print(Parse(ref)) == Qualified(ref) <==> !EmptyTag(ref) && !EmptyDigest(ref)
  {
    var rest, digest := CutDigest(ref).0, CutDigest(ref).1;
    var tagged := if EmptyTag(ref) then rest[..|rest| - 1] else rest;
    PrintOfParse(ref);
    JoinDigest(ref);
    RegistryInFront(tagged, digest);
    var printed := WithDigest(tagged, digest);
    assert printed == ref <==> !EmptyTag(ref) && !EmptyDigest(ref) by {
      assert |printed| == |WithDigest(rest, digest)| - |rest| + |tagged|;
    }
    if !HasRegistry(rest) {
      assert |Print(Parse(ref))| - |printed| == |Qualified(ref)| - |ref|;
    }
  }

  lemma RegistryIsHost(rest: string)
    ensures '/' !in CutRegistry(rest).0 && HostLike(CutRegistry(rest).0)
    ensures '@' !in rest ==> '@' !in CutRegistry(rest).0 && '@' !in CutRegistry(rest).1
  {
    if !HasRegistry(rest) { assert DEFAULT_REGISTRY[6] == '.'; }
  }

  lemma TagHasNoColon(path: string)
    ensures ':' !in CutTag(path).1
    ensures '@' !in path ==> '@' !in CutTag(path).0 && '@' !in CutTag(path).1
  {
  }

  /** Parsing the printed parts of a reference gives the same parts, unless an empty tag
      hides a colon in the repository. */
  lemma ReparseIff(ref: string)
    ensures Parse(Print(Parse(ref))) == Parse(ref) <==> !(Parse(ref).tag == "" && ':' in Parse(ref).repository)
  {
    var rest := CutDigest(ref).0;
    assert '@' !in rest;
    RegistryIsHost(rest);
    TagHasNoColon(CutRegistry(rest).1);
    ParsePrintIff(Parse(ref));
  }
}

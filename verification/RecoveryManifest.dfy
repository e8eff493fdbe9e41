/** Writing and verifying the manifest of a backup (controller/guardian/backup.py:305-308 and
    809-988). A tree maps the relative paths of its entries, as the file system lists them, to
    what is there; contents are byte strings. */
module RecoveryManifest {
  import opened Base
  import opened Paths
  import opened RecoveryMetadata

  datatype Node = Regular(content: string) | LinkToDirectory | Other

  type Tree = map<string, Node>

  datatype Artifact = Artifact(path: string, size: int, sha256: string)

  datatype Manifest = Manifest(
    schema: int, host: string, service: string, createdAt: string, engine: string,
    artifacts: seq<Artifact>, metadata: Option<Metadata>)

  /** What the model does not define: the digest, the JSON text of a manifest and the reading of
      a text, the control-like characters. */
  datatype Env = Env(
    digest: string -> string, encode: Manifest -> string, decode: string -> Option<Manifest>, control: char -> bool)

  /** A digest has its 64 lower-case hexadecimal digits, and reading undoes writing. */
  ghost predicate Faithful(env: Env) {
    && (forall text :: AllHex(env.digest(text), 64) && Lower(env.digest(text)) == env.digest(text))
    && (forall m :: env.decode(env.encode(m)) == Some(m))
  }

  // ---------------------------------------------------------------- names and paths

  const MANIFEST := "manifest.json"
  const TEMPORARY := "manifest.json.tmp"

  predicate NameOk(name: string) {
    && 1 <= |name| <= 120
    && ('A' <= name[0] <= 'Z' || 'a' <= name[0] <= 'z' || '0' <= name[0] <= '9')
    && forall c <- name[1..] :: 'A' <= c <= 'Z' || 'a' <= c <= 'z' || '0' <= c <= '9' || c in "_.-"
  }

  /** A path a file system lists under a root. */
  predicate Relative(path: string) {
    forall part <- Components(path) :: Plain(part)
  }

  ghost predicate Listed(t: Tree) {
    forall p | p in t :: Relative(p)
  }

  lemma ManifestIsRelative()
    ensures Relative(MANIFEST) && Name(MANIFEST) == MANIFEST
  {
    OneComponent(MANIFEST);
  }

  // ---------------------------------------------------------------- building

  function Entry(env: Env, path: string, content: string): Artifact {
    Artifact(path, |content|, env.digest(content))
  }

  /** The entry is left out of the manifest. */
  predicate Skipped(t: Tree, path: string)
    requires path in t
  {
    Name(path) == MANIFEST || t[path].LinkToDirectory?
  }

  /** The artifacts of the entries visited; none when one is unsafe. */
  function Artifacts(env: Env, t: Tree, listing: seq<string>): Option<seq<Artifact>>
    requires forall p <- listing :: p in t
  {
    if listing == [] then Some([])
    else
      var p := listing[|listing| - 1];
      var earlier := Artifacts(env, t, listing[..|listing| - 1]);
      if earlier.None? || Skipped(t, p) then earlier
      else if t[p].Regular? then Some(earlier.value + [Entry(env, p, t[p].content)])
      else None
  }

  /** An order in which the entries of a tree are visited, each once. */
  ghost predicate Enumerates(listing: seq<string>, t: Tree) {
    && (forall p :: p in listing <==> p in t)
    && (forall i, j | 0 <= i < j < |listing| :: listing[i] != listing[j])
  }

  datatype Request = Request(host: string, service: string, createdAt: string, metadata: Option<Metadata>)

  function Build(env: Env, t: Tree, listing: seq<string>, r: Request): Option<Manifest>
    requires forall p <- listing :: p in t
  {
    var artifacts := Artifacts(env, t, listing);
    var metadata := if r.metadata.Some? then Normalize(r.metadata.value, env.control) else None;
    if !NameOk(r.host) || !NameOk(r.service) || artifacts.None? || artifacts.value == [] then None
    else if r.metadata.Some? && metadata.None? then None
    else Some(Manifest(1, r.host, r.service, r.createdAt, "restic", artifacts.value, metadata))
  }

  method BuildManifest(env: Env, t: Tree, listing: seq<string>, r: Request) returns (m: Option<Manifest>)
    requires forall p <- listing :: p in t
    ensures m == Build(env, t, listing, r)
  {
    if !NameOk(r.host) || !NameOk(r.service) {
      return None;
    }
    var artifacts: seq<Artifact> := [];
    for i := 0 to |listing|
      invariant Artifacts(env, t, listing[..i]) == Some(artifacts)
    {
      assert listing[..i + 1][..i] == listing[..i];
      var p := listing[i];
      if !Skipped(t, p) {
        if !t[p].Regular? {
          RefusedStays(env, t, listing, i + 1);
          return None;
        }
        artifacts := artifacts + [Entry(env, p, t[p].content)];
      }
    }
    assert listing[..|listing|] == listing;
    if artifacts == [] {
      return None;
    }
    var metadata: Option<Metadata> := None;
    if r.metadata.Some? {
      metadata := Normalize(r.metadata.value, env.control);
      if metadata.None? {
        return None;
      }
    }
    return Some(Manifest(1, r.host, r.service, r.createdAt, "restic", artifacts, metadata));
  }

  lemma {:induction false} RefusedStays(env: Env, t: Tree, listing: seq<string>, i: nat)
    requires forall p <- listing :: p in t
    requires i <= |listing| && Artifacts(env, t, listing[..i]).None?
    ensures Artifacts(env, t, listing).None?
  {
    if i < |listing| {
      assert listing[..|listing| - 1][..i] == listing[..i];
      RefusedStays(env, t, listing[..|listing| - 1], i);
    } else {
      assert listing[..i] == listing;
    }
  }

  /** Writing goes through a temporary file beside the manifest, which it then renames. */
  function Written(env: Env, t: Tree, m: Manifest): Tree {
    (t - {TEMPORARY})[MANIFEST := Regular(env.encode(m))]
  }

  // ---------------------------------------------------------------- parsing

  /** A path a manifest may name. The path "." passes, as it has no parts. */
  predicate PathOk(path: string) {
    path == "." || Relative(path)
  }

  predicate ArtifactOk(a: Artifact) {
    && a.path != "" && '\\' !in a.path && a.size >= 0 && AllHex(a.sha256, 64)
    && PathOk(a.path) && a.path != MANIFEST
  }

  datatype Expected = Expected(size: int, sha256: string)

  /** The artifacts by path; none when one is invalid or repeated. */
  function ByPath(artifacts: seq<Artifact>): Option<map<string, Expected>> {
    if artifacts == [] then Some(map[])
    else
      var a := artifacts[|artifacts| - 1];
      var earlier := ByPath(artifacts[..|artifacts| - 1]);
      if earlier.None? || !ArtifactOk(a) || a.path in earlier.value then None
      else Some(earlier.value[a.path := Expected(a.size, Lower(a.sha256))])
  }

  datatype Scope = Scope(host: Option<string>, service: Option<string>)

  predicate InScope(m: Manifest, s: Scope) {
    (s.host.Some? ==> s.host.value == m.host) && (s.service.Some? ==> s.service.value == m.service)
  }

  function Parse(env: Env, m: Manifest, s: Scope): Option<(Manifest, map<string, Expected>)> {
    var files := ByPath(m.artifacts);
    var metadata := if m.metadata.Some? then Normalize(m.metadata.value, env.control) else None;
    if m.schema != 1 || !NameOk(m.host) || !NameOk(m.service) || !InScope(m, s) then None
    else if m.artifacts == [] || files.None? || (m.metadata.Some? && metadata.None?) then None
    else Some((m.(metadata := metadata), files.value))
  }

  method ParsePayload(env: Env, m: Manifest, s: Scope) returns (r: Option<(Manifest, map<string, Expected>)>)
    ensures r == Parse(env, m, s)
  {
    if m.schema != 1 || !NameOk(m.host) || !NameOk(m.service) || !InScope(m, s) || m.artifacts == [] {
      return None;
    }
    var normalized: map<string, Expected> := map[];
    for i := 0 to |m.artifacts|
      invariant ByPath(m.artifacts[..i]) == Some(normalized)
    {
      assert m.artifacts[..i + 1][..i] == m.artifacts[..i];
      var a := m.artifacts[i];
      if !ArtifactOk(a) || a.path in normalized {
        InvalidStays(m.artifacts, i + 1);
        return None;
      }
      normalized := normalized[a.path := Expected(a.size, Lower(a.sha256))];
    }
    assert m.artifacts[..|m.artifacts|] == m.artifacts;
    var metadata: Option<Metadata> := None;
    if m.metadata.Some? {
      metadata := Normalize(m.metadata.value, env.control);
      if metadata.None? {
        return None;
      }
    }
    return Some((m.(metadata := metadata), normalized));
  }

  lemma {:induction false} InvalidStays(artifacts: seq<Artifact>, i: nat)
    requires i <= |artifacts| && ByPath(artifacts[..i]).None?
    ensures ByPath(artifacts).None?
  {
    if i < |artifacts| {
      assert artifacts[..|artifacts| - 1][..i] == artifacts[..i];
      InvalidStays(artifacts[..|artifacts| - 1], i);
    } else {
      assert artifacts[..i] == artifacts;
    }
  }

  /** Parsing keeps the size and the digest of each artifact, and nothing else. */
  lemma {:induction false} ByPathKeeps(artifacts: seq<Artifact>)
    requires ByPath(artifacts).Some?
    ensures var files := ByPath(artifacts).value;
            && (forall p | p in files :: exists a <- artifacts :: a.path == p)
            && (forall a <- artifacts :: a.path in files && files[a.path] == Expected(a.size, Lower(a.sha256)))
  {
    if artifacts != [] {
      var init, last := artifacts[..|artifacts| - 1], artifacts[|artifacts| - 1];
      ByPathKeeps(init);
      assert artifacts == init + [last];
    }
  }

  ghost predicate Sound(artifacts: seq<Artifact>) {
    && (forall a <- artifacts :: ArtifactOk(a))
    && (forall i, j | 0 <= i < j < |artifacts| :: artifacts[i].path != artifacts[j].path)
  }

  /** Parsing accepts exactly the lists of valid artifacts with distinct paths. */
  lemma {:induction false} ByPathIff(artifacts: seq<Artifact>)
    ensures ByPath(artifacts).Some? <==> Sound(artifacts)
  {
    if artifacts != [] {
      var init, last := artifacts[..|artifacts| - 1], artifacts[|artifacts| - 1];
      ByPathIff(init);
      SoundGrows(init, last);
      assert artifacts == init + [last];
      if ByPath(init).Some? {
        ByPathKeeps(init);
      }
    }
  }

  lemma SoundGrows(init: seq<Artifact>, last: Artifact)
    ensures Sound(init + [last]) <==> Sound(init) && ArtifactOk(last) && forall a <- init :: a.path != last.path
  {
    var longer := init + [last];
    if Sound(longer) {
      forall a | a in init ensures a.path != last.path {
        var i :| 0 <= i < |init| && init[i] == a;
        assert longer[i].path != longer[|init|].path;
      }
      assert Sound(init) by {
        forall i, j | 0 <= i < j < |init| ensures init[i].path != init[j].path {
          assert longer[i].path != longer[j].path;
        }
      }
      assert longer[|init|] == last;
    }
  }
}

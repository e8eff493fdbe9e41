/** Exactly which manifests are built and which restored trees are accepted, without the checks'
    own helpers (controller/guardian/backup.py:305-308, 758-911 and 945-988). */
module RecoveryChecks {
  import opened Base
  import opened Paths
  import opened RecoveryMetadata
  import opened RecoveryManifest
  import opened RecoveryVerification

  // ---------------------------------------------------------------- digits, names, paths

  /** The second text is the first with its hexadecimal digits in lower case, and nothing else. */
  predicate LowersTo(s: string, t: string) {
    |s| == |t| && forall i | 0 <= i < |s| ::
      || ('0' <= s[i] <= '9' && t[i] == s[i])
      || ('a' <= s[i] <= 'f' && t[i] == s[i])
      || ('A' <= s[i] <= 'F' && 'a' <= t[i] <= 'f' && s[i] as int - 'A' as int == t[i] as int - 'a' as int)
  }

  lemma LowersIff(s: string, length: nat, t: string)
    ensures |s| == length && LowersTo(s, t) <==> AllHex(s, length) && t == Lower(s)
  {
    if AllHex(s, length) && t == Lower(s) {
      assert forall i | 0 <= i < |s| :: s[i] in s;
    }
  }

  /** A letter or digit, then at most 119 letters, digits, underscores, dots and dashes. */
  predicate SafeName(name: string) {
    && 1 <= |name| <= 120
    && name[0] !in {'_', '.', '-'}
    && forall i | 0 <= i < |name| ::
         || 'A' <= name[i] <= 'Z' || 'a' <= name[i] <= 'z' || '0' <= name[i] <= '9'
         || name[i] in {'_', '.', '-'}
  }

  lemma SafeNameIff(name: string)
    ensures NameOk(name) <==> SafeName(name)
  {
    if |name| >= 1 {
      var rest := name[1..];
      assert forall i | 0 < i < |name| :: name[i] == rest[i - 1];
      assert forall c :: c in "_.-" <==> c in {'_', '.', '-'};
      if NameOk(name) {
        assert forall i | 0 < i < |name| :: name[i] in rest;
      }
    }
  }

  /** Parts with slashes between them, none empty, none "." or "..", none with a backslash: what a
      file beneath the root is called. */
  ghost predicate SafePath(path: string) {
    exists parts :: SafeParts(parts) && Join(parts) == path
  }

  predicate SafeParts(parts: seq<string>) {
    parts != [] && forall part <- parts :: part !in {"", ".", ".."} && '/' !in part && '\\' !in part
  }

  lemma {:induction false} BackslashInPart(parts: seq<string>)
    requires parts != []
    ensures '\\' in Join(parts) <==> exists part <- parts :: '\\' in part
  {
    if |parts| > 1 {
      BackslashInPart(parts[1..]);
      assert parts == [parts[0]] + parts[1..];
    }
  }

  lemma SafePathIff(path: string)
    ensures SafePath(path) <==> Relative(path) && '\\' !in path
  {
    JoinComponents(path);
    BackslashInPart(Components(path));
    if parts :| SafeParts(parts) && Join(parts) == path {
      ComponentsIff(path, parts);
    }
    if Relative(path) && '\\' !in path {
      assert SafeParts(Components(path));
    }
  }

  // ---------------------------------------------------------------- manifests

  /** An artifact a manifest may hold. The path "." is let through. */
  ghost predicate SafeArtifact(a: Artifact) {
    && (SafePath(a.path) || a.path == ".") && a.path != "manifest.json"
    && a.size >= 0
    && |a.sha256| == 64 && exists t :: LowersTo(a.sha256, t)
  }

  lemma SafeArtifactIff(a: Artifact)
    ensures SafeArtifact(a) <==> ArtifactOk(a)
  {
    SafePathIff(a.path);
    assert Components("") == [""];
    LowersIff(a.sha256, 64, Lower(a.sha256));
    if t :| LowersTo(a.sha256, t) {
      LowersIff(a.sha256, 64, t);
    }
  }

  /** One to 512 characters, none of a control category. */
  predicate SafeReferences(values: seq<string>, control: char -> bool) {
    forall v <- values :: v != "" && |v| <= 512 && forall i | 0 <= i < |v| :: !control(v[i])
  }

  ghost predicate SafeMetadata(m: Metadata, control: char -> bool) {
    && m.containsSecrets == false
    && |m.commit| == 40 && (exists t :: LowersTo(m.commit, t)) && (exists i :: 0 <= i < 40 && m.commit[i] != '0')
    && m.revisions != [] && m.secrets != []
    && SafeReferences(m.revisions, control) && SafeReferences(m.configuration, control)
    && SafeReferences(m.certificates, control) && SafeReferences(m.secrets, control)
  }

  lemma SafeReferencesIff(values: seq<string>, control: char -> bool)
    ensures SafeReferences(values, control) <==> ReferencesOk(values, control)
  {
    forall v <- values
      ensures (forall i | 0 <= i < |v| :: !control(v[i])) <==> (forall c <- v :: !control(c))
    {
      assert forall i | 0 <= i < |v| :: v[i] in v;
    }
  }

  /** Main result: exactly which metadata is accepted, and what is stored of it: the commit in lower
      case, and the members of each list once each, in increasing order. */
  lemma NormalizesIff(m: Metadata, control: char -> bool)
    ensures Normalize(m, control).Some? <==> SafeMetadata(m, control)
    ensures Normalize(m, control).Some? ==>
      var r := Normalize(m, control).value;
      && LowersTo(m.commit, r.commit) && !r.containsSecrets
      && Lists(r.revisions, m.revisions) && Lists(r.configuration, m.configuration)
      && Lists(r.certificates, m.certificates) && Lists(r.secrets, m.secrets)
  {
    LowersIff(m.commit, 40, Lower(m.commit));
    if t :| LowersTo(m.commit, t) {
      LowersIff(m.commit, |m.commit|, t);
    }
    if i :| 0 <= i < |m.commit| && m.commit[i] != '0' {
      assert m.commit[i] in m.commit;
    }
    SafeReferencesIff(m.revisions, control);
    SafeReferencesIff(m.configuration, control);
    SafeReferencesIff(m.certificates, control);
    SafeReferencesIff(m.secrets, control);
    SortedSetSorts(m.revisions);
    SortedSetSorts(m.configuration);
    SortedSetSorts(m.certificates);
    SortedSetSorts(m.secrets);
  }

  /** The same members, increasing and hence without repetition. */
  ghost predicate Lists(r: seq<string>, values: seq<string>) {
    Increasing(r) && forall v :: v in r <==> v in values
  }

  /** What a manifest must satisfy to be read within a scope. */
  ghost predicate SafeManifest(m: Manifest, s: Scope, control: char -> bool) {
    && m.schema == 1 && SafeName(m.host) && SafeName(m.service)
    && s.host in {None, Some(m.host)} && s.service in {None, Some(m.service)}
    && m.artifacts != [] && (forall a <- m.artifacts :: SafeArtifact(a))
    && (forall i, j | 0 <= i < j < |m.artifacts| :: m.artifacts[i].path != m.artifacts[j].path)
    && (m.metadata.Some? ==> SafeMetadata(m.metadata.value, control))
  }

  lemma ParsesIff(env: Env, m: Manifest, s: Scope)
    ensures Parse(env, m, s).Some? <==> SafeManifest(m, s, env.control)
  {
    SafeNameIff(m.host);
    SafeNameIff(m.service);
    ByPathIff(m.artifacts);
    forall a <- m.artifacts
      ensures SafeArtifact(a) <==> ArtifactOk(a)
    {
      SafeArtifactIff(a);
    }
    if m.metadata.Some? {
      NormalizesIff(m.metadata.value, env.control);
    }
  }

  // ---------------------------------------------------------------- restored trees

  /** Every artifact is a file of the tree with its size and digest, and there is nothing else but
      the manifest. */
  ghost predicate Carries(env: Env, t: Tree, artifacts: seq<Artifact>) {
    && (forall p :: p in t <==> p == "manifest.json" || exists a <- artifacts :: a.path == p)
    && forall a <- artifacts :: a.path in t && t[a.path].Regular? &&
         |t[a.path].content| == a.size && LowersTo(a.sha256, env.digest(t[a.path].content))
  }

  lemma CarriesIff(env: Env, t: Tree, artifacts: seq<Artifact>)
    requires ByPath(artifacts).Some? && AllRegular(t)
    ensures FilesMatch(env, t, ByPath(artifacts).value) <==> Carries(env, t, artifacts)
  {
    var files := ByPath(artifacts).value;
    ByPathIff(artifacts);
    ByPathKeeps(artifacts);
    assert forall p :: p in files <==> exists a <- artifacts :: a.path == p;
    forall a <- artifacts | a.path in t
      ensures LowersTo(a.sha256, env.digest(t[a.path].content)) <==>
              env.digest(t[a.path].content) == files[a.path].sha256
    {
      assert ArtifactOk(a);
      LowersIff(a.sha256, 64, env.digest(t[a.path].content));
    }
    if Carries(env, t, artifacts) {
      assert t.Keys == files.Keys + {MANIFEST};
      forall p | p in files ensures p in t && Meets(env, t[p], files[p]) {
        var a :| a in artifacts && a.path == p;
      }
    }
    if FilesMatch(env, t, files) {
      forall a <- artifacts
        ensures a.path in t && Meets(env, t[a.path], files[a.path])
      {
      }
    }
  }

  /** The manifest is at the root, and no other file has its name. */
  ghost predicate RootManifestOnly(t: Tree) {
    "manifest.json" in t && forall p | p in t :: !exists directory :: p == directory + "/" + "manifest.json"
  }

  lemma RootManifestIff(t: Tree)
    ensures RootManifestOnly(t) <==> OneManifest(t)
  {
    assert MANIFEST == "manifest.json";
    forall p | p in t
      ensures (Name(p) == MANIFEST && p != MANIFEST) <==> exists directory :: p == directory + "/" + MANIFEST
    {
      NameIff(p, MANIFEST);
      if directory :| p == directory + "/" + MANIFEST {
        assert |p| > |MANIFEST|;
      }
    }
  }

  /** Main result: exactly when a restored tree is accepted. The checksum, if one is given, is the
      manifest's digest; the tree holds regular files only and one manifest, at its root; the manifest
      reads as a safe one of the scope; and the tree is what it lists. */
  lemma VerifiesIff(env: Env, t: Tree, checksum: Option<string>, s: Scope)
    ensures Verify(env, t, checksum, s).Some? <==>
      && (forall p | p in t :: t[p].Regular?) && RootManifestOnly(t)
      && (checksum == None || (|checksum.value| == 64
            && LowersTo(checksum.value, env.digest(t["manifest.json"].content))))
      && var m := env.decode(t["manifest.json"].content);
         m.Some? && SafeManifest(m.value, s, env.control) && Carries(env, t, m.value.artifacts)
    ensures Verify(env, t, checksum, s).Some? ==>
      var m := env.decode(t["manifest.json"].content).value;
      Verify(env, t, checksum, s).value ==
        if m.metadata.None? then m else m.(metadata := Normalize(m.metadata.value, env.control))
  {
    RootManifestIff(t);
    if AllRegular(t) && OneManifest(t) {
      var content := t[MANIFEST].content;
      if checksum.Some? {
        LowersIff(checksum.value, 64, env.digest(content));
      }
      if env.decode(content).Some? {
        var m := env.decode(content).value;
        ParsesIff(env, m, s);
        if Parse(env, m, s).Some? {
          CarriesIff(env, t, m.artifacts);
        }
      }
    }
  }

  // ---------------------------------------------------------------- built manifests

  /** A file that a manifest lists: not itself a manifest, at any depth. */
  ghost predicate IsListed(t: Tree, p: string) {
    p in t && t[p].Regular? && p != "manifest.json" && !exists directory :: p == directory + "/" + "manifest.json"
  }

  lemma IsListedIff(t: Tree, p: string)
    requires p in t
    ensures IsListed(t, p) <==> !Skipped(t, p) && t[p].Regular?
  {
    assert MANIFEST == "manifest.json";
    NameIff(p, MANIFEST);
  }

  /** Main result: a manifest built for a tree lists exactly its regular files but the manifests,
      with their sizes and digests, once each, and states the request's scope and time. */
  lemma BuiltLists(env: Env, t: Tree, listing: seq<string>, r: Request)
    requires Enumerates(listing, t) && Build(env, t, listing, r).Some?
    ensures var m := Build(env, t, listing, r).value;
            && m.schema == 1 && m.host == r.host && m.service == r.service && m.createdAt == r.createdAt
            && SafeName(m.host) && SafeName(m.service)
            && (forall a :: a in m.artifacts <==>
                  IsListed(t, a.path) && a == Artifact(a.path, |t[a.path].content|, env.digest(t[a.path].content)))
            && (forall i, j | 0 <= i < j < |m.artifacts| :: m.artifacts[i].path != m.artifacts[j].path)
  {
    SafeNameIff(r.host);
    SafeNameIff(r.service);
    ArtifactsList(env, t, listing);
    forall p | p in t
      ensures IsListed(t, p) <==> !Skipped(t, p) && t[p].Regular?
    {
      IsListedIff(t, p);
    }
    var arts := Build(env, t, listing, r).value.artifacts;
    forall a: Artifact | IsListed(t, a.path)
                         && a == Artifact(a.path, |t[a.path].content|, env.digest(t[a.path].content))
      ensures a in arts
    {
      assert a.path in listing && a == Entry(env, a.path, t[a.path].content);
    }
  }

  lemma {:induction false} ArtifactsIff(env: Env, t: Tree, listing: seq<string>)
    requires forall p <- listing :: p in t
    ensures Artifacts(env, t, listing).Some? <==> forall p <- listing :: Skipped(t, p) || t[p].Regular?
  {
    if listing != [] {
      var init, last := listing[..|listing| - 1], listing[|listing| - 1];
      ArtifactsIff(env, t, init);
      assert listing == init + [last];
    }
  }

  /** A manifest is built if and only if the names and the metadata are safe, everything that is not a
      manifest is a regular file or a link to a directory, and some regular file is to be listed. */
  lemma BuildsIff(env: Env, t: Tree, listing: seq<string>, r: Request)
    requires Enumerates(listing, t)
    ensures Build(env, t, listing, r).Some? <==>
      && SafeName(r.host) && SafeName(r.service)
      && (r.metadata.Some? ==> SafeMetadata(r.metadata.value, env.control))
      && (forall p | p in t :: t[p] != Other || Name(p) == "manifest.json")
      && (exists p :: IsListed(t, p))
  {
    SafeNameIff(r.host);
    SafeNameIff(r.service);
    ArtifactsIff(env, t, listing);
    if r.metadata.Some? {
      NormalizesIff(r.metadata.value, env.control);
    }
    if Artifacts(env, t, listing).Some? {
      ArtifactsList(env, t, listing);
      var arts := Artifacts(env, t, listing).value;
      if arts != [] {
        assert arts[0] in arts;
        IsListedIff(t, arts[0].path);
      }
      if p :| IsListed(t, p) {
        IsListedIff(t, p);
        assert Entry(env, p, t[p].content) in arts;
      }
    }
  }
}

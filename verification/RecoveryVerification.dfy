/** Verifying a restored tree against the manifest it carries
    (controller/guardian/backup.py:809-852 and 945-988). */
module RecoveryVerification {
  import opened Base
  import opened Paths
  import opened RecoveryMetadata
  import opened RecoveryManifest

  predicate AllRegular(t: Tree) {
    forall p | p in t :: t[p].Regular?
  }

  /** The root manifest is the only file of its name. */
  predicate OneManifest(t: Tree) {
    MANIFEST in t && forall p | p in t && Name(p) == MANIFEST :: p == MANIFEST
  }

  predicate Meets(env: Env, node: Node, x: Expected) {
    node.Regular? && |node.content| == x.size && env.digest(node.content) == x.sha256
  }

  predicate FilesMatch(env: Env, t: Tree, files: map<string, Expected>) {
    && t.Keys == files.Keys + {MANIFEST}
    && forall p | p in files && p in t :: Meets(env, t[p], files[p])
  }

  predicate ChecksumOk(env: Env, t: Tree, checksum: Option<string>)
    requires AllRegular(t) && MANIFEST in t
  {
    checksum.Some? ==> env.digest(t[MANIFEST].content) == Lower(checksum.value)
  }

  /** The manifest a restored tree is accepted with, if it is. */
  function Verify(env: Env, t: Tree, checksum: Option<string>, s: Scope): Option<Manifest> {
    if checksum.Some? && !AllHex(checksum.value, 64) then None
    else if !AllRegular(t) || !OneManifest(t) || !ChecksumOk(env, t, checksum) then None
    else
      var payload := env.decode(t[MANIFEST].content);
      if payload.None? then None
      else
        var parsed := Parse(env, payload.value, s);
        if parsed.Some? && FilesMatch(env, t, parsed.value.1) then Some(parsed.value.0) else None
  }

  method LoadAndVerify(env: Env, t: Tree, checksum: Option<string>, s: Scope) returns (r: Option<Manifest>)
    ensures r == Verify(env, t, checksum, s)
  {
    if checksum.Some? && !AllHex(checksum.value, 64) {
      return None;
    }
    if !AllRegular(t) || !OneManifest(t) {
      return None;
    }
    if checksum.Some? && env.digest(t[MANIFEST].content) != Lower(checksum.value) {
      return None;
    }
    var payload := env.decode(t[MANIFEST].content);
    if payload.None? {
      return None;
    }
    var parsed := ParsePayload(env, payload.value, s);
    if parsed.None? {
      return None;
    }
    var files := parsed.value.1;
    if t.Keys != files.Keys + {MANIFEST} {
      return None;
    }
    var rest := files.Keys;
    while rest != {}
      invariant rest <= files.Keys
      invariant forall p | p in files.Keys - rest :: Meets(env, t[p], files[p])
      decreases |rest|
    {
      var p :| p in rest;
      if |t[p].content| != files[p].size || env.digest(t[p].content) != files[p].sha256 {
        assert !Meets(env, t[p], files[p]);
        return None;
      }
      rest := rest - {p};
    }
    return Some(parsed.value.0);
  }

  // ---------------------------------------------------------------- what a manifest lists

  /** The digest tells apart the contents of the two trees. */
  ghost predicate TellsApart(env: Env, t: Tree, u: Tree) {
    forall p, q | p in t && q in u && t[p].Regular? && u[q].Regular? ::
      env.digest(t[p].content) == env.digest(u[q].content) ==> t[p].content == u[q].content
  }

  /** Main result: a checksum determines the whole tree. Two restored trees accepted for the same
      checksum have the same files with the same contents, and give the same manifest. */
  lemma AcceptedTreesAgree(env: Env, t: Tree, u: Tree, checksum: string, s: Scope)
    requires TellsApart(env, t, u)
    requires Verify(env, t, Some(checksum), s).Some? && Verify(env, u, Some(checksum), s).Some?
    ensures t == u && Verify(env, t, Some(checksum), s) == Verify(env, u, Some(checksum), s)
  {
    assert t[MANIFEST].content == u[MANIFEST].content;
    var files := Parse(env, env.decode(t[MANIFEST].content).value, s).value.1;
    forall p | p in t ensures p in u && t[p] == u[p] {
      if p != MANIFEST {
        assert Meets(env, t[p], files[p]) && Meets(env, u[p], files[p]);
      }
    }
    assert t.Keys == u.Keys;
  }

  /** What the artifacts list: exactly the entries not skipped, all of them regular. */
  lemma {:induction false} ArtifactsList(env: Env, t: Tree, listing: seq<string>)
    requires forall p <- listing :: p in t
    requires forall i, j | 0 <= i < j < |listing| :: listing[i] != listing[j]
    requires Artifacts(env, t, listing).Some?
    ensures var arts := Artifacts(env, t, listing).value;
            && (forall a <- arts :: a.path in listing && !Skipped(t, a.path) && t[a.path].Regular?
                                    && a == Entry(env, a.path, t[a.path].content))
            && (forall p <- listing :: !Skipped(t, p) ==> t[p].Regular? && Entry(env, p, t[p].content) in arts)
            && (forall i, j | 0 <= i < j < |arts| :: arts[i].path != arts[j].path)
  {
    if listing != [] {
      var init, p := listing[..|listing| - 1], listing[|listing| - 1];
      ArtifactsList(env, t, init);
      assert listing == init + [p];
      var earlier, arts := Artifacts(env, t, init).value, Artifacts(env, t, listing).value;
      assert p !in init;
      if !Skipped(t, p) {
        assert arts == earlier + [Entry(env, p, t[p].content)];
        forall i, j | 0 <= i < j < |arts| ensures arts[i].path != arts[j].path {
          assert arts[i] in earlier;
          assert arts[i].path in init;
        }
      }
    }
  }

  /** The tree a restore should give back: the listed entries and the manifest. */
  function Restorable(env: Env, t: Tree, m: Manifest): Tree {
    (map p | p in t && !Skipped(t, p) :: t[p])[MANIFEST := Regular(env.encode(m))]
  }

  ghost predicate NoBackslash(t: Tree) {
    forall p | p in t && !Skipped(t, p) :: '\\' !in p
  }

  lemma ListedArtifactOk(env: Env, t: Tree, p: string)
    requires Faithful(env) && p in t && Relative(p) && !Skipped(t, p) && t[p].Regular?
    ensures ArtifactOk(Entry(env, p, t[p].content)) <==> '\\' !in p
  {
    assert Components("") == [""];
    assert p != "" by {
      if p == "" {
        assert !Plain(Components(p)[0]);
      }
    }
    ManifestIsRelative();
  }

  /** A built manifest parses back to itself, with the entries it lists, exactly when no listed
      name holds a backslash. */
  lemma BuiltParses(env: Env, t: Tree, listing: seq<string>, r: Request)
    requires Faithful(env) && Listed(t) && Enumerates(listing, t) && Build(env, t, listing, r).Some?
    ensures var m := Build(env, t, listing, r).value;
            var parsed := Parse(env, m, Scope(None, None));
            && (parsed.Some? <==> NoBackslash(t))
            && (parsed.Some? ==> parsed.value.0 == m && ListsAll(env, t, parsed.value.1))
  {
    var m := Build(env, t, listing, r).value;
    ArtifactsList(env, t, listing);
    ByPathIff(m.artifacts);
    if r.metadata.Some? {
      NormalizeIdempotent(r.metadata.value, env.control);
    }
    if NoBackslash(t) {
      forall a <- m.artifacts ensures ArtifactOk(a) {
        ListedArtifactOk(env, t, a.path);
      }
    } else {
      var p :| p in t && !Skipped(t, p) && '\\' in p;
      ListedArtifactOk(env, t, p);
      assert Entry(env, p, t[p].content) in m.artifacts;
    }
    if ByPath(m.artifacts).Some? {
      ListedEntries(env, t, listing, m.artifacts);
    }
  }

  /** The files expected are the entries not skipped, with their sizes and digests. */
  ghost predicate ListsAll(env: Env, t: Tree, files: map<string, Expected>) {
    && (forall p :: p in files <==> p in t && !Skipped(t, p))
    && (forall p | p in files :: t[p].Regular? && files[p] == Expected(|t[p].content|, env.digest(t[p].content)))
  }

  lemma ListedEntries(env: Env, t: Tree, listing: seq<string>, arts: seq<Artifact>)
    requires Faithful(env) && Enumerates(listing, t)
    requires Artifacts(env, t, listing) == Some(arts) && ByPath(arts).Some?
    ensures ListsAll(env, t, ByPath(arts).value)
  {
    ArtifactsList(env, t, listing);
    ByPathKeeps(arts);
    var files := ByPath(arts).value;
    forall p | p in t && !Skipped(t, p)
      ensures p in files && files[p] == Expected(|t[p].content|, env.digest(t[p].content))
    {
      assert Entry(env, p, t[p].content) in arts;
    }
  }

  lemma RestorableMatches(env: Env, t: Tree, m: Manifest, files: map<string, Expected>)
    requires ListsAll(env, t, files)
    ensures AllRegular(Restorable(env, t, m)) && OneManifest(Restorable(env, t, m))
    ensures FilesMatch(env, Restorable(env, t, m), files)
  {
    var u := Restorable(env, t, m);
    assert MANIFEST !in files by {
      ManifestIsRelative();
    }
    forall p | p in u ensures u[p].Regular? && (p == MANIFEST || p in files) {
      assert p in files || p == MANIFEST;
    }
    assert u.Keys == files.Keys + {MANIFEST};
  }

  lemma RestorableVerifies(env: Env, t: Tree, listing: seq<string>, r: Request)
    requires Faithful(env) && Listed(t) && Enumerates(listing, t) && Build(env, t, listing, r).Some? && NoBackslash(t)
    ensures var m := Build(env, t, listing, r).value;
            Verify(env, Restorable(env, t, m), Some(env.digest(env.encode(m))), Scope(None, None)) == Some(m)
  {
    var m := Build(env, t, listing, r).value;
    BuiltParses(env, t, listing, r);
    var parsed := Parse(env, m, Scope(None, None)).value;
    RestorableMatches(env, t, m, parsed.1);
    AcceptedWith(env, Restorable(env, t, m), m, parsed, env.digest(env.encode(m)));
  }

  lemma AcceptedWith(env: Env, u: Tree, m: Manifest, parsed: (Manifest, map<string, Expected>), checksum: string)
    requires Faithful(env) && AllRegular(u) && OneManifest(u) && u[MANIFEST] == Regular(env.encode(m))
    requires Parse(env, m, Scope(None, None)) == Some(parsed) && FilesMatch(env, u, parsed.1)
    requires checksum == env.digest(env.encode(m))
    ensures Verify(env, u, Some(checksum), Scope(None, None)) == Some(parsed.0)
  {
    assert AllHex(env.digest(env.encode(m)), 64);
  }

  /** A tree accepted for the checksum of a manifest carries that manifest, which parses. */
  lemma AcceptedCarries(env: Env, u: Tree, restored: Tree, m: Manifest, checksum: string)
    requires Faithful(env) && MANIFEST in u && u[MANIFEST] == Regular(env.encode(m))
    requires TellsApart(env, u, restored) && checksum == env.digest(env.encode(m))
    ensures Verify(env, restored, Some(checksum), Scope(None, None)).Some? ==> Parse(env, m, Scope(None, None)).Some?
  {
    if Verify(env, restored, Some(checksum), Scope(None, None)).Some? {
      assert env.digest(u[MANIFEST].content) == env.digest(restored[MANIFEST].content);
    }
  }

  /** Main result: against the checksum of the manifest written for a staged tree, a restored tree
      is accepted if and only if no listed name holds a backslash and the tree is exactly the
      listed files, with their contents, and the manifest. What comes back is that manifest. */
  lemma AcceptedIff(env: Env, t: Tree, listing: seq<string>, r: Request, restored: Tree)
    requires Faithful(env) && Listed(t) && Enumerates(listing, t) && Build(env, t, listing, r).Some?
    requires TellsApart(env, Restorable(env, t, Build(env, t, listing, r).value), restored)
    ensures var m := Build(env, t, listing, r).value;
            var accepted := Verify(env, restored, Some(env.digest(env.encode(m))), Scope(None, None));
            && (accepted.Some? <==> NoBackslash(t) && restored == Restorable(env, t, m))
            && (accepted.Some? ==> accepted == Some(m))
  {
    var m := Build(env, t, listing, r).value;
    var checksum := env.digest(env.encode(m));
    var u := Restorable(env, t, m);
    if NoBackslash(t) {
      RestorableVerifies(env, t, listing, r);
      if Verify(env, restored, Some(checksum), Scope(None, None)).Some? {
        AcceptedTreesAgree(env, u, restored, checksum, Scope(None, None));
      }
    } else {
      BuiltParses(env, t, listing, r);
      AcceptedCarries(env, u, restored, m, checksum);
    }
  }

  /** A staged tree the manifest describes completely: no nested manifest, no link to a
      directory, and nothing where the temporary file goes. */
  predicate Complete(t: Tree) {
    TEMPORARY !in t && forall p | p in t && Skipped(t, p) :: p == MANIFEST
  }

  /** Main result: the staged tree itself verifies after its manifest is written if and only if no
      listed name holds a backslash, no manifest file is nested in it, it holds no link to a
      directory, and no file has the name of the temporary file. */
  lemma WrittenVerifiesIff(env: Env, t: Tree, listing: seq<string>, r: Request)
    requires Faithful(env) && Listed(t) && Enumerates(listing, t) && Build(env, t, listing, r).Some?
    requires TEMPORARY in t ==> t[TEMPORARY].Regular?
    requires TellsApart(env, Restorable(env, t, Build(env, t, listing, r).value),
                        Written(env, t, Build(env, t, listing, r).value))
    ensures var m := Build(env, t, listing, r).value;
            Verify(env, Written(env, t, m), Some(env.digest(env.encode(m))), Scope(None, None)).Some? <==>
            NoBackslash(t) && Complete(t)
  {
    var m := Build(env, t, listing, r).value;
    AcceptedIff(env, t, listing, r, Written(env, t, m));
    WrittenIsRestorable(env, t, m);
  }

  lemma WrittenIsRestorable(env: Env, t: Tree, m: Manifest)
    requires TEMPORARY in t ==> t[TEMPORARY].Regular?
    ensures Written(env, t, m) == Restorable(env, t, m) <==> Complete(t)
  {
    if TEMPORARY in t {
      NotSkipped(t, TEMPORARY);
    }
    SameTree(t, Regular(env.encode(m)), MANIFEST, TEMPORARY);
  }

  lemma SameTree(t: Tree, node: Node, manifest: string, temporary: string)
    requires manifest != temporary && (temporary in t ==> !Skipped(t, temporary))
    ensures (t - {temporary})[manifest := node] == (map p | p in t && !Skipped(t, p) :: t[p])[manifest := node] <==>
            temporary !in t && forall p | p in t && Skipped(t, p) :: p == manifest
  {
    var w, u := (t - {temporary})[manifest := node], (map p | p in t && !Skipped(t, p) :: t[p])[manifest := node];
    if temporary in t {
      assert temporary in u && temporary !in w;
    } else if p :| p in t && Skipped(t, p) && p != manifest {
      assert p in w && p !in u;
    } else {
      assert w == u;
    }
  }

  lemma NotSkipped(t: Tree, p: string)
    requires p in t && t[p].Regular? && '/' !in p && p != MANIFEST
    ensures !Skipped(t, p)
  {
    OneComponent(p);
  }

  // ---------------------------------------------------------------- trees that do not verify

  /** The staged tree, once the manifest is written, verifies against the manifest's checksum. */
  predicate VerifiesItself(env: Env, t: Tree, m: Manifest) {
    Verify(env, Written(env, t, m), Some(env.digest(env.encode(m))), Scope(None, None)).Some?
  }

  /** A manifest whose artifacts do not parse is never accepted against its own checksum. */
  lemma UnparsedIsRefused(env: Env, t: Tree, m: Manifest)
    requires Faithful(env) && Parse(env, m, Scope(None, None)).None?
    ensures !VerifiesItself(env, t, m)
  {
  }

  lemma OneArtifact(env: Env, t: Tree, path: string)
    requires path in t && !Skipped(t, path) && t[path].Regular?
    ensures Artifacts(env, t, [path]) == Some([Entry(env, path, t[path].content)])
  {
    assert [path][..0] == [];
    assert Artifacts(env, t, []) == Some([]);
    assert [] + [Entry(env, path, t[path].content)] == [Entry(env, path, t[path].content)];
  }

  lemma OneFileBuilds(env: Env, path: string, r: Request)
    requires Plain(path) && '/' !in path && path != MANIFEST
    requires NameOk(r.host) && NameOk(r.service) && r.metadata.None?
    ensures var t := map[path := Regular("x")];
            Listed(t) && Enumerates([path], t) && Build(env, t, [path], r).Some?
  {
    OneComponent(path);
    OneArtifact(env, map[path := Regular("x")], path);
  }

  /** A staged tree of one file whose name holds a backslash: its manifest is built, and the tree
      does not verify against it. */
  lemma BackslashDoesNotVerify(env: Env, r: Request)
    requires Faithful(env) && NameOk(r.host) && NameOk(r.service) && r.metadata.None?
    ensures var t := map["a\\b" := Regular("x")];
            var built := Build(env, t, ["a\\b"], r);
            && built.Some?
            && !VerifiesItself(env, t, built.value)
  {
    var path := "a\\b";
    var t := map[path := Regular("x")];
    OneFileBuilds(env, path, r);
    NotSkipped(t, path);
    assert !NoBackslash(t) by {
      assert path in t && !Skipped(t, path) && '\\' in path;
    }
    BuiltParses(env, t, [path], r);
    UnparsedIsRefused(env, t, Build(env, t, [path], r).value);
  }

  /** A tree with a second manifest file is never accepted. */
  lemma NestedIsRefused(env: Env, t: Tree, nested: string, m: Manifest)
    requires nested in t && nested != MANIFEST && nested != TEMPORARY && Name(nested) == MANIFEST
    ensures !VerifiesItself(env, t, m)
  {
    assert nested in Written(env, t, m);
  }

  lemma TwoFilesBuild(env: Env, path: string, nested: string, r: Request)
    requires Plain(path) && '/' !in path && path != MANIFEST
    requires Relative(nested) && nested != path && Name(nested) == MANIFEST
    requires NameOk(r.host) && NameOk(r.service) && r.metadata.None?
    ensures var t := map[path := Regular("x"), nested := Regular("y")];
            Listed(t) && Enumerates([path, nested], t) && Build(env, t, [path, nested], r).Some?
  {
    var t := map[path := Regular("x"), nested := Regular("y")];
    OneComponent(path);
    assert [path, nested][..1] == [path];
    OneArtifact(env, t, path);
    assert Artifacts(env, t, [path, nested]) == Some([Entry(env, path, "x")]);
  }

  const NESTED: string := "d" + "/" + MANIFEST

  /** A staged tree with a manifest file in a directory: its manifest is built without that file,
      and the tree does not verify against it. */
  lemma NestedManifestDoesNotVerify(env: Env, r: Request)
    requires Faithful(env) && NameOk(r.host) && NameOk(r.service) && r.metadata.None?
    ensures var t := map["a" := Regular("x"), NESTED := Regular("y")];
            var built := Build(env, t, ["a", NESTED], r);
            && built.Some?
            && !VerifiesItself(env, t, built.value)
  {
    var path, nested := "a", NESTED;
    TwoComponents("d", MANIFEST);
    assert nested[0] == 'd' && MANIFEST[0] == 'm' && TEMPORARY[0] == 'm';
    TwoFilesBuild(env, path, nested, r);
    var t := map[path := Regular("x"), nested := Regular("y")];
    NestedIsRefused(env, t, nested, Build(env, t, [path, nested], r).value);
  }
}

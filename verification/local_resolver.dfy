/** The resolver registered as `local` in `src/localResolver.ts`: it reads the file a
    reference node's `path` names, relative to the base path, and replaces the node
    with the file's content-addressed key. The file system, the path joining, the
    digest and the media-type table are parameters of the model. */
module LocalResolver {
  import opened Wrappers
  import opened Records
  import opened Json
  import opened ResourceKey
  import opened Engine

  /** The name the resolver is registered under. */
  const LocalName: string := "local"

  /** The property of a reference node that names the file. */
  const PathField: string := "path"

  /** The media type used when the table knows none for a key. */
  const DefaultMediaType: string := "application/octet-stream"

  const MissingPathMessage: string := "local resolver requires a path"
  const PathNotStringMessage: string := "path must be a string"
  const ReadFailedMessage: string := "file could not be read"

  /** What the resolver takes from its surroundings: the working directory,
      `path.join`, `fs.readFile` (no bytes when the read rejects), SHA-256 and
      `mime.getType` (no type for an unknown extension). */
  datatype Environment = Environment(
    cwd: string,
    join: (string, string) -> string,
    readFile: string -> Option<seq<byte>>,
    sha256: Sha256,
    getType: string -> Option<string>)

  // Pieces and separators.

  /** `pieces.join(c)`. */
  function Join(pieces: seq<string>, c: char): string
    requires |pieces| >= 1
  {
    if |pieces| == 1 then pieces[0] else pieces[0] + [c] + Join(pieces[1..], c)
  }

  /** `s.split(c)`: the pieces between the occurrences of `c`, in order. There is
      always at least one piece, no piece holds `c`, and joining them with `c`
      gives `s` back. */
  function SplitOn(s: string, c: char): (pieces: seq<string>)
    ensures |pieces| >= 1
    ensures forall i | 0 <= i < |pieces| :: c !in pieces[i]
    ensures Join(pieces, c) == s
  {
    if |s| == 0 then [""]
    else
      var rest := SplitOn(s[1..], c);
      if s[0] == c then
        assert ([""] + rest)[1..] == rest;
        [""] + rest
      else
        var pieces := [[s[0]] + rest[0]] + rest[1..];
        assert s == [s[0]] + s[1..];
        assert pieces[1..] == rest[1..];
        pieces
  }

  /** `e` is what `s.split(c).pop()` gives: a suffix of `s` that holds no `c` and is
      either all of `s` or preceded by `c`. */
  predicate IsLastPiece(s: string, c: char, e: string) {
    && |e| <= |s| && e == s[|s| - |e|..]
    && c !in e
    && (|e| < |s| ==> s[|s| - |e| - 1] == c)
  }

  /** The extension `localResolver` attaches to a key: the text after the last `.`
      of the joined path, or the whole path when it has no `.`. */
  function Extension(source: string): (ext: string)
    ensures IsLastPiece(source, '.', ext)
    decreases |source|
  {
    if |source| == 0 || source[|source| - 1] == '.' then ""
    else
      var init := source[..|source| - 1];
      var e := Extension(init);
      assert source[|source| - |e| - 1..] == init[|init| - |e|..] + [source[|source| - 1]];
      e + [source[|source| - 1]]
  }

  /** The last piece of a join is a suffix of it, preceded by the separator when
      there are several pieces. */
  lemma {:induction false} JoinEndsWithLast(pieces: seq<string>, c: char)
    requires |pieces| >= 1
    ensures var s := Join(pieces, c); var e := pieces[|pieces| - 1];
      && |e| <= |s| && e == s[|s| - |e|..]
      && (|pieces| > 1 ==> |e| < |s| && s[|s| - |e| - 1] == c)
  {
    if |pieces| > 1 {
      JoinEndsWithLast(pieces[1..], c);
      var s := Join(pieces, c);
      var t := Join(pieces[1..], c);
      var e := pieces[|pieces| - 1];
      assert s == (pieces[0] + [c]) + t;
      assert s[|s| - |t|..] == t;
      if |pieces| == 2 {
        assert t == e;
      }
    }
  }

  /** When `e` is the last piece, any `c`-free suffix longer than `e` would have to
      contain the `c` in front of `e`. */
  lemma LongerSuffixHasSeparator(s: string, c: char, e: string, f: string)
    requires IsLastPiece(s, c, e)
    requires |f| <= |s| && f == s[|s| - |f|..]
    ensures |e| < |f| ==> c in f
  {
    if |e| < |f| {
      assert f[|f| - |e| - 1] == s[|s| - |e| - 1];
    }
  }

  /** There is only one last piece. */
  lemma LastPieceUnique(s: string, c: char, e: string, f: string)
    requires IsLastPiece(s, c, e) && IsLastPiece(s, c, f)
    ensures e == f
  {
    LongerSuffixHasSeparator(s, c, e, f);
    LongerSuffixHasSeparator(s, c, f, e);
  }

  /** The last piece `split` gives is the last piece in the sense of `IsLastPiece`. */
  lemma SplitLastPiece(s: string, c: char)
    ensures var pieces := SplitOn(s, c);
      IsLastPiece(s, c, pieces[|pieces| - 1])
  {
    var pieces := SplitOn(s, c);
    JoinEndsWithLast(pieces, c);
    assert c !in pieces[|pieces| - 1];
  }

  /** `Extension` is `source.split('.').pop()`. */
  lemma ExtensionIsLastPiece(source: string)
    ensures var pieces := SplitOn(source, '.');
      Extension(source) == pieces[|pieces| - 1]
  {
    var pieces := SplitOn(source, '.');
    SplitLastPiece(source, '.');
    LastPieceUnique(source, '.', Extension(source), pieces[|pieces| - 1]);
  }

  /** A path ending in `.` and a dot-free name has that name as its extension. */
  lemma ExtensionAfterDot(prefix: string, e: string)
    requires '.' !in e
    ensures Extension(prefix + "." + e) == e
  {
    var s := prefix + "." + e;
    assert s[|s| - |e|..] == e;
    assert s[|s| - |e| - 1] == '.';
    LastPieceUnique(s, '.', Extension(s), e);
  }

  // The resolver.

  /** `mime.getType(key) || 'application/octet-stream'`: an unknown or empty type
      falls back to the default. */
  function MediaType(t: Option<string>): string
  {
    if t.Some? && t.value != "" then t.value else DefaultMediaType
  }

  /** The joined path of the file a node names (`source`, line 11). */
  function Source(env: Environment, node: Value, basePath: string): string
    requires node.Obj? && PathField in View(node.fields) && View(node.fields)[PathField].Str?
  {
    env.join(basePath, View(node.fields)[PathField].s)
  }

  /** The bytes of the file a node names, read relative to the working directory
      (line 12). */
  function Contents(env: Environment, node: Value, basePath: string): Option<seq<byte>>
    requires node.Obj? && PathField in View(node.fields) && View(node.fields)[PathField].Str?
  {
    env.readFile(env.join(env.cwd, Source(env, node, basePath)))
  }

  /** `resolveLocal(data, basePath)`. It fails when the node has no `path`, when
      `path` is not a string and when the file cannot be read, and only then;
      otherwise the node becomes a key that parses back into the digest of the
      file's bytes and the path's extension, and the only resource is that file
      under that key, with a non-empty media type. */
  function ResolveLocal(env: Environment, node: Value, basePath: string): (r: Result<Bundled, Error>)
    ensures !node.Obj? || PathField !in View(node.fields) ==> r == Failure(ResolverFailed(MissingPathMessage))
    ensures node.Obj? && PathField in View(node.fields) && !View(node.fields)[PathField].Str?
      ==> r == Failure(ResolverFailed(PathNotStringMessage))
    ensures node.Obj? && PathField in View(node.fields) && View(node.fields)[PathField].Str? ==>
      && (r.Success? <==> Contents(env, node, basePath).Some?)
      && (r.Failure? ==> r == Failure(ResolverFailed(ReadFailedMessage)))
    ensures r.Success? ==>
      && r.value.data.Str?
      && |r.value.resources| == 1
      && r.value.resources[0].0 == r.value.data.s
      && r.value.resources[0].1.content == Contents(env, node, basePath).value
      && ParseKey(r.value.data.s)
         == Some((env.sha256(r.value.resources[0].1.content), Some(Extension(Source(env, node, basePath)))))
      && r.value.resources[0].1.mediaType == MediaType(env.getType(r.value.data.s))
      && r.value.resources[0].1.mediaType != ""
  {
    if !node.Obj? || PathField !in View(node.fields) then Failure(ResolverFailed(MissingPathMessage))
    else if !View(node.fields)[PathField].Str? then Failure(ResolverFailed(PathNotStringMessage))
    else
      match Contents(env, node, basePath)
      case None => Failure(ResolverFailed(ReadFailedMessage))
      case Some(content) =>
        var ext := Extension(Source(env, node, basePath));
        var key := GetResourceKey(env.sha256, content, Some(ext));
        ParseComposeKey(env.sha256(content), Some(ext));
        Success(Bundled(Str(key), [(key, Resource(content, MediaType(env.getType(key))))]))
  }

  /** `localResolver`: the registry with the one resolver. */
  function Registry(env: Environment): (resolvers: Resolvers)
    ensures resolvers.Keys == {LocalName}
  {
    map[LocalName := (node: Value, basePath: string) => ResolveLocal(env, node, basePath)]
  }

  /** No two different files the environment can read share a digest. */
  ghost predicate DigestsDistinguishFiles(env: Environment) {
    forall p, q | env.readFile(p).Some? && env.readFile(q).Some?
      :: env.sha256(env.readFile(p).value) == env.sha256(env.readFile(q).value)
         ==> env.readFile(p).value == env.readFile(q).value
  }

  /** A key names one resource: two successful local resolutions that produce the
      same key produce the same resource, whichever nodes and base paths they came
      from, as long as the digest tells the files apart. */
  lemma KeyDeterminesResource(env: Environment, n1: Value, b1: string, n2: Value, b2: string)
    requires DigestsDistinguishFiles(env)
    requires ResolveLocal(env, n1, b1).Success? && ResolveLocal(env, n2, b2).Success?
    requires ResolveLocal(env, n1, b1).value.data == ResolveLocal(env, n2, b2).value.data
    ensures ResolveLocal(env, n1, b1).value.resources == ResolveLocal(env, n2, b2).value.resources
  {
    var k1, c1, p1 := LocalResult(env, n1, b1);
    var k2, c2, p2 := LocalResult(env, n2, b2);
    assert env.sha256(c1) == env.sha256(c2) by {
      assert ParseKey(k1).value.0 == env.sha256(c1);
      assert ParseKey(k2).value.0 == env.sha256(c2);
    }
    NoCollision(env, p1, p2);
  }

  /** A successful local resolution, taken apart: the key, the bytes and the file
      they were read from. */
  lemma LocalResult(env: Environment, n: Value, b: string) returns (key: string, content: seq<byte>, p: string)
    requires ResolveLocal(env, n, b).Success?
    ensures ResolveLocal(env, n, b) == Success(Bundled(Str(key), [(key, Resource(content, MediaType(env.getType(key))))]))
    ensures ParseKey(key).Some? && ParseKey(key).value.0 == env.sha256(content)
    ensures env.readFile(p) == Some(content)
  {
    var r := ResolveLocal(env, n, b).value;
    key := r.data.s;
    content := r.resources[0].1.content;
    p := env.join(env.cwd, Source(env, n, b));
    assert r.resources == [(key, Resource(content, MediaType(env.getType(key))))];
  }

  lemma NoCollision(env: Environment, p: string, q: string)
    requires DigestsDistinguishFiles(env)
    requires env.readFile(p).Some? && env.readFile(q).Some?
    requires env.sha256(env.readFile(p).value) == env.sha256(env.readFile(q).value)
    ensures env.readFile(p).value == env.readFile(q).value
  {
  }

  /** A reference node resolved through the local registry. */
  lemma RegistryResolves(env: Environment, x: Value, basePath: string)
    requires IsReference(x)
    ensures var name := View(x.fields)[ResolveSymbol];
      && (name == Str(LocalName) ==> BundleInner(x, basePath, Registry(env)) == ResolveLocal(env, x, basePath))
      && (name.Str? && name != Str(LocalName) ==>
            BundleInner(x, basePath, Registry(env)) == Failure(ResolverNotFound(name.s)))
  {
    BundleInnerReference(x, basePath, Registry(env));
  }

  /** What a reference node yields under the local registry: nothing but the one key
      it is replaced with, and that key's resource does not depend on the node. */
  lemma ReferenceProduces(env: Environment, x: Value, basePath: string, k: string)
    requires IsReference(x)
    requires k in Produced(BundleInner(x, basePath, Registry(env)))
    ensures View(x.fields)[ResolveSymbol] == Str(LocalName)
    ensures ResolveLocal(env, x, basePath).Success?
    ensures ResolveLocal(env, x, basePath).value.data == Str(k)
    ensures Produced(BundleInner(x, basePath, Registry(env)))[k] == ResolveLocal(env, x, basePath).value.resources[0].1
  {
    BundleInnerReference(x, basePath, Registry(env));
    var r := ResolveLocal(env, x, basePath);
    ViewCons(r.value.resources[0], []);
    assert r.value.resources == [r.value.resources[0]] + [];
  }

  /** Duplicate files become one resource (the scenario of lines 65-115 of
      `src/bundle.test.ts`, for every document): when the walk under the local
      registry succeeds, every key any reference node produced is in the result
      once, holding exactly the resource that node produced, however the
      references are spread over the document. */
  lemma LocalDeduplicates(env: Environment, v: Value, basePath: string)
    requires DigestsDistinguishFiles(env)
    requires BundleInner(v, basePath, Registry(env)).Success?
    ensures HoldsEach(Produced(BundleInner(v, basePath, Registry(env))), ReferencesIn(v), basePath, Registry(env))
  {
    LocalAgreeAll(env, v, basePath);
    Deduplicates(v, basePath, Registry(env));
  }

  /** The reference nodes of a document agree on every key they share under the
      local registry. */
  lemma LocalAgreeAll(env: Environment, v: Value, basePath: string)
    requires DigestsDistinguishFiles(env)
    ensures AgreeOnSharedKeys(ReferencesIn(v), basePath, Registry(env))
  {
    forall x, y, k | x in ReferencesIn(v) && y in ReferencesIn(v)
      && k in Produced(BundleInner(x, basePath, Registry(env))) && k in Produced(BundleInner(y, basePath, Registry(env)))
      ensures Produced(BundleInner(x, basePath, Registry(env)))[k] == Produced(BundleInner(y, basePath, Registry(env)))[k]
    {
      LocalAgree(env, x, y, basePath, k);
    }
  }

  /** Two reference nodes that produce the same key under the local registry
      produce the same resource for it. */
  lemma LocalAgree(env: Environment, x: Value, y: Value, basePath: string, k: string)
    requires DigestsDistinguishFiles(env)
    requires IsReference(x) && IsReference(y)
    requires k in Produced(BundleInner(x, basePath, Registry(env)))
    requires k in Produced(BundleInner(y, basePath, Registry(env)))
    ensures Produced(BundleInner(x, basePath, Registry(env)))[k] == Produced(BundleInner(y, basePath, Registry(env)))[k]
  {
    ReferenceProduces(env, x, basePath, k);
    ReferenceProduces(env, y, basePath, k);
    KeyDeterminesResource(env, x, basePath, y, basePath);
  }
}

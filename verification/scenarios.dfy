/** The documents of `src/bundle.test.ts`, with what `bundle` does to them. */
module Scenarios {
  import opened Wrappers
  import opened Records
  import opened Json
  import opened ResourceKey
  import opened Engine
  import opened Bundler
  import opened LocalResolver

  const BasePath: string := "./mock"

  /** `{ $: 'local', path: 'mock.png' }`. */
  const MockReference: Value := Obj([(ResolveSymbol, Str(LocalName)), (PathField, Str("mock.png"))])

  /** A deck whose cover image is `MockReference`. */
  const CoverDeck: Value := Obj([("coverImageUrl", MockReference)])

  /** A deck with the same file as cover image and as a card image. */
  const DuplicateDeck: Value :=
    Obj([
      ("coverImageUrl", MockReference),
      ("items", Obj([("Ghk029mKGwoZZqCTYLnw", Obj([("imageUrl", MockReference)]))]))])

  /** The `entities` of a room holding one deck. */
  function Entities(deck: Value): Value {
    Obj([("decks", Obj([("Cd5XyQIOyu0VSl79yu5h", deck)]))])
  }

  /** A room holding one deck, with an empty `resources`. */
  function Room(deck: Value): Value {
    Obj([("entities", Entities(deck)), (ResourcesField, Obj([]))])
  }

  /** The dictionary of a one-property object. */
  lemma ViewOne<V>(a: (string, V))
    ensures View([a]) == map[a.0 := a.1]
  {
    ViewCons(a, []);
  }

  /** The dictionary of a two-property object. */
  lemma ViewTwo<V>(a: (string, V), b: (string, V))
    ensures View([a, b]) == map[a.0 := a.1, b.0 := b.1]
  {
    ViewCons(a, [b]);
    ViewOne(b);
  }

  /** The references of a one-property object that is not itself a reference. */
  lemma ReferencesInOne(a: (string, Value))
    requires a.0 != ResolveSymbol
    ensures ReferencesIn(Obj([a])) == ReferencesIn(a.1)
  {
    var fields := [a];
    ViewOne(a);
    var ss := seq(|fields|, i requires 0 <= i < |fields| => ReferencesIn(fields[i].1));
    assert ReferencesIn(Obj(fields)) == Flatten(ss);
    assert ss == [ReferencesIn(a.1)];
    assert Flatten(ss) == ReferencesIn(a.1) + Flatten([]);
  }

  /** The references of a two-property object that is not itself a reference. */
  lemma ReferencesInTwo(a: (string, Value), b: (string, Value))
    requires a.0 != ResolveSymbol && b.0 != ResolveSymbol
    ensures ReferencesIn(Obj([a, b])) == ReferencesIn(a.1) + ReferencesIn(b.1)
  {
    var fields := [a, b];
    ViewTwo(a, b);
    var ss := seq(|fields|, i requires 0 <= i < |fields| => ReferencesIn(fields[i].1));
    assert ReferencesIn(Obj(fields)) == Flatten(ss);
    assert ss == [ReferencesIn(a.1), ReferencesIn(b.1)];
    assert ss[1..] == [ReferencesIn(b.1)];
    assert Flatten(ss[1..]) == ReferencesIn(b.1) + Flatten([]);
  }

  lemma MockReferenceIsOne()
    ensures IsReference(MockReference)
    ensures View(MockReference.fields) == map[ResolveSymbol := Str(LocalName), PathField := Str("mock.png")]
    ensures ReferencesIn(MockReference) == [MockReference]
  {
    ViewTwo((ResolveSymbol, Str(LocalName)), (PathField, Str("mock.png")));
  }

  /** A room is room data, and `bundle` walks its `entities` alone. */
  lemma RoomStripped(deck: Value)
    ensures IsRoomData(Room(deck))
    ensures Stripped(Room(deck)) == [("entities", Entities(deck))]
    ensures PreviousResources(Room(deck)) == []
    ensures ReferencesIn(Obj(Stripped(Room(deck)))) == ReferencesIn(deck)
  {
    var fields := Room(deck).fields;
    ViewTwo(fields[0], fields[1]);
    assert Distinct(fields);
    assert fields[1..][1..] == [];
    assert Without(fields[1..], ResourcesField) == [];
    assert Without(fields, ResourcesField) == [("entities", Entities(deck))];
    ReferencesInOne(("entities", Entities(deck)));
    ReferencesInOne(("decks", Obj([("Cd5XyQIOyu0VSl79yu5h", deck)])));
    ReferencesInOne(("Cd5XyQIOyu0VSl79yu5h", deck));
  }

  /** A reference with no matching resolver rejects the whole bundle (lines 117-133
      of `src/bundle.test.ts`). */
  lemma MissingResolverRejects()
    ensures IsRoomData(Room(CoverDeck))
    ensures Bundle(Room(CoverDeck), BasePath, map[]) == Failure(ResolverNotFound(LocalName))
  {
    var walked := Obj(Stripped(Room(CoverDeck)));
    RoomStripped(CoverDeck);
    MockReferenceIsOne();
    ReferencesInOne(("coverImageUrl", MockReference));
    BundleInnerReference(MockReference, BasePath, map[]);
    BundleWalksStripped(Room(CoverDeck), BasePath, map[]);
    ResourcesComeFromReferences(walked, BasePath, map[]);
    ErrorComesFromReference(walked, BasePath, map[]);
  }

  /** `{ $: 'local', path: 'not-exist.png' }`. */
  const MissingFileReference: Value := Obj([(ResolveSymbol, Str(LocalName)), (PathField, Str("not-exist.png"))])

  lemma MissingFileReferenceIsOne()
    ensures IsReference(MissingFileReference)
    ensures View(MissingFileReference.fields) == map[ResolveSymbol := Str(LocalName), PathField := Str("not-exist.png")]
    ensures ReferencesIn(MissingFileReference) == [MissingFileReference]
  {
    ViewTwo((ResolveSymbol, Str(LocalName)), (PathField, Str("not-exist.png")));
  }

  /** A `local` reference to a file that cannot be read rejects the whole bundle with
      the read failure (lines 135-151 of `src/bundle.test.ts`). */
  lemma MissingFileRejects(env: Environment)
    requires env.readFile(env.join(env.cwd, env.join(BasePath, "not-exist.png"))).None?
    ensures IsRoomData(Room(Obj([("coverImageUrl", MissingFileReference)])))
    ensures Bundle(Room(Obj([("coverImageUrl", MissingFileReference)])), BasePath, Registry(env))
            == Failure(ResolverFailed(ReadFailedMessage))
  {
    var deck := Obj([("coverImageUrl", MissingFileReference)]);
    var walked := Obj(Stripped(Room(deck)));
    RoomStripped(deck);
    MissingFileReferenceIsOne();
    ReferencesInOne(("coverImageUrl", MissingFileReference));
    RegistryResolves(env, MissingFileReference, BasePath);
    assert BundleInner(MissingFileReference, BasePath, Registry(env)) == Failure(ResolverFailed(ReadFailedMessage));
    BundleWalksStripped(Room(deck), BasePath, Registry(env));
    ResourcesComeFromReferences(walked, BasePath, Registry(env));
    ErrorComesFromReference(walked, BasePath, Registry(env));
  }

  /** A walk whose reference nodes are all one node yields exactly what that node
      yields. */
  lemma SingleReference(v: Value, x: Value, basePath: string, resolvers: Resolvers)
    requires x in ReferencesIn(v)
    requires forall y | y in ReferencesIn(v) :: y == x
    requires BundleInner(x, basePath, resolvers).Success?
    ensures BundleInner(v, basePath, resolvers).Success?
    ensures View(BundleInner(v, basePath, resolvers).value.resources) == Produced(BundleInner(x, basePath, resolvers))
  {
    ResourcesComeFromReferences(v, basePath, resolvers);
  }

  /** The duplicate room hands the same reference node to the resolver twice. */
  lemma DuplicateReferences()
    ensures ReferencesIn(Obj(Stripped(Room(DuplicateDeck)))) == [MockReference, MockReference]
  {
    RoomStripped(DuplicateDeck);
    MockReferenceIsOne();
    var item := ("Ghk029mKGwoZZqCTYLnw", Obj([("imageUrl", MockReference)]));
    ReferencesInOne(("imageUrl", MockReference));
    ReferencesInOne(item);
    ReferencesInTwo(("coverImageUrl", MockReference), ("items", Obj([item])));
  }

  /** `{ $: 'local', path: 'mock.png' }` resolves to the file's key and the file. */
  lemma MockProduces(env: Environment, content: seq<byte>)
    requires env.join(BasePath, "mock.png") == "mock/mock.png"
    requires env.readFile(env.join(env.cwd, "mock/mock.png")) == Some(content)
    ensures var key := GetResourceKey(env.sha256, content, Some("png"));
      && BundleInner(MockReference, BasePath, Registry(env)).Success?
      && BundleInner(MockReference, BasePath, Registry(env)).value.data == Str(key)
      && Produced(BundleInner(MockReference, BasePath, Registry(env)))
         == map[key := Resource(content, MediaType(env.getType(key)))]
  {
    var key := GetResourceKey(env.sha256, content, Some("png"));
    var resource := Resource(content, MediaType(env.getType(key)));
    MockReferenceIsOne();
    RegistryResolves(env, MockReference, BasePath);
    ExtensionAfterDot("mock/mock", "png");
    assert "mock/mock.png" == "mock/mock" + "." + "png";
    assert BundleInner(MockReference, BasePath, Registry(env)) == Success(Bundled(Str(key), [(key, resource)]));
    ViewOne((key, resource));
  }

  /** The duplicate deck with both image properties replaced by `key`. */
  function KeyedDeck(key: string): Value {
    Obj([
      ("coverImageUrl", Str(key)),
      ("items", Obj([("Ghk029mKGwoZZqCTYLnw", Obj([("imageUrl", Str(key))]))]))])
  }

  /** The values a list of properties walks to, names kept. */
  function WalkedFields(fields: Record<Value>, basePath: string, resolvers: Resolvers): Record<Value>
    requires forall i | 0 <= i < |fields| :: BundleInner(fields[i].1, basePath, resolvers).Success?
  {
    seq(|fields|, i requires 0 <= i < |fields| => (fields[i].0, BundleInner(fields[i].1, basePath, resolvers).value.data))
  }

  /** An object (not a reference) whose properties are all objects that walk
      successfully walks to the object of their walk results. */
  lemma WalkFields(fields: Record<Value>, basePath: string, resolvers: Resolvers)
    requires ResolveSymbol !in View(fields) && Distinct(fields)
    requires forall i | 0 <= i < |fields| ::
      IsObject(fields[i].1) && BundleInner(fields[i].1, basePath, resolvers).Success?
    ensures BundleInner(Obj(fields), basePath, resolvers).Success?
    ensures BundleInner(Obj(fields), basePath, resolvers).value.data == Obj(WalkedFields(fields, basePath, resolvers))
  {
    BundleInnerObjectOutcome(fields, basePath, resolvers);
    BundleInnerObjectPositions(fields, basePath, resolvers);
  }

  /** A one-property object whose value is an object walks to the object holding
      that value's walk result. */
  lemma WalkOne(a: (string, Value), basePath: string, resolvers: Resolvers)
    requires a.0 != ResolveSymbol && IsObject(a.1)
    requires BundleInner(a.1, basePath, resolvers).Success?
    ensures BundleInner(Obj([a]), basePath, resolvers).Success?
    ensures BundleInner(Obj([a]), basePath, resolvers).value.data
            == Obj([(a.0, BundleInner(a.1, basePath, resolvers).value.data)])
  {
    ViewOne(a);
    WalkFields([a], basePath, resolvers);
    assert WalkedFields([a], basePath, resolvers) == [(a.0, BundleInner(a.1, basePath, resolvers).value.data)];
  }

  /** The same for two properties with different names. */
  lemma WalkTwo(a: (string, Value), b: (string, Value), basePath: string, resolvers: Resolvers)
    requires a.0 != ResolveSymbol && b.0 != ResolveSymbol && a.0 != b.0
    requires IsObject(a.1) && IsObject(b.1)
    requires BundleInner(a.1, basePath, resolvers).Success? && BundleInner(b.1, basePath, resolvers).Success?
    ensures BundleInner(Obj([a, b]), basePath, resolvers).Success?
    ensures BundleInner(Obj([a, b]), basePath, resolvers).value.data
            == Obj([(a.0, BundleInner(a.1, basePath, resolvers).value.data),
                    (b.0, BundleInner(b.1, basePath, resolvers).value.data)])
  {
    ViewTwo(a, b);
    WalkFields([a, b], basePath, resolvers);
    assert WalkedFields([a, b], basePath, resolvers)
        == [(a.0, BundleInner(a.1, basePath, resolvers).value.data),
            (b.0, BundleInner(b.1, basePath, resolvers).value.data)];
  }

  /** Both images of the duplicate deck become the file's key (lines 87-100 of
      `src/bundle.test.ts`). */
  lemma DuplicateDeckKeyed(env: Environment, content: seq<byte>)
    requires env.join(BasePath, "mock.png") == "mock/mock.png"
    requires env.readFile(env.join(env.cwd, "mock/mock.png")) == Some(content)
    ensures var key := GetResourceKey(env.sha256, content, Some("png"));
      && BundleInner(DuplicateDeck, BasePath, Registry(env)).Success?
      && BundleInner(DuplicateDeck, BasePath, Registry(env)).value.data == KeyedDeck(key)
  {
    var resolvers := Registry(env);
    var key := GetResourceKey(env.sha256, content, Some("png"));
    MockProduces(env, content);
    var image := ("imageUrl", MockReference);
    WalkOne(image, BasePath, resolvers);
    var item := ("Ghk029mKGwoZZqCTYLnw", Obj([image]));
    WalkOne(item, BasePath, resolvers);
    WalkTwo(("coverImageUrl", MockReference), ("items", Obj([item])), BasePath, resolvers);
  }

  /** The stripped duplicate room walks to the room whose deck is keyed. */
  lemma DuplicateRoomKeyed(env: Environment, content: seq<byte>)
    requires env.join(BasePath, "mock.png") == "mock/mock.png"
    requires env.readFile(env.join(env.cwd, "mock/mock.png")) == Some(content)
    ensures var key := GetResourceKey(env.sha256, content, Some("png"));
      var w := BundleInner(Obj(Stripped(Room(DuplicateDeck))), BasePath, Registry(env));
      && w.Success?
      && w.value.data == Obj([("entities", Entities(KeyedDeck(key)))])
  {
    var resolvers := Registry(env);
    RoomStripped(DuplicateDeck);
    DuplicateDeckKeyed(env, content);
    var deck := ("Cd5XyQIOyu0VSl79yu5h", DuplicateDeck);
    WalkOne(deck, BasePath, resolvers);
    var decks := ("decks", Obj([deck]));
    WalkOne(decks, BasePath, resolvers);
    WalkOne(("entities", Obj([decks])), BasePath, resolvers);
  }

  /** The walk of the duplicate room under the local registry: one resource, the
      file under the key of its bytes with the `png` extension. */
  lemma DuplicateWalk(env: Environment, content: seq<byte>)
    requires env.join(BasePath, "mock.png") == "mock/mock.png"
    requires env.readFile(env.join(env.cwd, "mock/mock.png")) == Some(content)
    ensures var key := GetResourceKey(env.sha256, content, Some("png"));
      var w := BundleInner(Obj(Stripped(Room(DuplicateDeck))), BasePath, Registry(env));
      && w.Success?
      && View(w.value.resources).Keys == {key}
      && View(w.value.resources)[key].content == content
  {
    var resolvers := Registry(env);
    var walked := Obj(Stripped(Room(DuplicateDeck)));
    DuplicateReferences();
    var key := GetResourceKey(env.sha256, content, Some("png"));
    MockProduces(env, content);
    SingleReference(walked, MockReference, BasePath, resolvers);
  }

  /** A room with an empty `resources` comes back with one `{ type }` entry per
      resource, and nothing else, in its `resources` property. */
  lemma FreshResourcesBecomeTypes(doc: Value, basePath: string, resolvers: Resolvers)
    requires IsRoomData(doc) && PreviousResources(doc) == []
    requires Bundle(doc, basePath, resolvers).Success?
    ensures var r := Bundle(doc, basePath, resolvers).value;
      && r.data.Obj?
      && ResourcesField in View(r.data.fields)
      && View(r.data.fields)[ResourcesField].Obj?
      && View(View(r.data.fields)[ResourcesField].fields)
         == map k | k in View(r.resources) :: TypeRecord(View(r.resources)[k])
  {
    var w := BundleInner(Obj(Stripped(doc)), basePath, resolvers);
    var r := Bundle(doc, basePath, resolvers).value;
    BundleWalksStripped(doc, basePath, resolvers);
    BundleDocument(doc, basePath, resolvers);
    var merged := MergedResources(doc, w.value.resources);
    assert View(r.data.fields)[ResourcesField] == Obj(merged);
    assert r.resources == w.value.resources;
    MergedResourcesContents(doc, r.resources);
    assert View(PreviousResources(doc)) == map[];
    TypesOf(View(merged), View(r.resources));
  }

  /** A dictionary with the keys of `res` and the `{ type }` of each. */
  lemma TypesOf(m: map<string, Value>, res: map<string, Resource>)
    requires m.Keys == res.Keys
    requires forall k | k in res :: m[k] == TypeRecord(res[k])
    ensures m == map k | k in res :: TypeRecord(res[k])
  {
  }

  /** Two references to the same file give one resource, under the key of its
      bytes with the `png` extension, one `{ type }` entry in the document, and
      both references replaced by that key (lines 65-115 of `src/bundle.test.ts`). */
  lemma DuplicateFilesBundleOnce(env: Environment, content: seq<byte>)
    requires env.join(BasePath, "mock.png") == "mock/mock.png"
    requires env.readFile(env.join(env.cwd, "mock/mock.png")) == Some(content)
    ensures IsRoomData(Room(DuplicateDeck))
    ensures var key := GetResourceKey(env.sha256, content, Some("png"));
      var r := Bundle(Room(DuplicateDeck), BasePath, Registry(env));
      && r.Success?
      && View(r.value.resources).Keys == {key}
      && View(r.value.resources)[key].content == content
      && r.value.data.Obj?
      && ResourcesField in View(r.value.data.fields)
      && View(r.value.data.fields)[ResourcesField].Obj?
      && View(View(r.value.data.fields)[ResourcesField].fields)
         == map[key := TypeRecord(View(r.value.resources)[key])]
      && "entities" in View(r.value.data.fields)
      && View(r.value.data.fields)["entities"] == Entities(KeyedDeck(key))
  {
    DuplicateResources(env, content);
    DuplicateEntities(env, content);
  }

  /** The resources of the bundled duplicate room, and its `resources` property. */
  lemma DuplicateResources(env: Environment, content: seq<byte>)
    requires env.join(BasePath, "mock.png") == "mock/mock.png"
    requires env.readFile(env.join(env.cwd, "mock/mock.png")) == Some(content)
    ensures IsRoomData(Room(DuplicateDeck))
    ensures var key := GetResourceKey(env.sha256, content, Some("png"));
      var r := Bundle(Room(DuplicateDeck), BasePath, Registry(env));
      && r.Success?
      && View(r.value.resources).Keys == {key}
      && View(r.value.resources)[key].content == content
      && r.value.data.Obj?
      && ResourcesField in View(r.value.data.fields)
      && View(r.value.data.fields)[ResourcesField].Obj?
      && View(View(r.value.data.fields)[ResourcesField].fields)
         == map[key := TypeRecord(View(r.value.resources)[key])]
  {
    var doc := Room(DuplicateDeck);
    RoomStripped(DuplicateDeck);
    DuplicateWalk(env, content);
    BundleWalksStripped(doc, BasePath, Registry(env));
    FreshResourcesBecomeTypes(doc, BasePath, Registry(env));
  }

  /** The `entities` of the bundled duplicate room hold the keyed deck. */
  lemma DuplicateEntities(env: Environment, content: seq<byte>)
    requires env.join(BasePath, "mock.png") == "mock/mock.png"
    requires env.readFile(env.join(env.cwd, "mock/mock.png")) == Some(content)
    ensures IsRoomData(Room(DuplicateDeck))
    ensures var key := GetResourceKey(env.sha256, content, Some("png"));
      var r := Bundle(Room(DuplicateDeck), BasePath, Registry(env));
      && r.Success? && r.value.data.Obj?
      && "entities" in View(r.value.data.fields)
      && View(r.value.data.fields)["entities"] == Entities(KeyedDeck(key))
  {
    var doc := Room(DuplicateDeck);
    var key := GetResourceKey(env.sha256, content, Some("png"));
    RoomStripped(DuplicateDeck);
    DuplicateRoomKeyed(env, content);
    BundleWalksStripped(doc, BasePath, Registry(env));
    BundleDocument(doc, BasePath, Registry(env));
    ViewOne(("entities", Entities(KeyedDeck(key))));
  }
}

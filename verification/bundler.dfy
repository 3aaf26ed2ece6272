/** The top-level `bundle` of `src/bundle.ts`: take the document's own `resources`
    property out, walk the rest, reduce every produced resource to its `{ type }`
    record, and merge those records over the original `resources` property. */
module Bundler {
  import opened Wrappers
  import opened Records
  import opened Json
  import opened Engine

  /** The property of a room document that lists its resources' media types. */
  const ResourcesField: string := "resources"

  /** `RoomData` as `bundle` can take it: an object that is not itself a reference
      node, whose `resources` property, when there is one, is an object. */
  predicate IsRoomData(doc: Value) {
    && doc.Obj?
    && ResolveSymbol !in View(doc.fields)
    && (ResourcesField in View(doc.fields) ==> View(doc.fields)[ResourcesField].Obj?)
  }

  /** `woResources` (line 23): the document rebuilt without its `resources` property. */
  function Stripped(doc: Value): (fields: Record<Value>)
    requires doc.Obj?
    ensures View(fields) == View(doc.fields) - {ResourcesField}
    ensures Distinct(fields)
    ensures Distinct(doc.fields) ==> fields == Without(doc.fields, ResourcesField)
  {
    FromEntriesFacts(Without(doc.fields, ResourcesField));
    ViewWithout(doc.fields, ResourcesField);
    WithoutDistinctFromEntries(doc.fields, ResourcesField);
    FromEntries(Without(doc.fields, ResourcesField))
  }

  lemma WithoutDistinctFromEntries(fields: Record<Value>, k: string)
    ensures Distinct(fields) ==> FromEntries(Without(fields, k)) == Without(fields, k)
  {
    if Distinct(fields) {
      WithoutDistinct(fields, k);
      FromEntriesOfDistinct(Without(fields, k));
    }
  }

  /** `{ ...data.resources }`: the entries of the original `resources` property; an
      absent property spreads to nothing. */
  function PreviousResources(doc: Value): Record<Value>
    requires IsRoomData(doc)
  {
    if ResourcesField in View(doc.fields) then View(doc.fields)[ResourcesField].fields else []
  }

  /** The `{ type }` record a resource is reduced to inside the document. */
  function TypeRecord(r: Resource): Value {
    Obj([("type", Str(r.mediaType))])
  }

  /** The entries `[key, { type }]` of a resource record, in order. */
  function TypeEntries(resources: Resources): Record<Value>
  {
    if |resources| == 0 then []
    else [(resources[0].0, TypeRecord(resources[0].1))] + TypeEntries(resources[1..])
  }

  /** `roomResources` (line 25): the `reduce` that assigns `{ type }` to each key in turn. */
  function RoomResources(resources: Resources): Record<Value>
  {
    Spread([], TypeEntries(resources))
  }

  /** `bundle(data, basePath, resolvers)`. */
  function Bundle(doc: Value, basePath: string, resolvers: Resolvers): Result<Bundled, Error>
    requires IsRoomData(doc)
  {
    var woResources := Obj(Stripped(doc));
    match BundleInner(woResources, basePath, resolvers)
    case Failure(e) => Failure(e)
    case Success(bundled) =>
      BundleInnerObjectShape(Stripped(doc), basePath, resolvers);
      Success(Reassemble(doc, bundled))
  }

  /** The returned pair (lines 27-33): `{ ...bundled.data, resources: merged }` and
      the walk's resources. */
  function Reassemble(doc: Value, bundled: Bundled): Bundled
    requires IsRoomData(doc) && bundled.data.Obj?
  {
    var merged := MergedResources(doc, bundled.resources);
    Bundled(Obj(Put(Spread([], bundled.data.fields), ResourcesField, Obj(merged))), bundled.resources)
  }

  /** `{ ...data.resources, ...roomResources }` (line 30). */
  function MergedResources(doc: Value, resources: Resources): Record<Value>
    requires IsRoomData(doc)
  {
    Spread(Spread([], PreviousResources(doc)), RoomResources(resources))
  }

  /** Each resource key maps to the `{ type }` of its resource. */
  lemma {:induction false} ViewTypeEntries(resources: Resources)
    ensures View(TypeEntries(resources)) == map k | k in View(resources) :: TypeRecord(View(resources)[k])
  {
    if |resources| > 0 {
      var head, rest := resources[0], resources[1..];
      ViewTypeEntries(rest);
      assert TypeEntries(resources) == [(head.0, TypeRecord(head.1))] + TypeEntries(rest);
      ViewCons((head.0, TypeRecord(head.1)), TypeEntries(rest));
      assert resources == [head] + rest;
      ViewCons(head, rest);
      TypesCons(head.0, head.1, View(rest), View(TypeEntries(rest)));
    }
  }

  /** Assigning a resource in front commutes with taking `{ type }`s. */
  lemma TypesCons(k: string, r: Resource, rest: map<string, Resource>, types: map<string, Value>)
    requires types == map j | j in rest :: TypeRecord(rest[j])
    ensures map[k := TypeRecord(r)] + types
            == map j | j in map[k := r] + rest :: TypeRecord((map[k := r] + rest)[j])
  {
    var all := map[k := r] + rest;
    var want := map j | j in all :: TypeRecord(all[j]);
    var got := map[k := TypeRecord(r)] + types;
    assert got.Keys == want.Keys;
    forall j | j in want ensures got[j] == want[j] {
      if j in rest {
        assert all[j] == rest[j];
      } else {
        assert j == k;
      }
    }
  }

  /** `bundle` walks exactly the document minus its `resources` property, fails
      exactly when that walk fails (with its error), and returns that walk's resource
      record as its own `resources`. */
  lemma BundleWalksStripped(doc: Value, basePath: string, resolvers: Resolvers)
    requires IsRoomData(doc)
    ensures var w := BundleInner(Obj(Stripped(doc)), basePath, resolvers);
      var r := Bundle(doc, basePath, resolvers);
      && View(Stripped(doc)) == View(doc.fields) - {ResourcesField}
      && (r.Success? <==> w.Success?)
      && (r.Failure? ==> r.error == w.error)
      && (r.Success? ==> r.value.resources == w.value.resources)
  {
  }

  /** The merged `resources` property holds the old keys plus every produced key, each
      once: a produced key maps to the `{ type }` of its resource (new entries win),
      any other key keeps its old entry. */
  lemma MergedResourcesContents(doc: Value, resources: Resources)
    requires IsRoomData(doc)
    ensures var merged := MergedResources(doc, resources);
      var prev := View(PreviousResources(doc));
      && Distinct(merged)
      && View(merged).Keys == prev.Keys + View(resources).Keys
      && (forall k | k in View(resources) :: View(merged)[k] == TypeRecord(View(resources)[k]))
      && (forall k | k in prev && k !in View(resources) :: View(merged)[k] == prev[k])
  {
    MergeRecords(PreviousResources(doc), resources);
  }

  /** `{ ...prev, ...roomResources }` for any old record `prev`. */
  lemma MergeRecords(prev: Record<Value>, resources: Resources)
    ensures var merged := Spread(Spread([], prev), RoomResources(resources));
      && Distinct(merged)
      && View(merged).Keys == View(prev).Keys + View(resources).Keys
      && (forall k | k in View(resources) :: View(merged)[k] == TypeRecord(View(resources)[k]))
      && (forall k | k in View(prev) && k !in View(resources) :: View(merged)[k] == View(prev)[k])
  {
    var room := RoomResources(resources);
    ViewSpread([], prev);
    ViewRoomResources(resources);
    ViewSpread(Spread([], prev), room);
    MergeTypes(View(prev), View(resources), View(Spread(Spread([], prev), room)));
    SpreadDistinct([], prev);
    SpreadDistinct(Spread([], prev), room);
  }

  /** `roomResources` maps each produced key to the `{ type }` of its resource. */
  lemma ViewRoomResources(resources: Resources)
    ensures View(RoomResources(resources)) == map k | k in View(resources) :: TypeRecord(View(resources)[k])
  {
    ViewSpread([], TypeEntries(resources));
    ViewTypeEntries(resources);
  }

  /** The dictionary of old entries overridden by `{ type }`s of new resources. */
  lemma MergeTypes(prev: map<string, Value>, res: map<string, Resource>, merged: map<string, Value>)
    requires merged == map[] + prev + map k | k in res :: TypeRecord(res[k])
    ensures merged.Keys == prev.Keys + res.Keys
    ensures forall k | k in res :: merged[k] == TypeRecord(res[k])
    ensures forall k | k in prev && k !in res :: merged[k] == prev[k]
  {
  }

  /** The reassembled document has the walked document's properties plus
      `resources`, each once; apart from `resources` they are the walk's, and
      `resources` is the merged record. */
  lemma ReassembleFields(doc: Value, bundled: Bundled)
    requires IsRoomData(doc) && bundled.data.Obj?
    ensures var out := Reassemble(doc, bundled).data;
      && out.Obj?
      && Distinct(out.fields)
      && Keys(out.fields) == Keys(bundled.data.fields) + {ResourcesField}
      && View(out.fields) == View(bundled.data.fields)[ResourcesField := Obj(MergedResources(doc, bundled.resources))]
  {
    SpreadThenPut(bundled.data.fields, ResourcesField, Obj(MergedResources(doc, bundled.resources)));
  }

  /** The document `bundle` returns has the document's properties plus `resources`,
      each once; apart from `resources` they are the walk's results, and `resources`
      is the merged record. */
  lemma BundleDocument(doc: Value, basePath: string, resolvers: Resolvers)
    requires IsRoomData(doc)
    ensures var w := BundleInner(Obj(Stripped(doc)), basePath, resolvers);
      var r := Bundle(doc, basePath, resolvers);
      r.Success? ==>
        && w.Success? && w.value.data.Obj?
        && r.value.data.Obj?
        && Distinct(r.value.data.fields)
        && Keys(r.value.data.fields) == Keys(doc.fields) + {ResourcesField}
        && View(r.value.data.fields) == View(w.value.data.fields)[ResourcesField := Obj(MergedResources(doc, w.value.resources))]
  {
    var w := BundleInner(Obj(Stripped(doc)), basePath, resolvers);
    if w.Success? {
      BundleInnerObjectShape(Stripped(doc), basePath, resolvers);
      assert Bundle(doc, basePath, resolvers) == Success(Reassemble(doc, w.value));
      ReassembleFields(doc, w.value);
      ViewKeys(Stripped(doc));
      ViewKeys(doc.fields);
    }
  }

  /** A document with no reference outside its `resources` property comes back
      unchanged apart from `resources` moving to the end (and appearing, empty, when
      it was absent), with no resources; its properties are the original ones. */
  lemma BundleIdentity(doc: Value, basePath: string, resolvers: Resolvers)
    requires IsRoomData(doc) && WellFormed(doc)
    requires NoReferences(Obj(Without(doc.fields, ResourcesField)))
    ensures Bundle(doc, basePath, resolvers)
      == Success(Bundled(Obj(Without(doc.fields, ResourcesField) + [(ResourcesField, Obj(PreviousResources(doc)))]), []))
    ensures ResourcesField in View(doc.fields) ==>
      View(Bundle(doc, basePath, resolvers).value.data.fields) == View(doc.fields)
  {
    var rest := Without(doc.fields, ResourcesField);
    var prev := PreviousResources(doc);
    assert Bundle(doc, basePath, resolvers) == Success(Bundled(Obj(rest + [(ResourcesField, Obj(prev))]), [])) by {
      StrippedIdentity(doc, basePath, resolvers);
      ReassembleUnchanged(doc);
      BundleOfWalk(doc, basePath, resolvers, Bundled(Obj(rest), []));
    }
    if ResourcesField in View(doc.fields) {
      ViewAppend(rest, ResourcesField, Obj(prev));
      ViewWithout(doc.fields, ResourcesField);
    }
  }

  /** `bundle` returns the reassembly of a successful walk. */
  lemma BundleOfWalk(doc: Value, basePath: string, resolvers: Resolvers, walked: Bundled)
    requires IsRoomData(doc)
    requires BundleInner(Obj(Stripped(doc)), basePath, resolvers) == Success(walked)
    ensures walked.data.Obj?
    ensures Bundle(doc, basePath, resolvers) == Success(Reassemble(doc, walked))
  {
    BundleInnerObjectShape(Stripped(doc), basePath, resolvers);
  }

  /** Reassembling the unchanged rest of a document with no new resources appends
      the old `resources` property. */
  lemma ReassembleUnchanged(doc: Value)
    requires IsRoomData(doc) && WellFormed(doc)
    ensures var rest := Without(doc.fields, ResourcesField);
      Reassemble(doc, Bundled(Obj(rest), []))
      == Bundled(Obj(rest + [(ResourcesField, Obj(PreviousResources(doc)))]), [])
  {
    var rest := Without(doc.fields, ResourcesField);
    var prev := PreviousResources(doc);
    assert MergedResources(doc, []) == prev by {
      PreviousDistinct(doc);
      FromEntriesOfDistinct(prev);
      assert RoomResources([]) == [];
    }
    assert Spread([], rest) == rest by {
      WithoutDistinct(doc.fields, ResourcesField);
      FromEntriesOfDistinct(rest);
    }
    assert ResourcesField !in Keys(rest) by {
      KeysWithout(doc.fields, ResourcesField);
    }
  }

  lemma StrippedIdentity(doc: Value, basePath: string, resolvers: Resolvers)
    requires IsRoomData(doc) && WellFormed(doc)
    requires NoReferences(Obj(Without(doc.fields, ResourcesField)))
    ensures Stripped(doc) == Without(doc.fields, ResourcesField)
    ensures Distinct(Without(doc.fields, ResourcesField))
    ensures BundleInner(Obj(Stripped(doc)), basePath, resolvers) == Success(Bundled(Obj(Stripped(doc)), []))
  {
    var rest := Without(doc.fields, ResourcesField);
    WithoutDistinct(doc.fields, ResourcesField);
    forall i | 0 <= i < |rest| ensures WellFormed(rest[i].1) {
      WithoutEntries(doc.fields, ResourcesField, i);
    }
    BundleInnerIdentity(Obj(rest), basePath, resolvers);
  }

  lemma PreviousDistinct(doc: Value)
    requires IsRoomData(doc) && WellFormed(doc)
    ensures Distinct(PreviousResources(doc))
  {
    if ResourcesField in View(doc.fields) {
      var i := DistinctLookup(doc.fields, ResourcesField);
    }
  }
}

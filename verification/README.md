# ccfolia-bundler resolution engine, in Dafny

ccfolia-bundler turns a CCFOLIA room document into an archive. A room document is
JSON, and any object in it may be a *reference node*: an object carrying a `$`
property. The `$` names a *resolver* in a registry supplied by the caller. The
engine (`bundleInner` in `src/bundle.ts`) walks the document as follows:
- It hands every reference node to its resolver.
- It puts the resolver's replacement value in the node's place.
- It collects every *resource* the resolvers produce: bytes plus a media type,
  stored under a content-addressed key.

`bundle` wraps the walk:
- It takes the document's own `resources` property out before walking.
- It walks the rest.
- It merges a `{ type }` record for every produced resource over the old
  `resources` property.

`getResourceKey` builds the keys: the SHA-256 digest (FIPS 180-4) of the bytes in
lowercase hex, followed by `.` and the extension when one is given.

The model consists of these modules:
- `Records` (`records.dfy`): JavaScript plain objects as insertion-ordered lists
  of `(name, value)` entries. `View` gives the dictionary such a list denotes,
  with the last entry winning. It also models assignment (`Put`), object spread
  (`Spread`), `Object.fromEntries`, filtering, and left folds of spreads.
- `Json` (`json.dfy`): JSON values. Numbers are integers, because the bundler
  only copies them.
- `ResourceKey` (`resource_key.dfy`): content-addressed keys. SHA-256 is a
  parameter whose results are 64 lowercase hex characters.
- `Engine` (`engine.dfy`): `bundleInner` as the pure recursive function
  `BundleInner`, which returns `Result<Bundled, Error>`.
  - A rejected promise is a `Failure`.
  - Resolvers are total functions.
  - The registry is a map holding the registry's own names.
- `Bundler` (`bundler.dfy`): `bundle`.
- `LocalResolver` (`local_resolver.dfy`): the `local` resolver of
  `src/localResolver.ts`. Its file system, path joining, digest and media-type
  table are parameters. It lets the deduplication property be stated about real
  resolver output.
- `PrototypeLookup` (`prototype_lookup.dfy`): the registry lookup as the source
  writes it (see Findings).
- `Scenarios` (`scenarios.dfy`): the documents of `src/bundle.test.ts` and what
  `bundle` does to them.

Sibling walks run under `Promise.all` in the source. In the model they are
evaluated in document order. No contract says which sibling's error is reported
when several fail. No contract says which sibling's resource wins a shared key
with different values. Where the siblings agree on shared keys, as content
addressing makes them, the result is proved independent of the order.

`src/bundle.ts:51-55` returns the resolver's result as it is: references inside
a resolver's output are not resolved again. `Engine.BundleInnerReference` states
this.

## Model

| member | source | states |
|---|---|---|
| Records.Spread | src/bundle.ts:44 | the object spread `{ ...a, ...b }`, entry by entry; `Records.ViewSpread` and `Records.SpreadThenPut` state what it denotes |
| Records.FromEntries | src/bundle.ts:23 | `Object.fromEntries`; `Records.FromEntriesFacts` states what it denotes |
| Records.Without | src/bundle.ts:23 | the `filter` that drops the entries named `k`: no entry it keeps has that name; `Records.ViewWithout` states what it denotes |
| Records.ViewSpread | src/bundle.ts:44 | an object spread `{ ...a, ...b }` denotes the right-biased union of the two dictionaries |
| Records.ViewSpreadAll | src/bundle.ts:44 | the `reduce` of spreads over a list of resource records denotes the union of their dictionaries, a later record winning on a shared key |
| Records.UnionAllKeys | src/bundle.ts:44 | a key is in the merged resources exactly when some child produced it |
| Records.UnionAllLastWins | src/bundle.ts:44 | a key takes its value from the last child record that has it |
| Records.UnionAllFrom | src/bundle.ts:62 | every merged value is the value some child gave that key |
| Records.UnionAllCoherent | src/bundle.ts:62 | when the children agree on shared keys, the merge gives each key the value of any child that has it, whatever the merge order |
| Records.SpreadThenPut | src/bundle.ts:28-31 | `{ ...data, resources: v }` has the keys of `data` plus `resources`, each once, and the dictionary of `data` with `resources` set to `v` |
| Records.FromEntriesFacts | src/bundle.ts:23 | `Object.fromEntries` of a list of entries gives an object with distinct names and the same last-wins dictionary |
| Records.ViewWithout | src/bundle.ts:23 | filtering out the entries named `k` removes exactly `k` from the dictionary |
| ResourceKey.ComposeKey | src/bundle.ts:78 | the key from a digest and an optional extension; `ResourceKey.ParseComposeKey`, `ResourceKey.ComposeParsedKey` and `ResourceKey.KeyInjective` state that it can be read back and is injective |
| ResourceKey.GetResourceKey | src/bundle.ts:76-79 | the key starts with the full 64-character digest of the content; it is exactly the digest when there is no extension, and otherwise it continues with `.` and the extension |
| ResourceKey.ParseComposeKey | src/bundle.ts:78 | digest and extension can be read back from every key |
| ResourceKey.ComposeParsedKey | src/bundle.ts:78 | every string that parses as a key is the key of what it parses to |
| ResourceKey.KeyInjective | src/bundle.ts:76-79 | two keys are equal exactly when the digests are equal and the extensions are equal, so different extensions on the same bytes give different keys |
| ResourceKey.KeysIdentifyContent | src/bundle.ts:77 | when the digest tells two payloads apart, equal keys mean equal bytes and equal extensions |
| Engine.All | src/bundle.ts:41 | `Promise.all` succeeds exactly when every child succeeds, giving every value in position order; otherwise it fails with the error of some child |
| Engine.Gather | src/bundle.ts:41-45 | the children's values are kept in position; the merged resources hold each key once and denote the union of the children's resources, later children winning; a failure is some child's failure |
| Engine.Resolve | src/bundle.ts:47-55 | the resolver call for a reference node, through the registry's own names; `Engine.BundleInnerReference` states its three outcomes and `PrototypeLookup.ResolveAsWrittenAgrees` compares it with the guard as written |
| Engine.BundleInner | src/bundle.ts:38-74 | `bundleInner`; its contract is carried by `Engine.BundleInnerPrimitive`, `Engine.BundleInnerArray`, `Engine.BundleInnerReference`, the `Engine.BundleInnerObject` lemmas, `Engine.ResourcesComeFromReferences`, `Engine.ErrorComesFromReference` and `Engine.BundleInnerIdentity` |
| Engine.BundleInnerPrimitive | src/bundle.ts:39 | a primitive or `null` comes back unchanged, with no resources |
| Engine.BundleInnerArray | src/bundle.ts:40-45 | an array walk fails exactly when an element's walk fails, with that element's error; otherwise it has the same length, element i is element i's walk result, and the resources are the left-to-right union of the elements' resources, each key once |
| Engine.BundleInnerReference | src/bundle.ts:47-55 | a reference node whose `$` is not a string is rejected; one whose `$` names no resolver is rejected with that name; otherwise the walk result is exactly the resolver's output, not walked again |
| Engine.BundleInnerObjectOutcome | src/bundle.ts:57-68 | an object walk fails exactly when the walk of some object-valued property fails, with that property's error |
| Engine.BundleInnerObjectShape | src/bundle.ts:57-71 | a walked object has exactly the input's property names, each once; for distinct input names they keep their positions, non-object values are copied and object values replaced by their walk results |
| Engine.BundleInnerObjectResourceKeys | src/bundle.ts:57-72 | the resources of a walked object hold each key once, and a key is present exactly when some object-valued property produced it, so a key produced by two properties appears once |
| Engine.BundleInnerObjectResourceValues | src/bundle.ts:59-62 | every resource of a walked object is the one some object-valued property produced for that key |
| Engine.ReferencesIn | src/bundle.ts:38-74 | the reference nodes the walk reaches, in document order; each is a reference node |
| Engine.ResourcesComeFromReferences | src/bundle.ts:38-74 | a walk succeeds exactly when every reachable reference resolves; then every key any of them produced is in the result, and every entry of the result is one some reference produced |
| Engine.ErrorComesFromReference | src/bundle.ts:47-50 | a rejected walk reports the rejection of one of the reference nodes it reached |
| Engine.FailureAborts | src/bundle.ts:41 | one failing reference anywhere rejects the whole walk, with no partial result |
| Engine.Deduplicates | src/bundle.ts:44 | when reachable references agree on shared keys, the result holds each produced key once, with exactly the resource each of them produced for it |
| Engine.BundleInnerIdentity | src/bundle.ts:38-74 | a well-formed value with no reference node walks to itself with no resources |
| Bundler.Bundle | src/bundle.ts:15-34 | `bundle`; `Bundler.BundleWalksStripped`, `Bundler.BundleDocument` and `Bundler.BundleIdentity` state its outcome and its document |
| Bundler.RoomResources | src/bundle.ts:25 | the `{ type }` record of the produced resources; `Bundler.ViewTypeEntries` states what it denotes |
| Bundler.MergedResources | src/bundle.ts:30 | `{ ...data.resources, ...roomResources }`; `Bundler.MergedResourcesContents` states its keys and values |
| Bundler.Stripped | src/bundle.ts:23 | the walked document denotes the original dictionary without `resources`, each name once; for a document with distinct names it is the original entry list without `resources` |
| Bundler.ViewTypeEntries | src/bundle.ts:25 | each produced key maps to the `{ type }` of its resource |
| Bundler.BundleWalksStripped | src/bundle.ts:23-33 | `bundle` fails exactly when the walk of the stripped document fails, with its error, and returns that walk's resources as its own |
| Bundler.MergedResourcesContents | src/bundle.ts:25-30 | the merged `resources` property holds the old keys plus every produced key, each once; a produced key maps to the `{ type }` of its resource, any other key to its old entry |
| Bundler.ReassembleFields | src/bundle.ts:27-33 | the returned document has the walked document's properties plus `resources`, each once, with `resources` set to the merged record |
| Bundler.BundleDocument | src/bundle.ts:15-34 | the returned document has the input's property names plus `resources`, each once; apart from `resources` its values are the walk's, and `resources` is the merged record |
| Bundler.BundleIdentity | src/bundle.test.ts:7-24 | a document without references comes back with the same properties and values and `resources` last, with no resources |
| LocalResolver.SplitOn | src/localResolver.ts:13 | `split` gives at least one piece, no piece holds the separator, and joining the pieces with it gives the string back |
| LocalResolver.Extension | src/localResolver.ts:13 | the extension is the dot-free suffix of the joined path that is either the whole path or preceded by `.` |
| LocalResolver.ExtensionIsLastPiece | src/localResolver.ts:13 | the extension is the last piece of `split('.')`, as `pop()` takes it |
| LocalResolver.ResolveLocal | src/localResolver.ts:7-17 | the resolver fails when `path` is missing, when it is not a string, and when the file cannot be read, and only then; otherwise the node becomes a key that parses into the digest of the file's bytes and the path's extension, and the only resource is those bytes under that key, with a non-empty media type |
| LocalResolver.Registry | src/localResolver.ts:19 | the registry holds exactly the name `local` |
| LocalResolver.KeyDeterminesResource | src/localResolver.ts:14-16 | two successful local resolutions that give the same key give the same resource, when the digest tells the files apart |
| LocalResolver.RegistryResolves | src/bundle.ts:47-51 | under the local registry a `local` reference resolves through the local resolver, and any other name is rejected as not found |
| LocalResolver.ReferenceProduces | src/localResolver.ts:16 | a local reference produces only the key it is replaced with |
| LocalResolver.LocalDeduplicates | src/bundle.test.ts:65-115 | under the local registry every key any reference produced is in the result once, with the resource that reference produced |
| PrototypeLookup.ResolveAsWritten | src/bundle.ts:47-55 | the resolver call with the guard as written, which may call an inherited method; compared with `Engine.Resolve` by `PrototypeLookup.ResolveAsWrittenAgrees` |
| PrototypeLookup.ResolveAsWrittenAgrees | src/bundle.ts:47-55 | the call as written settles exactly as `Engine.Resolve` does unless `$` names an inherited method the registry lacks; then it calls that method, where `Engine.Resolve` rejects the node as not found |
| PrototypeLookup.LookupsAgreeOutsidePrototype | src/bundle.ts:50 | the two lookups agree on every name that is not inherited |
| PrototypeLookup.InheritedNamePassesGuard | src/bundle.ts:50 | an inherited name the registry lacks passes the guard as written, while the intended walk rejects the node as not found |
| PrototypeLookup.ToStringWithEmptyRegistry | src/bundle.ts:50 | `{ "$": "toString" }` with an empty registry reaches `Object.prototype.toString` under the guard as written, and is rejected as not found by the model's walk |
| Scenarios.MissingResolverRejects | src/bundle.test.ts:117-133 | a `local` reference with an empty registry rejects `bundle` with "resolver not found" |
| Scenarios.MissingFileRejects | src/bundle.test.ts:135-151 | a `local` reference to a file that cannot be read rejects `bundle` with the read failure |
| Scenarios.FreshResourcesBecomeTypes | src/bundle.ts:25-30 | for a room whose `resources` is empty, the returned `resources` property holds exactly one `{ type }` per produced resource |
| Scenarios.DuplicateDeckKeyed | src/bundle.test.ts:87-100 | the deck's `coverImageUrl` and the card's `imageUrl` both become the file's key |
| Scenarios.DuplicateFilesBundleOnce | src/bundle.test.ts:65-115 | two references to the same file give one resource under the digest of its bytes with the `png` extension, one `{ type }` entry in the document, and a room whose deck has both references replaced by that key |

## Left out

- `src/index.ts` is not part of this model. It does the command-line handling, reads the room file and writes the zip archive, all of which is I/O.
- `src/cardResolver.ts` is not part of this model. It renders card images on a canvas, lays out text with floating point, and makes item keys with `Math.random`.
- `generateToken` (`src/bundle.ts:81`) is not modelled, because it draws on a random source.
- The SHA-256 algorithm is not modelled. It is a parameter whose results are 64 lowercase hex characters.
- `path.join`, `fs.readFile`, the working directory and `mime.getType` are parameters of `LocalResolver`. A failed read is a `None`.
- Concurrency of `Promise.all` is not modelled. Siblings are evaluated one after another in document order.
- Engine.All: reports the first failing child in position order. The source reports whichever rejects first in time, so the contract only says the error is some child's error.
- Engine.BundleInnerObjectResourceValues: does not say which property's resource wins a key that two properties produce with different values. The source merges in order of completion (`src/bundle.ts:62`), which the model does not know.
- Engine.Deduplicates: proves exact values only when the references agree on shared keys. Content addressing makes that so: `LocalResolver.KeyDeterminesResource`.
- Bundler.Bundle: requires a document whose top level is not a reference node. In that case the source spreads the resolver's value into the result, whatever it is.
- Bundler.Bundle: requires a `resources` property, when present, to be an object. `RoomData` types it so.
- Records that repeat a property name are outside the model: JavaScript objects cannot hold them. `Bundle` and `BundleInner` accept them, and the walk visits every entry, including one a later entry hides.
- JSON numbers are integers. The engine never computes with them.
- `undefined` is not modelled, and neither are values that are not JSON, such as functions and class instances.
- `Object.entries` lists integer-like names first in ascending order. The model keeps insertion order for every name.
- LocalResolver.ResolveLocal: gives the missing-path error for a node that is not an object. The source throws the `in` operator's own `TypeError` there. The engine only hands objects to resolvers, so the two never differ in a walk.
- The error messages are modelled as constants or constructors, not the source's exact texts.
- What an inherited `Object.prototype` method does when the guard as written lets it through is not modelled (see Findings). The model stops at the call (`PrototypeLookup.InheritedCall`).

## Findings

| source | as written | input that shows it | evidently intended | confidence | as-written member | corrected member |
|---|---|---|---|---|---|---|
| src/bundle.ts:50 | `resolverName in resolvers` also finds the properties every object inherits from `Object.prototype` | `{ "$": "toString" }` walked with the registry `{}`: the guard passes and `Object.prototype.toString` is called as a resolver, so the node is replaced by `undefined` instead of the walk being rejected | only the registry's own resolvers are found, and any other name is rejected with "Resolver not found" | not executed; high, from JavaScript's definition of the `in` operator | PrototypeLookup.ResolveAsWritten, PrototypeLookup.ToStringWithEmptyRegistry | Engine.Resolve, PrototypeLookup.ResolveAsWrittenAgrees, PrototypeLookup.InheritedNamePassesGuard |

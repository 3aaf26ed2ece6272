/** The resolver lookup of `bundleInner` as `src/bundle.ts` writes it (line 50): the
    guard `resolverName in resolvers` asks the JavaScript `in` operator, which also
    finds the properties every plain object inherits from `Object.prototype`. A `$`
    naming one of those passes the guard although the registry has no such
    resolver, and the inherited method is then called as if it were one.

    `Engine.Resolve` models the evidently intended lookup instead, on the
    registry's own names only; this module models the guard as written and shows
    where the two part ways. */
module PrototypeLookup {
  import opened Wrappers
  import opened Records
  import opened Json
  import opened Engine

  /** The properties a plain object inherits from `Object.prototype` (ECMAScript
      2023, section 20.1.3, with the legacy accessors of Annex B.2.2). */
  const ObjectPrototypeNames: set<string> := {
    "constructor", "hasOwnProperty", "isPrototypeOf", "propertyIsEnumerable",
    "toLocaleString", "toString", "valueOf", "__proto__",
    "__defineGetter__", "__defineSetter__", "__lookupGetter__", "__lookupSetter__"
  }

  /** What `resolvers[resolverName]` finds: a resolver the registry holds, or a
      method inherited from `Object.prototype`. */
  datatype Found =
    | Own(resolver: Resolver)
    | Inherited(name: string)

  /** The lookup as written: nothing only when the name is neither one of the
      registry's own nor an inherited one; the registry's own entry wins over an
      inherited one of the same name. */
  function LookupAsWritten(name: string, resolvers: Resolvers): Option<Found>
  {
    if name in resolvers then Some(Own(resolvers[name]))
    else if name in ObjectPrototypeNames then Some(Inherited(name))
    else None
  }

  /** What the resolver call of lines 48-55 does when the guard is the one written:
      the walk's outcome, or a call of the inherited method named (whose result is
      not a walk result, and is not modelled further). */
  datatype Dispatch =
    | Settled(result: Result<Bundled, Error>)
    | InheritedCall(name: string)

  /** Lines 48-55 with the guard as written. */
  function ResolveAsWritten(node: Value, basePath: string, resolvers: Resolvers): Dispatch
    requires IsReference(node)
  {
    var name := View(node.fields)[ResolveSymbol];
    if !name.Str? then Settled(Failure(NameNotString))
    else match LookupAsWritten(name.s, resolvers)
      case None => Settled(Failure(ResolverNotFound(name.s)))
      case Some(Own(resolver)) => Settled(resolver(node, basePath))
      case Some(Inherited(inherited)) => InheritedCall(inherited)
  }

  /** A `$` that names a string the registry does not hold but every object inherits. */
  predicate NamesInheritedOnly(node: Value, resolvers: Resolvers)
    requires IsReference(node)
  {
    var name := View(node.fields)[ResolveSymbol];
    name.Str? && name.s in ObjectPrototypeNames && name.s !in resolvers
  }

  /** The two lookups agree on every name that is not inherited. */
  lemma LookupsAgreeOutsidePrototype(name: string, resolvers: Resolvers)
    requires name !in ObjectPrototypeNames
    ensures LookupAsWritten(name, resolvers).None? <==> Lookup(name, resolvers).None?
    ensures Lookup(name, resolvers).Some? ==> LookupAsWritten(name, resolvers) == Some(Own(Lookup(name, resolvers).value))
  {
  }

  /** The resolver call as written settles exactly as the model's `Engine.Resolve`
      does, unless `$` names an inherited method the registry does not hold; then it
      calls that method instead of rejecting the node. */
  lemma ResolveAsWrittenAgrees(node: Value, basePath: string, resolvers: Resolvers)
    requires IsReference(node)
    ensures ResolveAsWritten(node, basePath, resolvers) == Settled(Resolve(node, basePath, resolvers))
            <==> !NamesInheritedOnly(node, resolvers)
    ensures NamesInheritedOnly(node, resolvers) ==>
      && ResolveAsWritten(node, basePath, resolvers) == InheritedCall(View(node.fields)[ResolveSymbol].s)
      && Resolve(node, basePath, resolvers) == Failure(ResolverNotFound(View(node.fields)[ResolveSymbol].s))
  {
    var name := View(node.fields)[ResolveSymbol];
    if name.Str? && name.s !in ObjectPrototypeNames {
      LookupsAgreeOutsidePrototype(name.s, resolvers);
    }
  }

  /** A reference node naming `name`, with no other property. */
  function ReferenceTo(name: string): (node: Value)
    ensures IsReference(node)
    ensures View(node.fields)[ResolveSymbol] == Str(name)
  {
    Obj([(ResolveSymbol, Str(name))])
  }

  /** On an inherited name the registry does not hold, the guard as written lets the
      node through to the inherited method, while the model's walk rejects the node
      with `ResolverNotFound`. */
  lemma InheritedNamePassesGuard(name: string, basePath: string, resolvers: Resolvers)
    requires name in ObjectPrototypeNames && name !in resolvers
    ensures ResolveAsWritten(ReferenceTo(name), basePath, resolvers) == InheritedCall(name)
    ensures BundleInner(ReferenceTo(name), basePath, resolvers) == Failure(ResolverNotFound(name))
  {
    ResolveAsWrittenAgrees(ReferenceTo(name), basePath, resolvers);
  }

  /** The input that shows it: `{ "$": "toString" }` with an empty registry reaches
      `Object.prototype.toString`, though no resolver is named `toString`. */
  lemma ToStringWithEmptyRegistry(basePath: string)
    ensures ResolveAsWritten(ReferenceTo("toString"), basePath, map[]) == InheritedCall("toString")
    ensures BundleInner(ReferenceTo("toString"), basePath, map[]) == Failure(ResolverNotFound("toString"))
  {
    InheritedNamePassesGuard("toString", basePath, map[]);
  }
}

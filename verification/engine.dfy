/** The resolution engine of `src/bundle.ts`: `bundleInner` walks a JSON value, hands
    every reference node (a non-array object with a `$` property) to the resolver
    that `$` names, rebuilds arrays and other objects around the results, and
    unions the resource records the children produce.

    Sibling walks run under `Promise.all` in the source. Here they are evaluated one
    by one in document order. The contracts say nothing about which error is
    reported when several siblings fail, or which value wins when two siblings
    produce the same key with different values. */
module Engine {
  import opened Wrappers
  import opened Records
  import opened Json
  import opened ResourceKey

  /** The property that marks a node as a reference to resolve. */
  const ResolveSymbol: string := "$"

  /** An entry of `Resources`: the bytes to store and their media type (`type`). */
  datatype Resource = Resource(content: seq<byte>, mediaType: string)

  /** `Resources`: resource key to resource. */
  type Resources = Record<Resource>

  /** `BundleInnerResult`: the value that replaces a node, and the resources it produced. */
  datatype Bundled = Bundled(data: Value, resources: Resources)

  /** The ways a walk is rejected. */
  datatype Error =
    | NameNotString                   // `$` holds something other than a string
    | ResolverNotFound(name: string)  // `$` names no resolver of the registry
    | ResolverFailed(reason: string)  // a resolver's own rejection, passed through unchanged

  /** `Resolver`: from the reference node and the base path to its replacement. */
  type Resolver = (Value, string) -> Result<Bundled, Error>

  /** `Resolvers`: the registry, by name. */
  type Resolvers = map<string, Resolver>

  /** A non-array object carrying a `$` property. */
  predicate IsReference(v: Value) {
    v.Obj? && ResolveSymbol in View(v.fields)
  }

  /** The resources a settled walk produced, as a dictionary; none for a rejection. */
  function Produced(r: Result<Bundled, Error>): map<string, Resource> {
    if r.Success? then View(r.value.resources) else map[]
  }

  /** `Promise.all`: every value if every promise fulfilled, otherwise a rejection of
      one of them (here the first in position order). */
  function All(results: seq<Result<Bundled, Error>>): (r: Result<seq<Bundled>, Error>)
    ensures r.Success? <==> forall i | 0 <= i < |results| :: results[i].Success?
    ensures r.Success? ==> |r.value| == |results|
    ensures r.Success? ==> forall i | 0 <= i < |results| :: r.value[i] == results[i].value
    ensures r.Failure? ==> exists i | 0 <= i < |results| :: results[i] == Failure(r.error)
  {
    if |results| == 0 then Success([])
    else match results[0]
      case Failure(e) => Failure(e)
      case Success(b) =>
        match All(results[1..])
        case Failure(e) => Failure(e)
        case Success(bs) => Success([b] + bs)
  }

  /** The resource records of a list of walk results. */
  function ResourcesOf(bs: seq<Bundled>): (rs: seq<Resources>)
    ensures |rs| == |bs| && forall i | 0 <= i < |bs| :: rs[i] == bs[i].resources
  {
    seq(|bs|, i requires 0 <= i < |bs| => bs[i].resources)
  }

  /** The produced dictionaries of a list of settled walks. */
  function ProducedAll(results: seq<Result<Bundled, Error>>): (ms: seq<map<string, Resource>>)
    ensures |ms| == |results| && forall i | 0 <= i < |results| :: ms[i] == Produced(results[i])
  {
    seq(|results|, i requires 0 <= i < |results| => Produced(results[i]))
  }

  /** The fan-in of a container: wait for every child, keep their values in position
      order, and fold their resource records with spreads, left to right, a later
      child overriding an earlier one on the same key. */
  function Gather(results: seq<Result<Bundled, Error>>): (r: Result<(seq<Value>, Resources), Error>)
    ensures r.Success? <==> forall i | 0 <= i < |results| :: results[i].Success?
    ensures r.Failure? ==> exists i | 0 <= i < |results| :: results[i] == Failure(r.error)
    ensures r.Success? ==> |r.value.0| == |results|
    ensures r.Success? ==> forall i | 0 <= i < |results| :: r.value.0[i] == results[i].value.data
    ensures r.Success? ==> View(r.value.1) == UnionAll(ProducedAll(results))
    ensures r.Success? ==> Distinct(r.value.1)
  {
    match All(results)
    case Failure(e) => Failure(e)
    case Success(bs) =>
      var res := SpreadAll([], ResourcesOf(bs));
      ViewSpreadAll([], ResourcesOf(bs));
      assert Views(ResourcesOf(bs)) == ProducedAll(results);
      SpreadAllDistinct([], ResourcesOf(bs));
      Success((seq(|bs|, i requires 0 <= i < |bs| => bs[i].data), res))
  }

  /** The registry lookup `resolvers[resolverName]`, on the registry's own names
      only: the guard of line 50 as it is evidently meant (`PrototypeLookup` models
      it as written). */
  function Lookup(name: string, resolvers: Resolvers): Option<Resolver>
  {
    if name in resolvers then Some(resolvers[name]) else None
  }

  /** The resolver call for a reference node (lines 48-55 of `bundleInner`). */
  function Resolve(node: Value, basePath: string, resolvers: Resolvers): Result<Bundled, Error>
    requires IsReference(node)
  {
    var name := View(node.fields)[ResolveSymbol];
    if !name.Str? then Failure(NameNotString)
    else match Lookup(name.s, resolvers)
      case None => Failure(ResolverNotFound(name.s))
      case Some(resolver) => resolver(node, basePath)
  }

  /** The entries of an object with each value replaced, names and order kept. */
  function Rekey(fields: Record<Value>, datas: seq<Value>): (entries: Record<Value>)
    requires |datas| == |fields|
    ensures |entries| == |fields|
    ensures forall i | 0 <= i < |fields| :: entries[i] == (fields[i].0, datas[i])
  {
    seq(|fields|, i requires 0 <= i < |fields| => (fields[i].0, datas[i]))
  }

  /** The array rebuilt from its gathered children (lines 41-45). */
  function AssembleArray(g: Result<(seq<Value>, Resources), Error>): Result<Bundled, Error>
  {
    match g
    case Failure(e) => Failure(e)
    case Success((datas, res)) => Success(Bundled(Arr(datas), res))
  }

  /** The object rebuilt from its gathered properties with `Object.fromEntries` (lines 57-72). */
  function AssembleObject(fields: Record<Value>, g: Result<(seq<Value>, Resources), Error>): Result<Bundled, Error>
    requires g.Success? ==> |g.value.0| == |fields|
  {
    match g
    case Failure(e) => Failure(e)
    case Success((datas, res)) => Success(Bundled(Obj(FromEntries(Rekey(fields, datas))), res))
  }

  /** `bundleInner(data, basePath, resolvers)`. */
  function BundleInner(node: Value, basePath: string, resolvers: Resolvers): Result<Bundled, Error>
    decreases node
  {
    match node
    case Arr(items) =>
      AssembleArray(Gather(seq(|items|, i requires 0 <= i < |items| => BundleInner(items[i], basePath, resolvers))))
    case Obj(fields) =>
      if ResolveSymbol in View(fields) then Resolve(node, basePath, resolvers)
      else
        AssembleObject(fields, Gather(seq(|fields|, i requires 0 <= i < |fields| =>
          if IsObject(fields[i].1) then BundleInner(fields[i].1, basePath, resolvers)
          else Success(Bundled(fields[i].1, [])))))
    case _ => Success(Bundled(node, []))
  }

  /** The walks of the elements of an array. */
  function ItemResults(items: seq<Value>, basePath: string, resolvers: Resolvers): (rs: seq<Result<Bundled, Error>>)
    ensures |rs| == |items|
    ensures forall i | 0 <= i < |items| :: rs[i] == BundleInner(items[i], basePath, resolvers)
  {
    seq(|items|, i requires 0 <= i < |items| => BundleInner(items[i], basePath, resolvers))
  }

  /** The walks of the properties of an object: object values are walked, the others
      kept as they are (lines 60-66). */
  function FieldResults(fields: Record<Value>, basePath: string, resolvers: Resolvers): (rs: seq<Result<Bundled, Error>>)
    ensures |rs| == |fields|
    ensures forall i | 0 <= i < |fields| ::
      rs[i] == (if IsObject(fields[i].1) then BundleInner(fields[i].1, basePath, resolvers)
                else Success(Bundled(fields[i].1, [])))
  {
    seq(|fields|, i requires 0 <= i < |fields| =>
      if IsObject(fields[i].1) then BundleInner(fields[i].1, basePath, resolvers)
      else Success(Bundled(fields[i].1, [])))
  }

  lemma UnfoldArray(items: seq<Value>, basePath: string, resolvers: Resolvers)
    ensures BundleInner(Arr(items), basePath, resolvers) == AssembleArray(Gather(ItemResults(items, basePath, resolvers)))
  {
    assert ItemResults(items, basePath, resolvers)
        == seq(|items|, i requires 0 <= i < |items| => BundleInner(items[i], basePath, resolvers));
  }

  lemma UnfoldObject(fields: Record<Value>, basePath: string, resolvers: Resolvers)
    requires ResolveSymbol !in View(fields)
    ensures BundleInner(Obj(fields), basePath, resolvers) == AssembleObject(fields, Gather(FieldResults(fields, basePath, resolvers)))
  {
    assert FieldResults(fields, basePath, resolvers)
        == seq(|fields|, i requires 0 <= i < |fields| =>
             if IsObject(fields[i].1) then BundleInner(fields[i].1, basePath, resolvers)
             else Success(Bundled(fields[i].1, [])));
  }

  /** A primitive or `null` comes back unchanged, with no resources. */
  lemma BundleInnerPrimitive(node: Value, basePath: string, resolvers: Resolvers)
    requires !IsObject(node)
    ensures BundleInner(node, basePath, resolvers) == Success(Bundled(node, []))
  {
  }

  /** The walk of an array: it fails exactly when some element's walk fails, with that
      element's error; otherwise it is the array of the elements' walk results, in
      order, and its resources are the left-to-right union of theirs, a later element
      overriding an earlier one on the same key, each key once. */
  lemma BundleInnerArray(items: seq<Value>, basePath: string, resolvers: Resolvers)
    ensures var r := BundleInner(Arr(items), basePath, resolvers);
      && (r.Success? <==> forall i | 0 <= i < |items| :: BundleInner(items[i], basePath, resolvers).Success?)
      && (r.Failure? ==> exists i | 0 <= i < |items| :: BundleInner(items[i], basePath, resolvers) == Failure(r.error))
      && (r.Success? ==>
            && r.value.data.Arr?
            && |r.value.data.items| == |items|
            && (forall i | 0 <= i < |items| ::
                  r.value.data.items[i] == BundleInner(items[i], basePath, resolvers).value.data)
            && View(r.value.resources)
               == UnionAll(seq(|items|, i requires 0 <= i < |items| => Produced(BundleInner(items[i], basePath, resolvers))))
            && Distinct(r.value.resources))
  {
    UnfoldArray(items, basePath, resolvers);
    var results := ItemResults(items, basePath, resolvers);
    assert ProducedAll(results)
        == seq(|items|, i requires 0 <= i < |items| => Produced(BundleInner(items[i], basePath, resolvers)));
  }

  /** The walk of a reference node is the named resolver's result, taken as it is:
      its value is not walked again, so a `$` inside it survives. A `$` that is not a
      string, or that names no resolver, rejects the walk. */
  lemma BundleInnerReference(node: Value, basePath: string, resolvers: Resolvers)
    requires IsReference(node)
    ensures var name := View(node.fields)[ResolveSymbol];
      && (!name.Str? ==> BundleInner(node, basePath, resolvers) == Failure(NameNotString))
      && (name.Str? && name.s !in resolvers ==>
            BundleInner(node, basePath, resolvers) == Failure(ResolverNotFound(name.s)))
      && (name.Str? && name.s in resolvers ==>
            BundleInner(node, basePath, resolvers) == resolvers[name.s](node, basePath))
  {
  }

  /** The walk of any other object fails exactly when the walk of some object-valued
      property fails, with that property's error. */
  lemma BundleInnerObjectOutcome(fields: Record<Value>, basePath: string, resolvers: Resolvers)
    requires ResolveSymbol !in View(fields)
    ensures var r := BundleInner(Obj(fields), basePath, resolvers);
      && (r.Success? <==>
            forall i | 0 <= i < |fields| && IsObject(fields[i].1) ::
              BundleInner(fields[i].1, basePath, resolvers).Success?)
      && (r.Failure? ==>
            exists i | 0 <= i < |fields| ::
              IsObject(fields[i].1) && BundleInner(fields[i].1, basePath, resolvers) == Failure(r.error))
  {
    UnfoldObject(fields, basePath, resolvers);
  }

  /** A walked object (not a reference) has exactly the input's property names, each
      once; for an input with distinct names, in the same order, a property that is
      not an object copied, an object-valued one replaced by its walk result. */
  lemma BundleInnerObjectShape(fields: Record<Value>, basePath: string, resolvers: Resolvers)
    requires ResolveSymbol !in View(fields)
    ensures var r := BundleInner(Obj(fields), basePath, resolvers);
      && (r.Success? ==>
            && r.value.data.Obj?
            && Keys(r.value.data.fields) == Keys(fields)
            && Distinct(r.value.data.fields))
      && (r.Success? && Distinct(fields) ==>
            && |r.value.data.fields| == |fields|
            && forall i | 0 <= i < |fields| ::
                 && r.value.data.fields[i].0 == fields[i].0
                 && r.value.data.fields[i].1
                    == (if IsObject(fields[i].1) then BundleInner(fields[i].1, basePath, resolvers).value.data
                        else fields[i].1))
  {
    BundleInnerObjectKeys(fields, basePath, resolvers);
    if Distinct(fields) {
      BundleInnerObjectPositions(fields, basePath, resolvers);
    }
  }

  /** The names of a walked object: those of the input, each once. */
  lemma BundleInnerObjectKeys(fields: Record<Value>, basePath: string, resolvers: Resolvers)
    requires ResolveSymbol !in View(fields)
    ensures var r := BundleInner(Obj(fields), basePath, resolvers);
      r.Success? ==>
        && r.value.data.Obj?
        && Keys(r.value.data.fields) == Keys(fields)
        && Distinct(r.value.data.fields)
  {
    UnfoldObject(fields, basePath, resolvers);
    var g := Gather(FieldResults(fields, basePath, resolvers));
    if g.Success? {
      assert |g.value.0| == |fields|;
      var entries := Rekey(fields, g.value.0);
      assert forall i | 0 <= i < |fields| :: entries[i].0 == fields[i].0;
      FromEntriesFacts(entries);
      assert Keys(entries) == Keys(fields) by {
        forall k | k in Keys(fields) ensures k in Keys(entries) {
          var i :| 0 <= i < |fields| && fields[i].0 == k;
          assert entries[i].0 == k;
        }
      }
    }
  }

  /** The entries of a walked object with distinct input names, position by
      position. */
  lemma BundleInnerObjectPositions(fields: Record<Value>, basePath: string, resolvers: Resolvers)
    requires ResolveSymbol !in View(fields) && Distinct(fields)
    ensures var r := BundleInner(Obj(fields), basePath, resolvers);
      r.Success? ==>
        && r.value.data.Obj?
        && |r.value.data.fields| == |fields|
        && forall i | 0 <= i < |fields| ::
             && r.value.data.fields[i].0 == fields[i].0
             && r.value.data.fields[i].1
                == (if IsObject(fields[i].1) then BundleInner(fields[i].1, basePath, resolvers).value.data
                    else fields[i].1)
  {
    UnfoldObject(fields, basePath, resolvers);
    var results := FieldResults(fields, basePath, resolvers);
    var g := Gather(results);
    if g.Success? {
      assert |g.value.0| == |fields|;
      var entries := Rekey(fields, g.value.0);
      assert forall i | 0 <= i < |fields| :: entries[i] == (fields[i].0, results[i].value.data);
      assert Distinct(entries);
      FromEntriesOfDistinct(entries);
    }
  }

  /** What the properties of an object produce: nothing for a value that is not an
      object, the walk's resources for one that is. */
  lemma FieldProduced(fields: Record<Value>, basePath: string, resolvers: Resolvers, i: nat)
    requires i < |fields|
    ensures ProducedAll(FieldResults(fields, basePath, resolvers))[i]
      == (if IsObject(fields[i].1) then Produced(BundleInner(fields[i].1, basePath, resolvers)) else map[])
  {
  }

  /** The resources of a walked object (not a reference) hold exactly the keys its
      object-valued properties produced, each key once. */
  lemma BundleInnerObjectResourceKeys(fields: Record<Value>, basePath: string, resolvers: Resolvers)
    requires ResolveSymbol !in View(fields)
    ensures var r := BundleInner(Obj(fields), basePath, resolvers);
      r.Success? ==>
        && Distinct(r.value.resources)
        && forall k ::
             k in View(r.value.resources) <==>
             exists i | 0 <= i < |fields| ::
               IsObject(fields[i].1) && k in Produced(BundleInner(fields[i].1, basePath, resolvers))
  {
    UnfoldObject(fields, basePath, resolvers);
    var results := FieldResults(fields, basePath, resolvers);
    var g := Gather(results);
    if g.Success? {
      var ms := ProducedAll(results);
      forall k ensures k in UnionAll(ms) <==>
          exists i | 0 <= i < |fields| ::
            IsObject(fields[i].1) && k in Produced(BundleInner(fields[i].1, basePath, resolvers))
      {
        UnionAllKeys(ms, k);
        if k in UnionAll(ms) {
          var i :| 0 <= i < |ms| && k in ms[i];
          FieldProduced(fields, basePath, resolvers, i);
        }
        if exists i | 0 <= i < |fields| ::
            IsObject(fields[i].1) && k in Produced(BundleInner(fields[i].1, basePath, resolvers)) {
          var i :| 0 <= i < |fields| &&
            IsObject(fields[i].1) && k in Produced(BundleInner(fields[i].1, basePath, resolvers));
          FieldProduced(fields, basePath, resolvers, i);
        }
      }
    }
  }

  /** Every resource of a walked object (not a reference) is the one some object-valued
      property produced for that key. */
  lemma BundleInnerObjectResourceValues(fields: Record<Value>, basePath: string, resolvers: Resolvers)
    requires ResolveSymbol !in View(fields)
    ensures var r := BundleInner(Obj(fields), basePath, resolvers);
      r.Success? ==>
        forall k | k in View(r.value.resources) ::
          exists i | 0 <= i < |fields| ::
            && IsObject(fields[i].1)
            && k in Produced(BundleInner(fields[i].1, basePath, resolvers))
            && View(r.value.resources)[k] == Produced(BundleInner(fields[i].1, basePath, resolvers))[k]
  {
    UnfoldObject(fields, basePath, resolvers);
    var results := FieldResults(fields, basePath, resolvers);
    var g := Gather(results);
    if g.Success? {
      var ms := ProducedAll(results);
      forall k | k in UnionAll(ms)
        ensures exists i | 0 <= i < |fields| ::
          && IsObject(fields[i].1)
          && k in Produced(BundleInner(fields[i].1, basePath, resolvers))
          && UnionAll(ms)[k] == Produced(BundleInner(fields[i].1, basePath, resolvers))[k]
      {
        UnionAllFrom(ms, k);
        var i :| 0 <= i < |ms| && k in ms[i] && UnionAll(ms)[k] == ms[i][k];
        FieldProduced(fields, basePath, resolvers, i);
      }
    }
  }

  /** Concatenation of a list of lists. */
  function Flatten<T>(ss: seq<seq<T>>): seq<T>
  {
    if |ss| == 0 then [] else ss[0] + Flatten(ss[1..])
  }

  lemma {:induction false} FlattenMember<T>(ss: seq<seq<T>>, x: T)
    ensures x in Flatten(ss) <==> exists i | 0 <= i < |ss| :: x in ss[i]
  {
    if |ss| > 0 {
      FlattenMember(ss[1..], x);
      if exists i | 0 <= i < |ss| :: x in ss[i] {
        var i :| 0 <= i < |ss| && x in ss[i];
        if i > 0 { assert ss[1..][i - 1] == ss[i]; }
      }
      if exists i | 0 <= i < |ss[1..]| :: x in ss[1..][i] {
        var i :| 0 <= i < |ss[1..]| && x in ss[1..][i];
        assert ss[i + 1] == ss[1..][i];
      }
    }
  }

  /** The reference nodes the walk of `v` hands to resolvers, in document order: every
      reference node reachable from `v` without passing through another one. */
  function ReferencesIn(v: Value): (refs: seq<Value>)
    ensures forall x | x in refs :: IsReference(x)
    decreases v
  {
    match v
    case Arr(items) =>
      var ss := seq(|items|, i requires 0 <= i < |items| => ReferencesIn(items[i]));
      FlattenReferences(ss);
      Flatten(ss)
    case Obj(fields) =>
      if ResolveSymbol in View(fields) then [v]
      else
        var ss := seq(|fields|, i requires 0 <= i < |fields| => ReferencesIn(fields[i].1));
        FlattenReferences(ss);
        Flatten(ss)
    case _ => []
  }

  lemma FlattenReferences(ss: seq<seq<Value>>)
    requires forall i, x | 0 <= i < |ss| && x in ss[i] :: IsReference(x)
    ensures forall x | x in Flatten(ss) :: IsReference(x)
  {
    forall x | x in Flatten(ss) ensures IsReference(x) {
      FlattenMember(ss, x);
    }
  }

  /** `ok` and `produced` are what walking over the reference nodes `refs` yields:
      success exactly when every reference resolves, every key a reference produced
      is there, and every entry there is one some reference produced. */
  ghost predicate Accounts(ok: bool, produced: map<string, Resource>, refs: seq<Value>,
                           basePath: string, resolvers: Resolvers)
  {
    && AllResolve(ok, refs, basePath, resolvers)
    && (ok ==> KeysKept(produced, refs, basePath, resolvers))
    && EntriesFrom(produced, refs, basePath, resolvers)
  }

  ghost predicate AllResolve(ok: bool, refs: seq<Value>, basePath: string, resolvers: Resolvers) {
    ok <==> forall x | x in refs :: BundleInner(x, basePath, resolvers).Success?
  }

  ghost predicate KeysKept(produced: map<string, Resource>, refs: seq<Value>, basePath: string, resolvers: Resolvers) {
    forall x, k | x in refs && k in Produced(BundleInner(x, basePath, resolvers)) :: k in produced
  }

  ghost predicate EntriesFrom(produced: map<string, Resource>, refs: seq<Value>, basePath: string, resolvers: Resolvers) {
    forall k | k in produced ::
      exists x | x in refs ::
        k in Produced(BundleInner(x, basePath, resolvers))
        && produced[k] == Produced(BundleInner(x, basePath, resolvers))[k]
  }

  /** Accounting composes over the children of a container. */
  lemma AccountsUnion(results: seq<Result<Bundled, Error>>, refss: seq<seq<Value>>,
                      basePath: string, resolvers: Resolvers)
    requires |results| == |refss|
    requires forall i | 0 <= i < |results| ::
      Accounts(results[i].Success?, Produced(results[i]), refss[i], basePath, resolvers)
    ensures var ok := forall i | 0 <= i < |results| :: results[i].Success?;
      Accounts(ok, if ok then UnionAll(ProducedAll(results)) else map[], Flatten(refss), basePath, resolvers)
  {
    var ok := forall i | 0 <= i < |results| :: results[i].Success?;
    AccountsUnionOk(results, refss, basePath, resolvers);
    if ok {
      AccountsUnionKeys(results, refss, basePath, resolvers);
      AccountsUnionFrom(results, refss, basePath, resolvers);
    }
  }

  /** The children all succeed exactly when all their references do. */
  lemma AccountsUnionOk(results: seq<Result<Bundled, Error>>, refss: seq<seq<Value>>,
                        basePath: string, resolvers: Resolvers)
    requires |results| == |refss|
    requires forall i | 0 <= i < |results| :: AllResolve(results[i].Success?, refss[i], basePath, resolvers)
    ensures AllResolve(forall i | 0 <= i < |results| :: results[i].Success?, Flatten(refss), basePath, resolvers)
  {
    if forall i | 0 <= i < |results| :: results[i].Success? {
      forall x | x in Flatten(refss) ensures BundleInner(x, basePath, resolvers).Success? {
        FlattenMember(refss, x);
        var i :| 0 <= i < |refss| && x in refss[i];
        assert AllResolve(results[i].Success?, refss[i], basePath, resolvers);
      }
    }
    if forall x | x in Flatten(refss) :: BundleInner(x, basePath, resolvers).Success? {
      forall i | 0 <= i < |results| ensures results[i].Success? {
        forall x | x in refss[i] ensures BundleInner(x, basePath, resolvers).Success? {
          FlattenMember(refss, x);
        }
        assert AllResolve(results[i].Success?, refss[i], basePath, resolvers);
      }
    }
  }

  /** Every key a reference of some child produced survives the union. */
  lemma AccountsUnionKeys(results: seq<Result<Bundled, Error>>, refss: seq<seq<Value>>,
                          basePath: string, resolvers: Resolvers)
    requires |results| == |refss|
    requires forall i | 0 <= i < |results| :: results[i].Success?
    requires forall i | 0 <= i < |results| :: KeysKept(Produced(results[i]), refss[i], basePath, resolvers)
    ensures KeysKept(UnionAll(ProducedAll(results)), Flatten(refss), basePath, resolvers)
  {
    forall x, k | x in Flatten(refss) && k in Produced(BundleInner(x, basePath, resolvers))
      ensures k in UnionAll(ProducedAll(results))
    {
      FlattenMember(refss, x);
      var i :| 0 <= i < |refss| && x in refss[i];
      assert KeysKept(Produced(results[i]), refss[i], basePath, resolvers);
      UnionAllKeys(ProducedAll(results), k);
      assert k in ProducedAll(results)[i];
    }
  }

  /** Every entry of the union is one some reference of some child produced. */
  lemma AccountsUnionFrom(results: seq<Result<Bundled, Error>>, refss: seq<seq<Value>>,
                          basePath: string, resolvers: Resolvers)
    requires |results| == |refss|
    requires forall i | 0 <= i < |results| :: EntriesFrom(Produced(results[i]), refss[i], basePath, resolvers)
    ensures EntriesFrom(UnionAll(ProducedAll(results)), Flatten(refss), basePath, resolvers)
  {
    var ms := ProducedAll(results);
    forall k | k in UnionAll(ms)
      ensures exists x | x in Flatten(refss) ::
        k in Produced(BundleInner(x, basePath, resolvers))
        && UnionAll(ms)[k] == Produced(BundleInner(x, basePath, resolvers))[k]
    {
      UnionAllFrom(ms, k);
      var i :| 0 <= i < |results| && k in ms[i] && UnionAll(ms)[k] == ms[i][k];
      var x := AccountsWitness(Produced(results[i]), refss[i], basePath, resolvers, k);
      FlattenMember(refss, x);
    }
  }

  /** The reference an accounted entry comes from. */
  lemma AccountsWitness(produced: map<string, Resource>, refs: seq<Value>, basePath: string, resolvers: Resolvers, k: string)
      returns (x: Value)
    requires EntriesFrom(produced, refs, basePath, resolvers)
    requires k in produced
    ensures x in refs && k in Produced(BundleInner(x, basePath, resolvers))
    ensures produced[k] == Produced(BundleInner(x, basePath, resolvers))[k]
  {
    x :| x in refs && k in Produced(BundleInner(x, basePath, resolvers))
      && produced[k] == Produced(BundleInner(x, basePath, resolvers))[k];
  }

  lemma {:induction false} WalkAccounts(v: Value, basePath: string, resolvers: Resolvers)
    ensures var r := BundleInner(v, basePath, resolvers);
      Accounts(r.Success?, Produced(r), ReferencesIn(v), basePath, resolvers)
    decreases v
  {
    match v
    case Arr(items) =>
      var refss := seq(|items|, i requires 0 <= i < |items| => ReferencesIn(items[i]));
      forall i | 0 <= i < |items|
        ensures Accounts(BundleInner(items[i], basePath, resolvers).Success?,
                         Produced(BundleInner(items[i], basePath, resolvers)), refss[i], basePath, resolvers)
      {
        WalkAccounts(items[i], basePath, resolvers);
      }
      ArrayAccounts(items, refss, basePath, resolvers);
    case Obj(fields) =>
      if ResolveSymbol !in View(fields) {
        var refss := seq(|fields|, i requires 0 <= i < |fields| => ReferencesIn(fields[i].1));
        forall i | 0 <= i < |fields|
          ensures Accounts(BundleInner(fields[i].1, basePath, resolvers).Success?,
                           Produced(BundleInner(fields[i].1, basePath, resolvers)), refss[i], basePath, resolvers)
        {
          WalkAccounts(fields[i].1, basePath, resolvers);
        }
        ObjectAccounts(fields, refss, basePath, resolvers);
      }
    case _ =>
  }

  lemma ArrayAccounts(items: seq<Value>, refss: seq<seq<Value>>, basePath: string, resolvers: Resolvers)
    requires |refss| == |items|
    requires forall i | 0 <= i < |items| ::
      Accounts(BundleInner(items[i], basePath, resolvers).Success?,
               Produced(BundleInner(items[i], basePath, resolvers)), refss[i], basePath, resolvers)
    ensures var r := BundleInner(Arr(items), basePath, resolvers);
      Accounts(r.Success?, Produced(r), Flatten(refss), basePath, resolvers)
  {
    UnfoldArray(items, basePath, resolvers);
    AccountsUnion(ItemResults(items, basePath, resolvers), refss, basePath, resolvers);
  }

  lemma ObjectAccounts(fields: Record<Value>, refss: seq<seq<Value>>, basePath: string, resolvers: Resolvers)
    requires ResolveSymbol !in View(fields)
    requires |refss| == |fields|
    requires forall i | 0 <= i < |fields| :: refss[i] == ReferencesIn(fields[i].1)
    requires forall i | 0 <= i < |fields| ::
      Accounts(BundleInner(fields[i].1, basePath, resolvers).Success?,
               Produced(BundleInner(fields[i].1, basePath, resolvers)), refss[i], basePath, resolvers)
    ensures var r := BundleInner(Obj(fields), basePath, resolvers);
      Accounts(r.Success?, Produced(r), Flatten(refss), basePath, resolvers)
  {
    UnfoldObject(fields, basePath, resolvers);
    var results := FieldResults(fields, basePath, resolvers);
    forall i | 0 <= i < |fields|
      ensures Accounts(results[i].Success?, Produced(results[i]), refss[i], basePath, resolvers)
    {
      if !IsObject(fields[i].1) {
        assert results[i] == Success(Bundled(fields[i].1, []));
        assert refss[i] == [];
      }
    }
    AccountsUnion(results, refss, basePath, resolvers);
  }

  /** Resolution reaches every depth, and the resources are exactly those of the
      references: the walk succeeds exactly when every reachable reference node
      resolves; then every key any of them produced is in the result, and every
      entry of the result is the entry some reference produced for that key. */
  lemma ResourcesComeFromReferences(v: Value, basePath: string, resolvers: Resolvers)
    ensures var r := BundleInner(v, basePath, resolvers);
      && (r.Success? <==> forall x | x in ReferencesIn(v) :: BundleInner(x, basePath, resolvers).Success?)
      && (r.Success? ==>
            forall x, k | x in ReferencesIn(v) && k in Produced(BundleInner(x, basePath, resolvers)) ::
              k in View(r.value.resources))
      && (r.Success? ==>
            forall k | k in View(r.value.resources) ::
              exists x | x in ReferencesIn(v) ::
                k in Produced(BundleInner(x, basePath, resolvers))
                && View(r.value.resources)[k] == Produced(BundleInner(x, basePath, resolvers))[k])
  {
    WalkAccounts(v, basePath, resolvers);
  }

  /** A rejected walk reports the rejection of one of the reference nodes it reached:
      the walk adds no error of its own. */
  lemma {:induction false} ErrorComesFromReference(v: Value, basePath: string, resolvers: Resolvers)
    ensures var r := BundleInner(v, basePath, resolvers);
      r.Failure? ==> exists x | x in ReferencesIn(v) :: BundleInner(x, basePath, resolvers) == Failure(r.error)
    decreases v
  {
    match v
    case Arr(items) =>
      forall i | 0 <= i < |items|
        ensures ErrorFrom(BundleInner(items[i], basePath, resolvers), ReferencesIn(items[i]), basePath, resolvers)
      {
        ErrorComesFromReference(items[i], basePath, resolvers);
      }
      ArrayErrorFromReference(items, basePath, resolvers);
    case Obj(fields) =>
      if ResolveSymbol !in View(fields) {
        forall i | 0 <= i < |fields|
          ensures ErrorFrom(BundleInner(fields[i].1, basePath, resolvers), ReferencesIn(fields[i].1), basePath, resolvers)
        {
          ErrorComesFromReference(fields[i].1, basePath, resolvers);
        }
        ObjectErrorFromReference(fields, basePath, resolvers);
      }
    case _ =>
  }

  /** `r` is a success, or the rejection of one of `refs`. */
  ghost predicate ErrorFrom(r: Result<Bundled, Error>, refs: seq<Value>, basePath: string, resolvers: Resolvers) {
    r.Failure? ==> exists x | x in refs :: BundleInner(x, basePath, resolvers) == Failure(r.error)
  }

  /** The references of an array are those of its elements, in order. */
  lemma ReferencesOfArray(items: seq<Value>)
    ensures ReferencesIn(Arr(items)) == Flatten(seq(|items|, i requires 0 <= i < |items| => ReferencesIn(items[i])))
  {
  }

  /** The references of an object that is not a reference are those of its property
      values, in order. */
  lemma ReferencesOfObject(fields: Record<Value>)
    requires ResolveSymbol !in View(fields)
    ensures ReferencesIn(Obj(fields)) == Flatten(seq(|fields|, i requires 0 <= i < |fields| => ReferencesIn(fields[i].1)))
  {
  }

  lemma ArrayErrorFromReference(items: seq<Value>, basePath: string, resolvers: Resolvers)
    requires forall i | 0 <= i < |items| ::
      ErrorFrom(BundleInner(items[i], basePath, resolvers), ReferencesIn(items[i]), basePath, resolvers)
    ensures ErrorFrom(BundleInner(Arr(items), basePath, resolvers), ReferencesIn(Arr(items)), basePath, resolvers)
  {
    var r := BundleInner(Arr(items), basePath, resolvers);
    if r.Failure? {
      BundleInnerArray(items, basePath, resolvers);
      var i :| 0 <= i < |items| && BundleInner(items[i], basePath, resolvers) == Failure(r.error);
      var x :| x in ReferencesIn(items[i]) && BundleInner(x, basePath, resolvers) == Failure(r.error);
      ItemReference(items, i, x);
    }
  }

  /** A reference node of an element is a reference node of the array. */
  lemma ItemReference(items: seq<Value>, i: nat, x: Value)
    requires i < |items| && x in ReferencesIn(items[i])
    ensures x in ReferencesIn(Arr(items))
  {
    var ss := seq(|items|, j requires 0 <= j < |items| => ReferencesIn(items[j]));
    ReferencesOfArray(items);
    assert x in ss[i];
    FlattenMember(ss, x);
  }

  lemma ObjectErrorFromReference(fields: Record<Value>, basePath: string, resolvers: Resolvers)
    requires ResolveSymbol !in View(fields)
    requires forall i | 0 <= i < |fields| ::
      ErrorFrom(BundleInner(fields[i].1, basePath, resolvers), ReferencesIn(fields[i].1), basePath, resolvers)
    ensures ErrorFrom(BundleInner(Obj(fields), basePath, resolvers), ReferencesIn(Obj(fields)), basePath, resolvers)
  {
    var r := BundleInner(Obj(fields), basePath, resolvers);
    if r.Failure? {
      BundleInnerObjectOutcome(fields, basePath, resolvers);
      var i :| 0 <= i < |fields| && IsObject(fields[i].1)
        && BundleInner(fields[i].1, basePath, resolvers) == Failure(r.error);
      var x :| x in ReferencesIn(fields[i].1) && BundleInner(x, basePath, resolvers) == Failure(r.error);
      FieldReference(fields, i, x);
    }
  }

  /** A reference node of a property value is a reference node of the object. */
  lemma FieldReference(fields: Record<Value>, i: nat, x: Value)
    requires ResolveSymbol !in View(fields)
    requires i < |fields| && x in ReferencesIn(fields[i].1)
    ensures x in ReferencesIn(Obj(fields))
  {
    var ss := seq(|fields|, j requires 0 <= j < |fields| => ReferencesIn(fields[j].1));
    ReferencesOfObject(fields);
    assert x in ss[i];
    FlattenMember(ss, x);
  }

  /** One failing reference anywhere rejects the whole walk: no partial result. */
  lemma FailureAborts(v: Value, x: Value, basePath: string, resolvers: Resolvers)
    requires x in ReferencesIn(v)
    requires BundleInner(x, basePath, resolvers).Failure?
    ensures BundleInner(v, basePath, resolvers).Failure?
  {
    ResourcesComeFromReferences(v, basePath, resolvers);
  }

  /** Any two of `refs` that produce the same key produce the same resource for it. */
  ghost predicate AgreeOnSharedKeys(refs: seq<Value>, basePath: string, resolvers: Resolvers) {
    forall x, y, k | x in refs && y in refs
      && k in Produced(BundleInner(x, basePath, resolvers)) && k in Produced(BundleInner(y, basePath, resolvers)) ::
      Produced(BundleInner(x, basePath, resolvers))[k] == Produced(BundleInner(y, basePath, resolvers))[k]
  }

  /** Every key one of `refs` produces is in `produced`, holding that resource. */
  ghost predicate HoldsEach(produced: map<string, Resource>, refs: seq<Value>, basePath: string, resolvers: Resolvers) {
    forall x, k | x in refs && k in Produced(BundleInner(x, basePath, resolvers)) ::
      k in produced && produced[k] == Produced(BundleInner(x, basePath, resolvers))[k]
  }

  /** Deduplication is order-independent when the references agree: if any two
      reachable references that produce the same key produce the same resource for
      it (as content addressing ensures), the result holds that key once with that
      resource, whatever order the siblings were merged in. */
  lemma Deduplicates(v: Value, basePath: string, resolvers: Resolvers)
    requires BundleInner(v, basePath, resolvers).Success?
    requires AgreeOnSharedKeys(ReferencesIn(v), basePath, resolvers)
    ensures HoldsEach(Produced(BundleInner(v, basePath, resolvers)), ReferencesIn(v), basePath, resolvers)
  {
    ResourcesComeFromReferences(v, basePath, resolvers);
    var produced := Produced(BundleInner(v, basePath, resolvers));
    forall x, k | x in ReferencesIn(v) && k in Produced(BundleInner(x, basePath, resolvers))
      ensures k in produced && produced[k] == Produced(BundleInner(x, basePath, resolvers))[k]
    {
      var y :| y in ReferencesIn(v) && k in Produced(BundleInner(y, basePath, resolvers))
        && produced[k] == Produced(BundleInner(y, basePath, resolvers))[k];
    }
  }

  /** No object anywhere in `v` carries a `$` property. */
  predicate NoReferences(v: Value)
    decreases v
  {
    match v
    case Arr(items) => forall i | 0 <= i < |items| :: NoReferences(items[i])
    case Obj(fields) =>
      ResolveSymbol !in View(fields) && forall i | 0 <= i < |fields| :: NoReferences(fields[i].1)
    case _ => true
  }

  /** A value with no reference node walks to itself with no resources. */
  lemma {:induction false} BundleInnerIdentity(v: Value, basePath: string, resolvers: Resolvers)
    requires WellFormed(v) && NoReferences(v)
    ensures BundleInner(v, basePath, resolvers) == Success(Bundled(v, []))
    decreases v
  {
    match v
    case Arr(items) =>
      var results := ItemResults(items, basePath, resolvers);
      forall i | 0 <= i < |items| ensures results[i] == Success(Bundled(items[i], [])) {
        BundleInnerIdentity(items[i], basePath, resolvers);
      }
      IdentityGather(results, items);
      UnfoldArray(items, basePath, resolvers);
    case Obj(fields) =>
      var results := FieldResults(fields, basePath, resolvers);
      var values := seq(|fields|, i requires 0 <= i < |fields| => fields[i].1);
      forall i | 0 <= i < |fields| ensures results[i] == Success(Bundled(values[i], [])) {
        if IsObject(fields[i].1) { BundleInnerIdentity(fields[i].1, basePath, resolvers); }
      }
      IdentityGather(results, values);
      UnfoldObject(fields, basePath, resolvers);
      assert Rekey(fields, values) == fields;
      FromEntriesOfDistinct(fields);
    case _ =>
  }

  lemma IdentityGather(results: seq<Result<Bundled, Error>>, values: seq<Value>)
    requires |results| == |values|
    requires forall i | 0 <= i < |results| :: results[i] == Success(Bundled(values[i], []))
    ensures Gather(results) == Success((values, []))
  {
    var bs := All(results).value;
    assert forall i | 0 <= i < |bs| :: ResourcesOf(bs)[i] == [];
    SpreadAllEmpty([], ResourcesOf(bs));
    assert seq(|bs|, i requires 0 <= i < |bs| => bs[i].data) == values;
  }
}

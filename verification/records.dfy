/** JavaScript plain objects (`Record<string, V>`) as insertion-ordered entry lists.

    A record is the list `Object.entries` would return. Its meaning as a dictionary
    is `View`, in which a later entry for a key overrides an earlier one (as
    `Object.fromEntries` and `JSON.parse` do). The object operations the bundler
    uses are defined on entry lists: `Put` is the assignment `o[k] = v`, `Spread` is
    `{ ...a, ...b }`, `FromEntries` is `Object.fromEntries`, and `Without` is the
    `filter` over `Object.entries` that drops one key. */
module Records {

  type Record<V> = seq<(string, V)>

  /** The set of property names of a record. */
  function Keys<V>(r: Record<V>): (ks: set<string>)
    ensures forall i | 0 <= i < |r| :: r[i].0 in ks
    ensures forall k | k in ks :: exists i | 0 <= i < |r| :: r[i].0 == k
  {
    set i | 0 <= i < |r| :: r[i].0
  }

  /** No property name occurs twice: true of every record a JavaScript object yields. */
  predicate Distinct<V>(r: Record<V>) {
    forall i, j | 0 <= i < j < |r| :: r[i].0 != r[j].0
  }

  /** The dictionary a record denotes; a later entry overrides an earlier one. */
  function View<V>(r: Record<V>): map<string, V>
  {
    if |r| == 0 then map[] else map[r[0].0 := r[0].1] + View(r[1..])
  }

  lemma KeysCons<V>(r: Record<V>)
    requires |r| > 0
    ensures Keys(r) == {r[0].0} + Keys(r[1..])
  {
    forall k | k in Keys(r) ensures k in {r[0].0} + Keys(r[1..]) {
      var i :| 0 <= i < |r| && r[i].0 == k;
      if i > 0 { assert r[1..][i - 1] == r[i]; }
    }
    forall k | k in Keys(r[1..]) ensures k in Keys(r) {
      var i :| 0 <= i < |r[1..]| && r[1..][i].0 == k;
      assert r[i + 1] == r[1..][i];
    }
  }

  lemma DistinctTail<V>(r: Record<V>)
    requires |r| > 0 && Distinct(r)
    ensures Distinct(r[1..])
    ensures r[0].0 !in Keys(r[1..])
  {
    forall a, b | 0 <= a < b < |r[1..]| ensures r[1..][a].0 != r[1..][b].0 {
      assert r[1..][a] == r[a + 1] && r[1..][b] == r[b + 1];
    }
    forall j | 0 <= j < |r[1..]| ensures r[1..][j].0 != r[0].0 {
      assert r[1..][j] == r[j + 1];
    }
  }

  lemma {:induction false} ViewKeys<V>(r: Record<V>)
    ensures View(r).Keys == Keys(r)
  {
    if |r| > 0 {
      ViewKeys(r[1..]);
      KeysCons(r);
    }
  }

  /** In a record with distinct names, the view of a name is the value of its only entry. */
  lemma {:induction false} ViewOfDistinct<V>(r: Record<V>, i: nat)
    requires Distinct(r)
    requires i < |r|
    ensures r[i].0 in View(r) && View(r)[r[i].0] == r[i].1
  {
    ViewKeys(r[1..]);
    DistinctTail(r);
    if i > 0 {
      ViewOfDistinct(r[1..], i - 1);
      assert r[1..][i - 1] == r[i];
    }
  }

  /** Overwrites the value of every entry named `k`, keeping positions. */
  function Replace<V>(r: Record<V>, k: string, v: V): Record<V>
  {
    if |r| == 0 then [] else [if r[0].0 == k then (k, v) else r[0]] + Replace(r[1..], k, v)
  }

  /** The assignment `o[k] = v`: an existing property keeps its position and takes
      the new value, a new property is appended. */
  function Put<V>(r: Record<V>, k: string, v: V): Record<V>
  {
    if k in Keys(r) then Replace(r, k, v) else r + [(k, v)]
  }

  lemma {:induction false} ReplaceAbsent<V>(r: Record<V>, k: string, v: V)
    requires k !in Keys(r)
    ensures Replace(r, k, v) == r
  {
    if |r| > 0 {
      KeysCons(r);
      ReplaceAbsent(r[1..], k, v);
      assert [r[0]] + r[1..] == r;
    }
  }

  lemma ViewCons<V>(x: (string, V), r: Record<V>)
    ensures View([x] + r) == map[x.0 := x.1] + View(r)
  {
    assert ([x] + r)[1..] == r;
  }

  lemma MapPutHeadPresent<V>(m: map<string, V>, k: string, a: V, v: V)
    ensures map[k := v] + m[k := v] == (map[k := a] + m)[k := v]
  {
  }

  lemma MapPutHeadAbsent<V>(m: map<string, V>, k: string, a: V, v: V)
    requires k !in m
    ensures map[k := v] + m == (map[k := a] + m)[k := v]
  {
  }

  lemma MapPutBehindHead<V>(m: map<string, V>, j: string, k: string, a: V, v: V)
    requires j != k
    ensures map[j := a] + m[k := v] == (map[j := a] + m)[k := v]
  {
  }

  lemma {:induction false} ReplaceKeys<V>(r: Record<V>, k: string, v: V)
    ensures |Replace(r, k, v)| == |r|
    ensures forall i | 0 <= i < |r| :: Replace(r, k, v)[i].0 == r[i].0
  {
    if |r| > 0 {
      ReplaceKeys(r[1..], k, v);
    }
  }

  lemma {:induction false} ViewReplace<V>(r: Record<V>, k: string, v: V)
    requires k in Keys(r)
    ensures View(Replace(r, k, v)) == View(r)[k := v]
  {
    KeysCons(r);
    var rest := r[1..];
    var rest' := Replace(rest, k, v);
    ViewCons(r[0], rest);
    assert [r[0]] + rest == r;
    if r[0].0 != k {
      ViewReplace(rest, k, v);
      assert Replace(r, k, v) == [r[0]] + rest';
      ViewCons(r[0], rest');
      MapPutBehindHead(View(rest), r[0].0, k, r[0].1, v);
    } else if k in Keys(rest) {
      ViewReplace(rest, k, v);
      assert Replace(r, k, v) == [(k, v)] + rest';
      ViewCons((k, v), rest');
      MapPutHeadPresent(View(rest), k, r[0].1, v);
    } else {
      ReplaceAbsent(rest, k, v);
      ViewKeys(rest);
      assert Replace(r, k, v) == [(k, v)] + rest;
      ViewCons((k, v), rest);
      MapPutHeadAbsent(View(rest), k, r[0].1, v);
    }
  }

  lemma {:induction false} ViewAppend<V>(r: Record<V>, k: string, v: V)
    ensures View(r + [(k, v)]) == View(r)[k := v]
  {
    if |r| > 0 {
      assert (r + [(k, v)])[1..] == r[1..] + [(k, v)];
      ViewAppend(r[1..], k, v);
    }
  }

  lemma PutKeys<V>(r: Record<V>, k: string, v: V)
    ensures Keys(Put(r, k, v)) == Keys(r) + {k}
  {
    ViewPut(r, k, v);
    ViewKeys(r);
    ViewKeys(Put(r, k, v));
  }

  /** Assignment updates the dictionary at exactly one name. */
  lemma ViewPut<V>(r: Record<V>, k: string, v: V)
    ensures View(Put(r, k, v)) == View(r)[k := v]
  {
    if k in Keys(r) { ViewReplace(r, k, v); } else { ViewAppend(r, k, v); }
  }

  lemma PutDistinct<V>(r: Record<V>, k: string, v: V)
    requires Distinct(r)
    ensures Distinct(Put(r, k, v))
  {
    ReplaceKeys(r, k, v);
  }

  /** The spread `{ ...a, ...b }`: copy `a`, then assign every entry of `b` in order. */
  function Spread<V>(a: Record<V>, b: Record<V>): Record<V>
    decreases |b|
  {
    if |b| == 0 then a else Spread(Put(a, b[0].0, b[0].1), b[1..])
  }

  /** As a dictionary, a spread is the right-biased union of its operands. */
  lemma {:induction false} ViewSpread<V>(a: Record<V>, b: Record<V>)
    ensures View(Spread(a, b)) == View(a) + View(b)
    decreases |b|
  {
    if |b| > 0 {
      var a' := Put(a, b[0].0, b[0].1);
      ViewSpread(a', b[1..]);
      ViewPut(a, b[0].0, b[0].1);
      MapPutUnion(View(a), b[0].0, b[0].1);
      MapUnionAssoc(View(a), map[b[0].0 := b[0].1], View(b[1..]));
      assert View(b) == map[b[0].0 := b[0].1] + View(b[1..]);
    }
  }

  lemma MapPutUnion<V>(m: map<string, V>, k: string, v: V)
    ensures m[k := v] == m + map[k := v]
  {
  }

  lemma KeysSpread<V>(a: Record<V>, b: Record<V>)
    ensures Keys(Spread(a, b)) == Keys(a) + Keys(b)
  {
    ViewSpread(a, b);
    ViewKeys(a);
    ViewKeys(b);
    ViewKeys(Spread(a, b));
  }

  lemma {:induction false} SpreadDistinct<V>(a: Record<V>, b: Record<V>)
    requires Distinct(a)
    ensures Distinct(Spread(a, b))
    decreases |b|
  {
    if |b| > 0 {
      PutDistinct(a, b[0].0, b[0].1);
      SpreadDistinct(Put(a, b[0].0, b[0].1), b[1..]);
    }
  }

  /** Spreading entries whose names are new appends them unchanged. */
  lemma {:induction false} SpreadFresh<V>(a: Record<V>, b: Record<V>)
    requires Distinct(a + b)
    ensures Spread(a, b) == a + b
    decreases |b|
  {
    if |b| > 0 {
      forall i | 0 <= i < |a| ensures a[i].0 != b[0].0 {
        assert (a + b)[i] == a[i] && (a + b)[|a|] == b[0];
      }
      assert (a + [b[0]]) + b[1..] == a + b;
      SpreadFresh(a + [b[0]], b[1..]);
    }
  }

  /** `{ ...a, [k]: v }`: a copy of `a` with `k` assigned. */
  lemma SpreadThenPut<V>(a: Record<V>, k: string, v: V)
    ensures Distinct(Put(Spread([], a), k, v))
    ensures View(Put(Spread([], a), k, v)) == View(a)[k := v]
    ensures Keys(Put(Spread([], a), k, v)) == Keys(a) + {k}
  {
    var base := Spread([], a);
    assert Distinct(Put(base, k, v)) by {
      SpreadDistinct([], a);
      PutDistinct(base, k, v);
    }
    assert View(Put(base, k, v)) == View(a)[k := v] by {
      ViewSpread([], a);
      ViewPut(base, k, v);
    }
    assert Keys(Put(base, k, v)) == Keys(a) + {k} by {
      KeysSpread([], a);
      PutKeys(base, k, v);
    }
  }

  /** `Object.fromEntries`. */
  function FromEntries<V>(es: Record<V>): Record<V>
  {
    Spread([], es)
  }

  /** The object built from the entries of an object is that object, entry for entry. */
  lemma FromEntriesOfDistinct<V>(es: Record<V>)
    requires Distinct(es)
    ensures FromEntries(es) == es
  {
    assert [] + es == es;
    SpreadFresh([], es);
  }

  lemma FromEntriesFacts<V>(es: Record<V>)
    ensures Distinct(FromEntries(es))
    ensures View(FromEntries(es)) == View(es)
    ensures Keys(FromEntries(es)) == Keys(es)
  {
    SpreadDistinct([], es);
    ViewSpread([], es);
    KeysSpread([], es);
  }

  /** The entries of `r` not named `k`, in order. */
  function Without<V>(r: Record<V>, k: string): (r': Record<V>)
    ensures forall i | 0 <= i < |r'| :: r'[i].0 != k
  {
    if |r| == 0 then []
    else if r[0].0 == k then Without(r[1..], k)
    else [r[0]] + Without(r[1..], k)
  }

  lemma {:induction false} ViewWithout<V>(r: Record<V>, k: string)
    ensures View(Without(r, k)) == View(r) - {k}
  {
    if |r| > 0 {
      ViewWithout(r[1..], k);
      if r[0].0 != k {
        ViewCons(r[0], Without(r[1..], k));
      }
    }
  }

  lemma KeysWithout<V>(r: Record<V>, k: string)
    ensures Keys(Without(r, k)) == Keys(r) - {k}
  {
    ViewWithout(r, k);
    ViewKeys(r);
    ViewKeys(Without(r, k));
  }

  lemma WithoutDistinct<V>(r: Record<V>, k: string)
    requires Distinct(r)
    ensures Distinct(Without(r, k))
  {
    if |r| > 0 {
      DistinctTail(r);
      WithoutDistinct(r[1..], k);
      KeysWithout(r[1..], k);
    }
  }

  /** Every entry that survives `Without` is an entry of the original record. */
  lemma {:induction false} WithoutEntries<V>(r: Record<V>, k: string, i: nat)
    requires i < |Without(r, k)|
    ensures i < |r| && Without(r, k)[i] in r
  {
    if r[0].0 == k {
      WithoutEntries(r[1..], k, i);
    } else if i > 0 {
      WithoutEntries(r[1..], k, i - 1);
    }
  }

  /** The position of a name in a record with distinct names. */
  lemma DistinctLookup<V>(r: Record<V>, k: string) returns (i: nat)
    requires Distinct(r) && k in View(r)
    ensures i < |r| && r[i].0 == k && View(r)[k] == r[i].1
  {
    ViewKeys(r);
    i :| 0 <= i < |r| && r[i].0 == k;
    ViewOfDistinct(r, i);
  }

  /** Left fold of `Spread` over a list of records, as `reduce((acc, r) => ({ ...acc, ...r }), acc)`. */
  function SpreadAll<V>(acc: Record<V>, rs: seq<Record<V>>): Record<V>
    decreases |rs|
  {
    if |rs| == 0 then acc else SpreadAll(Spread(acc, rs[0]), rs[1..])
  }

  lemma {:induction false} SpreadAllDistinct<V>(acc: Record<V>, rs: seq<Record<V>>)
    requires Distinct(acc)
    ensures Distinct(SpreadAll(acc, rs))
    decreases |rs|
  {
    if |rs| > 0 {
      SpreadDistinct(acc, rs[0]);
      SpreadAllDistinct(Spread(acc, rs[0]), rs[1..]);
    }
  }

  /** Spreading nothing but empty records leaves the accumulator as it is. */
  lemma {:induction false} SpreadAllEmpty<V>(acc: Record<V>, rs: seq<Record<V>>)
    requires forall i | 0 <= i < |rs| :: rs[i] == []
    ensures SpreadAll(acc, rs) == acc
    decreases |rs|
  {
    if |rs| > 0 {
      assert rs[0] == [];
      SpreadAllEmpty(acc, rs[1..]);
    }
  }

  /** Right-biased union of a list of dictionaries: a later dictionary wins on a shared name. */
  function UnionAll<V>(ms: seq<map<string, V>>): map<string, V>
  {
    if |ms| == 0 then map[] else ms[0] + UnionAll(ms[1..])
  }

  /** The views of a list of records. */
  function Views<V>(rs: seq<Record<V>>): (vs: seq<map<string, V>>)
    ensures |vs| == |rs|
    ensures forall i | 0 <= i < |rs| :: vs[i] == View(rs[i])
  {
    seq(|rs|, i requires 0 <= i < |rs| => View(rs[i]))
  }

  lemma MapUnionAssoc<V>(a: map<string, V>, b: map<string, V>, c: map<string, V>)
    ensures (a + b) + c == a + (b + c)
  {
  }

  /** Folding spreads is the union of the views, later records winning. */
  lemma {:induction false} ViewSpreadAll<V>(acc: Record<V>, rs: seq<Record<V>>)
    ensures View(SpreadAll(acc, rs)) == View(acc) + UnionAll(Views(rs))
    decreases |rs|
  {
    if |rs| > 0 {
      ViewSpreadAll(Spread(acc, rs[0]), rs[1..]);
      ViewSpread(acc, rs[0]);
      assert Views(rs)[1..] == Views(rs[1..]);
      MapUnionAssoc(View(acc), View(rs[0]), UnionAll(Views(rs[1..])));
    }
  }

  /** A name is in the union exactly when some dictionary has it. */
  lemma {:induction false} UnionAllKeys<V>(ms: seq<map<string, V>>, k: string)
    ensures k in UnionAll(ms) <==> exists i | 0 <= i < |ms| :: k in ms[i]
  {
    if |ms| > 0 {
      UnionAllKeys(ms[1..], k);
      if exists i | 0 <= i < |ms| :: k in ms[i] {
        var i :| 0 <= i < |ms| && k in ms[i];
        if i > 0 { assert ms[1..][i - 1] == ms[i]; }
      }
      if exists i | 0 <= i < |ms[1..]| :: k in ms[1..][i] {
        var i :| 0 <= i < |ms[1..]| && k in ms[1..][i];
        assert ms[i + 1] == ms[1..][i];
      }
    }
  }

  /** The union takes a name's value from the LAST dictionary that has the name. */
  lemma {:induction false} UnionAllLastWins<V>(ms: seq<map<string, V>>, k: string, i: nat)
    requires i < |ms| && k in ms[i]
    requires forall j | i < j < |ms| :: k !in ms[j]
    ensures k in UnionAll(ms) && UnionAll(ms)[k] == ms[i][k]
  {
    if i == 0 {
      UnionAllKeys(ms[1..], k);
      forall j | 0 <= j < |ms[1..]| ensures k !in ms[1..][j] {
        assert ms[1..][j] == ms[j + 1];
      }
    } else {
      forall j | i - 1 < j < |ms[1..]| ensures k !in ms[1..][j] {
        assert ms[1..][j] == ms[j + 1];
      }
      assert ms[1..][i - 1] == ms[i];
      UnionAllLastWins(ms[1..], k, i - 1);
    }
  }

  /** Every value of the union is the value some dictionary gives that name. */
  lemma {:induction false} UnionAllFrom<V>(ms: seq<map<string, V>>, k: string)
    requires k in UnionAll(ms)
    ensures exists i | 0 <= i < |ms| :: k in ms[i] && UnionAll(ms)[k] == ms[i][k]
  {
    if k in UnionAll(ms[1..]) {
      UnionAllFrom(ms[1..], k);
      var i :| 0 <= i < |ms[1..]| && k in ms[1..][i] && UnionAll(ms[1..])[k] == ms[1..][i][k];
      assert ms[i + 1] == ms[1..][i];
    } else {
      assert k in ms[0];
    }
  }

  /** Dictionaries that agree wherever their names overlap. */
  ghost predicate Coherent<V>(ms: seq<map<string, V>>) {
    forall i, j, k | 0 <= i < |ms| && 0 <= j < |ms| && k in ms[i] && k in ms[j] :: ms[i][k] == ms[j][k]
  }

  /** Over coherent dictionaries the union is order-independent: it gives a name the
      value of ANY dictionary that has it. */
  lemma UnionAllCoherent<V>(ms: seq<map<string, V>>, k: string, i: nat)
    requires Coherent(ms)
    requires i < |ms| && k in ms[i]
    ensures k in UnionAll(ms) && UnionAll(ms)[k] == ms[i][k]
  {
    UnionAllKeys(ms, k);
    UnionAllFrom(ms, k);
  }
}

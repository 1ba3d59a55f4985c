/** A JavaScript object with string keys, or a `Map`, as the sequence of its
    entries in insertion order. Assigning to a key that is already present
    replaces its value in place; a new key is appended at the end. This is the
    order `Object.keys`, `Object.entries` and `Map.prototype.values` report
    (for keys that are not array indices). */
module JsObject {
  import opened Js

  type Entries<V> = seq<(string, V)>

  function Keys<V>(o: Entries<V>): seq<string> {
    seq(|o|, i requires 0 <= i < |o| => o[i].0)
  }

  function Values<V>(o: Entries<V>): seq<V> {
    seq(|o|, i requires 0 <= i < |o| => o[i].1)
  }

  predicate DistinctKeys<V>(o: Entries<V>) {
    forall i, j :: 0 <= i < j < |o| ==> o[i].0 != o[j].0
  }

  /** The position of the entry with key `k`, if there is one. */
  function Position<V>(o: Entries<V>, k: string): (r: Option<nat>)
    ensures r.Some? ==> r.value < |o| && o[r.value].0 == k
    ensures r.Some? ==> forall j :: 0 <= j < r.value ==> o[j].0 != k
    ensures r.None? ==> forall j :: 0 <= j < |o| ==> o[j].0 != k
  {
    if o == [] then None
    else if o[0].0 == k then Some(0)
    else match Position(o[1..], k)
      case None => None
      case Some(i) => Some(i + 1)
  }

  /** `o[k]`, or None where JavaScript gives `undefined`. */
  function Get<V>(o: Entries<V>, k: string): Option<V> {
    match Position(o, k)
    case None => None
    case Some(i) => Some(o[i].1)
  }

  /** `o[k] = v`. */
  function Set<V>(o: Entries<V>, k: string, v: V): Entries<V> {
    match Position(o, k)
    case None => o + [(k, v)]
    case Some(i) => o[i := (k, v)]
  }

  /** The first entry with key `k` is the one `Position` finds. */
  lemma PositionIs<V>(o: Entries<V>, k: string, i: nat)
    requires i < |o| && o[i].0 == k
    requires forall j :: 0 <= j < i ==> o[j].0 != k
    ensures Position(o, k) == Some(i)
  {
    var r := Position(o, k);
    assert r.Some?;
    assert !(r.value < i);
  }

  /** A key is absent exactly when no entry carries it. */
  lemma PositionNone<V>(o: Entries<V>, k: string)
    requires forall j :: 0 <= j < |o| ==> o[j].0 != k
    ensures Position(o, k) == None
  {
  }

  /** `o[k]` is defined exactly when `k` is one of the keys. */
  lemma GetDefinedIff<V>(o: Entries<V>, k: string)
    ensures Get(o, k).Some? <==> k in Keys(o)
  {
    match Position(o, k)
    case Some(i) => assert Keys(o)[i] == k;
    case None =>
      assert forall i :: 0 <= i < |o| ==> Keys(o)[i] != k;
  }

  /** After `o[k] = v`, `o[k]` is `v`, every other key reads as before, and the
      key order is kept or `k` is appended at the end. */
  lemma SetSpec<V>(o: Entries<V>, k: string, v: V)
    ensures Get(Set(o, k, v), k) == Some(v)
    ensures forall k' :: k' != k ==> Get(Set(o, k, v), k') == Get(o, k')
    ensures Keys(Set(o, k, v)) == if k in Keys(o) then Keys(o) else Keys(o) + [k]
    ensures DistinctKeys(o) ==> DistinctKeys(Set(o, k, v))
  {
    var r := Set(o, k, v);
    match Position(o, k)
    case None =>
      assert k !in Keys(o);
      PositionIs(r, k, |o|);
      forall k' | k' != k ensures Get(r, k') == Get(o, k') {
        match Position(o, k')
        case None => PositionNone(r, k');
        case Some(i) => PositionIs(r, k', i);
      }
    case Some(i) =>
      assert k in Keys(o) by { assert Keys(o)[i] == k; }
      PositionIs(r, k, i);
      forall k' | k' != k ensures Get(r, k') == Get(o, k') {
        match Position(o, k')
        case None => PositionNone(r, k');
        case Some(j) => PositionIs(r, k', j);
      }
  }

  /** The value of the last pair whose key is `k`. */
  function LastValue<V>(ps: seq<(string, V)>, k: string): Option<V> {
    if ps == [] then None
    else if ps[|ps| - 1].0 == k then Some(ps[|ps| - 1].1)
    else LastValue(ps[..|ps| - 1], k)
  }

  /** The keys in order of first appearance, each once. */
  function FirstOccurrences(ks: seq<string>): (r: seq<string>)
    ensures forall i, j :: 0 <= i < j < |r| ==> r[i] != r[j]
    ensures forall k :: k in r <==> k in ks
  {
    if ks == [] then []
    else
      var r := FirstOccurrences(ks[..|ks| - 1]);
      assert forall k :: k in ks <==> k in ks[..|ks| - 1] || k == ks[|ks| - 1];
      if ks[|ks| - 1] in r then r else r + [ks[|ks| - 1]]
  }

  /** `new Map(pairs)`, or assigning `o[k] = v` for every pair in turn starting from `{}`. */
  function FromPairs<V>(ps: seq<(string, V)>): Entries<V> {
    if ps == [] then [] else Set(FromPairs(ps[..|ps| - 1]), ps[|ps| - 1].0, ps[|ps| - 1].1)
  }

  /** The object built from a list of pairs has one entry per distinct key, in
      order of first appearance. */
  lemma {:induction false} FromPairsKeys<V>(ps: seq<(string, V)>)
    ensures Keys(FromPairs(ps)) == FirstOccurrences(Keys(ps))
    ensures DistinctKeys(FromPairs(ps))
  {
    var r := FromPairs(ps);
    if ps != [] {
      var init := ps[..|ps| - 1];
      var o := FromPairs(init);
      var k := ps[|ps| - 1].0;
      FromPairsKeys(init);
      SetSpec(o, k, ps[|ps| - 1].1);
      assert Keys(ps)[..|ps| - 1] == Keys(init);
      assert Keys(ps)[|ps| - 1] == k;
      assert k in Keys(o) <==> k in FirstOccurrences(Keys(init));
    }
    assert forall i :: 0 <= i < |r| ==> Keys(r)[i] == r[i].0;
  }

  /** In the object built from a list of pairs, a later pair with the same key
      overwrites an earlier one. */
  lemma {:induction false} FromPairsGet<V>(ps: seq<(string, V)>, k: string)
    ensures Get(FromPairs(ps), k) == LastValue(ps, k)
  {
    if ps != [] {
      var init := ps[..|ps| - 1];
      FromPairsGet(init, k);
      SetSpec(FromPairs(init), ps[|ps| - 1].0, ps[|ps| - 1].1);
    }
  }
}

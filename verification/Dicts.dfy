/** Python dicts in insertion order, as the identity-provider export and the build records
    use them. */
module Dicts {

  type Dict<V> = seq<(string, V)>

  predicate Has<V>(d: Dict<V>, key: string) { d != [] && (d[0].0 == key || Has(d[1..], key)) }

  /** `d.get(key, otherwise)` */
  function Get<V>(d: Dict<V>, key: string, otherwise: V): V {
    if d == [] then otherwise else if d[0].0 == key then d[0].1 else Get(d[1..], key, otherwise)
  }

  /** `{k: v for k, v in d.items() if k != key}` */
  function Without<V>(d: Dict<V>, key: string): Dict<V> {
    if d == [] then [] else if d[0].0 == key then Without(d[1..], key) else [d[0]] + Without(d[1..], key)
  }

  function Keys<V>(d: Dict<V>): seq<string> { if d == [] then [] else [d[0].0] + Keys(d[1..]) }

  predicate UniqueKeys<V>(d: Dict<V>) { d == [] || (d[0].0 !in Keys(d[1..]) && UniqueKeys(d[1..])) }

  lemma {:induction false} UniqueIff<V>(d: Dict<V>)
    ensures UniqueKeys(d) <==> forall i, j :: 0 <= i < j < |d| ==> d[i].0 != d[j].0
    ensures forall k :: k in Keys(d) <==> exists i :: 0 <= i < |d| && d[i].0 == k
  {
    if d != [] {
      var t := d[1..];
      UniqueIff(t);
      assert forall i :: 0 < i < |d| ==> d[i] == t[i - 1];
      forall k ensures k in Keys(d) <==> exists i :: 0 <= i < |d| && d[i].0 == k {
        if k in Keys(t) {
          var i :| 0 <= i < |t| && t[i].0 == k;
          assert d[i + 1].0 == k;
        }
      }
      if d[0].0 in Keys(t) {
        var i :| 0 <= i < |t| && t[i].0 == d[0].0;
        assert d[i + 1].0 == d[0].0;
      }
    }
  }

  /** `d[key] = value` keeps the place of a key that is there. */
  function Set<V>(d: Dict<V>, f: (string, V)): Dict<V> {
    if d == [] then [f] else if d[0].0 == f.0 then [f] + d[1..] else [d[0]] + Set(d[1..], f)
  }

  /** `dict.update` */
  function Update<V>(d: Dict<V>, updates: seq<(string, V)>): Dict<V>
    decreases updates
  {
    if updates == [] then d else Update(Set(d, updates[0]), updates[1..])
  }

  /** The value the last update of `name` gives it. */
  function Last<V>(updates: seq<(string, V)>, name: string, otherwise: V): V {
    if updates == [] then otherwise
    else Last(updates[1..], name, if updates[0].0 == name then updates[0].1 else otherwise)
  }

  lemma {:induction false} SetIs<V>(d: Dict<V>, f: (string, V))
    ensures forall name, otherwise ::
              Get(Set(d, f), name, otherwise) == if name == f.0 then f.1 else Get(d, name, otherwise)
    ensures Keys(d) <= Keys(Set(d, f)) && f.0 in Keys(Set(d, f))
    ensures forall name :: name in Keys(Set(d, f)) <==> name == f.0 || name in Keys(d)
    ensures UniqueKeys(d) ==> UniqueKeys(Set(d, f))
    ensures f.0 in Keys(d) ==> Keys(Set(d, f)) == Keys(d)
  {
    if d != [] {
      SetIs(d[1..], f);
      if d[0].0 == f.0 {
        assert Set(d, f)[1..] == d[1..];
      } else {
        assert Set(d, f)[1..] == Set(d[1..], f);
      }
    }
  }

  /** An update overwrites exactly the named fields, keeps every other field, and keeps the
      order of the fields that were there. */
  lemma {:induction false} UpdateIs<V>(d: Dict<V>, updates: seq<(string, V)>)
    ensures forall name, otherwise ::
              Get(Update(d, updates), name, otherwise) == Last(updates, name, Get(d, name, otherwise))
    ensures Keys(d) <= Keys(Update(d, updates))
    ensures UniqueKeys(d) ==> UniqueKeys(Update(d, updates))
    ensures (forall i :: 0 <= i < |updates| ==> updates[i].0 in Keys(d)) ==>
            Keys(Update(d, updates)) == Keys(d)
    decreases updates
  {
    hide Get, Set, Keys, UniqueKeys;
    if updates != [] {
      SetIs(d, updates[0]);
      UpdateIs(Set(d, updates[0]), updates[1..]);
      assert forall i :: 0 <= i < |updates| - 1 ==> updates[1..][i] == updates[i + 1];
    }
  }

  lemma {:induction false} SetTwice<V>(d: Dict<V>, f: (string, V), g: (string, V))
    requires f.0 == g.0
    ensures Set(Set(d, f), g) == Set(d, g)
  {
    if d != [] {
      SetTwice(d[1..], f, g);
      assert Set(d, f)[1..] == if d[0].0 == f.0 then d[1..] else Set(d[1..], f);
    }
  }

  lemma {:induction false} SetCommutes<V>(d: Dict<V>, f: (string, V), g: (string, V))
    requires f.0 != g.0 && f.0 in Keys(d)
    ensures Set(Set(d, g), f) == Set(Set(d, f), g)
  {
    var rest := d[1..];
    if d[0].0 == f.0 {
      assert Set(d, f) == [f] + rest && Set(d, g) == [d[0]] + Set(rest, g);
      assert Set(d, f)[1..] == rest && Set(d, g)[1..] == Set(rest, g);
    } else if d[0].0 == g.0 {
      assert Set(d, g) == [g] + rest && Set(d, f) == [d[0]] + Set(rest, f);
      assert Set(d, g)[1..] == rest && Set(d, f)[1..] == Set(rest, f);
    } else {
      SetCommutes(rest, f, g);
      assert Set(d, g)[1..] == Set(rest, g) && Set(d, f)[1..] == Set(rest, f);
    }
  }

  lemma {:induction false} WithoutFacts<V>(d: Dict<V>, key: string, other: string, tail: Dict<V>)
    ensures !Has(Without(d, key), key)
    ensures Without(Without(d, key), key) == Without(d, key)
    ensures Without(Without(d, key) + tail, key) == Without(d, key) + Without(tail, key)
    ensures forall otherwise :: Get(Without(d, key) + tail, key, otherwise) == Get(tail, key, otherwise)
    ensures Has(Without(d, key) + tail, key) == Has(tail, key)
    ensures other != key && !Has(tail, other) ==>
              forall otherwise :: Get(Without(d, key) + tail, other, otherwise) == Get(d, other, otherwise)
  {
    if d == [] {
      assert [] + tail == tail;
      Missing(tail, other);
    } else {
      WithoutFacts(d[1..], key, other, tail);
      if d[0].0 != key {
        var rest := Without(d[1..], key);
        assert ([d[0]] + rest) + tail == [d[0]] + (rest + tail);
        assert ([d[0]] + rest)[1..] == rest;
        assert ([d[0]] + (rest + tail))[1..] == rest + tail;
        assert [d[0]] + (rest + Without(tail, key)) == ([d[0]] + rest) + Without(tail, key);
      }
    }
  }

  lemma {:induction false} Missing<V>(d: Dict<V>, key: string)
    ensures !Has(d, key) ==> Without(d, key) == d && forall otherwise :: Get(d, key, otherwise) == otherwise
  {
    if d != [] {
      Missing(d[1..], key);
      assert [d[0]] + d[1..] == d;
    }
  }
}

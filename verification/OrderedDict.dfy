/** A dictionary that remembers the order in which its keys first came. */
module OrderedDict {
  import opened Basics

  type Pairs<V> = seq<(string, V)>

  function Keys<V>(ps: Pairs<V>): (ks: seq<string>)
    ensures |ks| == |ps| && forall i :: 0 <= i < |ps| ==> ks[i] == ps[i].0
  {
    if ps == [] then [] else [ps[0].0] + Keys(ps[1..])
  }

  ghost predicate Distinct(ks: seq<string>) {
    forall i, j :: 0 <= i < j < |ks| ==> ks[i] != ks[j]
  }

  function Get<V>(ps: Pairs<V>, key: string): Option<V> {
    if ps == [] then None else if ps[0].0 == key then Some(ps[0].1) else Get(ps[1..], key)
  }

  /** A known key keeps its place and gets the new value; an unknown one goes to the end. */
  function Put<V>(ps: Pairs<V>, key: string, value: V): Pairs<V> {
    if ps == [] then [(key, value)]
    else if ps[0].0 == key then [(key, value)] + ps[1..]
    else [ps[0]] + Put(ps[1..], key, value)
  }

  function PutAll<V>(ps: Pairs<V>, writes: Pairs<V>): Pairs<V> {
    if writes == [] then ps
    else Put(PutAll(ps, writes[..|writes| - 1]), writes[|writes| - 1].0, writes[|writes| - 1].1)
  }

  /** The keys, each once, in the order in which they first come. */
  function Arrivals(ks: seq<string>, more: seq<string>): (all: seq<string>) {
    if more == [] then ks
    else
      var before := Arrivals(ks, more[..|more| - 1]);
      if more[|more| - 1] in before then before else before + [more[|more| - 1]]
  }

  /** The value written last for a key. */
  function LastWrite<V>(writes: Pairs<V>, key: string): Option<V> {
    if writes == [] then None
    else if writes[|writes| - 1].0 == key then Some(writes[|writes| - 1].1)
    else LastWrite(writes[..|writes| - 1], key)
  }

  lemma {:induction false} GetFound<V>(ps: Pairs<V>, key: string)
    ensures Get(ps, key).Some? <==> key in Keys(ps)
  {
    if ps != [] {
      GetFound(ps[1..], key);
    }
  }

  lemma {:induction false} GetAt<V>(ps: Pairs<V>, i: nat)
    requires Distinct(Keys(ps)) && i < |ps|
    ensures Get(ps, ps[i].0) == Some(ps[i].1)
  {
    if i > 0 {
      var rest := ps[1..];
      assert ps[0].0 == Keys(ps)[0] && ps[i].0 == Keys(ps)[i] && rest[i - 1] == ps[i];
      assert Distinct(Keys(rest)) by {
        forall a, b | 0 <= a < b < |rest| ensures Keys(rest)[a] != Keys(rest)[b] {
          assert Keys(ps)[a + 1] != Keys(ps)[b + 1];
        }
      }
      GetAt(rest, i - 1);
    }
  }

  lemma {:induction false} PutAt<V>(ps: Pairs<V>, i: nat, value: V)
    requires i < |ps| && forall j :: 0 <= j < i ==> ps[j].0 != ps[i].0
    ensures Put(ps, ps[i].0, value) == ps[i := (ps[i].0, value)]
  {
    if i == 0 {
      assert [(ps[0].0, value)] + ps[1..] == ps[0 := (ps[0].0, value)];
    } else {
      PutAt(ps[1..], i - 1, value);
      assert [ps[0]] + ps[1..][i - 1 := (ps[i].0, value)] == ps[i := (ps[i].0, value)];
    }
  }

  lemma {:induction false} PutNew<V>(ps: Pairs<V>, key: string, value: V)
    requires key !in Keys(ps)
    ensures Put(ps, key, value) == ps + [(key, value)]
  {
    if ps == [] {
    } else {
      assert Keys(ps)[0] == ps[0].0;
      forall i | 0 <= i < |ps| - 1 ensures Keys(ps[1..])[i] == Keys(ps)[i + 1] {
      }
      PutNew(ps[1..], key, value);
      assert ps == [ps[0]] + ps[1..];
    }
  }

  lemma {:induction false} PutKeys<V>(ps: Pairs<V>, key: string, value: V)
    ensures Keys(Put(ps, key, value)) == if key in Keys(ps) then Keys(ps) else Keys(ps) + [key]
  {
    if ps == [] {
    } else {
      PutKeys(ps[1..], key, value);
      assert Keys(ps) == [ps[0].0] + Keys(ps[1..]);
    }
  }

  lemma {:induction false} GetPut<V>(ps: Pairs<V>, key: string, value: V, k: string)
    ensures Get(Put(ps, key, value), k) == if k == key then Some(value) else Get(ps, k)
  {
    if ps != [] {
      GetPut(ps[1..], key, value, k);
    }
  }

  /** Nothing but the written pair is new. */
  lemma {:induction false} PutElements<V>(ps: Pairs<V>, key: string, value: V, i: nat)
    requires i < |Put(ps, key, value)|
    ensures Put(ps, key, value)[i] == (key, value) || Put(ps, key, value)[i] in ps
  {
    if ps != [] && ps[0].0 != key && i > 0 {
      PutElements(ps[1..], key, value, i - 1);
    }
  }

  lemma {:induction false} GetElement<V>(ps: Pairs<V>, key: string)
    requires Get(ps, key).Some?
    ensures (key, Get(ps, key).value) in ps
  {
    if ps[0].0 != key {
      GetElement(ps[1..], key);
    }
  }

  lemma DistinctPut<V>(ps: Pairs<V>, key: string, value: V)
    requires Distinct(Keys(ps))
    ensures Distinct(Keys(Put(ps, key, value)))
  {
    hide Put, Keys;
    PutKeys(ps, key, value);
  }

  lemma {:induction false} PutTwice<V>(ps: Pairs<V>, key: string, first: V, value: V)
    ensures Put(Put(ps, key, first), key, value) == Put(ps, key, value)
  {
    if ps != [] {
      PutTwice(ps[1..], key, first, value);
    }
  }

  lemma {:induction false} PutSame<V>(ps: Pairs<V>, key: string)
    requires Get(ps, key).Some?
    ensures Put(ps, key, Get(ps, key).value) == ps
  {
    if ps[0].0 == key {
      assert [ps[0]] + ps[1..] == ps;
    } else {
      PutSame(ps[1..], key);
    }
  }

  lemma {:induction false} KeysAppend<V>(ps: Pairs<V>, last: (string, V))
    ensures Keys(ps + [last]) == Keys(ps) + [last.0]
  {
    if ps == [] {
      assert ps + [last] == [last];
    } else {
      assert (ps + [last])[1..] == ps[1..] + [last];
      KeysAppend(ps[1..], last);
    }
  }

  lemma KeysInit<V>(ps: Pairs<V>)
    requires ps != []
    ensures Keys(ps) == Keys(ps[..|ps| - 1]) + [ps[|ps| - 1].0]
  {
    InitLast(ps);
    KeysAppend(ps[..|ps| - 1], ps[|ps| - 1]);
  }

  lemma ArrivalsEnd(ks: seq<string>, more: seq<string>, last: string)
    ensures Arrivals(ks, more + [last]) == KeysWith(Arrivals(ks, more), last)
  {
    assert (more + [last])[..|more|] == more;
  }

  /** Keys that are known keep their places; the others follow in the order of their first write. */
  lemma {:induction false} PutAllKeys<V>(ps: Pairs<V>, writes: Pairs<V>)
    ensures Keys(PutAll(ps, writes)) == Arrivals(Keys(ps), Keys(writes))
  {
    if writes != [] {
      var n := |writes| - 1;
      PutAllKeys(ps, writes[..n]);
      PutKeys(PutAll(ps, writes[..n]), writes[n].0, writes[n].1);
      KeysInit(writes);
      ArrivalsEnd(Keys(ps), Keys(writes[..n]), writes[n].0);
    }
  }

  /** Each key ends with the value written last, or with the one it had. */
  lemma {:induction false} PutAllGet<V>(ps: Pairs<V>, writes: Pairs<V>, key: string)
    ensures Get(PutAll(ps, writes), key)
         == if key in Keys(writes) then LastWrite(writes, key) else Get(ps, key)
    ensures LastWrite(writes, key).Some? <==> key in Keys(writes)
  {
    if writes != [] {
      var n := |writes| - 1;
      PutAllGet(ps, writes[..n], key);
      GetPut(PutAll(ps, writes[..n]), writes[n].0, writes[n].1, key);
      KeysInit(writes);
    }
  }

  lemma {:induction false} ArrivalsShape(ks: seq<string>, more: seq<string>)
    ensures ks <= Arrivals(ks, more)
    ensures forall k :: k in Arrivals(ks, more) <==> k in ks || k in more
    ensures Distinct(ks) ==> Distinct(Arrivals(ks, more))
  {
    if more != [] {
      ArrivalsShape(ks, more[..|more| - 1]);
      InitLast(more);
    }
  }

  /** The strings of xs that are not in ks, in order. */
  function Without(xs: seq<string>, ks: seq<string>): seq<string> {
    if xs == [] then []
    else Without(xs[..|xs| - 1], ks) + if xs[|xs| - 1] in ks then [] else [xs[|xs| - 1]]
  }

  lemma {:induction false} WithoutIn(xs: seq<string>, ks: seq<string>, x: string)
    ensures x in Without(xs, ks) <==> x in xs && x !in ks
  {
    if xs != [] {
      WithoutIn(xs[..|xs| - 1], ks, x);
      InitLast(xs);
    }
  }

  /** Keys that come once each: the known ones keep their places, the new ones follow in order. */
  lemma {:induction false} ArrivalsOrder(ks: seq<string>, more: seq<string>)
    requires Distinct(more)
    ensures Arrivals(ks, more) == ks + Without(more, ks)
  {
    if more != [] {
      var n := |more| - 1;
      ArrivalsOrder(ks, more[..n]);
      WithoutIn(more[..n], ks, more[n]);
    }
  }

  lemma {:induction false} ArrivalsAgain(ks: seq<string>, more: seq<string>)
    requires forall k :: k in more ==> k in ks
    ensures Arrivals(ks, more) == ks
  {
    if more != [] {
      ArrivalsAgain(ks, more[..|more| - 1]);
    }
  }

  /** The order and the values are all there is. */
  lemma SamePairs<V>(ps: Pairs<V>, qs: Pairs<V>)
    requires Keys(ps) == Keys(qs) && Distinct(Keys(ps))
    requires forall k :: k in Keys(ps) ==> Get(ps, k) == Get(qs, k)
    ensures ps == qs
  {
    forall i | 0 <= i < |ps| ensures ps[i] == qs[i] {
      assert ps[i].0 == Keys(ps)[i] == Keys(qs)[i] == qs[i].0;
      GetAt(ps, i);
      GetAt(qs, i);
    }
  }

  /** Writing the same things again changes nothing. */
  lemma PutAllAgain<V>(ps: Pairs<V>, writes: Pairs<V>)
    requires Distinct(Keys(ps))
    ensures PutAll(PutAll(ps, writes), writes) == PutAll(ps, writes)
  {
    var once := PutAll(ps, writes);
    PutAllKeys(ps, writes);
    ArrivalsShape(Keys(ps), Keys(writes));
    PutAllKeys(once, writes);
    ArrivalsAgain(Keys(once), Keys(writes));
    forall k | k in Keys(once) ensures Get(once, k) == Get(PutAll(once, writes), k) {
      PutAllGet(ps, writes, k);
      PutAllGet(once, writes, k);
    }
    SamePairs(once, PutAll(once, writes));
  }

  lemma DistinctInit(ks: seq<string>, last: string)
    requires Distinct(ks + [last])
    ensures Distinct(ks) && last !in ks
  {
    forall i, j | 0 <= i < j < |ks| ensures ks[i] != ks[j] {
      assert (ks + [last])[i] != (ks + [last])[j];
    }
    forall i | 0 <= i < |ks| ensures ks[i] != last {
      assert (ks + [last])[i] != (ks + [last])[|ks|];
    }
  }

  /** Into an empty dictionary, pairs with distinct keys come out as they went in. */
  lemma {:induction false} PutAllFresh<V>(writes: Pairs<V>)
    requires Distinct(Keys(writes))
    ensures PutAll([], writes) == writes
  {
    if writes != [] {
      var n := |writes| - 1;
      var init := writes[..n];
      KeysInit(writes);
      DistinctInit(Keys(init), writes[n].0);
      PutAllFresh(init);
      PutNew(init, writes[n].0, writes[n].1);
      InitLast(writes);
    }
  }

  /** The keys with their values, in key order. */
  function Zip<V>(keys: seq<string>, items: map<string, V>): (ps: Pairs<V>)
    requires forall i :: 0 <= i < |keys| ==> keys[i] in items
    ensures |ps| == |keys| && Keys(ps) == keys
    ensures forall i :: 0 <= i < |keys| ==> ps[i] == (keys[i], items[keys[i]])
  {
    seq(|keys|, i requires 0 <= i < |keys| => (keys[i], items[keys[i]]))
  }

  /** What writing does, place by place. */
  lemma PutShape<V>(ps: Pairs<V>, ks: seq<string>, key: string, value: V)
    requires ks == Keys(ps) && Distinct(ks)
    ensures key !in ks ==> Put(ps, key, value) == ps + [(key, value)]
    ensures key in ks ==> |Put(ps, key, value)| == |ps|
    ensures key in ks ==> forall i :: 0 <= i < |ps| ==>
      Put(ps, key, value)[i] == if ks[i] == key then (key, value) else ps[i]
  {
    if key in ks {
      var i :| 0 <= i < |ks| && ks[i] == key;
      PutAt(ps, i, value);
    } else {
      PutNew(ps, key, value);
    }
  }

  /** A key list and a dictionary that agree: no key twice, and the same keys in both. */
  ghost predicate Agree<V>(keys: seq<string>, items: map<string, V>) {
    && Distinct(keys)
    && (forall i :: 0 <= i < |keys| ==> keys[i] in items)
    && (forall k :: k in items ==> k in keys)
  }

  function KeysWith(keys: seq<string>, key: string): seq<string> {
    if key in keys then keys else keys + [key]
  }

  lemma AgreeAfter<V>(keys: seq<string>, items: map<string, V>, key: string, item: V)
    requires Agree(keys, items)
    ensures Agree(KeysWith(keys, key), items[key := item])
  {
    var ks := KeysWith(keys, key);
    assert Distinct(ks);
    forall k | k in items[key := item] ensures k in ks {
      if k == key && key !in keys {
        assert ks[|keys|] == key;
      }
    }
  }

  /** The pair at each place after a write. */
  lemma ZipPlaces<V>(keys: seq<string>, items: map<string, V>, key: string, item: V, i: nat)
    requires Agree(keys, items) && Agree(KeysWith(keys, key), items[key := item])
    requires i < |KeysWith(keys, key)|
    ensures Zip(KeysWith(keys, key), items[key := item])[i]
         == if KeysWith(keys, key)[i] == key then (key, item) else Zip(keys, items)[i]
  {
  }

  lemma ZipAfter<V>(keys: seq<string>, items: map<string, V>, key: string, item: V)
    requires Agree(keys, items)
    ensures Agree(KeysWith(keys, key), items[key := item])
    ensures Zip(KeysWith(keys, key), items[key := item]) == Put(Zip(keys, items), key, item)
  {
    hide Put, Distinct, Keys;
    AgreeAfter(keys, items, key, item);
    var was, now := Zip(keys, items), Zip(KeysWith(keys, key), items[key := item]);
    PutShape(was, keys, key, item);
    forall i | 0 <= i < |now| ensures now[i] == Put(was, key, item)[i] {
      ZipPlaces(keys, items, key, item, i);
    }
    SameElements(now, Put(was, key, item));
  }

  class Dict<V> {
    var items: map<string, V>
    var keys: seq<string>

    /** The key list has no duplicates and names exactly the keys of the underlying dictionary. */
    ghost predicate Valid()
      reads this
    {
      Agree(keys, items)
    }

    ghost function Contents(): (ps: Pairs<V>)
      requires Valid()
      reads this
    {
      Zip(keys, items)
    }

    constructor ()
      ensures Valid() && Contents() == []
    {
      items := map[];
      keys := [];
    }

    /** __setitem__ */
    method SetItem(key: string, item: V)
      requires Valid()
      modifies this
      ensures Valid() && Contents() == Put(old(Contents()), key, item)
    {
      ZipAfter(keys, items, key, item);
      items := items[key := item];
      if key !in keys {
        keys := keys + [key];
      }
    }

    /** has_key and __getitem__ in one. */
    method Lookup(key: string) returns (item: Option<V>)
      requires Valid()
      ensures item == Get(Contents(), key)
    {
      GetFound(Contents(), key);
      if key in items {
        item := Some(items[key]);
        ghost var i :| 0 <= i < |keys| && keys[i] == key;
        GetAt(Contents(), i);
      } else {
        item := None;
      }
    }

    /** values: the items in key order. */
    method Values() returns (vs: seq<V>)
      requires Valid()
      ensures |vs| == |Contents()|
      ensures forall i :: 0 <= i < |vs| ==> vs[i] == Contents()[i].1
    {
      vs := [];
      for n := 0 to |keys|
        invariant |vs| == n && Agree(keys, items)
        invariant forall i :: 0 <= i < n ==> vs[i] == items[keys[i]]
      {
        vs := vs + [items[keys[n]]];
      }
    }
  }
}

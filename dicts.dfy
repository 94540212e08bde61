/** A Python `dict` from `str` to `str`: its keys in insertion order, and what each
    key maps to. */
module Dicts {

  datatype Dict = Dict(keys: seq<string>, values: map<string, string>)
  {
    /** What every Python dict satisfies: no key is listed twice, and the listed
        keys are exactly the keys that have a value. */
    ghost predicate Valid()
    {
      (forall i, j :: 0 <= i < j < |keys| ==> keys[i] != keys[j])
      && (forall k :: k in values <==> k in keys)
    }
  }

  /** Every listed key of a dict has a value. */
  lemma KeysHaveValues(d: Dict)
    requires d.Valid()
    ensures forall i :: 0 <= i < |d.keys| ==> d.keys[i] in d.values
  {
  }

  /** `{}` */
  const Empty := Dict([], map[])

  /** `d[k] = v`: an existing key keeps its position and takes the new value,
      a new key is appended at the end. */
  function Put(d: Dict, k: string, v: string): (r: Dict)
    ensures |r.keys| == if k in d.keys then |d.keys| else |d.keys| + 1
  {
    Dict(if k in d.keys then d.keys else d.keys + [k], d.values[k := v])
  }

  /** `d[k] = v` keeps a dict a dict, and afterwards `d[k]` is v while every other
      key keeps its value. */
  lemma PutValid(d: Dict, k: string, v: string)
    requires d.Valid()
    ensures Put(d, k, v).Valid()
    ensures Put(d, k, v).values[k] == v
    ensures forall k' :: k' != k ==> (k' in Put(d, k, v).values <==> k' in d.values)
    ensures forall k' :: k' != k && k' in d.values ==> Put(d, k, v).values[k'] == d.values[k']
  {
    var r := Put(d, k, v);
    forall x ensures x in r.values <==> x in r.keys {
      assert x in r.keys <==> x in d.keys || x == k;
    }
  }

  /** Putting the listed keys of m into d, one after the other. */
  function PutAll(d: Dict, ks: seq<string>, m: map<string, string>): (r: Dict)
    requires forall i :: 0 <= i < |ks| ==> ks[i] in m
    decreases |ks|
  {
    if |ks| == 0 then d
    else PutAll(Put(d, ks[0], m[ks[0]]), ks[1..], m)
  }

  /** `d.update(e)`: e's items are put into d in e's order. */
  function Update(d: Dict, e: Dict): (r: Dict)
    requires e.Valid()
  {
    assert forall i :: 0 <= i < |e.keys| ==> e.keys[i] in e.values;
    PutAll(d, e.keys, e.values)
  }

  /** Putting several keys keeps a dict a dict; a put key ends up with m's value,
      and any other key keeps d's. */
  lemma {:induction false} PutAllValid(d: Dict, ks: seq<string>, m: map<string, string>, k: string)
    requires d.Valid()
    requires forall i :: 0 <= i < |ks| ==> ks[i] in m
    ensures PutAll(d, ks, m).Valid()
    ensures k in PutAll(d, ks, m).values <==> k in d.values || k in ks
    ensures k in ks ==> PutAll(d, ks, m).values[k] == m[k]
    ensures k !in ks && k in d.values ==> PutAll(d, ks, m).values[k] == d.values[k]
    decreases |ks|
  {
    if |ks| > 0 {
      var d' := Put(d, ks[0], m[ks[0]]);
      PutValid(d, ks[0], m[ks[0]]);
      PutAllValid(d', ks[1..], m, k);
      assert k in ks <==> k == ks[0] || k in ks[1..];
    }
  }

  /** Putting keys that are all new, and distinct, appends them in order. */
  lemma {:induction false} PutAllFresh(d: Dict, ks: seq<string>, m: map<string, string>)
    requires forall i :: 0 <= i < |ks| ==> ks[i] in m
    requires forall i, j :: 0 <= i < j < |ks| ==> ks[i] != ks[j]
    requires forall i :: 0 <= i < |ks| ==> ks[i] !in d.keys
    ensures PutAll(d, ks, m).keys == d.keys + ks
    decreases |ks|
  {
    if |ks| > 0 {
      var d' := Put(d, ks[0], m[ks[0]]);
      assert d'.keys == d.keys + [ks[0]];
      forall i | 0 <= i < |ks| - 1 ensures ks[1..][i] !in d'.keys {
        assert ks[1..][i] == ks[i + 1];
      }
      PutAllFresh(d', ks[1..], m);
      assert d.keys + [ks[0]] + ks[1..] == d.keys + ks by {
        assert [ks[0]] + ks[1..] == ks;
      }
    }
  }

  /** After `d.update(e)`: a dict whose keys are d's and e's, where e's keys have
      e's values and the others keep d's. */
  lemma UpdateValid(d: Dict, e: Dict, k: string)
    requires d.Valid() && e.Valid()
    ensures Update(d, e).Valid()
    ensures k in Update(d, e).values <==> k in d.values || k in e.values
    ensures k in e.values ==> Update(d, e).values[k] == e.values[k]
    ensures k !in e.values && k in d.values ==> Update(d, e).values[k] == d.values[k]
  {
    PutAllValid(d, e.keys, e.values, k);
  }

  /** When d and e share no key, `d.update(e)` lists d's keys and then e's. */
  lemma UpdateDisjoint(d: Dict, e: Dict)
    requires e.Valid()
    requires forall i :: 0 <= i < |e.keys| ==> e.keys[i] !in d.keys
    ensures Update(d, e).keys == d.keys + e.keys
  {
    PutAllFresh(d, e.keys, e.values);
  }

  function Min(a: nat, b: nat): nat
  {
    if a <= b then a else b
  }

  /** `row[header] = text` for each pair of `zip(headers, texts)`, in order, starting
      from `{}`: `zip` stops at the shorter sequence, and a repeated header keeps
      its first position and its last text. */
  function Zip(headers: seq<string>, texts: seq<string>): (row: Dict)
    decreases |headers|
  {
    var n := Min(|headers|, |texts|);
    if n == 0 then Empty
    else Put(Zip(headers[..n - 1], texts[..n - 1]), headers[n - 1], texts[n - 1])
  }

  /** The result is a dict whose keys are exactly the headers that have a text
      beside them. */
  lemma {:induction false} ZipValid(headers: seq<string>, texts: seq<string>, k: string)
    ensures Zip(headers, texts).Valid()
    ensures k in Zip(headers, texts).values <==> k in headers[..Min(|headers|, |texts|)]
    decreases |headers|
  {
    var n := Min(|headers|, |texts|);
    if n > 0 {
      var h', t' := headers[..n - 1], texts[..n - 1];
      assert Min(|h'|, |t'|) == n - 1;
      ZipValid(h', t', k);
      PutValid(Zip(h', t'), headers[n - 1], texts[n - 1]);
      assert headers[..n] == h'[..n - 1] + [headers[n - 1]];
    }
  }

  /** Column i's header maps to column i's text unless a later column repeats that
      header; with distinct headers this holds for every column. */
  lemma {:induction false} ZipGet(headers: seq<string>, texts: seq<string>, i: nat)
    requires i < Min(|headers|, |texts|)
    requires forall j :: i < j < Min(|headers|, |texts|) ==> headers[j] != headers[i]
    ensures headers[i] in Zip(headers, texts).values
    ensures Zip(headers, texts).values[headers[i]] == texts[i]
    decreases |headers|
  {
    var n := Min(|headers|, |texts|);
    var h', t' := headers[..n - 1], texts[..n - 1];
    if i < n - 1 {
      assert Min(|h'|, |t'|) == n - 1;
      ZipGet(h', t', i);
    }
  }

  /** With distinct headers the record lists the headers in column order. */
  lemma {:induction false} ZipKeyOrder(headers: seq<string>, texts: seq<string>)
    requires forall i, j :: 0 <= i < j < |headers| ==> headers[i] != headers[j]
    ensures Zip(headers, texts).keys == headers[..Min(|headers|, |texts|)]
    decreases |headers|
  {
    var n := Min(|headers|, |texts|);
    if n > 0 {
      var h', t' := headers[..n - 1], texts[..n - 1];
      ZipKeyOrder(h', t');
      assert Min(|h'|, |t'|) == n - 1;
      assert h'[..n - 1] == h';
      assert headers[n - 1] !in h';
      assert headers[..n] == h' + [headers[n - 1]];
    }
  }

  /** One more column pair, put after the earlier ones. */
  lemma ZipSnoc(headers: seq<string>, texts: seq<string>, j: nat)
    requires j < |headers| && j < |texts|
    ensures Zip(headers[..j + 1], texts[..j + 1]) == Put(Zip(headers[..j], texts[..j]), headers[j], texts[j])
  {
    assert headers[..j + 1][..j] == headers[..j];
    assert texts[..j + 1][..j] == texts[..j];
  }

  /** Zipping only looks at the first Min(|headers|, |texts|) columns. */
  lemma {:induction false} ZipPrefix(headers: seq<string>, texts: seq<string>)
    ensures Zip(headers, texts)
         == Zip(headers[..Min(|headers|, |texts|)], texts[..Min(|headers|, |texts|)])
  {
    var n := Min(|headers|, |texts|);
    if n > 0 {
      assert headers[..n][..n - 1] == headers[..n - 1];
      assert texts[..n][..n - 1] == texts[..n - 1];
    }
  }
}

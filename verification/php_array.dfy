/** PHP's ordered array with string keys, as the framework uses it for model
    attributes, request fields, database rows and statement bindings: a
    sequence of key/value entries whose keys are pairwise distinct. */
module PhpArray {
  import opened Php

  type Entry = (string, Value)

  /** No key occurs twice: the first key is absent from the rest, recursively. */
  predicate UniqueKeys(a: seq<Entry>) {
    |a| == 0 || (a[0].0 !in Keys(a[1..]) && UniqueKeys(a[1..]))
  }

  /** An ordered PHP array: no key occurs twice. */
  type Arr = a: seq<Entry> | UniqueKeys(a) witness []

  /** `array_keys`, in insertion order. */
  function Keys(a: seq<Entry>): (ks: seq<string>)
    ensures |ks| == |a|
    ensures forall i :: 0 <= i < |a| ==> ks[i] == a[i].0
  {
    if |a| == 0 then [] else [a[0].0] + Keys(a[1..])
  }

  /** `array_key_exists`. */
  predicate HasKey(a: seq<Entry>, k: string) {
    k in Keys(a)
  }

  /** `$a[k]`, or None when the key is absent. */
  function Get(a: seq<Entry>, k: string): (r: Option<Value>)
    ensures r.None? <==> !HasKey(a, k)
  {
    if |a| == 0 then None
    else if a[0].0 == k then Some(a[0].1)
    else Get(a[1..], k)
  }

  /** `$a[k]` read as a value: null (with PHP's undefined-index notice) when the key is absent. */
  function Read(a: seq<Entry>, k: string): Value {
    match Get(a, k)
    case Some(x) => x
    case None => Null
  }

  /** In an array with unique keys, `Get` returns the value stored beside the key. */
  lemma {:induction false} GetAt(a: Arr, i: nat)
    requires i < |a|
    ensures Get(a, a[i].0) == Some(a[i].1)
  {
    if i > 0 {
      assert a[1..][i - 1] == a[i];
      GetAt(a[1..], i - 1);
    }
  }

  /** How `Keys`, `Get` and `UniqueKeys` see an array built by prepending one entry. */
  lemma Cons(e: Entry, a: seq<Entry>)
    ensures ([e] + a)[0] == e && ([e] + a)[1..] == a
    ensures Keys([e] + a) == [e.0] + Keys(a)
    ensures forall k :: Get([e] + a, k) == if e.0 == k then Some(e.1) else Get(a, k)
    ensures UniqueKeys([e] + a) <==> e.0 !in Keys(a) && UniqueKeys(a)
  {
    assert ([e] + a)[1..] == a;
  }

  /** Lookup in a concatenation: the first part wins when it has the key. */
  lemma {:induction false} GetAppend(x: seq<Entry>, y: seq<Entry>, k: string)
    ensures Get(x + y, k) == if HasKey(x, k) then Get(x, k) else Get(y, k)
    decreases |x|
  {
    if |x| > 0 {
      assert (x + y)[0] == x[0];
      assert (x + y)[1..] == x[1..] + y;
      assert Keys(x) == [x[0].0] + Keys(x[1..]);
      GetAppend(x[1..], y, k);
    } else {
      assert x + y == y;
    }
  }

  lemma KeysAppend(x: seq<Entry>, y: seq<Entry>)
    ensures Keys(x + y) == Keys(x) + Keys(y)
  {
  }

  /** `[k => v]`. */
  function Singleton(k: string, v: Value): (a: Arr)
    ensures Keys(a) == [k]
    ensures Get(a, k) == Some(v)
    ensures forall k' :: k' != k ==> !HasKey(a, k')
  {
    Cons((k, v), []);
    assert [(k, v)] + [] == [(k, v)];
    [(k, v)]
  }

  /** `$a[k] = v`: an existing key keeps its position, a new key goes last. */
  function Set(a: Arr, k: string, v: Value): (r: Arr)
    ensures Keys(r) == if HasKey(a, k) then Keys(a) else Keys(a) + [k]
    ensures Get(r, k) == Some(v)
    ensures forall k' :: k' != k ==> Get(r, k') == Get(a, k')
  {
    if HasKey(a, k) then Overwrite(a, k, v) else Append(a, k, v)
  }

  /** Assignment to a key the array has: the value changes in place. */
  function Overwrite(a: Arr, k: string, v: Value): (r: Arr)
    requires HasKey(a, k)
    ensures Keys(r) == Keys(a)
    ensures Get(r, k) == Some(v)
    ensures forall k' :: k' != k ==> Get(r, k') == Get(a, k')
  {
    var r := Replaced(a, k, v);
    SameKeysUnique(r, a);
    OverwriteGet(a, k, v);
    r
  }

  /** Every entry under key `k` replaced by `(k, v)`; the keys stay as they are. */
  function Replaced(a: seq<Entry>, k: string, v: Value): (r: seq<Entry>)
    ensures |r| == |a|
    ensures forall i :: 0 <= i < |a| ==> r[i] == if a[i].0 == k then (k, v) else a[i]
    ensures Keys(r) == Keys(a)
  {
    var r := seq(|a|, i requires 0 <= i < |a| => if a[i].0 == k then (k, v) else a[i]);
    assert forall i :: 0 <= i < |a| ==> r[i].0 == a[i].0;
    r
  }

  /** Lookup after `Replaced`: the first entry under `k` now holds `v`, and
      every other key still finds what it found before. */
  lemma {:induction false} ReplacedGet(a: seq<Entry>, k: string, v: Value, k': string)
    ensures Get(Replaced(a, k, v), k') ==
      if k' != k then Get(a, k') else if HasKey(a, k) then Some(v) else None
    decreases |a|
  {
    if |a| > 0 {
      assert Replaced(a, k, v)[1..] == Replaced(a[1..], k, v);
      assert Keys(a) == [a[0].0] + Keys(a[1..]);
      ReplacedGet(a[1..], k, v, k');
    }
  }

  lemma OverwriteGet(a: Arr, k: string, v: Value)
    requires HasKey(a, k)
    ensures Get(Replaced(a, k, v), k) == Some(v)
    ensures forall k' :: k' != k ==> Get(Replaced(a, k, v), k') == Get(a, k')
  {
    ReplacedGet(a, k, v, k);
    forall k' | k' != k
      ensures Get(Replaced(a, k, v), k') == Get(a, k')
    {
      ReplacedGet(a, k, v, k');
    }
  }

  /** Assignment to a key the array lacks: the entry goes last. */
  function Append(a: Arr, k: string, v: Value): (r: Arr)
    requires !HasKey(a, k)
    ensures r == a + [(k, v)]
    ensures Keys(r) == Keys(a) + [k]
    ensures Get(r, k) == Some(v)
    ensures forall k' :: k' != k ==> Get(r, k') == Get(a, k')
  {
    AppendUnique(a, (k, v));
    var r := a + [(k, v)];
    assert Keys(r) == Keys(a) + [k];
    GetAt(r, |a|);
    forall k' | k' != k
      ensures Get(r, k') == Get(a, k')
    {
      if HasKey(a, k') {
        var i :| 0 <= i < |a| && Keys(a)[i] == k';
        assert r[i] == a[i];
        GetAt(r, i);
        GetAt(a, i);
      }
    }
    r
  }

  /** Whether keys repeat depends on the keys alone. */
  lemma {:induction false} SameKeysUnique(x: seq<Entry>, y: seq<Entry>)
    requires Keys(x) == Keys(y)
    ensures UniqueKeys(x) == UniqueKeys(y)
    decreases |x|
  {
    if |x| > 0 {
      assert Keys(x[1..]) == Keys(x)[1..] && Keys(y[1..]) == Keys(y)[1..];
      SameKeysUnique(x[1..], y[1..]);
    }
  }

  /** Appending an entry under a new key keeps the keys distinct. */
  lemma {:induction false} AppendUnique(a: Arr, e: Entry)
    requires e.0 !in Keys(a)
    ensures UniqueKeys(a + [e])
    decreases |a|
  {
    if |a| > 0 {
      assert (a + [e])[1..] == a[1..] + [e];
      assert Keys(a[1..] + [e]) == Keys(a[1..]) + [e.0];
      assert a[0].0 == Keys(a)[0] != e.0;
      AppendUnique(a[1..], e);
    }
  }

  /** The entries whose key satisfies `keep`, in their original order. */
  function Restrict(a: Arr, keep: string -> bool): (r: Arr)
    ensures forall k :: Get(r, k) == if keep(k) then Get(a, k) else None
    ensures forall i :: 0 <= i < |r| ==> r[i] in a && keep(r[i].0)
    ensures forall i :: 0 <= i < |a| && keep(a[i].0) ==> a[i] in r
    ensures |r| <= |a|
  {
    if |a| == 0 then []
    else
      Cons(a[0], a[1..]);
      assert [a[0]] + a[1..] == a;
      var rest := Restrict(a[1..], keep);
      if keep(a[0].0) then
        RestrictKeepsHead(a, rest);
        [a[0]] + rest
      else rest
  }

  /** The step of `Restrict` that keeps the first entry. */
  lemma RestrictKeepsHead(a: Arr, rest: Arr)
    requires |a| > 0
    requires forall i :: 0 <= i < |rest| ==> rest[i] in a[1..]
    ensures UniqueKeys([a[0]] + rest)
    ensures forall i :: 0 <= i < |[a[0]] + rest| ==> ([a[0]] + rest)[i] in a
  {
    Cons(a[0], rest);
    forall i | 0 <= i < |rest|
      ensures rest[i].0 != a[0].0 && rest[i] in a
    {
      var j :| 0 <= j < |a[1..]| && a[1..][j] == rest[i];
      assert Keys(a[1..])[j] == rest[i].0;
      assert a[j + 1] == rest[i];
    }
    forall i | 0 <= i < |[a[0]] + rest|
      ensures ([a[0]] + rest)[i] in a
    {
      if i > 0 {
        assert ([a[0]] + rest)[i] == rest[i - 1];
      }
    }
  }

  /** `unset($a[k])`. */
  function Unset(a: Arr, k: string): (r: Arr)
    ensures !HasKey(r, k)
    ensures forall k' :: k' != k ==> Get(r, k') == Get(a, k')
  {
    Restrict(a, k' => k' != k)
  }

  /** The keys of `ks` that are not keys of `a`, in `ks`'s order. */
  function Fresh(ks: seq<string>, a: seq<Entry>): (r: seq<string>)
    ensures forall k :: k in r <==> k in ks && !HasKey(a, k)
  {
    if |ks| == 0 then []
    else (if HasKey(a, ks[0]) then [] else [ks[0]]) + Fresh(ks[1..], a)
  }

  /** `foreach ($b as $k => $v) $a[$k] = $v;`: every entry of `b` overwrites or
      extends `a`; keys already in `a` keep their position and new keys follow
      in `b`'s order. */
  function Assign(a: Arr, b: Arr): (r: Arr)
    ensures forall k :: HasKey(b, k) ==> Get(r, k) == Get(b, k)
    ensures forall k :: !HasKey(b, k) ==> Get(r, k) == Get(a, k)
    decreases |b|
  {
    if |b| == 0 then a
    else
      Cons(b[0], b[1..]);
      assert [b[0]] + b[1..] == b;
      var a' := Set(a, b[0].0, b[0].1);
      var r := Assign(a', b[1..]);
      r
  }

  /** Setting a key outside `ks` does not change which keys of `ks` are new. */
  lemma {:induction false} FreshAfterSet(ks: seq<string>, a: Arr, k: string, v: Value)
    requires k !in ks
    ensures Fresh(ks, Set(a, k, v)) == Fresh(ks, a)
    decreases |ks|
  {
    if |ks| > 0 {
      assert HasKey(Set(a, k, v), ks[0]) <==> HasKey(a, ks[0]);
      FreshAfterSet(ks[1..], a, k, v);
    }
  }

  /** The key order `foreach` assignment produces: the keys of `a` keep their
      places and the keys new to `a` follow in `b`'s order. */
  lemma {:induction false} AssignKeyOrder(a: Arr, b: Arr)
    ensures Keys(Assign(a, b)) == Keys(a) + Fresh(Keys(b), a)
    decreases |b|, 1
  {
    if |b| > 0 {
      AssignKeyOrderStep(a, b);
    } else {
      AssignKeyOrderBase(a, b);
    }
  }

  lemma AssignKeyOrderBase(a: Arr, b: Arr)
    requires |b| == 0
    ensures Keys(Assign(a, b)) == Keys(a) + Fresh(Keys(b), a)
  {
    assert Assign(a, b) == a && Fresh(Keys(b), a) == [];
    assert Keys(a) + [] == Keys(a);
  }

  /** One entry of `b`: assign it, then the rest by induction. */
  lemma {:induction false} AssignKeyOrderStep(a: Arr, b: Arr)
    requires |b| > 0
    ensures Keys(Assign(a, b)) == Keys(a) + Fresh(Keys(b), a)
    decreases |b|, 0
  {
    AssignKeyOrder(Set(a, b[0].0, b[0].1), b[1..]);
    AssignUnfold(a, b);
    KeysFirst(b);
    FreshAfterSet(Keys(b[1..]), a, b[0].0, b[0].1);
    FreshStep(a, b[0].0, Keys(b[1..]));
  }

  lemma KeysFirst(b: Arr)
    requires |b| > 0
    ensures Keys(b) == [b[0].0] + Keys(b[1..])
    ensures b[0].0 !in Keys(b[1..])
  {
  }

  lemma FreshStep(a: Arr, k: string, ks: seq<string>)
    ensures Keys(a) + Fresh([k] + ks, a) == (if HasKey(a, k) then Keys(a) else Keys(a) + [k]) + Fresh(ks, a)
  {
    assert ([k] + ks)[0] == k && ([k] + ks)[1..] == ks;
  }

  /** Assigning entries whose keys are all new appends them unchanged. */
  lemma {:induction false} AssignDisjoint(a: Arr, b: Arr)
    requires forall i :: 0 <= i < |b| ==> !HasKey(a, b[i].0)
    ensures Assign(a, b) == a + b
    decreases |b|
  {
    if |b| > 0 {
      var e := b[0];
      var b' := b[1..];
      assert !HasKey(a, e.0);
      var a' := Set(a, e.0, e.1);
      assert a' == a + [(e.0, e.1)];
      DisjointAfterFirst(a, b);
      AssignDisjoint(a', b');
      AssignUnfold(a, b);
      ConcatShift(a, b);
    }
  }

  /** After moving the first entry of `b` into `a`, the rest of `b` is still disjoint from it. */
  lemma DisjointAfterFirst(a: Arr, b: Arr)
    requires |b| > 0
    requires forall i :: 0 <= i < |b| ==> !HasKey(a, b[i].0)
    ensures forall i :: 0 <= i < |b| - 1 ==> !HasKey(Set(a, b[0].0, b[0].1), b[1..][i].0)
  {
    Cons(b[0], b[1..]);
    assert [b[0]] + b[1..] == b;
    var a' := Set(a, b[0].0, b[0].1);
    forall i | 0 <= i < |b| - 1
      ensures !HasKey(a', b[1..][i].0)
    {
      assert b[1..][i] == b[i + 1];
      assert b[1..][i].0 in Keys(b[1..]);
    }
  }

  lemma ConcatShift(a: seq<Entry>, b: seq<Entry>)
    requires |b| > 0
    ensures a + [b[0]] + b[1..] == a + b
    ensures (b[0].0, b[0].1) == b[0]
  {
    assert [b[0]] + b[1..] == b;
  }

  lemma AssignUnfold(a: Arr, b: Arr)
    requires |b| > 0
    ensures Assign(a, b) == Assign(Set(a, b[0].0, b[0].1), b[1..])
  {
  }

  /** Copying an array entry by entry into an empty one yields the same array:
      the pairs, and their order, survive. */
  lemma CopyIsIdentity(a: Arr)
    ensures Assign([], a) == a
  {
    AssignDisjoint([], a);
    assert [] + a == a;
  }

  /** The global `only($data, $keys)` helper, which is not part of this model.
      Read here as a key filter: the entries of `a` whose key is listed in `keys`. */
  function Only(a: Arr, keys: seq<string>): (r: Arr)
    ensures forall k :: Get(r, k) == if k in keys then Get(a, k) else None
  {
    Restrict(a, k => k in keys)
  }

  /** The global `except($data, $keys)` helper, which is not part of this model.
      Read here as a key filter: the entries of `a` whose key is not listed in `keys`. */
  function Except(a: Arr, keys: seq<string>): (r: Arr)
    ensures forall k :: Get(r, k) == if k in keys then None else Get(a, k)
  {
    Restrict(a, k => k !in keys)
  }

  /** A `stdClass` object: its public properties in assignment order. */
  datatype StdClass = StdClass(props: Arr)

  /** `$o = new stdClass(); foreach ($a as $k => $v) $o->{$k} = $v;`:
      the object has exactly the array's key/value pairs, in the same order. */
  function ToObject(a: Arr): (o: StdClass)
    ensures o.props == a
  {
    CopyIsIdentity(a);
    StdClass(Assign([], a))
  }
}

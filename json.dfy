// A model of the JavaScript values the application manipulates: documents,
// option objects and arguments. Objects are ordered lists of entries, because
// JavaScript objects keep the insertion order of their string keys and the
// code relies on it (key ordering of returned documents, schema fields).
module Json {
  import opened Wrappers

  datatype Entry<V> = Entry(key: string, val: V)

  datatype Value =
    | Undefined
    | Null
    | Bool(b: bool)
    | Num(n: int)
    | Str(s: string)
    | Arr(items: seq<Value>)
    | Obj(fields: seq<Entry<Value>>)

  /** JavaScript truthiness: `undefined`, `null`, `false`, `0` and `""` are falsy;
      every array and object (even an empty one) is truthy. */
  predicate Truthy(v: Value)
  {
    match v
    case Undefined => false
    case Null => false
    case Bool(b) => b
    case Num(n) => n != 0
    case Str(s) => s != ""
    case Arr(_) => true
    case Obj(_) => true
  }

  /** `x == true` with loose equality, as far as the model's values go: the
      boolean, the number 1 and the string "1". */
  predicate LooselyTrue(v: Value)
  {
    v == Bool(true) || v == Num(1) || v == Str("1")
  }

  /** `x == null` in JavaScript: true of both `null` and `undefined`. */
  predicate IsNil(v: Value)
  {
    v.Undefined? || v.Null?
  }

  function Keys<V>(m: seq<Entry<V>>): (r: seq<string>)
    ensures |r| == |m|
    ensures forall k | 0 <= k < |m| :: r[k] == m[k].key
  {
    if m == [] then [] else [m[0].key] + Keys(m[1..])
  }

  /** The keys of a seven-entry object literal, in order. */
  lemma SevenKeys<V>(k1: string, k2: string, k3: string, k4: string, k5: string, k6: string, k7: string,
                     a: V, b: V, c: V, d: V, e: V, f: V, g: V)
    ensures Keys([Entry(k1, a), Entry(k2, b), Entry(k3, c), Entry(k4, d), Entry(k5, e), Entry(k6, f), Entry(k7, g)])
            == [k1, k2, k3, k4, k5, k6, k7]
  {
    var init := [Entry(k1, a), Entry(k2, b), Entry(k3, c), Entry(k4, d), Entry(k5, e), Entry(k6, f), Entry(k7, g)];
    var ks := [k1, k2, k3, k4, k5, k6, k7];
    assert |Keys(init)| == 7;
    forall k | 0 <= k < 7 ensures Keys(init)[k] == ks[k] {
    }
  }

  /** The keys of a JavaScript object are distinct. */
  predicate DistinctKeys<V>(m: seq<Entry<V>>)
  {
    forall i, j | 0 <= i < j < |m| :: m[i].key != m[j].key
  }

  /** Property lookup `o[key]`: the value stored under `key`, if any. */
  function Find<V>(m: seq<Entry<V>>, key: string): (r: Option<V>)
    ensures r.Some? <==> key in Keys(m)
  {
    if m == [] then None
    else if m[0].key == key then Some(m[0].val)
    else
      assert Keys(m) == [m[0].key] + Keys(m[1..]);
      Find(m[1..], key)
  }

  /** `o[key]` on a JavaScript object: `undefined` when the key is absent. */
  function Get(fields: seq<Entry<Value>>, key: string): Value
  {
    Find(fields, key).GetOr(Undefined)
  }

  /** `_.has(o, key)` for a top-level key. */
  predicate Has<V>(m: seq<Entry<V>>, key: string)
  {
    key in Keys(m)
  }

  /** Looking a key up in an object that starts with entry `e`. */
  lemma FindCons<V>(e: Entry<V>, rest: seq<Entry<V>>)
    ensures forall key :: Find([e] + rest, key) == if e.key == key then Some(e.val) else Find(rest, key)
  {
    assert ([e] + rest)[1..] == rest;
  }

  /** The keys of an object that starts with entry `e`. */
  lemma KeysCons<V>(e: Entry<V>, rest: seq<Entry<V>>)
    ensures Keys([e] + rest) == [e.key] + Keys(rest)
  {
    assert ([e] + rest)[1..] == rest;
  }

  /** What `o[key] = v` promises about the object `r` it leaves. */
  ghost predicate Assigned<V>(m: seq<Entry<V>>, key: string, v: V, r: seq<Entry<V>>)
  {
    Find(r, key) == Some(v) &&
    (forall other | other != key :: Find(r, other) == Find(m, other)) &&
    (key in Keys(m) ==> Keys(r) == Keys(m)) &&
    (key !in Keys(m) ==> Keys(r) == Keys(m) + [key])
  }

  /** Assigning to the first key replaces its entry. */
  lemma AssignedHead<V>(m: seq<Entry<V>>, key: string, v: V)
    requires m != [] && m[0].key == key
    ensures Assigned(m, key, v, [Entry(key, v)] + m[1..])
  {
    assert m == [m[0]] + m[1..];
    KeysCons(m[0], m[1..]);
    FindCons(m[0], m[1..]);
    KeysCons(Entry(key, v), m[1..]);
    FindCons(Entry(key, v), m[1..]);
  }

  /** Assigning past a first entry of another key keeps that entry first. */
  lemma AssignedCons<V>(m: seq<Entry<V>>, key: string, v: V, rest: seq<Entry<V>>)
    requires m != [] && m[0].key != key
    requires Assigned(m[1..], key, v, rest)
    ensures Assigned(m, key, v, [m[0]] + rest)
  {
    ConsKeys(m, key, rest);
    FindCons(m[0], rest);
  }

  /** The key list after assigning past a first entry of another key. */
  lemma ConsKeys<V>(m: seq<Entry<V>>, key: string, rest: seq<Entry<V>>)
    requires m != [] && m[0].key != key
    requires key in Keys(m[1..]) ==> Keys(rest) == Keys(m[1..])
    requires key !in Keys(m[1..]) ==> Keys(rest) == Keys(m[1..]) + [key]
    ensures key in Keys(m) ==> Keys([m[0]] + rest) == Keys(m)
    ensures key !in Keys(m) ==> Keys([m[0]] + rest) == Keys(m) + [key]
  {
    var tail := Keys(m[1..]);
    assert m == [m[0]] + m[1..];
    KeysCons(m[0], m[1..]);
    KeysCons(m[0], rest);
    assert Keys(m) == [m[0].key] + tail;
    assert key in Keys(m) <==> key in tail;
    if key !in tail {
      assert Keys(rest) == tail + [key];
      assert [m[0].key] + (tail + [key]) == ([m[0].key] + tail) + [key];
    }
  }

  /** Assignment `o[key] = v`: an existing key keeps its position and takes the
      new value; a new key is appended at the end. */
  function Put<V>(m: seq<Entry<V>>, key: string, v: V): (r: seq<Entry<V>>)
    ensures Find(r, key) == Some(v)
    ensures forall other | other != key :: Find(r, other) == Find(m, other)
    ensures key in Keys(m) ==> Keys(r) == Keys(m)
    ensures key !in Keys(m) ==> Keys(r) == Keys(m) + [key]
  {
    if m == [] then [Entry(key, v)]
    else if m[0].key == key then
      AssignedHead(m, key, v);
      [Entry(key, v)] + m[1..]
    else
      var rest := Put(m[1..], key, v);
      AssignedCons(m, key, v, rest);
      [m[0]] + rest
  }

  /** Looking a key up after an assignment. */
  lemma PutFind<V>(m: seq<Entry<V>>, k: string, v: V, key: string)
    ensures Find(Put(m, k, v), key) == if key == k then Some(v) else Find(m, key)
  {
  }

  /** `delete o[key]`. */
  function Remove<V>(m: seq<Entry<V>>, key: string): (r: seq<Entry<V>>)
    ensures Find(r, key) == None
    ensures forall other | other != key :: Find(r, other) == Find(m, other)
  {
    if m == [] then []
    else if m[0].key == key then Remove(m[1..], key)
    else [m[0]] + Remove(m[1..], key)
  }

  /** `_.assignIn(target, source)`: every entry of `source`, in order, assigned
      into `target`. */
  function AssignIn<V>(target: seq<Entry<V>>, source: seq<Entry<V>>): (r: seq<Entry<V>>)
    decreases |source|
  {
    if source == [] then target
    else AssignIn(Put(target, source[0].key, source[0].val), source[1..])
  }

  lemma {:induction false} PutKeepsDistinct<V>(m: seq<Entry<V>>, key: string, v: V)
    requires DistinctKeys(m)
    ensures DistinctKeys(Put(m, key, v))
  {
    var r := Put(m, key, v);
    forall i, j | 0 <= i < j < |r| ensures r[i].key != r[j].key {
      assert Keys(r)[i] == r[i].key && Keys(r)[j] == r[j].key;
      if key in Keys(m) {
        assert Keys(m)[i] == m[i].key && Keys(m)[j] == m[j].key;
      } else {
        if j < |m| {
          assert Keys(m)[i] == m[i].key && Keys(m)[j] == m[j].key;
        } else {
          assert Keys(r)[j] == key;
          assert Keys(m)[i] == Keys(r)[i];
        }
      }
    }
  }

  // ---------------------------------------------------------------------------
  // Conversion to a string
  // ---------------------------------------------------------------------------

  function DigitChar(d: nat): (c: char)
    requires d < 10
    ensures '0' <= c <= '9'
  {
    "0123456789"[d]
  }

  /** The decimal digits of `n`, without leading zeros. */
  function NatToString(n: nat): (r: string)
    ensures r != [] && forall k | 0 <= k < |r| :: '0' <= r[k] <= '9'
    ensures |r| > 1 ==> r[0] != '0'
  {
    if n < 10 then [DigitChar(n)] else NatToString(n / 10) + [DigitChar(n % 10)]
  }

  function IntToString(i: int): (r: string)
    ensures r != []
  {
    if i < 0 then "-" + NatToString(-i) else NatToString(i)
  }

  /** `String(v)`: arrays are joined with `,` (their `null` and `undefined`
      elements giving `""`), every other object is `[object Object]`. */
  function ToStr(v: Value): string
    decreases v, 1, 0
  {
    match v
    case Undefined => "undefined"
    case Null => "null"
    case Bool(b) => if b then "true" else "false"
    case Num(n) => IntToString(n)
    case Str(s) => s
    case Arr(items) => JoinFrom(v, 0, ",")
    case Obj(_) => "[object Object]"
  }

  /** `items.slice(k).join(sep)` for the array `a`. */
  function JoinFrom(a: Value, k: nat, sep: string): string
    requires a.Arr?
    decreases a, 0, |a.items| - k
  {
    if k >= |a.items| then ""
    else
      var head := if IsNil(a.items[k]) then "" else ToStr(a.items[k]);
      if k + 1 == |a.items| then head else head + sep + JoinFrom(a, k + 1, sep)
  }
}

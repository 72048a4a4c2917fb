/**
 * Plain JavaScript objects used as dictionaries: the `rooms` table, a room's
 * `players` and `guesses`. What the server relies on is the order in which
 * `for..in`, `Object.keys` and `Object.values` visit the own string keys:
 * array-index keys first, in ascending numeric order, then every other key in
 * the order it was first inserted (ECMAScript, section 10.1.11.1,
 * OrdinaryOwnPropertyKeys).
 */
module JsObject {
  import opened Wrappers

  predicate IsDigit(c: char) { '0' <= c <= '9' }

  predicate AllDigits(s: string) { forall i | 0 <= i < |s| :: IsDigit(s[i]) }

  /** The number a string of decimal digits denotes. */
  function DigitsValue(s: string): nat
    requires AllDigits(s)
  {
    if s == [] then 0 else DigitsValue(s[..|s| - 1]) * 10 + (s[|s| - 1] as int - '0' as int)
  }

  /** The largest array index, 2^32 - 2. */
  const MaxArrayIndex: nat := 0xFFFF_FFFE

  /** The value of `key` when it is an array index: the canonical decimal form of an integer in 0 .. 2^32 - 2. */
  function ArrayIndex(key: string): (r: Option<nat>)
    ensures r.Some? ==> |key| > 0 && AllDigits(key) && r.value <= MaxArrayIndex
    ensures r.Some? && |key| > 1 ==> key[0] != '0'
  {
    if |key| > 0 && AllDigits(key) && (|key| == 1 || key[0] != '0') && DigitsValue(key) <= MaxArrayIndex
    then Some(DigitsValue(key))
    else None
  }

  predicate IsIndex(key: string) { ArrayIndex(key).Some? }

  predicate AllIndices(s: seq<string>) { forall i | 0 <= i < |s| :: IsIndex(s[i]) }

  /** Array-index keys in ascending numeric order. */
  predicate Ascending(s: seq<string>)
    requires AllIndices(s)
  {
    forall i | 0 < i < |s| :: ArrayIndex(s[i - 1]).value <= ArrayIndex(s[i]).value
  }

  ghost predicate Distinct<T>(s: seq<T>) { forall i, j | 0 <= i < j < |s| :: s[i] != s[j] }

  /** Inserts the array-index key `key` into an ascending run of array-index keys. */
  function InsertAscending(key: string, sorted: seq<string>): (r: seq<string>)
    requires IsIndex(key) && AllIndices(sorted) && Ascending(sorted)
    ensures AllIndices(r) && Ascending(r)
    ensures multiset(r) == multiset(sorted) + multiset{key}
    ensures |r| > 0 && (r[0] == key || (sorted != [] && r[0] == sorted[0]))
  {
    if sorted == [] then [key]
    else if ArrayIndex(key).value <= ArrayIndex(sorted[0]).value then [key] + sorted
    else
      var rest := InsertAscending(key, sorted[1..]);
      assert sorted == [sorted[0]] + sorted[1..];
      [sorted[0]] + rest
  }

  /** The array-index keys among `keys`, ascending. */
  function IndexKeys(keys: seq<string>): (r: seq<string>)
    ensures AllIndices(r) && Ascending(r)
  {
    if keys == [] then []
    else if IsIndex(keys[0]) then InsertAscending(keys[0], IndexKeys(keys[1..]))
    else IndexKeys(keys[1..])
  }

  /** The other keys among `keys`, in their original (insertion) order. */
  function OtherKeys(keys: seq<string>): (r: seq<string>)
    ensures forall i | 0 <= i < |r| :: !IsIndex(r[i])
  {
    if keys == [] then []
    else if IsIndex(keys[0]) then OtherKeys(keys[1..])
    else [keys[0]] + OtherKeys(keys[1..])
  }

  /** Each array-index key occurs in `IndexKeys(keys)` as often as in `keys`, and no other key does. */
  lemma {:induction false} IndexKeysCount(keys: seq<string>)
    ensures forall k :: multiset(IndexKeys(keys))[k] == if IsIndex(k) then multiset(keys)[k] else 0
  {
    if keys != [] {
      IndexKeysCount(keys[1..]);
      assert keys == [keys[0]] + keys[1..];
    }
  }

  /** Each other key occurs in `OtherKeys(keys)` as often as in `keys`, and no array-index key does. */
  lemma {:induction false} OtherKeysCount(keys: seq<string>)
    ensures forall k :: multiset(OtherKeys(keys))[k] == if IsIndex(k) then 0 else multiset(keys)[k]
  {
    if keys != [] {
      OtherKeysCount(keys[1..]);
      assert keys == [keys[0]] + keys[1..];
    }
  }

  /** The order in which `for..in` and `Object.keys` visit an object whose keys were inserted as `keys`. */
  function PropertyOrder(keys: seq<string>): (r: seq<string>)
    ensures |r| == |keys|
  {
    IndexKeysCount(keys);
    OtherKeysCount(keys);
    assert multiset(IndexKeys(keys)) + multiset(OtherKeys(keys)) == multiset(keys);
    IndexKeys(keys) + OtherKeys(keys)
  }

  /** The visiting order is a permutation of the inserted keys. */
  lemma PropertyOrderPermutes(keys: seq<string>)
    ensures multiset(PropertyOrder(keys)) == multiset(keys)
  {
    IndexKeysCount(keys);
    OtherKeysCount(keys);
    assert forall k :: multiset(PropertyOrder(keys))[k] == multiset(keys)[k];
  }

  /** Every array-index key comes before every other key, and the array-index keys ascend. */
  lemma PropertyOrderShape(keys: seq<string>)
    ensures var r := PropertyOrder(keys);
      exists n :: 0 <= n <= |r| && AllIndices(r[..n]) && Ascending(r[..n])
                  && forall i | n <= i < |r| :: !IsIndex(r[i])
  {
    var r := PropertyOrder(keys);
    var n := |IndexKeys(keys)|;
    assert r[..n] == IndexKeys(keys);
  }

  /** With no array-index key among them, keys are visited in insertion order. */
  lemma {:induction false} PropertyOrderNoIndices(keys: seq<string>)
    requires forall i | 0 <= i < |keys| :: !IsIndex(keys[i])
    ensures PropertyOrder(keys) == keys
  {
    if keys != [] {
      PropertyOrderNoIndices(keys[1..]);
    }
  }

  /** A sequence has no repetitions exactly when no element occurs twice in its multiset. */
  lemma {:induction false} DistinctMultiplicity<T>(s: seq<T>)
    ensures Distinct(s) <==> forall x :: multiset(s)[x] <= 1
  {
    if s != [] {
      DistinctMultiplicity(s[1..]);
      assert s == [s[0]] + s[1..];
      if Distinct(s) {
        assert s[0] !in s[1..];
        assert Distinct(s[1..]);
      } else {
        var i, j :| 0 <= i < j < |s| && s[i] == s[j];
        if i == 0 {
          assert s[j] in s[1..];
          assert multiset(s)[s[0]] >= 2;
        } else {
          assert !Distinct(s[1..]) by { assert s[1..][i - 1] == s[1..][j - 1]; }
          var x :| multiset(s[1..])[x] > 1;
          assert multiset(s)[x] > 1;
        }
      }
    }
  }

  /** A permutation of a sequence without repetitions has none either. */
  lemma PermutationKeepsDistinct<T>(a: seq<T>, b: seq<T>)
    requires multiset(a) == multiset(b) && Distinct(a)
    ensures Distinct(b)
  {
    DistinctMultiplicity(a);
    DistinctMultiplicity(b);
  }

  /** `s` without the element `x`, order kept. */
  function Without(s: seq<string>, x: string): (r: seq<string>)
    ensures forall y :: y in r <==> y in s && y != x
    ensures x !in s ==> r == s
  {
    if s == [] then []
    else if s[0] == x then Without(s[1..], x)
    else [s[0]] + Without(s[1..], x)
  }

  /** Removing a key that occurs once cuts exactly that position out of the sequence. */
  lemma {:induction false} WithoutCutsOut(s: seq<string>, x: string)
    requires Distinct(s) && x in s
    ensures Without(s, x) == s[..IndexOf(s, x)] + s[IndexOf(s, x) + 1..]
  {
    if s[0] == x {
      assert x !in s[1..] by { assert forall j | 1 <= j < |s| :: s[j] != s[0]; }
      assert Without(s[1..], x) == s[1..];
    } else {
      assert Distinct(s[1..]) by { assert forall p, q | 0 <= p < q < |s| - 1 :: s[1..][p] == s[p + 1] && s[1..][q] == s[q + 1]; }
      WithoutCutsOut(s[1..], x);
      var i := IndexOf(s[1..], x);
      assert [s[0]] + s[1..][..i] == s[..i + 1];
      assert s[1..][i + 1..] == s[i + 2..];
    }
  }

  /** Cutting one position out of a sequence without repetitions leaves one without repetitions. */
  lemma DistinctCut(s: seq<string>, i: nat)
    requires Distinct(s) && i < |s|
    ensures Distinct(s[..i] + s[i + 1..]) && |s[..i] + s[i + 1..]| == |s| - 1
  {
    var r := s[..i] + s[i + 1..];
    forall p, q | 0 <= p < q < |r| ensures r[p] != r[q] {
      var p' := if p < i then p else p + 1;
      var q' := if q < i then q else q + 1;
      assert r[p] == s[p'] && r[q] == s[q'];
    }
  }

  /** The position of the first occurrence of `x` in `s`. */
  function IndexOf(s: seq<string>, x: string): (i: nat)
    requires x in s
    ensures i < |s| && s[i] == x && x !in s[..i]
  {
    if s[0] == x then 0 else IndexOf(s[1..], x) + 1
  }

  /**
   * A JavaScript object used as a dictionary: its keys in insertion order and
   * its entries. Assigning to an existing key keeps its place; deleting a key
   * and assigning it again puts it last.
   */
  datatype Dict<V> = Dict(keys: seq<string>, entries: map<string, V>) {
    ghost predicate Valid() {
      Distinct(keys) && forall k :: k in entries <==> k in keys
    }

    function Size(): nat { |keys| }

    /** `obj[key] = value` */
    function Put(key: string, value: V): (d: Dict<V>)
      ensures d.entries == entries[key := value]
      ensures key in entries ==> d.keys == keys
      ensures key !in entries ==> d.keys == keys + [key]
    {
      if key in entries then Dict(keys, entries[key := value]) else Dict(keys + [key], entries[key := value])
    }

    /** Assigning keeps the dictionary well formed; a new key adds one entry, an existing key none. */
    lemma PutValid(key: string, value: V)
      requires Valid()
      ensures Put(key, value).Valid()
      ensures Put(key, value).Size() == if key in entries then Size() else Size() + 1
    {
      if key !in entries {
        assert key !in keys;
      }
    }

    /** A second assignment to the same key overrides the first and keeps its place. */
    lemma PutPut(key: string, first: V, second: V)
      ensures Put(key, first).Put(key, second) == Put(key, second)
    {
      assert entries[key := first][key := second] == entries[key := second];
    }

    /** `delete obj[key]` */
    function Delete(key: string): (d: Dict<V>)
      requires Valid()
      ensures d.Valid()
      ensures d.entries == entries - {key}
      ensures d.keys == Without(keys, key)
      ensures key in entries ==> d.Size() == Size() - 1
      ensures key in entries ==> d.keys == keys[..IndexOf(keys, key)] + keys[IndexOf(keys, key) + 1..]
      ensures key !in entries ==> d == this
    {
      if key in entries then
        WithoutCutsOut(keys, key);
        DistinctCut(keys, IndexOf(keys, key));
        Dict(Without(keys, key), entries - {key})
      else Dict(keys, entries)
    }

    /** `Object.keys(obj)`, also the order of `Object.values(obj)` and `for..in`. */
    function Keys(): (ks: seq<string>)
      requires Valid()
      ensures Distinct(ks)
      ensures forall k :: k in ks <==> k in entries
      ensures |ks| == Size()
    {
      var ks := PropertyOrder(keys);
      PropertyOrderPermutes(keys);
      PermutationKeepsDistinct(keys, ks);
      assert forall k :: k in ks <==> k in multiset(keys);
      assert |ks| == |multiset(ks)| == |multiset(keys)| == |keys|;
      ks
    }
  }

  function EmptyDict<V>(): (d: Dict<V>)
    ensures d.Valid() && d.Size() == 0 && d.entries == map[]
  {
    Dict([], map[])
  }
}

/** The parts of the Ruby runtime that the permission library leans on:
    the objects its callers pass in, insertion-ordered hashes, Array#to_h,
    and the String operations used to lay out a bit string. */
module Ruby {

  datatype Option<T> = None | Some(value: T)

  /** A Ruby call either returns a value or raises an exception. */
  datatype Result<T, E> = Success(value: T) | Failure(error: E)

  /** The Ruby objects that reach the library: permission names are symbols,
      the flags passed to `set` are whatever the caller wrote. */
  datatype Value =
    | Nil
    | Bool(b: bool)
    | Int(i: int)
    | Str(s: string)
    | Sym(name: string)
    | Arr(items: seq<Value>)

  /** Ruby truthiness: only `nil` and `false` are falsy. */
  predicate Truthy(v: Value) {
    !(v.Nil? || v == Bool(false))
  }

  predicate Distinct<T(==)>(s: seq<T>) {
    forall i, j :: 0 <= i < j < |s| ==> s[i] != s[j]
  }

  /** A Ruby Hash: its keys in insertion order and the value stored under each. */
  datatype Hash<K(==,!new), V> = Hash(keys: seq<K>, vals: map<K, V>) {

    /** What every Ruby Hash satisfies: each key once, and exactly the listed keys stored. */
    ghost predicate Valid() {
      && Distinct(keys)
      && (forall k :: k in vals <==> k in keys)
    }

    /** `h[k] = v`: an existing key keeps its position, a new key goes last. */
    function Store(k: K, v: V): (h: Hash<K, V>)
      ensures Valid() ==> h.Valid()
      ensures k in h.vals && h.vals[k] == v
      ensures forall x :: x != k ==> (x in h.vals <==> x in vals)
      ensures forall x :: x != k && x in vals ==> h.vals[x] == vals[x]
      ensures k in vals ==> h.keys == keys
      ensures k !in vals ==> h.keys == keys + [k]
    {
      Hash(if k in vals then keys else keys + [k], vals[k := v])
    }

    /** `h.values`, in key order. */
    function Values(): seq<V>
      requires Valid()
    {
      seq(|keys|, i requires 0 <= i < |keys| => vals[keys[i]])
    }

    /** `h.each`: the key/value pairs in key order. */
    function Entries(): seq<(K, V)>
      requires Valid()
    {
      seq(|keys|, i requires 0 <= i < |keys| => (keys[i], vals[keys[i]]))
    }
  }

  /** Two hashes with the same keys, in the same order, holding the same value
      under each key are the same hash. */
  lemma HashEquality<K(!new), V>(h: Hash<K, V>, g: Hash<K, V>)
    requires h.Valid() && g.Valid() && h.keys == g.keys
    requires forall i :: 0 <= i < |h.keys| ==> h.vals[h.keys[i]] == g.vals[h.keys[i]]
    ensures h == g
  {
    assert h.vals.Keys == g.vals.Keys;
    forall k | k in h.vals ensures h.vals[k] == g.vals[k] {
      var i :| 0 <= i < |h.keys| && h.keys[i] == k;
    }
  }

  /** The keys of a list of pairs (`pairs.map(&:first)`). */
  function Firsts<K, V>(pairs: seq<(K, V)>): seq<K> {
    seq(|pairs|, i requires 0 <= i < |pairs| => pairs[i].0)
  }

  /** `Array#to_h` on an array of pairs: pairs are stored one after another,
      so a repeated key keeps its first position and takes its last value. */
  function PairsToHash<K(==,!new), V>(pairs: seq<(K, V)>): (h: Hash<K, V>)
    ensures h.Valid()
    ensures forall k :: k in h.vals <==> k in Firsts(pairs)
  {
    if pairs == [] then Hash([], map[])
    else
      var n := |pairs| - 1;
      assert Firsts(pairs) == Firsts(pairs[..n]) + [pairs[n].0];
      PairsToHash(pairs[..n]).Store(pairs[n].0, pairs[n].1)
  }

  /** The elements of `s` in order of first occurrence (`Array#uniq`). */
  function Dedup<T(==,!new)>(s: seq<T>): (d: seq<T>)
    ensures Distinct(d)
    ensures forall x :: x in d <==> x in s
  {
    if s == [] then []
    else
      var n := |s| - 1;
      assert forall x :: x in s <==> x in s[..n] || x == s[n];
      if s[n] in s[..n] then Dedup(s[..n]) else Dedup(s[..n]) + [s[n]]
  }

  /** The position of the last occurrence of `x` in `s`. */
  function LastIndex<T(==)>(s: seq<T>, x: T): (r: nat)
    requires x in s
    ensures r < |s| && s[r] == x
    ensures forall j :: r < j < |s| ==> s[j] != x
  {
    var n := |s| - 1;
    if s[n] == x then n
    else
      assert x in s[..n] by { var k :| 0 <= k < |s| && s[k] == x; assert k < n && s[..n][k] == x; }
      LastIndex(s[..n], x)
  }

  lemma {:induction false} DedupOfDistinct<T(!new)>(s: seq<T>)
    requires Distinct(s)
    ensures Dedup(s) == s
  {
    if s != [] {
      var n := |s| - 1;
      DedupOfDistinct(s[..n]);
      assert s[n] !in s[..n];
      assert s == s[..n] + [s[n]];
    }
  }

  lemma LastIndexOfDistinct<T>(s: seq<T>, i: nat)
    requires Distinct(s) && i < |s|
    ensures LastIndex(s, s[i]) == i
  {
  }

  /** Array#to_h keeps each key at the position of its first pair. */
  lemma {:induction false} PairsToHashKeys<K(!new), V>(pairs: seq<(K, V)>)
    ensures PairsToHash(pairs).keys == Dedup(Firsts(pairs))
  {
    if pairs != [] {
      var n := |pairs| - 1;
      assert Firsts(pairs) == Firsts(pairs[..n]) + [pairs[n].0];
      PairsToHashKeys(pairs[..n]);
      assert Firsts(pairs)[..n] == Firsts(pairs[..n]);
    }
  }

  /** Array#to_h stores, under each key, the value of its last pair. */
  lemma {:induction false} PairsToHashLastWins<K(!new), V>(pairs: seq<(K, V)>)
    ensures forall k :: k in PairsToHash(pairs).vals ==>
      k in Firsts(pairs) && PairsToHash(pairs).vals[k] == pairs[LastIndex(Firsts(pairs), k)].1
  {
    if pairs != [] {
      var n := |pairs| - 1;
      var p := pairs[..n];
      PairsToHashLastWins(p);
      var fs, fp := Firsts(pairs), Firsts(p);
      assert fs[..n] == fp;
      var h, hp := PairsToHash(pairs), PairsToHash(p);
      forall k | k in h.vals
        ensures h.vals[k] == pairs[LastIndex(fs, k)].1
      {
        if k != pairs[n].0 {
          assert h.vals[k] == hp.vals[k];
          assert LastIndex(fs, k) == LastIndex(fp, k);
        }
      }
    }
  }

  /** With distinct keys, Array#to_h stores each pair's value under its key. */
  lemma PairsToHashValueAt<K(!new), V>(pairs: seq<(K, V)>, i: nat)
    requires Distinct(Firsts(pairs)) && i < |pairs|
    ensures pairs[i].0 in PairsToHash(pairs).vals
    ensures PairsToHash(pairs).vals[pairs[i].0] == pairs[i].1
  {
    var fs := Firsts(pairs);
    assert fs[i] == pairs[i].0 && fs[i] in fs;
    LastIndexOfDistinct(fs, i);
    PairsToHashLastWins(pairs);
  }

  /** With distinct keys, Array#to_h keeps every pair, in order. */
  lemma PairsToHashOfDistinct<K(!new), V>(pairs: seq<(K, V)>)
    requires Distinct(Firsts(pairs))
    ensures PairsToHash(pairs).keys == Firsts(pairs)
    ensures forall i :: 0 <= i < |pairs| ==>
      pairs[i].0 in PairsToHash(pairs).vals && PairsToHash(pairs).vals[pairs[i].0] == pairs[i].1
  {
    PairsToHashKeys(pairs);
    DedupOfDistinct(Firsts(pairs));
    forall i | 0 <= i < |pairs|
      ensures pairs[i].0 in PairsToHash(pairs).vals && PairsToHash(pairs).vals[pairs[i].0] == pairs[i].1
    {
      PairsToHashValueAt(pairs, i);
    }
  }

  /** `Array#sum`. */
  function Sum(s: seq<nat>): nat {
    if s == [] then 0 else Sum(s[..|s| - 1]) + s[|s| - 1]
  }

  /** `String#reverse`. */
  function Reverse(s: string): string {
    seq(|s|, i requires 0 <= i < |s| => s[|s| - 1 - i])
  }

  lemma ReverseDigit(s: string, i: nat, x: char)
    requires i < |s| && s[|s| - 1 - i] == x
    ensures |Reverse(s)| == |s| && Reverse(s)[i] == x
  {
  }

  /** `String#rjust(width, pad)` with a one-character pad: a string already
      `width` wide comes back unchanged, a shorter one is padded on the left. */
  function RJust(s: string, width: nat, pad: char): (r: string)
    ensures |s| >= width ==> r == s
    ensures |s| < width ==>
              && |r| == width
              && (forall i :: 0 <= i < width - |s| ==> r[i] == pad)
              && (forall i :: width - |s| <= i < width ==> r[i] == s[i - (width - |s|)])
  {
    if |s| >= width then s else seq(width - |s|, _ => pad) + s
  }
}

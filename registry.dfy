/** The permission table of the library: the default PERMISSIONS_MAP,
    `permissions_map`, which builds a table from a list of names, and the
    registry that `load_permissions_map!` updates. */
module Registry {
  import opened Ruby
  import opened Bits

  /** The exceptions the library raises. All of them are ArgumentErrors except
      NoMethodError, which is what `permissions_map` raises as written. */
  datatype Error =
    | UnknownPermissions(keys: seq<Value>)  // `set`: the keys missing from the table
    | NonBooleanValue                       // `set`: a flag that is not exactly true or false
    | UnknownPermission(key: Value)         // `peek`: a name missing from the table
    | UnknownType(kind: Value)              // `to_a`, `to_h`: not one of :str, :int, :bool
    | NotSymbolArray                        // `permissions_map`: input not an array of symbols
    | NoMethodError(name: string)           // calling an undefined method

  /** PERMISSIONS_MAP: permission name (a symbol) to its bit value, in definition order. */
  type PermMap = Hash<Value, nat>

  /** The table PermissionSeries starts with. */
  const DefaultMap: PermMap :=
    Hash([Sym("read"), Sym("create"), Sym("update"), Sym("destroy")],
         map[Sym("read") := 1, Sym("create") := 2, Sym("update") := 4, Sym("destroy") := 8])

  /** What every table the library installs satisfies: symbol keys whose bits
      are pairwise-distinct powers of two. */
  ghost predicate WellFormed(m: PermMap) {
    && m.Valid()
    && (forall k :: k in m.vals ==> k.Sym? && IsPow2(m.vals[k]))
    && (forall k, k' :: k in m.vals && k' in m.vals && k != k' ==> m.vals[k] != m.vals[k'])
  }

  /** The i-th key holds bit i: the layout `to_a` and `to_s` index by. */
  ghost predicate Aligned(m: PermMap) {
    m.Valid() && forall i :: 0 <= i < |m.keys| ==> m.vals[m.keys[i]] == Pow2(i)
  }

  predicate IsSymbolArray(v: Value) {
    v.Arr? && forall i :: 0 <= i < |v.items| ==> v.items[i].Sym?
  }

  /** `names.map.with_index { |name, i| [name, 2**i] }.to_h` */
  function BitTable(names: seq<Value>): PermMap {
    PairsToHash(seq(|names|, i requires 0 <= i < |names| => (names[i], Pow2(i))))
  }

  /** `permissions_map` as written: the guard calls `ArgumentError(...)`, a method
      that does not exist, so a rejected input raises NoMethodError. */
  function PermissionsMapAsWritten(permissions: Value): (r: Result<PermMap, Error>)
    ensures r.Success? <==> IsSymbolArray(permissions)
    ensures r.Failure? ==> r.error == NoMethodError("ArgumentError")
  {
    if IsSymbolArray(permissions) then Success(BitTable(permissions.items))
    else Failure(NoMethodError("ArgumentError"))
  }

  /** `permissions_map` as intended: a rejected input raises an ArgumentError. */
  function PermissionsMap(permissions: Value): (r: Result<PermMap, Error>)
    ensures r.Success? <==> IsSymbolArray(permissions)
    ensures r.Failure? ==> r.error == NotSymbolArray
    ensures r.Success? ==> r == PermissionsMapAsWritten(permissions)
  {
    match PermissionsMapAsWritten(permissions)
    case Success(m) => Success(m)
    case Failure(_) => Failure(NotSymbolArray)
  }

  // ---------------------------------------------------------------------
  // What the tables look like

  lemma FirstsOfBitPairs(names: seq<Value>)
    ensures Firsts(seq(|names|, i requires 0 <= i < |names| => (names[i], Pow2(i)))) == names
  {
  }

  /** For distinct names, name i gets bit 2^i and the names keep their order. */
  lemma BitTableOfDistinct(names: seq<Value>)
    requires Distinct(names)
    ensures BitTable(names).keys == names
    ensures forall i :: 0 <= i < |names| ==> BitTable(names).vals[names[i]] == Pow2(i)
    ensures Aligned(BitTable(names))
  {
    var pairs := seq(|names|, i requires 0 <= i < |names| => (names[i], Pow2(i)));
    FirstsOfBitPairs(names);
    PairsToHashOfDistinct(pairs);
    assert forall i :: 0 <= i < |names| ==> pairs[i].0 == names[i];
  }

  /** A repeated name keeps the position of its first occurrence but gets the
      bit of its last one, so the table has one entry per distinct name. */
  lemma BitTableLastWins(names: seq<Value>)
    ensures BitTable(names).keys == Dedup(names)
    ensures forall k :: k in BitTable(names).vals ==>
      k in names && BitTable(names).vals[k] == Pow2(LastIndex(names, k))
  {
    var pairs := seq(|names|, i requires 0 <= i < |names| => (names[i], Pow2(i)));
    FirstsOfBitPairs(names);
    PairsToHashKeys(pairs);
    PairsToHashLastWins(pairs);
  }

  /** Every table built from an array of symbols is well formed, duplicates or not. */
  lemma BitTableWellFormed(names: seq<Value>)
    requires forall i :: 0 <= i < |names| ==> names[i].Sym?
    ensures WellFormed(BitTable(names))
  {
    var t := BitTable(names);
    BitTableLastWins(names);
    forall k | k in t.vals
      ensures k.Sym? && IsPow2(t.vals[k])
    {
      Log2OfPow2(LastIndex(names, k));
    }
    forall k, k' | k in t.vals && k' in t.vals && k != k'
      ensures t.vals[k] != t.vals[k']
    {
      if t.vals[k] == t.vals[k'] {
        Pow2Injective(LastIndex(names, k), LastIndex(names, k'));
      }
    }
  }

  /** 1 + 2 + 4 + ... + 2^(n-1) == 2^n - 1 */
  lemma {:induction false} SumOfPowers(s: seq<nat>)
    requires forall i :: 0 <= i < |s| ==> s[i] == Pow2(i)
    ensures Sum(s) == Pow2(|s|) - 1
  {
    if s != [] {
      var n := |s| - 1;
      SumOfPowers(s[..n]);
    }
  }

  /** The bits of an aligned table add up to 2^n - 1: every position below n. */
  lemma AlignedSum(m: PermMap)
    requires Aligned(m)
    ensures Sum(m.Values()) == Pow2(|m.keys|) - 1
  {
    SumOfPowers(m.Values());
  }

  /** The bits of an aligned table are pairwise-distinct powers of two. */
  lemma AlignedWellFormed(m: PermMap)
    requires Aligned(m)
    requires forall i :: 0 <= i < |m.keys| ==> m.keys[i].Sym?
    ensures WellFormed(m)
  {
    forall i | 0 <= i < |m.keys| ensures IsPow2(m.vals[m.keys[i]]) {
      Log2OfPow2(i);
    }
    forall i, j | 0 <= i < |m.keys| && 0 <= j < |m.keys| && m.keys[i] != m.keys[j]
      ensures m.vals[m.keys[i]] != m.vals[m.keys[j]]
    {
      if Pow2(i) == Pow2(j) { Pow2Injective(i, j); }
    }
  }

  /** Every table `permissions_map` returns is well formed. */
  lemma PermissionsMapWellFormed(permissions: Value)
    requires PermissionsMap(permissions).Success?
    ensures WellFormed(PermissionsMap(permissions).value)
  {
    BitTableWellFormed(permissions.items);
  }

  /** For distinct symbols, `permissions_map` assigns bit 2^i to the i-th one,
      and the bits add up to 2^n - 1. */
  lemma PermissionsMapOfDistinct(permissions: Value)
    requires IsSymbolArray(permissions) && Distinct(permissions.items)
    ensures PermissionsMap(permissions).Success?
    ensures PermissionsMap(permissions).value.keys == permissions.items
    ensures Aligned(PermissionsMap(permissions).value)
    ensures Sum(PermissionsMap(permissions).value.Values()) == Pow2(|permissions.items|) - 1
  {
    BitTableOfDistinct(permissions.items);
    AlignedSum(BitTable(permissions.items));
  }

  /** The default table has bit i at key i, so it is well formed and its bits
      add up to 15. */
  lemma DefaultMapFacts()
    ensures WellFormed(DefaultMap) && Aligned(DefaultMap)
    ensures Sum(DefaultMap.Values()) == 15
  {
    assert Aligned(DefaultMap) by {
      assert Pow2(0) == 1 && Pow2(1) == 2 && Pow2(2) == 4 && Pow2(3) == 8;
    }
    AlignedWellFormed(DefaultMap);
    AlignedSum(DefaultMap);
    assert Pow2(4) == 16;
  }

  /** An aligned table is the one `permissions_map` builds from its own keys. */
  lemma AlignedIsBitTable(m: PermMap)
    requires Aligned(m)
    ensures BitTable(m.keys) == m
  {
    BitTableOfDistinct(m.keys);
    HashEquality(BitTable(m.keys), m);
  }

  /** The default table is the one `permissions_map` builds from
      [:read, :create, :update, :destroy]. */
  lemma DefaultMapIsBuilt()
    ensures PermissionsMap(Arr(DefaultMap.keys)) == Success(DefaultMap)
  {
    DefaultMapFacts();
    AlignedIsBitTable(DefaultMap);
  }

  // ---------------------------------------------------------------------
  // The registry

  /** The two table slots of the library: PERMISSIONS_MAP and
      PERMISSIONS_MAP_WAS (absent until the first load). */
  class PermissionRegistry {
    var current: PermMap
    var previous: Option<PermMap>

    ghost predicate Valid()
      reads this
    {
      WellFormed(current) && (previous.Some? ==> WellFormed(previous.value))
    }

    constructor ()
      ensures Valid()
      ensures current == DefaultMap && previous == None
    {
      current := DefaultMap;
      previous := None;
      DefaultMapFacts();
    }

    /** `load_permissions_map!`: the current table is archived first, then the
        new one is built; if building fails, the archive stays overwritten.
        A rejected list is reported with the intended ArgumentError; as written
        the code raises NoMethodError for exactly the same lists. */
    method LoadPermissionsMap(permissions: Value) returns (err: Option<Error>)
      requires Valid()
      modifies this
      ensures Valid()
      ensures previous == Some(old(current))
      ensures PermissionsMap(permissions).Success? ==>
        err == None && current == PermissionsMap(permissions).value
      ensures PermissionsMap(permissions).Failure? ==>
        err == Some(PermissionsMap(permissions).error) && current == old(current)
      ensures err.Some? <==> PermissionsMapAsWritten(permissions).Failure?
    {
      previous := Some(current);
      var r := PermissionsMap(permissions);
      if r.Failure? {
        return Some(r.error);
      }
      PermissionsMapWellFormed(permissions);
      current := r.value;
      err := None;
    }
  }
}

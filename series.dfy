/** PermissionSeries: one non-negative integer read as a set of named flags,
    the bits of the registry's current table. */
module Series {
  import opened Ruby
  import opened Bits
  import opened Registry

  /** ALL_TRUE: the sum of the bits of the DEFAULT table, computed once when the
      class is loaded and never recomputed after a reload. */
  const ALL_TRUE: nat := Sum(DefaultMap.Values())
  const ALL_FALSE: nat := 0

  lemma AllTrueIsFifteen()
    ensures ALL_TRUE == 15 == Pow2(4) - 1
  {
    DefaultMapFacts();
  }

  // ---------------------------------------------------------------------
  // The bit string behind to_a, to_h and to_s

  /** `value.to_s(2).rjust(width, '0').reverse`: the binary digits of `value`,
      least significant first, padded with '0' up to `width` characters. */
  function Stringify(value: nat, width: nat): string {
    Reverse(RJust(Binary(value), width, '0'))
  }

  /** Character i of the bit string is bit i of the value: counted from the
      right, digit i of the padded binary string is bit i. */
  lemma StringifyDigit(value: nat, width: nat, i: nat)
    requires i < |RJust(Binary(value), width, '0')|
    ensures i < |Stringify(value, width)| && Stringify(value, width)[i] == BitChar(Bit(value, i))
  {
    var b := Binary(value);
    var r := RJust(b, width, '0');
    var pad, j := |r| - |b|, |r| - 1 - i;
    BinaryDigits(value, i);
    if j < pad {
      assert r[j] == '0';
      assert i >= |b| && !Bit(value, i);
    } else {
      assert r[j] == b[j - pad];
      assert j - pad == |b| - 1 - i && i < |b|;
    }
    ReverseDigit(r, i, BitChar(Bit(value, i)));
  }

  /** Character i of the bit string is bit i of the value; the string is `width`
      long, or longer when the value does not fit. */
  lemma StringifyBits(value: nat, width: nat)
    ensures |Stringify(value, width)| == if |Binary(value)| >= width then |Binary(value)| else width
    ensures forall i :: 0 <= i < |Stringify(value, width)| ==>
      Stringify(value, width)[i] == BitChar(Bit(value, i))
  {
    var r := RJust(Binary(value), width, '0');
    assert |Stringify(value, width)| == |r|;
    forall i | 0 <= i < |r|
      ensures Stringify(value, width)[i] == BitChar(Bit(value, i))
    {
      StringifyDigit(value, width, i);
    }
  }

  /** A value below 2^n (n >= 1) is laid out in exactly n characters. */
  lemma StringifyFits(value: nat, n: nat)
    requires n >= 1 && value < Pow2(n)
    ensures |Stringify(value, n)| == n
  {
    BinaryFits(value, n);
    StringifyBits(value, n);
  }

  // ---------------------------------------------------------------------
  // to_a and to_h

  predicate IsConversion(kind: Value) {
    kind == Sym("str") || kind == Sym("int") || kind == Sym("bool")
  }

  /** `String#to_i` of a one-character string. */
  function DigitValue(c: char): int {
    if '0' <= c <= '9' then (c as int) - ('0' as int) else 0
  }

  /** The `case type` of `to_a` over the characters of the bit string `s`. */
  function Cells(s: string, kind: Value): (r: Result<seq<Value>, Error>)
    ensures r.Success? <==> IsConversion(kind)
    ensures r.Failure? ==> r.error == UnknownType(kind)
    ensures r.Success? ==> |r.value| == |s|
  {
    if kind == Sym("str") then Success(seq(|s|, i requires 0 <= i < |s| => Str([s[i]])))
    else if kind == Sym("int") then Success(seq(|s|, i requires 0 <= i < |s| => Int(DigitValue(s[i]))))
    else if kind == Sym("bool") then Success(seq(|s|, i requires 0 <= i < |s| => Bool(s[i] == '1')))
    else Failure(UnknownType(kind))
  }

  /** For a value inside an n-permission table (n >= 1), `to_a` has exactly n
      cells and cell i is "1", 1 or true exactly when bit i is set. */
  lemma CellsOfValue(value: nat, n: nat)
    requires n >= 1 && value < Pow2(n)
    ensures |Cells(Stringify(value, n), Sym("str")).value| == n
    ensures forall i :: 0 <= i < n ==>
      Cells(Stringify(value, n), Sym("str")).value[i] == Str(if Bit(value, i) then "1" else "0")
    ensures forall i :: 0 <= i < n ==>
      Cells(Stringify(value, n), Sym("int")).value[i] == Int(if Bit(value, i) then 1 else 0)
    ensures forall i :: 0 <= i < n ==>
      Cells(Stringify(value, n), Sym("bool")).value[i] == Bool(Bit(value, i))
  {
    StringifyFits(value, n);
    StringifyBits(value, n);
  }

  /** `keys.zip(cells).to_h`; `zip` pads a shorter `cells` with nil. */
  function ZipHash(keys: seq<Value>, cells: seq<Value>): Hash<Value, Value> {
    PairsToHash(seq(|keys|, i requires 0 <= i < |keys| => (keys[i], if i < |cells| then cells[i] else Nil)))
  }

  /** Zipping the (distinct) table keys keeps every key, in order, with cell i
      under key i. */
  lemma ZipHashOfDistinct(keys: seq<Value>, cells: seq<Value>)
    requires Distinct(keys)
    ensures ZipHash(keys, cells).Valid() && ZipHash(keys, cells).keys == keys
    ensures forall i :: 0 <= i < |keys| ==>
      ZipHash(keys, cells).vals[keys[i]] == if i < |cells| then cells[i] else Nil
  {
    var pairs := seq(|keys|, i requires 0 <= i < |keys| => (keys[i], if i < |cells| then cells[i] else Nil));
    assert Firsts(pairs) == keys;
    PairsToHashOfDistinct(pairs);
    assert forall i :: 0 <= i < |keys| ==> pairs[i].0 == keys[i];
  }

  /** For a value inside a table of distinct names, `to_h(:bool)` maps every
      name, in table order, to whether its bit is set. */
  lemma ZipOfValue(keys: seq<Value>, value: nat)
    requires Distinct(keys) && |keys| >= 1 && value < Pow2(|keys|)
    ensures ZipHash(keys, Cells(Stringify(value, |keys|), Sym("bool")).value).keys == keys
    ensures forall i :: 0 <= i < |keys| ==>
      ZipHash(keys, Cells(Stringify(value, |keys|), Sym("bool")).value).vals[keys[i]] == Bool(Bit(value, i))
  {
    var cells := Cells(Stringify(value, |keys|), Sym("bool")).value;
    CellsOfValue(value, |keys|);
    ZipHashOfDistinct(keys, cells);
  }

  // ---------------------------------------------------------------------
  // to_s

  /** The name `to_s` prints for position i: `PERMISSIONS_MAP.keys[i].to_s`.
      Table keys are symbols; past the end of the table the key is nil and
      `nil.to_s` is "". */
  function KeyName(keys: seq<Value>, i: nat): string {
    if i < |keys| && keys[i].Sym? then keys[i].name else ""
  }

  /** What `to_s` builds from the bit string `s`: for every '1' at position i, a
      space unless i is 0, then the i-th name. */
  function Listing(s: string, keys: seq<Value>): string {
    if s == [] then ""
    else
      var i := |s| - 1;
      Listing(s[..i], keys) + (if s[i] == '1' then (if i == 0 then "" else " ") + KeyName(keys, i) else "")
  }

  lemma ListingStep(s: string, keys: seq<Value>, i: nat)
    requires i < |s|
    ensures Listing(s[..i + 1], keys) ==
      if s[i] == '1' then
        (if i == 0 then Listing(s[..i], keys) else Listing(s[..i], keys) + " ") + KeyName(keys, i)
      else Listing(s[..i], keys)
  {
    assert s[..i + 1][..i] == s[..i];
  }

  /** The names at the positions of `s` holding '1', in order. */
  function Names(s: string, keys: seq<Value>): seq<string> {
    if s == [] then []
    else
      var i := |s| - 1;
      Names(s[..i], keys) + (if s[i] == '1' then [KeyName(keys, i)] else [])
  }

  /** `words.join(" ")` */
  function Join(words: seq<string>): string {
    if words == [] then ""
    else if |words| == 1 then words[0]
    else Join(words[..|words| - 1]) + " " + words[|words| - 1]
  }

  /** The names of the first n permissions of `keys` whose bit is set in `value`. */
  function Granted(value: nat, keys: seq<Value>, n: nat): seq<string> {
    if n == 0 then []
    else Granted(value, keys, n - 1) + (if Bit(value, n - 1) then [KeyName(keys, n - 1)] else [])
  }

  lemma {:induction false} NamesOfLeadingOne(s: string, keys: seq<Value>)
    requires |s| > 0 && s[0] == '1'
    ensures Names(s, keys) != []
  {
    if |s| > 1 {
      NamesOfLeadingOne(s[..|s| - 1], keys);
    }
  }

  /** Joining one more word adds a space and the word, unless it is the first. */
  lemma JoinSnoc(words: seq<string>, w: string)
    ensures Join(words + [w]) == if words == [] then w else Join(words) + " " + w
  {
    if words != [] {
      assert (words + [w])[..|words|] == words;
    }
  }

  /** `to_s` is the space-joined list of names, except that a space comes first
      when bit 0 is clear and some later bit is set. */
  lemma {:induction false} ListingIsJoin(s: string, keys: seq<Value>)
    ensures Listing(s, keys) ==
      (if |s| > 0 && s[0] != '1' && Names(s, keys) != [] then " " else "") + Join(Names(s, keys))
  {
    if s != [] {
      var i := |s| - 1;
      var p := s[..i];
      ListingIsJoin(p, keys);
      var ns, w := Names(p, keys), KeyName(keys, i);
      var lead := if |p| > 0 && p[0] != '1' && ns != [] then " " else "";
      assert Listing(p, keys) == lead + Join(ns);
      if s[i] != '1' {
        assert Names(s, keys) == ns;
        assert Listing(s, keys) == Listing(p, keys) + "";
        if i > 0 { assert p[0] == s[0]; }
      } else if i == 0 {
        assert Names(s, keys) == [w];
        assert Listing(s, keys) == "" + ("" + w);
      } else {
        assert p[0] == s[0];
        assert Names(s, keys) == ns + [w];
        JoinSnoc(ns, w);
        assert Listing(s, keys) == Listing(p, keys) + (" " + w);
        if ns == [] {
          if p[0] == '1' { NamesOfLeadingOne(p, keys); }
          assert Listing(s, keys) == " " + w;
        } else {
          assert Listing(s, keys) == lead + (Join(ns) + " " + w);
        }
      }
    }
  }

  /** Read from a value's bit string, the names are those of the set bits. */
  lemma {:induction false} NamesOfBits(s: string, value: nat, keys: seq<Value>, n: nat)
    requires n <= |s|
    requires forall i :: 0 <= i < n ==> s[i] == BitChar(Bit(value, i))
    ensures Names(s[..n], keys) == Granted(value, keys, n)
  {
    if n > 0 {
      assert s[..n][..n - 1] == s[..n - 1];
      NamesOfBits(s, value, keys, n - 1);
    }
  }

  /** For a value inside an n-permission table (n >= 1), `to_s` lists the names
      of the set bits in table order, with one leading space when bit 0 is clear
      and some other bit is set. */
  lemma ListingOfValue(value: nat, keys: seq<Value>)
    requires |keys| >= 1 && value < Pow2(|keys|)
    ensures Listing(Stringify(value, |keys|), keys) ==
      (if !Bit(value, 0) && Granted(value, keys, |keys|) != [] then " " else "")
      + Join(Granted(value, keys, |keys|))
  {
    var s := Stringify(value, |keys|);
    StringifyFits(value, |keys|);
    StringifyBits(value, |keys|);
    NamesOfBits(s, value, keys, |keys|);
    assert s[..|keys|] == s;
    ListingIsJoin(s, keys);
  }

  // ---------------------------------------------------------------------
  // set

  /** `values.keys - PERMISSIONS_MAP.keys` */
  function UnknownKeys(keys: seq<Value>, m: PermMap): (u: seq<Value>)
    ensures forall x :: x in u <==> x in keys && x !in m.vals
  {
    if keys == [] then []
    else
      var n := |keys| - 1;
      assert forall x :: x in keys <==> x in keys[..n] || x == keys[n];
      UnknownKeys(keys[..n], m) + (if keys[n] in m.vals then [] else [keys[n]])
  }

  /** The two checks `set` makes before it changes anything: every key is in the
      table, then every flag is exactly true or false. */
  function Validate(m: PermMap, changes: Hash<Value, Value>): (e: Option<Error>)
    requires changes.Valid()
    ensures e.None? <==> forall k :: k in changes.vals ==> k in m.vals && changes.vals[k].Bool?
    ensures e.Some? ==> e.value.UnknownPermissions? || e.value == NonBooleanValue
    ensures e.Some? && e.value.UnknownPermissions? ==>
      e.value.keys != [] && forall x :: x in e.value.keys <==> x in changes.keys && x !in m.vals
    ensures e == Some(NonBooleanValue) ==> forall k :: k in changes.vals ==> k in m.vals
  {
    var unknown := UnknownKeys(changes.keys, m);
    if unknown != [] then
      assert unknown[0] in changes.vals && unknown[0] !in m.vals;
      Some(UnknownPermissions(unknown))
    else if exists i :: 0 <= i < |changes.keys| && !changes.vals[changes.keys[i]].Bool? then Some(NonBooleanValue)
    else None
  }

  /** One pass of `set`'s loop: OR the bit in for a truthy flag, AND-NOT it out otherwise. */
  function Step(value: nat, bit: nat, flag: Value): nat {
    if Truthy(flag) then Or(value, bit) else AndNot(value, bit)
  }

  ghost predicate AllKnown(m: PermMap, changes: seq<(Value, Value)>) {
    forall j :: 0 <= j < |changes| ==> changes[j].0 in m.vals
  }

  /** The value `set` reaches by applying `changes` in order. */
  function Apply(value: nat, m: PermMap, changes: seq<(Value, Value)>): nat
    requires AllKnown(m, changes)
  {
    if changes == [] then value
    else
      var n := |changes| - 1;
      Step(Apply(value, m, changes[..n]), m.vals[changes[n].0], changes[n].1)
  }

  /** The flag of the last change whose bit covers position i, if any. */
  function LastFlag(m: PermMap, changes: seq<(Value, Value)>, i: nat): Option<bool>
    requires AllKnown(m, changes)
  {
    if changes == [] then None
    else
      var n := |changes| - 1;
      if Bit(m.vals[changes[n].0], i) then Some(Truthy(changes[n].1)) else LastFlag(m, changes[..n], i)
  }

  /** After `set`, each bit is the flag of the last change that covers it, or
      its old state when no change does. */
  lemma {:induction false} ApplyBits(value: nat, m: PermMap, changes: seq<(Value, Value)>, i: nat)
    requires AllKnown(m, changes)
    ensures Bit(Apply(value, m, changes), i) ==
      if LastFlag(m, changes, i).Some? then LastFlag(m, changes, i).value else Bit(value, i)
  {
    if changes != [] {
      var n := |changes| - 1;
      ApplyBits(value, m, changes[..n], i);
      var before, bit := Apply(value, m, changes[..n]), m.vals[changes[n].0];
      BitOfOr(before, bit, i);
      BitOfAndNot(before, bit, i);
    }
  }

  /** Applying the same changes twice gives the value applying them once gives. */
  lemma SetIdempotent(value: nat, m: PermMap, changes: seq<(Value, Value)>)
    requires AllKnown(m, changes)
    ensures Apply(Apply(value, m, changes), m, changes) == Apply(value, m, changes)
  {
    var once := Apply(value, m, changes);
    forall i: nat
      ensures Bit(Apply(once, m, changes), i) == Bit(once, i)
    {
      ApplyBits(value, m, changes, i);
      ApplyBits(once, m, changes, i);
    }
    BitsDetermine(Apply(once, m, changes), once);
  }

  /** Setting or clearing one permission changes its bit alone: the bit takes
      the flag, every other bit and every other permission keeps its state. */
  lemma SetIsLocal(value: nat, m: PermMap, p: Value, flag: bool)
    requires WellFormed(m) && p in m.vals
    ensures Bit(Apply(value, m, [(p, Bool(flag))]), Log2(m.vals[p])) == flag
    ensures forall i: nat :: i != Log2(m.vals[p]) ==>
      Bit(Apply(value, m, [(p, Bool(flag))]), i) == Bit(value, i)
    ensures forall q :: q in m.vals && q != p ==>
      Bit(Apply(value, m, [(p, Bool(flag))]), Log2(m.vals[q])) == Bit(value, Log2(m.vals[q]))
  {
    var cs := [(p, Bool(flag))];
    var j := Log2(m.vals[p]);
    forall i: nat
      ensures Bit(Apply(value, m, cs), i) == if i == j then flag else Bit(value, i)
    {
      ApplyBits(value, m, cs, i);
      BitOfPow2(j, i);
      assert cs[..0] == [];
    }
  }

  /** `set` on an aligned table keeps a value inside the table's bit positions. */
  lemma {:induction false} ApplyInRange(value: nat, m: PermMap, changes: seq<(Value, Value)>)
    requires Aligned(m) && AllKnown(m, changes) && value < Pow2(|m.keys|)
    ensures Apply(value, m, changes) < Pow2(|m.keys|)
  {
    if changes != [] {
      var n := |changes| - 1;
      ApplyInRange(value, m, changes[..n]);
      var k := changes[n].0;
      var i :| 0 <= i < |m.keys| && m.keys[i] == k;
      Pow2Monotone(i + 1, |m.keys|);
      OrBelow(Apply(value, m, changes[..n]), m.vals[k], |m.keys|);
      AndNotAtMost(Apply(value, m, changes[..n]), m.vals[k]);
    }
  }

  /** In an aligned table the permission at position i owns bit i. */
  lemma AlignedPosition(m: PermMap, i: nat)
    requires Aligned(m) && i < |m.keys|
    ensures IsPow2(m.vals[m.keys[i]]) && Log2(m.vals[m.keys[i]]) == i
  {
    Log2OfPow2(i);
  }

  // ---------------------------------------------------------------------
  // The object

  class PermissionSeries {
    /** Where PERMISSIONS_MAP is looked up on every call. */
    const registry: PermissionRegistry
    var value: nat
    /** @stringified_permissions, nil until first needed. */
    var cache: Option<string>
    /** The table size the cached string was padded to. */
    ghost var cacheWidth: nat

    /** The cached string always shows the current value, though it may be
        padded for a table that has since been replaced. */
    ghost predicate Valid()
      reads this
    {
      cache.Some? ==> cache.value == Stringify(value, cacheWidth)
    }

    /** What `stringified_permissions` returns when called now. */
    ghost function Rendered(): string
      reads this, registry
    {
      if cache.Some? then cache.value else Stringify(value, |registry.current.keys|)
    }

    /** `initialize`: the value is stored as given. */
    constructor (registry: PermissionRegistry, value: nat)
      ensures this.registry == registry && this.value == value
      ensures cache == None && Valid()
    {
      this.registry := registry;
      this.value := value;
      cache := None;
    }

    /** `to_i` */
    function ToI(): nat
      reads this
    {
      value
    }

    /** `peek`: whether the permission's bit is set; unknown names raise. */
    function Peek(permission: Value): (r: Result<bool, Error>)
      reads this, registry
      requires registry.Valid()
      ensures r.Success? <==> permission in registry.current.vals
      ensures r.Failure? ==> r.error == UnknownPermission(permission)
      ensures r.Success? ==> r.value == Bit(value, Log2(registry.current.vals[permission]))
    {
      if permission !in registry.current.vals then Failure(UnknownPermission(permission))
      else
        var bit := registry.current.vals[permission];
        AndPow2Positive(value, Log2(bit));
        Success(And(value, bit) > 0)
    }

    /** `set`: both checks run first, so a rejected call changes nothing; then
        the changes are applied in order and the cached string is dropped. */
    method Set(changes: Hash<Value, Value>) returns (r: Result<nat, Error>)
      requires Valid() && changes.Valid()
      modifies this
      ensures Valid()
      ensures Validate(registry.current, changes).Some? ==>
        r == Failure(Validate(registry.current, changes).value)
        && value == old(value) && cache == old(cache)
      ensures Validate(registry.current, changes).None? ==>
        && AllKnown(registry.current, changes.Entries())
        && value == Apply(old(value), registry.current, changes.Entries())
        && r == Success(value) && cache == None
    {
      var e := Validate(registry.current, changes);
      if e.Some? {
        return Failure(e.value);
      }
      ghost var entries := changes.Entries();
      var i := 0;
      while i < |changes.keys|
        invariant 0 <= i <= |changes.keys|
        invariant AllKnown(registry.current, entries)
        invariant value == Apply(old(value), registry.current, entries[..i])
      {
        var permission := changes.keys[i];
        var flag := changes.vals[permission];
        assert entries[..i + 1][..i] == entries[..i];
        if Truthy(flag) {
          value := Or(value, registry.current.vals[permission]);
        } else {
          value := AndNot(value, registry.current.vals[permission]);
        }
        i := i + 1;
      }
      assert entries[..i] == entries;
      cache := None;
      r := Success(value);
    }

    /** `set_all`: ALL_TRUE for a truthy flag, ALL_FALSE otherwise. */
    method SetAll(flag: Value) returns (r: nat)
      modifies this
      ensures value == (if Truthy(flag) then ALL_TRUE else ALL_FALSE)
      ensures r == value && cache == None && Valid()
    {
      value := if Truthy(flag) then ALL_TRUE else ALL_FALSE;
      cache := None;
      r := value;
    }

    /** `stringified_permissions`: computed from the current table on first use, then memoised. */
    method StringifiedPermissions() returns (s: string)
      requires Valid()
      modifies `cache, `cacheWidth
      ensures Valid()
      ensures s == old(Rendered()) && cache == Some(s)
      ensures old(cache).Some? ==> cacheWidth == old(cacheWidth)
    {
      if cache.None? {
        cache := Some(Stringify(value, |registry.current.keys|));
        cacheWidth := |registry.current.keys|;
      }
      s := cache.value;
    }

    /** `to_a`: an unknown type raises before the bit string is touched. */
    method ToA(kind: Value) returns (r: Result<seq<Value>, Error>)
      requires Valid()
      modifies `cache, `cacheWidth
      ensures Valid()
      ensures r == Cells(old(Rendered()), kind)
      ensures IsConversion(kind) ==> cache == Some(old(Rendered()))
      ensures !IsConversion(kind) ==> cache == old(cache)
    {
      if !IsConversion(kind) {
        return Failure(UnknownType(kind));
      }
      var s := StringifiedPermissions();
      r := Cells(s, kind);
    }

    /** `to_h`: the table's keys zipped with `to_a`. */
    method ToH(kind: Value) returns (r: Result<Hash<Value, Value>, Error>)
      requires Valid()
      modifies `cache, `cacheWidth
      ensures Valid()
      ensures r.Failure? <==> !IsConversion(kind)
      ensures r.Failure? ==> r.error == UnknownType(kind) && cache == old(cache)
      ensures r.Success? ==>
        r.value == ZipHash(registry.current.keys, Cells(old(Rendered()), kind).value)
        && cache == Some(old(Rendered()))
    {
      var keys := registry.current.keys;
      var cells := ToA(kind);
      if cells.Failure? {
        return Failure(cells.error);
      }
      r := Success(ZipHash(keys, cells.value));
    }

    /** `to_s`: builds the listing character by character. */
    method ToS() returns (result: string)
      requires Valid()
      modifies `cache, `cacheWidth
      ensures Valid() && cache == Some(old(Rendered()))
      ensures result == Listing(old(Rendered()), registry.current.keys)
    {
      result := "";
      var s := StringifiedPermissions();
      ghost var keys := registry.current.keys;
      var i := 0;
      while i < |s|
        invariant 0 <= i <= |s|
        invariant result == Listing(s[..i], keys)
        modifies {}
      {
        ListingStep(s, keys, i);
        if s[i] == '1' {
          if i != 0 {
            result := result + " ";
          }
          var permissions := registry.current.keys;
          result := result + KeyName(permissions, i);
        }
        i := i + 1;
      }
      assert s[..i] == s;
    }
  }

  /** `UnixLikePermissions.create`: a new series holding the integer unchanged. */
  method Create(registry: PermissionRegistry, permissions: nat) returns (s: PermissionSeries)
    ensures fresh(s) && s.registry == registry
    ensures s.ToI() == permissions && s.cache == None && s.Valid()
  {
    s := new PermissionSeries(registry, permissions);
  }
}

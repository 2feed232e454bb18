/** The library's documented scenarios, and the quirks of the code, worked out
    for arbitrary permission names and table sizes. */
module Examples {
  import opened Ruby
  import opened Bits
  import opened Registry
  import opened Series

  // ---------------------------------------------------------------------
  // A fresh series and `set`

  /** `new(0).to_a(:str)` is one "0" per permission (and a single "0" for an
      empty table, since `0.to_s(2)` is "0"). */
  lemma ToAOfZero(n: nat)
    ensures Cells(Stringify(0, n), Sym("str")) == Success(seq(if n == 0 then 1 else n, _ => Str("0")))
  {
    StringifyBits(0, n);
    assert |Binary(0)| == 1;
    var c := Cells(Stringify(0, n), Sym("str")).value;
    var zeros := seq(if n == 0 then 1 else n, _ => Str("0"));
    assert |c| == |zeros|;
    forall i | 0 <= i < |c| ensures c[i] == zeros[i] {
      BitOfZero(i);
    }
    assert c == zeros;
  }

  /** A value with all n bits set reads as n ones in `to_a(:int)`; on the
      default table (n = 4) this is the value `set_all(true)` writes. */
  lemma ToAOfAllSet(n: nat)
    requires n >= 1
    ensures Cells(Stringify(Pow2(n) - 1, n), Sym("int")) == Success(seq(n, _ => Int(1)))
  {
    var v := Pow2(n) - 1;
    CellsOfValue(v, n);
    var c := Cells(Stringify(v, n), Sym("int")).value;
    var ones := seq(n, _ => Int(1));
    forall i | 0 <= i < n ensures c[i] == ones[i] {
      BitOfAllOnes(n, i);
    }
    assert c == ones;
  }

  /** `new(0).set(p: true)` holds exactly the bit of p. */
  lemma SetFromZero(m: PermMap, p: Value)
    requires p in m.vals
    ensures Apply(0, m, [(p, Bool(true))]) == m.vals[p]
  {
    assert [(p, Bool(true))][..0] == [];
  }

  /** `new(0).set(read: true).to_i == 1` */
  lemma SetRead()
    ensures Apply(0, DefaultMap, [(Sym("read"), Bool(true))]) == 1
  {
    SetFromZero(DefaultMap, Sym("read"));
  }

  /** Setting two permissions from zero gives the sum of their bits. */
  lemma SetTwoFromZero(m: PermMap, p: Value, q: Value)
    requires WellFormed(m) && p in m.vals && q in m.vals && p != q
    ensures Apply(0, m, [(p, Bool(true)), (q, Bool(true))]) == Or(m.vals[p], m.vals[q])
  {
    var cs := [(p, Bool(true)), (q, Bool(true))];
    assert cs[..1] == [(p, Bool(true))];
    SetFromZero(m, p);
  }

  /** A name missing from the table makes `set` raise, naming it. */
  lemma SetUnknown(m: PermMap, k: Value, flag: Value)
    requires k !in m.vals
    ensures Validate(m, Hash([k], map[k := flag])) == Some(UnknownPermissions([k]))
  {
    var h := Hash([k], map[k := flag]);
    assert h.keys[..0] == [];
    assert UnknownKeys(h.keys, m) == [k];
  }

  /** A known name with a merely truthy flag makes `set` raise. */
  lemma SetTruthy(m: PermMap, k: Value, flag: Value)
    requires k in m.vals && !flag.Bool?
    ensures Validate(m, Hash([k], map[k := flag])) == Some(NonBooleanValue)
  {
    var h := Hash([k], map[k := flag]);
    assert h.keys[..0] == [];
    assert UnknownKeys(h.keys, m) == [];
    assert !h.vals[h.keys[0]].Bool?;
  }

  // ---------------------------------------------------------------------
  // to_s

  lemma JoinTwo(a: string, b: string)
    ensures Join([a, b]) == a + " " + b
  {
    assert [a, b][..1] == [a];
  }

  /** `new(0).set(read: true, destroy: true).to_s == "read destroy"`: with bits 0
      and 3 set, four names list as the first and the last. */
  lemma ListingOfNine(a: string, b: string, c: string, d: string)
    ensures Listing(Stringify(9, 4), [Sym(a), Sym(b), Sym(c), Sym(d)]) == a + " " + d
  {
    var keys := [Sym(a), Sym(b), Sym(c), Sym(d)];
    assert Pow2(4) == 16;
    ListingOfValue(9, keys);
    assert Bit(9, 0) && !Bit(9, 1) && !Bit(9, 2) && Bit(9, 3);
    assert KeyName(keys, 0) == a && KeyName(keys, 3) == d;
    assert Granted(9, keys, 1) == [a];
    assert Granted(9, keys, 3) == [a];
    assert Granted(9, keys, 4) == [a, d];
    JoinTwo(a, d);
  }

  /** With only bit 1 set, `to_s` is a space and the second name. */
  lemma ListingOfTwo(a: string, b: string, c: string, d: string)
    ensures Listing(Stringify(2, 4), [Sym(a), Sym(b), Sym(c), Sym(d)]) == " " + b
  {
    var keys := [Sym(a), Sym(b), Sym(c), Sym(d)];
    assert Pow2(4) == 16;
    ListingOfValue(2, keys);
    assert !Bit(2, 0) && Bit(2, 1) && !Bit(2, 2) && !Bit(2, 3) by { BitOfZero(0); BitOfZero(1); }
    assert KeyName(keys, 1) == b;
    assert Granted(2, keys, 1) == [];
    assert Granted(2, keys, 2) == [b];
    assert Granted(2, keys, 3) == [b];
  }

  /** `new(0).set(read: true, destroy: true).to_i == 9` */
  lemma SetReadDestroy()
    ensures Apply(0, DefaultMap, [(Sym("read"), Bool(true)), (Sym("destroy"), Bool(true))]) == 9
  {
    DefaultMapFacts();
    SetTwoFromZero(DefaultMap, Sym("read"), Sym("destroy"));
    assert Or(1, 8) == 9;
  }

  /** Bits 0 and 3 over the default table print as "read destroy". */
  lemma ListingOfNineOnDefault()
    ensures Listing(Stringify(9, 4), DefaultMap.keys) == "read destroy"
  {
    ListingOfNine("read", "create", "update", "destroy");
  }

  /** `new(0).set(read: true, destroy: true).to_s == "read destroy"` */
  lemma ToSOfReadDestroy()
    ensures Listing(Stringify(Apply(0, DefaultMap, [(Sym("read"), Bool(true)), (Sym("destroy"), Bool(true))]),
                              |DefaultMap.keys|), DefaultMap.keys) == "read destroy"
  {
    SetReadDestroy();
    ListingOfNineOnDefault();
  }

  // ---------------------------------------------------------------------
  // to_h

  /** A hash with four keys is its keys and the values stored under them. */
  lemma HashOfFour<V>(h: Hash<Value, V>, a: Value, b: Value, c: Value, d: Value, va: V, vb: V, vc: V, vd: V)
    requires h.Valid() && h.keys == [a, b, c, d]
    requires h.vals[a] == va && h.vals[b] == vb && h.vals[c] == vc && h.vals[d] == vd
    ensures h == Hash([a, b, c, d], map[a := va, b := vb, c := vc, d := vd])
  {
    var g := Hash([a, b, c, d], map[a := va, b := vb, c := vc, d := vd]);
    assert g.Valid();
    HashEquality(h, g);
  }

  lemma BitsOfOne()
    ensures Bit(1, 0) && !Bit(1, 1) && !Bit(1, 2) && !Bit(1, 3)
  {
    BitOfZero(0); BitOfZero(1); BitOfZero(2);
  }

  /** With only bit 0 set, `to_h` maps the first of four names to true and
      the others to false. */
  lemma ToHOfOne(a: Value, b: Value, c: Value, d: Value)
    requires Distinct([a, b, c, d])
    ensures ZipHash([a, b, c, d], Cells(Stringify(1, 4), Sym("bool")).value)
      == Hash([a, b, c, d], map[a := Bool(true), b := Bool(false), c := Bool(false), d := Bool(false)])
  {
    var keys := [a, b, c, d];
    var h := ZipHash(keys, Cells(Stringify(1, 4), Sym("bool")).value);
    assert Pow2(4) == 16;
    ZipOfValue(keys, 1);
    BitsOfOne();
    assert h.vals[keys[0]] == Bool(true) && h.vals[keys[1]] == Bool(false);
    assert h.vals[keys[2]] == Bool(false) && h.vals[keys[3]] == Bool(false);
    HashOfFour(h, a, b, c, d, Bool(true), Bool(false), Bool(false), Bool(false));
  }

  /** `new(0).set(read: true).to_h == {read: true, create: false, update: false, destroy: false}` */
  lemma ToHOfRead()
    ensures ZipHash(DefaultMap.keys,
                    Cells(Stringify(Apply(0, DefaultMap, [(Sym("read"), Bool(true))]), |DefaultMap.keys|),
                          Sym("bool")).value)
      == Hash(DefaultMap.keys,
              map[Sym("read") := Bool(true), Sym("create") := Bool(false),
                  Sym("update") := Bool(false), Sym("destroy") := Bool(false)])
  {
    SetRead();
    ToHOfOne(Sym("read"), Sym("create"), Sym("update"), Sym("destroy"));
  }

  // ---------------------------------------------------------------------
  // Reloading the table

  /** A hash with two keys is its keys and the values stored under them. */
  lemma HashOfTwo<V>(h: Hash<Value, V>, x: Value, y: Value, a: V, b: V)
    requires h.Valid() && h.keys == [x, y] && h.vals[x] == a && h.vals[y] == b
    ensures h == Hash([x, y], map[x := a, y := b])
  {
    var g := Hash([x, y], map[x := a, y := b]);
    assert g.Valid();
    HashEquality(h, g);
  }

  lemma BitTableOfTwo(x: Value, y: Value)
    requires x != y
    ensures BitTable([x, y]).Valid() && BitTable([x, y]).keys == [x, y]
    ensures BitTable([x, y]).vals[x] == 1 && BitTable([x, y]).vals[y] == 2
  {
    BitTableOfDistinct([x, y]);
    assert Pow2(1) == 2;
  }

  /** `load_permissions_map!([x, y])`: x owns bit 1, y bit 2. */
  lemma ReloadTwo(x: Value, y: Value)
    requires x.Sym? && y.Sym? && x != y
    ensures PermissionsMap(Arr([x, y])) == Success(Hash([x, y], map[x := 1, y := 2]))
  {
    BitTableOfTwo(x, y);
    HashOfTwo(BitTable([x, y]), x, y, 1, 2);
  }

  lemma DedupOfRepeat(a: Value, b: Value)
    requires a != b
    ensures Dedup([a, b, a]) == [a, b]
    ensures LastIndex([a, b, a], a) == 2 && LastIndex([a, b, a], b) == 1
  {
    var names := [a, b, a];
    assert names[..2] == [a, b] && names[..2][..1] == [a] && names[..2][..1][..0] == [];
    assert Dedup(names[..2][..1]) == [a];
    assert names[2] in names[..2];
    assert LastIndex(names[..2], b) == 1;
  }

  lemma BitTableOfRepeat(a: Value, b: Value)
    requires a != b
    ensures BitTable([a, b, a]).Valid() && BitTable([a, b, a]).keys == [a, b]
    ensures BitTable([a, b, a]).vals[a] == 4 && BitTable([a, b, a]).vals[b] == 2
  {
    BitTableLastWins([a, b, a]);
    DedupOfRepeat(a, b);
    assert Pow2(2) == 4 && Pow2(1) == 2;
  }

  /** `[a, b, a]`: a keeps the first position but takes the bit of its last
      occurrence, and the table has two entries. */
  lemma ReloadRepeat(a: Value, b: Value)
    requires a.Sym? && b.Sym? && a != b
    ensures PermissionsMap(Arr([a, b, a])) == Success(Hash([a, b], map[a := 4, b := 2]))
  {
    BitTableOfRepeat(a, b);
    HashOfTwo(BitTable([a, b, a]), a, b, 4, 2);
  }

  /** The empty array is a valid list: the table is empty. */
  lemma ReloadEmpty()
    ensures PermissionsMap(Arr([])) == Success(Hash([], map[]))
  {
    assert IsSymbolArray(Arr([]));
    assert BitTable([]) == PairsToHash([]);
  }

  /** As written, a rejected list raises NoMethodError, not ArgumentError. */
  lemma RejectedListAsWritten()
    ensures PermissionsMapAsWritten(Arr([Str("read")])) == Failure(NoMethodError("ArgumentError"))
    ensures PermissionsMap(Arr([Str("read")])) == Failure(NotSymbolArray)
  {
  }

  lemma BitsOfFifteen()
    ensures |Binary(15)| == 4
    ensures Bit(15, 0) && Bit(15, 1) && Bit(15, 2) && Bit(15, 3)
  {
    assert Binary(15) == Binary(7) + ['1'] && Binary(7) == Binary(3) + ['1'] && Binary(3) == Binary(1) + ['1'];
  }

  lemma StringifyFifteen()
    ensures Stringify(15, 2) == "1111"
  {
    BitsOfFifteen();
    StringifyBits(15, 2);
    var s := Stringify(15, 2);
    assert s[0] == '1' && s[1] == '1' && s[2] == '1' && s[3] == '1';
  }

  /** Four set bits over a two-name table: the names past the end print as "". */
  lemma ListingOfFourOnes(x: string, y: string)
    ensures Listing("1111", [Sym(x), Sym(y)]) == x + " " + y + " " + " "
  {
    var s, keys := "1111", [Sym(x), Sym(y)];
    assert s[..0] == "";
    ListingStep(s, keys, 0);
    assert Listing(s[..1], keys) == x;
    ListingStep(s, keys, 1);
    assert Listing(s[..2], keys) == x + " " + y;
    ListingStep(s, keys, 2);
    assert KeyName(keys, 2) == "";
    assert Listing(s[..3], keys) == x + " " + y + " ";
    ListingStep(s, keys, 3);
    assert KeyName(keys, 3) == "";
    assert s[..4] == s;
  }

  /** ALL_TRUE stays 15 after a reload to two permissions, so `set_all(true)`
      sets bits the new table does not have and `to_s` prints two empty names. */
  lemma StaleAllTrue(x: string, y: string)
    ensures ALL_TRUE == 15 && ALL_TRUE >= Pow2(|[Sym(x), Sym(y)]|)
    ensures Listing(Stringify(ALL_TRUE, 2), [Sym(x), Sym(y)]) == x + " " + y + "  "
  {
    AllTrueIsFifteen();
    assert Pow2(2) == 4;
    StringifyFifteen();
    ListingOfFourOnes(x, y);
  }

  // ---------------------------------------------------------------------
  // The objects

  /** A reload replaces the table under a live series, and a failed load still
      overwrites the archived table. */
  method ReloadScenario()
  {
    var registry := new PermissionRegistry();
    var series := Create(registry, 1);
    var read, view, edit := Sym("read"), Sym("view"), Sym("edit");

    var err := registry.LoadPermissionsMap(Arr([view, edit]));
    ReloadTwo(view, edit);
    assert err == None && registry.previous == Some(DefaultMap);
    var gone := series.Peek(read);
    assert gone == Failure(UnknownPermission(read));

    err := registry.LoadPermissionsMap(view);
    assert err == Some(NotSymbolArray);  // NoMethodError as written
    assert PermissionsMapAsWritten(view) == Failure(NoMethodError("ArgumentError"));
    assert registry.previous == Some(registry.current);
  }
}

# unix_like_permissions in Dafny

This project models the Ruby gem `unix_like_permissions`, which stores a set of
named permissions as one integer the way Unix file modes do. Each name in the
permission table (`PERMISSIONS_MAP`) owns one power of two, and a
`PermissionSeries` holds an integer whose bits say which permissions are
granted. The default table is `read`, `create`, `update` and `destroy`, with the
bits 1, 2, 4 and 8.

The model has five modules:

- `Ruby`: the runtime pieces the library relies on.
  - Ruby values and Ruby truthiness.
  - Exceptions, modelled as a `Result`.
  - Insertion-ordered hashes and `Array#to_h`. A repeated key keeps its first position and takes its last value.
  - `Array#sum`, `String#reverse` and `String#rjust`.
  - The first occurrences of a sequence (`Dedup`) and the position of an element's last occurrence (`LastIndex`). The library calls neither; they state the key order and the values that `to_h` produces.
- `Bits`: Ruby's integer operations on non-negative integers.
  - `|`, `&` and `& ~`.
  - Powers of two and how bits are indexed.
  - `Integer#to_s(2)`.
- `Registry`: the permission table.
  - The default `PERMISSIONS_MAP`.
  - `permissions_map`, which builds a table from a list of names.
  - The class `PermissionRegistry`. Its fields are the two constants `PERMISSIONS_MAP` and `PERMISSIONS_MAP_WAS`, and its method `LoadPermissionsMap` is `load_permissions_map!`.
- `Series`: the class `PermissionSeries` and the module function `create`.
  - Its fields are the value and the memoised bit string `@stringified_permissions`.
  - It keeps a reference to the registry. `peek`, `set`, `to_a`, `to_h`, `to_s` and the bit string read the current `PERMISSIONS_MAP` when they are called.
  - `initialize` and `to_i` never read the table. `set_all` reads only `ALL_TRUE`, which was computed once from the default table.
- `Examples`: the scenarios of the library's own tests and the quirks listed below.
  - Most are stated for arbitrary permission names, and where possible for arbitrary table sizes.
  - The scenarios of the tests are also stated on the default table.

Behaviour of the code that the model keeps:

- `permissions_map` gives name i the bit 2^i.
  - A repeated name keeps the position of its first occurrence but gets the bit of its last one, so such a table is no longer indexed by position.
  - Every table built from symbols is still made of distinct powers of two.
- `load_permissions_map!` is not transactional.
  - `PERMISSIONS_MAP_WAS` is overwritten before the new table is built.
  - A rejected list leaves it equal to the unchanged current table.
- `ALL_TRUE` is summed once from the default table, so it stays 15 after a reload.
  - After a reload to two names, `set_all(true)` sets bits the table does not have.
  - `to_s` then prints empty names for those bits, because `nil.to_s` is `""`.
- The memoised bit string is dropped by `set` and `set_all` but not by a reload.
  - The cached string always shows the current value.
  - It may be padded to the width of a table that has since been replaced.
- `to_s` writes a space before every granted name except the one at position 0.
  - So it starts with a space when bit 0 is clear and some other bit is set.
- `to_a` with an unknown type raises before the bit string is computed.
- `set` rejects before changing anything:
  - first when any name is unknown, listing the unknown names;
  - then when any flag is not exactly `true` or `false`.
- `set_all` decides by Ruby truthiness.

## Model

| member | source | states |
|---|---|---|
| `Ruby.Hash.Store` | lib/unix_like_permissions.rb:27-29 | storing into a hash keeps it a valid hash: the key holds the new value and other keys keep theirs; an existing key keeps its position, and a new key is appended last |
| `Ruby.HashEquality` | lib/unix_like_permissions.rb:27-29 | two valid hashes with the same keys in the same order and the same value under each key are equal |
| `Ruby.PairsToHash` | lib/unix_like_permissions.rb:29 | `to_h` gives a valid hash whose keys are exactly the first components of the pairs |
| `Ruby.Dedup` | lib/unix_like_permissions.rb:29 | the first occurrences of a sequence: no element twice, and the same elements as the input |
| `Ruby.LastIndex` | lib/unix_like_permissions.rb:29 | the returned position holds the element, and no later position does |
| `Ruby.DedupOfDistinct` | lib/unix_like_permissions.rb:29 | a sequence without repeats is its own first occurrences |
| `Ruby.LastIndexOfDistinct` | lib/unix_like_permissions.rb:29 | without repeats, the last occurrence of element i is at i |
| `Ruby.PairsToHashKeys` | lib/unix_like_permissions.rb:29 | `to_h` lists each key at the position of its first pair |
| `Ruby.PairsToHashLastWins` | lib/unix_like_permissions.rb:29 | `to_h` stores under each key the value of that key's last pair |
| `Ruby.PairsToHashValueAt` | lib/unix_like_permissions.rb:29 | with distinct keys, `to_h` stores the value of pair i under the key of pair i |
| `Ruby.PairsToHashOfDistinct` | lib/unix_like_permissions.rb:29 | with distinct keys, `to_h` keeps every pair, in order |
| `Ruby.RJust` | lib/unix_like_permissions/permission_series.rb:121 | `rjust` returns a string already as wide as the width unchanged (it never truncates); a shorter one is padded on the left up to the width and keeps the string at the right |
| `Bits.Pow2` | lib/unix_like_permissions.rb:28 | `2**index` is positive |
| `Bits.Log2` | lib/unix_like_permissions/permission_series.rb:74 | the position of the one bit of a power of two: 2 to that position is the number |
| `Bits.Binary` | lib/unix_like_permissions/permission_series.rb:121 | `to_s(2)` has at least one digit |
| `Bits.BitStep` | lib/unix_like_permissions/permission_series.rb:121 | bit 0 of 2x+d is d; bit i+1 is bit i of x |
| `Bits.BitOfZero` | lib/unix_like_permissions/permission_series.rb:15 | no bit of 0 is set |
| `Bits.BitOfOr` | lib/unix_like_permissions/permission_series.rb:37 | a bit of `a \| b` is set exactly when it is set in a or in b |
| `Bits.BitOfAnd` | lib/unix_like_permissions/permission_series.rb:74 | a bit of `a & b` is set exactly when it is set in both |
| `Bits.BitOfAndNot` | lib/unix_like_permissions/permission_series.rb:39 | a bit of `a & ~b` is set exactly when it is set in a and clear in b |
| `Bits.BitOfPow2` | lib/unix_like_permissions.rb:28 | 2^j has bit j set and no other |
| `Bits.BitsDetermine` | lib/unix_like_permissions/permission_series.rb:35-41 | two numbers with the same bits are equal |
| `Bits.AndPow2Positive` | lib/unix_like_permissions/permission_series.rb:74 | `(v & 2^j) > 0` exactly when bit j of v is set |
| `Bits.Log2OfPow2` | lib/unix_like_permissions.rb:28 | 2^i is a power of two whose one bit is at position i |
| `Bits.Pow2Injective` | lib/unix_like_permissions.rb:27-29 | different positions get different bits |
| `Bits.Pow2Monotone` | lib/unix_like_permissions.rb:28 | 2^i grows with i |
| `Bits.BitAboveRange` | lib/unix_like_permissions/permission_series.rb:121 | a number below 2^n has no bit set at position n or above |
| `Bits.OrBelow` | lib/unix_like_permissions/permission_series.rb:37 | `a \| b` stays below 2^n when a and b both do |
| `Bits.AndNotAtMost` | lib/unix_like_permissions/permission_series.rb:39 | `a & ~b` never exceeds a |
| `Bits.BitOfAllOnes` | lib/unix_like_permissions/permission_series.rb:14 | 2^n - 1 has all its n low bits set |
| `Bits.BinaryDigits` | lib/unix_like_permissions/permission_series.rb:121 | reading `to_s(2)` from its last digit back gives the bits of the number, and every bit past its length is clear |
| `Bits.BinaryFits` | lib/unix_like_permissions/permission_series.rb:121 | a number below 2^n, for n >= 1, has at most n binary digits |
| `Registry.PermissionsMapAsWritten` | lib/unix_like_permissions.rb:24-30 | as written: an array of symbols gives a table; anything else raises NoMethodError for `ArgumentError` |
| `Registry.PermissionsMap` | lib/unix_like_permissions.rb:24-30 | accepts exactly the arrays of symbols and builds the same table as the code; anything else raises the intended ArgumentError |
| `Registry.FirstsOfBitPairs` | lib/unix_like_permissions.rb:27-29 | the pairs `[name, 2**index]` have the names as their first components, in order |
| `Registry.BitTableOfDistinct` | lib/unix_like_permissions.rb:27-29 | for distinct names the table keeps their order and gives name i the bit 2^i |
| `Registry.BitTableLastWins` | lib/unix_like_permissions.rb:27-29 | with repeats, a name keeps its first position and gets the bit of its last occurrence |
| `Registry.BitTableWellFormed` | lib/unix_like_permissions.rb:24-30 | every table built from symbols, repeats or not, has distinct powers of two as its bits |
| `Registry.SumOfPowers` | lib/unix_like_permissions/permission_series.rb:14 | a sequence holding 2^i at each position i sums to 2^n - 1 |
| `Registry.AlignedSum` | lib/unix_like_permissions/permission_series.rb:14 | the values of a table with bit i at key i add up to 2^n - 1 |
| `Registry.AlignedWellFormed` | lib/unix_like_permissions/permission_series.rb:5-10 | a table of symbols with bit i at key i has distinct powers of two as its bits |
| `Registry.PermissionsMapWellFormed` | lib/unix_like_permissions.rb:24-30 | every table `permissions_map` returns has distinct powers of two as its bits |
| `Registry.PermissionsMapOfDistinct` | lib/unix_like_permissions.rb:24-30 | for distinct symbols the result succeeds, keeps their order, gives bit 2^i to the i-th, and its bits sum to 2^n - 1 |
| `Registry.DefaultMapFacts` | lib/unix_like_permissions/permission_series.rb:5-10 | the default table has bit i at key i, is well formed, and its bits sum to 15 |
| `Registry.AlignedIsBitTable` | lib/unix_like_permissions.rb:27-29 | a table with bit i at key i is the one `permissions_map` builds from its own keys |
| `Registry.DefaultMapIsBuilt` | lib/unix_like_permissions/permission_series.rb:5-10 | the default table is what `permissions_map([:read, :create, :update, :destroy])` builds |
| `Registry.PermissionRegistry.constructor` | lib/unix_like_permissions/permission_series.rb:5-10 | the registry starts with the default table and no archived table |
| `Registry.PermissionRegistry.LoadPermissionsMap` | lib/unix_like_permissions.rb:15-22 | the old table is archived in every case; a valid list installs its table, and an invalid one raises and leaves the current table in place; both tables stay well formed; it raises for exactly the lists on which the code as written raises |
| `Series.AllTrueIsFifteen` | lib/unix_like_permissions/permission_series.rb:14 | ALL_TRUE is 15, the sum of the default bits |
| `Series.StringifyDigit` | lib/unix_like_permissions/permission_series.rb:120-122 | character i of the bit string is bit i of the value: counted from the right, digit i of `to_s(2).rjust(...)` is that bit, and a '0' of padding past the binary digits |
| `Series.StringifyBits` | lib/unix_like_permissions/permission_series.rb:120-122 | character i of the bit string is bit i of the value, and the string is as long as the table or as the binary form, whichever is longer |
| `Series.StringifyFits` | lib/unix_like_permissions/permission_series.rb:120-122 | a value below 2^n is laid out in exactly n characters |
| `Series.Cells` | lib/unix_like_permissions/permission_series.rb:87-98 | `to_a` succeeds exactly for `:str`, `:int` and `:bool`, with one cell per character; any other type raises naming it |
| `Series.CellsOfValue` | lib/unix_like_permissions/permission_series.rb:87-98 | for a value inside an n-name table, `to_a` has n cells, and cell i is "1", 1 or true exactly when bit i is set |
| `Series.ZipHashOfDistinct` | lib/unix_like_permissions/permission_series.rb:100-102 | zipping distinct keys with cells keeps every key in order, with cell i, or nil past the end, under key i |
| `Series.ZipOfValue` | lib/unix_like_permissions/permission_series.rb:100-102 | for a value inside a table of distinct names, `to_h` maps every name, in table order, to whether its bit is set |
| `Series.ListingStep` | lib/unix_like_permissions/permission_series.rb:107-113 | one character of the loop adds nothing for a '0', and for a '1' a space unless at position 0, then that position's name |
| `Series.NamesOfLeadingOne` | lib/unix_like_permissions/permission_series.rb:107-113 | a bit string starting with '1' names at least one permission |
| `Series.JoinSnoc` | lib/unix_like_permissions/permission_series.rb:104-116 | joining one more word adds a space and the word, unless it is the first |
| `Series.ListingIsJoin` | lib/unix_like_permissions/permission_series.rb:104-116 | `to_s` is the granted names joined by spaces, plus a leading space when position 0 is '0' and some later position is '1' |
| `Series.NamesOfBits` | lib/unix_like_permissions/permission_series.rb:107-113 | reading a value's bit string, the names collected are those of the set bits, in order |
| `Series.ListingOfValue` | lib/unix_like_permissions/permission_series.rb:104-116 | for a value inside the table, `to_s` lists the names of the set bits in table order, with one leading space when bit 0 is clear and another bit is set |
| `Series.UnknownKeys` | lib/unix_like_permissions/permission_series.rb:24 | `values.keys - PERMISSIONS_MAP.keys` holds exactly the given keys the table lacks |
| `Series.Validate` | lib/unix_like_permissions/permission_series.rb:24-25 | `set` passes its checks exactly when every key is known and every flag is a boolean; unknown keys are reported first, listing exactly those keys |
| `Series.ApplyBits` | lib/unix_like_permissions/permission_series.rb:35-41 | after the loop each bit holds the flag of the last change that covers it, or its old state when none does |
| `Series.SetIdempotent` | lib/unix_like_permissions/permission_series.rb:35-41 | applying the same changes twice gives the value applying them once gives |
| `Series.SetIsLocal` | lib/unix_like_permissions/permission_series.rb:35-41 | setting one permission changes its bit to the flag and leaves every other bit and every other permission as it was |
| `Series.ApplyInRange` | lib/unix_like_permissions/permission_series.rb:35-41 | on a table with bit i at key i, `set` keeps a value that fits the table inside it |
| `Series.AlignedPosition` | lib/unix_like_permissions/permission_series.rb:74 | in such a table the permission at position i owns bit i |
| `Series.PermissionSeries.constructor` | lib/unix_like_permissions/permission_series.rb:19-21 | `initialize` stores the value as given, with no cached string |
| `Series.PermissionSeries.Peek` | lib/unix_like_permissions/permission_series.rb:63-75 | succeeds exactly for names in the current table, with whether their bit is set; unknown names raise naming them |
| `Series.PermissionSeries.Set` | lib/unix_like_permissions/permission_series.rb:23-45 | a rejected call returns the error and changes nothing; otherwise the loop applies the changes in order, the cache is dropped and the new value is returned |
| `Series.PermissionSeries.SetAll` | lib/unix_like_permissions/permission_series.rb:77-81 | the value becomes ALL_TRUE for a truthy flag and ALL_FALSE otherwise, and the cache is dropped |
| `Series.PermissionSeries.StringifiedPermissions` | lib/unix_like_permissions/permission_series.rb:120-122 | returns the cached string or, on first use, the value's bit string padded to the current table size, and memoises it |
| `Series.PermissionSeries.ToA` | lib/unix_like_permissions/permission_series.rb:87-98 | the cells of the bit string; an unknown type raises without touching the cache |
| `Series.PermissionSeries.ToH` | lib/unix_like_permissions/permission_series.rb:100-102 | the current keys zipped with `to_a`, or the error of `to_a` |
| `Series.PermissionSeries.ToS` | lib/unix_like_permissions/permission_series.rb:104-116 | the loop builds exactly the listing of the bit string over the current keys |
| `Series.Create` | lib/unix_like_permissions.rb:11-13 | `create` returns a new series holding the integer unchanged |
| `Examples.ToAOfZero` | spec/permission_series_spec.rb:43-47 | `new(0).to_a(:str)` is one "0" per permission, and a single "0" for an empty table |
| `Examples.ToAOfAllSet` | lib/unix_like_permissions/permission_series.rb:87-98 | a value with all n bits set reads as n ones in `to_a(:int)` |
| `Examples.SetFromZero` | spec/permission_series_spec.rb:14-18 | `new(0).set(p: true)` holds exactly the bit of p |
| `Examples.SetRead` | spec/permission_series_spec.rb:14-18 | `new(0).set(read: true).to_i` is 1 |
| `Examples.SetTwoFromZero` | spec/permission_series_spec.rb:56-60 | setting two permissions from 0 gives the OR of their bits |
| `Examples.SetUnknown` | spec/permission_series_spec.rb:20-22 | a name missing from the table makes `set` raise, naming it |
| `Examples.SetTruthy` | lib/unix_like_permissions/permission_series.rb:25 | a known name with a flag that is not a boolean makes `set` raise |
| `Examples.JoinTwo` | lib/unix_like_permissions/permission_series.rb:109-111 | two names print separated by one space |
| `Examples.ListingOfNine` | spec/permission_series_spec.rb:56-60 | with bits 0 and 3 set, four names print as the first and the last: "read destroy" |
| `Examples.SetReadDestroy` | spec/permission_series_spec.rb:56-60 | `new(0).set(read: true, destroy: true).to_i` is 9 on the default table |
| `Examples.ListingOfNineOnDefault` | spec/permission_series_spec.rb:56-60 | the value 9 over the default table prints as "read destroy" |
| `Examples.ToSOfReadDestroy` | spec/permission_series_spec.rb:56-60 | `new(0).set(read: true, destroy: true).to_s` is "read destroy" on the default table |
| `Examples.HashOfFour` | lib/unix_like_permissions/permission_series.rb:101 | a valid hash with four keys is determined by its keys and their values |
| `Examples.BitsOfOne` | lib/unix_like_permissions/permission_series.rb:121 | 1 has bit 0 set and bits 1 to 3 clear |
| `Examples.ToHOfOne` | lib/unix_like_permissions/permission_series.rb:100-102 | with only bit 0 set, `to_h` over four names maps the first to true and the others to false |
| `Examples.ToHOfRead` | spec/permission_series_spec.rb:49-53 | `new(0).set(read: true).to_h` is `{read: true, create: false, update: false, destroy: false}` on the default table |
| `Examples.ListingOfTwo` | lib/unix_like_permissions/permission_series.rb:107-113 | with only bit 1 set, `to_s` is a space followed by the second name |
| `Examples.HashOfTwo` | lib/unix_like_permissions.rb:29 | a valid hash with two keys is determined by its keys and their values |
| `Examples.BitTableOfTwo` | lib/unix_like_permissions.rb:27-29 | two distinct names get bits 1 and 2, in order |
| `Examples.ReloadTwo` | lib/unix_like_permissions.rb:24-30 | `permissions_map([x, y])` is `{x: 1, y: 2}` |
| `Examples.DedupOfRepeat` | lib/unix_like_permissions.rb:29 | `[a, b, a]` has the first occurrences `[a, b]`, and a's last occurrence is at 2 |
| `Examples.BitTableOfRepeat` | lib/unix_like_permissions.rb:27-29 | `[a, b, a]` gives a table of two entries, with bit 4 for a and bit 2 for b |
| `Examples.ReloadRepeat` | lib/unix_like_permissions.rb:24-30 | `permissions_map([a, b, a])` is `{a: 4, b: 2}` |
| `Examples.ReloadEmpty` | lib/unix_like_permissions.rb:24-30 | the empty array is accepted and gives the empty table |
| `Examples.RejectedListAsWritten` | lib/unix_like_permissions.rb:25 | `permissions_map(["read"])` raises NoMethodError as written, and ArgumentError as intended |
| `Examples.BitsOfFifteen` | lib/unix_like_permissions/permission_series.rb:14 | 15 has four binary digits, all set |
| `Examples.StringifyFifteen` | lib/unix_like_permissions/permission_series.rb:121 | 15 laid out for a table of two names is still "1111" |
| `Examples.ListingOfFourOnes` | lib/unix_like_permissions/permission_series.rb:107-113 | "1111" over two names prints both names and then two empty names |
| `Examples.StaleAllTrue` | lib/unix_like_permissions/permission_series.rb:14 | after a reload to two names ALL_TRUE is still 15, beyond the table, and `to_s` shows two empty names |

## Left out

- `define_getters!` and its generated `read?`-style methods.
  - They rename permissions through a regular expression and define and remove methods at run time.
  - Each getter is `peek` of its permission, which is modelled.
- The `puts` at the end of `load_permissions_map!` is output only. The `freeze` calls only stop later mutation, which the model has no operation for.
- `const_set` is modelled as assignment to the registry's fields. Ruby's warning on redefining a constant is left out.
- Thread safety is left out; the model is sequential.
- The database type adapter in `lib/unix_like_permissions/types/permission_series.rb` is not part of this model.
- The version file required by `lib/unix_like_permissions.rb` is not part of this model.
- `Series.PermissionSeries.constructor`: the value is a non-negative integer. The code stores any object, and `to_i`, `|` and `to_s(2)` then behave as Ruby defines them for that object. Negative and non-integer values are out of scope.
- `Series.Create`: takes a non-negative integer, for the same reason.
- Error messages are modelled as structured `Error` values rather than strings. Two examples:
  - the message of an unknown permission in `set` is the list difference, kept as a list;
  - a `to_a` type error keeps the rejected type.
- `to_a` and `to_h` take the type explicitly. Ruby's defaults, `:str` and `:bool`, are left to the caller.
- Registry.PermissionRegistry.LoadPermissionsMap: reports a rejected list with the intended ArgumentError (`NotSymbolArray`). The code as written raises NoMethodError there (see Findings). Its contract states that both reject exactly the same lists and that the state change is the same.
- `Series.PermissionSeries.Peek` requires the registry's tables to be well formed. Every table the registry can hold is well formed, because the constructor and `LoadPermissionsMap` keep that invariant.
- Most test scenarios are proved for arbitrary permission names and table sizes. The ones stated on the literal default table are `Examples.SetRead`, `Examples.SetReadDestroy`, `Examples.ToSOfReadDestroy` and `Examples.ToHOfRead`. They are stated over the model's functions; `Examples.ReloadScenario` drives the objects.
- `Examples.ReloadScenario` is a client method with no contract of its own. It drives a reload and a failed load against the two classes.

## Findings

| source | as written | input that shows it | evidently intended | confidence | as-written member | corrected member |
|---|---|---|---|---|---|---|
| lib/unix_like_permissions.rb:25 | `raise ArgumentError("...")` calls a method named `ArgumentError`. No such method exists, so a rejected list raises NoMethodError. | `permissions_map(["read"])` | `raise ArgumentError, "..."`: an ArgumentError whose message says the map must be an array of symbols | high; not executed | `Registry.PermissionsMapAsWritten` (with `Examples.RejectedListAsWritten`) | `Registry.PermissionsMap` |

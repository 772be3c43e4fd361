# Goldfish Scheme glue layer, modelled in Dafny

Goldfish Scheme embeds the s7 Scheme interpreter. The header `src/goldfish.hpp`
registers three native procedures in s7's current environment:

- `version` returns the Goldfish version string. The string is
  `17.<s7 major version>.0`.
- `g_current-second` returns the wall-clock time in seconds.
- `g_get-environment-variable` looks a variable up in the host's
  environment-variable store, which comes from the tbox library. If the store
  yields no fragment, the result is `#f`. Otherwise the result is the
  fragments joined by the path separator: `;` under MSVC, `:` elsewhere.

The project has five modules:

- `Wrappers` (`wrappers.dfy`): `Option`.
- `Strings` (`strings.dfy`): joins fragments with a one-character separator.
  `Split`, which cuts a string at that character, is not part of the header.
  It is the reference inverse that `Join` and the version parser are checked
  against. The module proves both round trips, the length of a join and where
  each fragment sits inside a join.
- `Decimal` (`decimal.dfy`): `std::to_string` on natural numbers, and reading
  a numeral back. It proves both round trips and that the numerals have no
  leading zeros.
- `S7` (`s7.dfy`): the small part of the interpreter the glue layer touches.
  That is the values a procedure returns, the procedure record built by
  `s7_make_typed_function`, and a `Scheme` object whose current environment
  (`curlet`) is a mutable map that `Define` (`s7_define`) extends.
- `Goldfish` (`goldfish.dfy`): the header itself.
  - The version constant and `f_version`, proved against an independent
    parser of `major.minor.patch` (both directions).
  - The three `glue_*` routines, as methods that update `sc.curlet`.
  - `f_get_environment_variable`, as a method that follows the C++ code:
    - it cuts the name at its first NUL (`s7_string` hands tbox a C
      string), opens a handle, loads the key, and appends `fragment + path_sep` in
      a loop;
    - it releases the handle, then drops the last character or returns
      false;
    - its contract says the result is `Join` of the fragments, or `false`
      exactly when there are none;
    - ghost counters, incremented at each `tb_environment_init` and
      `tb_environment_exit`, show that the handle is opened once and released
      once, and that the release comes before the result is chosen.

Three things are parameters of the model:

- The compiler (`Msvc` or `OtherCompiler`). It replaces the `#ifdef _MSC_VER`.
- The s7 major version. `S7_MAJOR_VERSION` comes from `s7.h`, and s7.h is not
  part of this model.
- The host store (`Host`). It holds the fragments of each variable and
  whether `tb_environment_init` succeeds.

## Model

| member | source | states |
|---|---|---|
| Decimal.NatToDecimal | src/goldfish.hpp:32-36 | `std::to_string` of a non-negative int is a non-empty string of digits with no leading zero, and it starts with '0' only for 0 |
| Decimal.DecimalOfNatToDecimal | src/goldfish.hpp:32-36 | reading back the decimal string of n gives n, so no two versions format alike |
| Decimal.NatToDecimalOfDecimal | src/goldfish.hpp:32-36 | every canonical numeral is the `to_string` of its value, so the formatting hits exactly the numerals with no leading zeros |
| Goldfish.ParseFormatVersion | src/goldfish.hpp:31-36 | "major.minor.patch" built by the chained appends splits at '.' into exactly three canonical numerals whose values are major, minor and patch |
| Goldfish.FormatParseVersion | src/goldfish.hpp:31-36 | any string that reads as three canonical numerals separated by dots is the formatting of those three numbers |
| Goldfish.GoldfishVersion | src/goldfish.hpp:27-36 | `goldfish_version` reads as (17, s7 major version, 0) and contains exactly two dots |
| Goldfish.Version | src/goldfish.hpp:39-42 | `f_version` returns a string that reads as (17, s7 major version, 0), whatever its arguments |
| S7.Scheme.Define | src/goldfish.hpp:51-53 | `s7_define` binds the symbol to the procedure, shadowing an earlier binding, and leaves every other binding as it was |
| Goldfish.GlueGoldfish | src/goldfish.hpp:44-54 | afterwards "version" is bound to a procedure named "version" with 0 required and 0 optional arguments, not variadic, calling `f_version`; nothing else changes |
| Goldfish.GlueSchemeTime | src/goldfish.hpp:67-77 | afterwards "g_current-second" is bound with arity (0, 0, not variadic) to `f_current_second`; nothing else changes |
| Goldfish.GlueSchemeProcessContext | src/goldfish.hpp:108-118 | afterwards "g_get-environment-variable" is bound with arity (1, 0, not variadic) to `f_get_environment_variable`; nothing else changes |
| Goldfish.PathSeparator | src/goldfish.hpp:82-86 | the separator is one character, ';' exactly under MSVC and ':' exactly otherwise |
| Strings.Join | src/goldfish.hpp:93-104 | for n >= 1 fragments the joined string has length (sum of fragment lengths) + n - 1 |
| Strings.JoinAt | src/goldfish.hpp:94-104 | each fragment appears unmodified in the joined string at its offset, and exactly one separator follows it unless it is the last |
| Strings.JoinSnoc | src/goldfish.hpp:94-95 | appending one more fragment to a join adds one separator and then that fragment |
| Strings.SplitJoin | src/goldfish.hpp:94-104 | when no fragment contains the separator, splitting the joined string gives back exactly the fragments, in order |
| Strings.JoinSplit | src/goldfish.hpp:31-36 | joining the pieces of any split gives the original string; this is the step behind `FormatParseVersion` |
| Strings.SplitCount | src/goldfish.hpp:31-36 | a string splits into one more piece than it has separator characters; this is the helper behind `GoldfishVersion`'s exactly-two-dots ensures |
| Goldfish.TerminatedIsJoin | src/goldfish.hpp:93-104 | appending "fragment + sep" for each fragment, with a one-character sep, gives the join plus one trailing sep, so `substr(0, size - 1)` leaves exactly the join |
| Goldfish.CKey | src/goldfish.hpp:89-92 | the name the store sees is the longest NUL-free prefix of the s7 string: it holds no NUL, is a prefix of the string, and stops only at a NUL or at the end |
| Goldfish.GetEnvironmentVariable | src/goldfish.hpp:80-106 | the name is cut at its first NUL before the lookup; returns false exactly when the store yields no fragment for it (unset key or no handle); otherwise returns the fragments joined by the separator; a single fragment comes back verbatim; the handle is opened once and released once, and that release comes before the result is chosen |
| Goldfish.GetEnvironmentVariableTwice | src/goldfish.hpp:80-106 | two lookups of the same name against an unchanged store return the same value |

## Left out

- `f_current_second` (src/goldfish.hpp:57-65) is not modelled. It reads the
  host clock and converts the time to a `double`, so nothing about its value
  can be stated. Only its registration (`GlueSchemeTime`) is modelled.
- s7 internals are represented abstractly. This covers symbols,
  `s7_make_string`, `s7_make_boolean`, `s7_make_real`, `s7_curlet`, garbage
  collection and arity checking. Values are the `Value` datatype, and the
  current environment is a map from names to procedure records.
- The doc strings are carried as constants with no meaning attached. That
  includes the misspelling "environemt" in the lookup's doc string.
- tbox is represented only by what the adapter sees from it.
  - `tb_environment_load` is modelled as the fragment list stored for the key.
  - How tbox splits the variable's raw value into fragments is not modelled.
  - `tb_for_all_if`'s filtering of null items is not modelled: every fragment
    is taken to be a string.
  - `tb_environment_exit` on a null handle is counted as one release like any
    other.
- GetEnvironmentVariable: requires exactly one string argument. s7's own arity
  check (1 required, 0 optional) guarantees the count. A non-string argument
  is undefined at this layer.
- GetEnvironmentVariable: `tb_size_t` is modelled as an unbounded count. The
  unsigned `ret.size() - 1` is only reached when the count is at least one.
  Given that every loaded item is a non-null string, at least one fragment
  was then appended, so it cannot wrap. If `tb_for_all_if` skipped every
  item, the subtraction would wrap to `npos` and the source would return "".
  The model does not capture that case.
- GoldfishVersion: the s7 major version is a natural-number parameter. A
  negative `S7_MAJOR_VERSION`, which `std::to_string` would print with a
  minus sign, is not modelled.
- Separator choice: the preprocessor test `_MSC_VER` is the `Compiler`
  parameter.
- Not modelled: the `<iostream>` include and the forward declarations, which
  have no behaviour.

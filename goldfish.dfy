/**
 * The Goldfish glue layer: the version string and its procedure, the
 * environment-variable lookup, and the three registration routines that
 * install the native procedures into the interpreter's current environment.
 */
module Goldfish {
  import opened Wrappers
  import opened Strings
  import opened Decimal
  import opened S7

  // ---------------------------------------------------------------------
  // Version
  // ---------------------------------------------------------------------

  /** Goldfish patch version. */
  const PatchVersion: nat := 0
  /** The C++ standard version, used as the Goldfish major version. */
  const MajorVersion: nat := 17

  datatype VersionNumber = VersionNumber(major: nat, minor: nat, patch: nat)

  /** "major.minor.patch", each component in decimal. */
  function FormatVersion(v: VersionNumber): string
  {
    NatToDecimal(v.major) + "." + NatToDecimal(v.minor) + "." + NatToDecimal(v.patch)
  }

  /** Reads "major.minor.patch" with three canonical decimal components, and nothing else. */
  function ParseVersion(s: string): Option<VersionNumber>
  {
    var parts := Split(s, '.');
    if |parts| == 3 && IsCanonicalDecimal(parts[0]) && IsCanonicalDecimal(parts[1]) && IsCanonicalDecimal(parts[2])
    then Some(VersionNumber(DecimalValue(parts[0]), DecimalValue(parts[1]), DecimalValue(parts[2])))
    else None
  }

  /** A formatted version reads back as the same three numbers. */
  lemma {:induction false} ParseFormatVersion(v: VersionNumber)
    ensures ParseVersion(FormatVersion(v)) == Some(v)
  {
    var parts := [NatToDecimal(v.major), NatToDecimal(v.minor), NatToDecimal(v.patch)];
    assert Join(parts, '.') == FormatVersion(v) by {
      assert Join(parts[2..], '.') == parts[2];
      assert Join(parts[1..], '.') == parts[1] + "." + parts[2];
    }
    forall i | 0 <= i < 3 ensures '.' !in parts[i] {
      assert !IsDigit('.');
    }
    SplitJoin(parts, '.');
    DecimalOfNatToDecimal(v.major);
    DecimalOfNatToDecimal(v.minor);
    DecimalOfNatToDecimal(v.patch);
  }

  /** Whatever reads as a version is exactly the formatting of that version. */
  lemma {:induction false} FormatParseVersion(s: string, v: VersionNumber)
    requires ParseVersion(s) == Some(v)
    ensures FormatVersion(v) == s
  {
    var parts := Split(s, '.');
    JoinSplit(s, '.');
    NatToDecimalOfDecimal(parts[0]);
    NatToDecimalOfDecimal(parts[1]);
    NatToDecimalOfDecimal(parts[2]);
    assert Join(parts[2..], '.') == parts[2];
    assert Join(parts[1..], '.') == parts[1] + "." + parts[2];
  }

  /**
   * The goldfish_version constant: major 17, minor the embedded s7's own
   * major version, patch 0. It has exactly two dots.
   */
  function GoldfishVersion(s7MajorVersion: nat): (version: string)
    ensures ParseVersion(version) == Some(VersionNumber(MajorVersion, s7MajorVersion, PatchVersion))
    ensures multiset(version)['.'] == 2
  {
    var v := VersionNumber(MajorVersion, s7MajorVersion, PatchVersion);
    ParseFormatVersion(v);
    SplitCount(FormatVersion(v), '.');
    FormatVersion(v)
  }

  /** f_version: the version string, whatever the arguments. */
  function Version(s7MajorVersion: nat, args: seq<Value>): (r: Value)
    ensures r.Str? && ParseVersion(r.s) == Some(VersionNumber(MajorVersion, s7MajorVersion, PatchVersion))
  {
    Str(GoldfishVersion(s7MajorVersion))
  }

  // ---------------------------------------------------------------------
  // Registration
  // ---------------------------------------------------------------------

  /** The record s7_make_typed_function builds for f_version. */
  function VersionProcedure(): Procedure
  {
    Procedure("version", "(version) => string, return the goldfish version", 0, 0, false, FVersion)
  }

  /** The record s7_make_typed_function builds for f_current_second. */
  function CurrentSecondProcedure(): Procedure
  {
    Procedure("g_current-second",
      "(g_current-second) => double, return the current unix timestamp in double",
      0, 0, false, FCurrentSecond)
  }

  /** The record s7_make_typed_function builds for f_get_environment_variable. */
  function GetEnvironmentVariableProcedure(): Procedure
  {
    Procedure("g_get-environment-variable", "(g_get-environemt-variable string) => string",
      1, 0, false, FGetEnvironmentVariable)
  }

  /** glue_goldfish: binds "version", taking no arguments; every other binding stays. */
  method GlueGoldfish(sc: Scheme)
    modifies sc
    ensures sc.curlet == old(sc.curlet)["version" := VersionProcedure()]
    ensures Binds(sc.curlet, "version", 0, 0, false) && sc.curlet["version"].entry == FVersion
    ensures sc.curlet.Keys == old(sc.curlet).Keys + {"version"}
  {
    var p := VersionProcedure();
    sc.Define(p.name, p);
  }

  /** glue_scheme_time: binds "g_current-second", taking no arguments; every other binding stays. */
  method GlueSchemeTime(sc: Scheme)
    modifies sc
    ensures sc.curlet == old(sc.curlet)["g_current-second" := CurrentSecondProcedure()]
    ensures Binds(sc.curlet, "g_current-second", 0, 0, false) && sc.curlet["g_current-second"].entry == FCurrentSecond
    ensures sc.curlet.Keys == old(sc.curlet).Keys + {"g_current-second"}
  {
    var p := CurrentSecondProcedure();
    sc.Define(p.name, p);
  }

  /** glue_scheme_process_context: binds "g_get-environment-variable", taking one argument; every other binding stays. */
  method GlueSchemeProcessContext(sc: Scheme)
    modifies sc
    ensures sc.curlet == old(sc.curlet)["g_get-environment-variable" := GetEnvironmentVariableProcedure()]
    ensures Binds(sc.curlet, "g_get-environment-variable", 1, 0, false)
    ensures sc.curlet["g_get-environment-variable"].entry == FGetEnvironmentVariable
    ensures sc.curlet.Keys == old(sc.curlet).Keys + {"g_get-environment-variable"}
  {
    var p := GetEnvironmentVariableProcedure();
    sc.Define(p.name, p);
  }

  // ---------------------------------------------------------------------
  // Environment-variable lookup
  // ---------------------------------------------------------------------

  /** The compiler the layer is built with: only MSVC changes the separator. */
  datatype Compiler = Msvc | OtherCompiler

  /** path_sep: ";" under MSVC, ":" otherwise; always one character. */
  function PathSeparator(compiler: Compiler): (sep: string)
    ensures |sep| == 1
    ensures sep[0] == ';' <==> compiler == Msvc
    ensures sep[0] == ':' <==> compiler.OtherCompiler?
  {
    if compiler == Msvc then ";" else ":"
  }

  /**
   * The host's environment-variable store: each variable's value as the
   * ordered fragments the store yields for it, and whether a store handle
   * can be obtained at all.
   */
  datatype Host = Host(vars: map<string, seq<string>>, initSucceeds: bool)

  /** An open store handle and the fragments it has loaded. */
  datatype Handle = Handle(fragments: seq<string>)

  /** tb_environment_init: a fresh empty handle, or none when the store cannot be opened. */
  function EnvironmentInit(host: Host): Option<Handle>
  {
    if host.initSucceeds then Some(Handle([])) else None
  }

  /** tb_environment_load: the handle now holds the fragments of `key` (none if unset). */
  function EnvironmentLoad(host: Host, key: string): Handle
  {
    Handle(if key in host.vars then host.vars[key] else [])
  }

  /**
   * The name as the store reads it: s7_string hands over the string's
   * buffer, which tbox reads as a C string, so the name ends at its first
   * NUL character.
   */
  function CKey(s: string): (key: string)
    ensures '\0' !in key
    ensures key <= s
    ensures |key| < |s| ==> s[|key|] == '\0'
  {
    if |s| == 0 || s[0] == '\0' then "" else [s[0]] + CKey(s[1..])
  }

  /** What one lookup of `key` sees: no fragments at all when no handle could be opened. */
  function Loaded(host: Host, key: string): seq<string>
  {
    if host.initSucceeds && key in host.vars then host.vars[key] else []
  }

  /** Every fragment followed by the separator, built left to right. */
  function Terminated(parts: seq<string>, sep: string): string
  {
    if parts == [] then "" else Terminated(parts[..|parts| - 1], sep) + parts[|parts| - 1] + sep
  }

  /** Appending "fragment + sep" for each fragment gives the join plus one trailing separator. */
  lemma {:induction false} TerminatedIsJoin(parts: seq<string>, sep: string)
    requires |parts| >= 1 && |sep| == 1
    ensures Terminated(parts, sep) == Join(parts, sep[0]) + sep
  {
    var init := parts[..|parts| - 1];
    var last := parts[|parts| - 1];
    if |parts| == 1 {
      assert Terminated(init, sep) == "";
    } else {
      TerminatedIsJoin(init, sep);
      JoinSnoc(init, last, sep[0]);
      assert parts == init + [last];
      assert sep == [sep[0]];
    }
  }

  /**
   * f_get_environment_variable: look the name `args[0]`, cut at its first
   * NUL, up in the host store. False
   * when the store yields no fragment for it (including when no handle
   * could be opened); otherwise the fragments joined by the separator,
   * with no trailing separator. `inits` and `exits` count the calls to
   * tb_environment_init and tb_environment_exit; `exitsAtResult` is the
   * number of exits already made when the result is chosen. The handle is
   * opened once and released once, on either path, before the result.
   */
  method GetEnvironmentVariable(host: Host, compiler: Compiler, args: seq<Value>)
    returns (r: Value, ghost inits: nat, ghost exits: nat, ghost exitsAtResult: nat)
    requires |args| == 1 && args[0].Str?
    ensures inits == 1 && exits == 1
    ensures exitsAtResult == 1
    ensures r == Bool(false) <==> |Loaded(host, CKey(args[0].s))| == 0
    ensures |Loaded(host, CKey(args[0].s))| >= 1 ==>
              r == Str(Join(Loaded(host, CKey(args[0].s)), PathSeparator(compiler)[0]))
    ensures |Loaded(host, CKey(args[0].s))| == 1 ==> r == Str(Loaded(host, CKey(args[0].s))[0])
  {
    var pathSep := PathSeparator(compiler);
    var ret := "";
    var size := 0;
    var key := CKey(args[0].s);
    inits, exits := 0, 0;
    var environment := EnvironmentInit(host);
    inits := inits + 1;
    if environment.Some? {
      environment := Some(EnvironmentLoad(host, key));
      var fragments := environment.value.fragments;
      size := |fragments|;
      if size >= 1 {
        var i := 0;
        while i < |fragments|
          invariant 0 <= i <= |fragments|
          invariant ret == Terminated(fragments[..i], pathSep)
        {
          assert fragments[..i + 1][..i] == fragments[..i];
          ret := ret + fragments[i] + pathSep;
          i := i + 1;
        }
        assert fragments[..i] == fragments;
        TerminatedIsJoin(fragments, pathSep);
      }
    }
    environment := None;  // tb_environment_exit
    exits := exits + 1;
    exitsAtResult := exits;
    if size == 0 {
      r := Bool(false);
    } else {
      r := Str(ret[..|ret| - 1]);
    }
  }

  /** Two lookups of the same name against the same store give the same answer. */
  method GetEnvironmentVariableTwice(host: Host, compiler: Compiler, args: seq<Value>)
    returns (first: Value, second: Value)
    requires |args| == 1 && args[0].Str?
    ensures first == second
  {
    ghost var inits, exits, exitsAtResult;
    first, inits, exits, exitsAtResult := GetEnvironmentVariable(host, compiler, args);
    second, inits, exits, exitsAtResult := GetEnvironmentVariable(host, compiler, args);
  }
}

/**
 * The part of the s7 Scheme interpreter that the glue layer touches: the
 * values a native procedure hands back, the record built by
 * s7_make_typed_function, and the current environment that s7_define
 * extends.
 */
module S7 {

  /** The interpreter values the glue layer produces. */
  datatype Value = Str(s: string) | Bool(b: bool) | Real(x: real)

  /** Which native entry point a procedure calls. */
  datatype Entry = FVersion | FCurrentSecond | FGetEnvironmentVariable

  /** A native procedure: name, documentation, arity and entry point. */
  datatype Procedure = Procedure(
    name: string,
    doc: string,
    required: nat,
    optional: nat,
    rest: bool,
    entry: Entry)

  /** `env` binds `name` to a procedure of that name with exactly this arity. */
  ghost predicate Binds(env: map<string, Procedure>, name: string, required: nat, optional: nat, rest: bool)
  {
    name in env && env[name].name == name &&
    env[name].required == required && env[name].optional == optional && env[name].rest == rest
  }

  /** An interpreter, seen through the bindings of its current environment. */
  class Scheme {
    var curlet: map<string, Procedure>

    constructor (env: map<string, Procedure>)
      ensures curlet == env
    {
      curlet := env;
    }

    /** s7_define: bind `symbol` to `value`, shadowing any earlier binding of it. */
    method Define(symbol: string, value: Procedure)
      modifies this
      ensures curlet == old(curlet)[symbol := value]
      ensures curlet.Keys == old(curlet).Keys + {symbol}
    {
      curlet := curlet[symbol := value];
    }
  }
}

/**
 * The keyword check that every pyctags entry point runs before it looks at
 * its keyword arguments. The validator object has no fields, so the check is
 * a function of its two arguments: calling it again gives the same answer.
 */
module KwargsValidator {
  import opened Wrappers

  /** `ParameterError`, carrying the keyword that was refused. */
  datatype ParameterError = ParameterError(arg: string)

  /** The text the exception carries. */
  function Message(e: ParameterError): string {
    "Parameter " + e.arg + " is not accepted by calling function."
  }

  /**
   * `validate(args, allowed_args)`: `None` when it returns normally, the
   * raised error otherwise. It raises exactly when some argument is not
   * allowed, and it names the first such argument.
   */
  function Validate(args: seq<string>, allowed: seq<string>): (r: Option<ParameterError>)
    ensures r == None <==> forall i :: 0 <= i < |args| ==> args[i] in allowed
    ensures r.Some? ==> exists i :: (0 <= i < |args| && args[i] == r.value.arg
      && args[i] !in allowed && forall j :: 0 <= j < i ==> args[j] in allowed)
  {
    if args == [] then None
    else if args[0] !in allowed then Some(ParameterError(args[0]))
    else
      var r := Validate(args[1..], allowed);
      assert r.Some? ==> exists i :: (0 <= i < |args| && args[i] == r.value.arg
        && args[i] !in allowed && forall j :: 0 <= j < i ==> args[j] in allowed) by {
        if r.Some? {
          var i :| 0 <= i < |args| - 1 && args[1..][i] == r.value.arg && args[1..][i] !in allowed
            && forall j :: 0 <= j < i ==> args[1..][j] in allowed;
          assert forall j :: 0 <= j < i + 1 ==> args[j] in allowed by {
            forall j | 0 <= j < i + 1 ensures args[j] in allowed {
              if j > 0 { assert args[j] == args[1..][j - 1]; }
            }
          }
        }
      }
      r
  }
}

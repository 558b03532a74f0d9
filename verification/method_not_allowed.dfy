/**
 * MethodNotAllowedException
 * (src/Ignite/Routing/Exception/MethodNotAllowedException.php): the error
 * the matcher raises when a path matched but no route accepted the request
 * method. It keeps the allowed methods upper-cased.
 */
module MethodNotAllowedErrors {
  import opened Strings

  /**
   * The exception value: the allowed methods (getAllowedMethods reads this
   * field) and what is handed to the parent exception.
   */
  datatype MethodNotAllowed = MethodNotAllowed(allowedMethods: seq<string>, message: string, code: int)

  /** Every element upper-cased, in the same order (array_map over strtoupper). */
  function UpperAll(methods: seq<string>): (r: seq<string>)
    ensures |r| == |methods|
    ensures forall i :: 0 <= i < |methods| ==> r[i] == Upper(methods[i])
  {
    seq(|methods|, i requires 0 <= i < |methods| => Upper(methods[i]))
  }

  /** The constructor: the list is upper-cased; message and code pass through unchanged. */
  function NewMethodNotAllowed(allowedMethods: seq<string>, message: string, code: int): (e: MethodNotAllowed)
    ensures |e.allowedMethods| == |allowedMethods|
    ensures forall i :: 0 <= i < |allowedMethods| ==> e.allowedMethods[i] == Upper(allowedMethods[i])
    ensures e.message == message && e.code == code
  {
    MethodNotAllowed(UpperAll(allowedMethods), message, code)
  }

  /** A list that is already upper-case passes through the constructor unchanged. */
  lemma UpperCaseListUnchanged(allowedMethods: seq<string>, message: string, code: int)
    requires forall i :: 0 <= i < |allowedMethods| ==> Upper(allowedMethods[i]) == allowedMethods[i]
    ensures NewMethodNotAllowed(allowedMethods, message, code).allowedMethods == allowedMethods
  {
  }

  /** Upper-casing twice is upper-casing once. */
  lemma UpperAllIdempotent(methods: seq<string>)
    ensures UpperAll(UpperAll(methods)) == UpperAll(methods)
  {
    forall i | 0 <= i < |methods|
      ensures UpperAll(UpperAll(methods))[i] == UpperAll(methods)[i]
    {
      UpperIdempotent(methods[i]);
    }
  }
}

/**
 * Runtime values as the class descriptor sees them, and the protocol for
 * values whose computation was deferred to class-compile time (the runtime's
 * `compileDelayed`).
 */
module Values {
  import opened Wrappers

  /** An error returned by the class compiler or by one of its collaborators. */
  datatype Error =
    | ExtendsLoop        // the "class extends loop found" error of the loop check
    | Failed(code: nat)  // an error produced by a collaborator, by identity

  /** A concrete runtime value; the core stores and forwards it, never inspects it. */
  datatype Value = Null | Other(id: nat)

  /** Identity of a parsed expression whose evaluation was deferred. */
  type ExprId = nat

  /**
   * What a constant or a property default holds: nothing (Go's nil), a
   * concrete value, or a deferred expression still to be evaluated.
   */
  datatype Val = Nil | Concrete(value: Value) | Deferred(expr: ExprId)

  /** `compileDelayed.Run`: evaluates a deferred expression, or fails. */
  type Evaluator = ExprId -> Result<Value, Error>

  /** `v` is not deferred, or its evaluation succeeds. */
  predicate Evaluates(v: Val, eval: Evaluator) {
    v.Deferred? ==> eval(v.expr).Success?
  }

  /** `v` is deferred and its evaluation fails with `e`. */
  predicate FailsWith(v: Val, eval: Evaluator, e: Error) {
    v.Deferred? && eval(v.expr) == Failure(e)
  }

  /**
   * The value that replaces `v` once it has been forced: a deferred value
   * whose evaluation succeeds becomes the evaluated result, every other
   * value stays as it is.
   */
  function Force(v: Val, eval: Evaluator): (r: Val)
    ensures !v.Deferred? ==> r == v
    ensures v.Deferred? && eval(v.expr).Success? ==> r == Concrete(eval(v.expr).value)
    ensures Evaluates(v, eval) <==> !r.Deferred?
  {
    if v.Deferred? && eval(v.expr).Success? then Concrete(eval(v.expr).value) else v
  }

  /** Every deferred constant of `consts` evaluates. */
  predicate AllEvaluate(consts: map<string, Val>, eval: Evaluator) {
    forall k :: k in consts ==> Evaluates(consts[k], eval)
  }

  /** Some deferred constant of `consts` fails to evaluate, with `e`. */
  predicate ConstFailure(consts: map<string, Val>, eval: Evaluator, e: Error) {
    exists k :: k in consts && FailsWith(consts[k], eval, e)
  }

  /** The constant table once every entry has been forced. */
  function ForceMap(consts: map<string, Val>, eval: Evaluator): (r: map<string, Val>)
    ensures r.Keys == consts.Keys
    ensures AllEvaluate(consts, eval) ==> forall k :: k in r ==> !r[k].Deferred?
    ensures forall k :: k in consts && !consts[k].Deferred? ==> r[k] == consts[k]
    ensures forall k :: k in consts && consts[k].Deferred? && eval(consts[k].expr).Success? ==>
      r[k] == Concrete(eval(consts[k].expr).value)
  {
    map k | k in consts :: Force(consts[k], eval)
  }

  /**
   * `post` is `pre` with some of its values forced and the rest kept, as a
   * forcing loop leaves a table it abandons part-way.
   */
  predicate PartlyForcedMap(pre: map<string, Val>, post: map<string, Val>, eval: Evaluator) {
    post.Keys == pre.Keys &&
    forall k :: k in pre ==> post[k] == pre[k] || post[k] == Force(pre[k], eval)
  }

  /** The same, position by position, for the property defaults. */
  predicate PartlyForcedSeq(pre: seq<Val>, post: seq<Val>, eval: Evaluator) {
    |post| == |pre| &&
    forall i :: 0 <= i < |pre| ==> post[i] == pre[i] || post[i] == Force(pre[i], eval)
  }

  /** The property defaults once every one has been forced, position by position. */
  function ForceSeq(vs: seq<Val>, eval: Evaluator): (r: seq<Val>)
    ensures |r| == |vs|
    ensures (forall i :: 0 <= i < |vs| ==> Evaluates(vs[i], eval)) ==>
      forall i :: 0 <= i < |r| ==> !r[i].Deferred?
    ensures forall i :: 0 <= i < |vs| && !vs[i].Deferred? ==> r[i] == vs[i]
    ensures forall i :: 0 <= i < |vs| && vs[i].Deferred? && eval(vs[i].expr).Success? ==>
      r[i] == Concrete(eval(vs[i].expr).value)
  {
    seq(|vs|, i requires 0 <= i < |vs| => Force(vs[i], eval))
  }

  /**
   * The error of the first deferred value of `vs`, in order, whose evaluation
   * fails; None when every deferred value evaluates.
   */
  function FirstFailure(vs: seq<Val>, eval: Evaluator): (r: Option<Error>)
    ensures r.None? <==> forall i :: 0 <= i < |vs| ==> Evaluates(vs[i], eval)
    ensures r.Some? ==> exists i :: 0 <= i < |vs| && FailsWith(vs[i], eval, r.value) &&
                                    forall j :: 0 <= j < i ==> Evaluates(vs[j], eval)
  {
    if vs == [] then None
    else if vs[0].Deferred? && eval(vs[0].expr).Failure? then Some(eval(vs[0].expr).error)
    else
      var rest := FirstFailure(vs[1..], eval);
      assert forall i :: 1 <= i < |vs| ==> vs[i] == vs[1..][i - 1];
      rest
  }
}

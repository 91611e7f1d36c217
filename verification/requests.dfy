/** What every modelled operation has in common: the errors it returns, the
    record of the remote requests it issued, and the rule that the first
    refused request ends the operation. */
module Requests {
  import opened Wrappers

  /** An error returned to the framework. `Message` is an error built from a
      fixed text; `Wrapped` is a remote failure wrapped with a context text,
      the underlying cause being left opaque. */
  datatype Error = Message(text: string) | Wrapped(context: string)

  /** The outcome of one operation: the resource state it leaves behind, the
      remote requests it issued in order, and the error it returned, if any.
      The state is reported on failure too, since the framework keeps what
      was set before the error. */
  datatype Run<S, C> = Run(state: S, calls: seq<C>, err: Option<Error>)

  /** Index of the first request of `plan` that the remote system refuses,
      where `accepts(k)` tells whether it accepts the k-th mutating request
      issued by the operation. */
  function FirstRefusal<C>(plan: seq<C>, accepts: nat -> bool): (r: Option<nat>)
    ensures r.None? <==> forall k :: 0 <= k < |plan| ==> accepts(k)
    ensures r.Some? ==> r.value < |plan| && !accepts(r.value)
    ensures r.Some? ==> forall k :: 0 <= k < r.value ==> accepts(k)
  {
    FirstRefusalFrom(|plan|, accepts, 0)
  }

  /** First refused index in `from..count`, scanning upwards. */
  function FirstRefusalFrom(count: nat, accepts: nat -> bool, from: nat): (r: Option<nat>)
    requires from <= count
    requires forall k :: 0 <= k < from ==> accepts(k)
    ensures r.None? <==> forall k :: 0 <= k < count ==> accepts(k)
    ensures r.Some? ==> from <= r.value < count && !accepts(r.value)
    ensures r.Some? ==> forall k :: 0 <= k < r.value ==> accepts(k)
    decreases count - from
  {
    if from == count then None
    else if !accepts(from) then Some(from)
    else FirstRefusalFrom(count, accepts, from + 1)
  }

  /** The refusal found is the first one: a refused request with every
      earlier one accepted is where the operation stops. */
  lemma FirstRefusalAt<C>(plan: seq<C>, accepts: nat -> bool, k: nat)
    requires k < |plan| && !accepts(k)
    requires forall j :: 0 <= j < k ==> accepts(j)
    ensures FirstRefusal(plan, accepts) == Some(k)
  {
  }
}

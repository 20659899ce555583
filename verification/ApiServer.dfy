/** The Kubernetes API server as the adapters use it: one named object that clients read and then
    replace by compare-and-swap on `resourceVersion`. The object is the log of everything ever
    stored in it, so the version of its current content is the length of the log and version 0
    means that it does not exist yet. Objects are never deleted. */
module ApiServer {
  import opened Basics

  /** A stored version and the call that stored it. */
  datatype Entry<+T> = Entry(value: T, writer: nat)

  /** What everybody else stores just before the k-th request of a call. Quantifying over all of
      them quantifies over all interleavings with the other clients. */
  type Schedule<T> = nat -> seq<Entry<T>>

  ghost predicate Excludes<T(!new)>(env: Schedule<T>, me: nat) {
    forall k: nat, e: Entry<T> :: e in env(k) ==> e.writer != me
  }

  /** Somebody else stored something during attempt `a` of a call that makes `width` requests in each. */
  ghost predicate Disturbed<T>(env: Schedule<T>, a: nat, width: nat) {
    exists q: nat :: width * a <= q < width * a + width && env(q) != []
  }

  /** Nobody else stores anything while the call runs. */
  ghost predicate Quiet<T>(env: Schedule<T>) {
    forall q: nat :: env(q) == []
  }

  lemma QuietUndisturbed<T(!new)>(env: Schedule<T>, a: nat, width: nat)
    requires Quiet(env)
    ensures !Disturbed(env, a, width)
  {
  }

  class Object<T> {
    var log: seq<Entry<T>>

    constructor ()
      ensures log == []
    {
      log := [];
    }

    /** The content of the current version. */
    function Current(): (r: Option<T>)
      reads this
      ensures r.None? <==> |log| == 0
    {
      if |log| == 0 then None else Some(log[|log| - 1].value)
    }

    /** `get_opt`: the read is served after `others` have written. */
    method Get(others: seq<Entry<T>>) returns (version: nat, value: Option<T>)
      modifies this
      ensures log == old(log) + others
      ensures version == |log| && value == Current()
    {
      log := log + others;
      version, value := |log|, Current();
    }

    /** `create` (version 0) and `replace`: refused with 409 unless nothing was stored since `version`. */
    method Put(others: seq<Entry<T>>, me: nat, version: nat, value: T) returns (stored: bool)
      modifies this
      ensures stored <==> version == |old(log) + others|
      ensures log == old(log) + others + if stored then [Entry(value, me)] else []
    {
      log := log + others;
      stored := version == |log|;
      if stored {
        log := log + [Entry(value, me)];
      }
    }
  }
}

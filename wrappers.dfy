/** Option and Result, the two failure-carrying wrappers the rest of the model uses. */
module Wrappers {

  /** A value that may be missing: a dictionary key that is absent, a NULL column. */
  datatype Option<+T> = None | Some(value: T) {

    /** The wrapped value, or `default` when there is none (Python's `d.get(k, default)`). */
    function GetOr(default: T): T {
      match this
      case Some(v) => v
      case None => default
    }
  }

  /** Python's truth value of an optional string: `None` and `""` are false. */
  predicate Truthy(v: Option<string>) {
    v.Some? && v.value != ""
  }

  /** The outcome of an operation that the source can abort with an exception. */
  datatype Result<+R, +E> = Success(value: R) | Failure(error: E)

  /**
   * Applying `f` to each element in order, stopping at the first failure, as a
   * Python loop does when a call in its body raises.
   */
  function MapAll<A, B, E>(f: A -> Result<B, E>, xs: seq<A>): (r: Result<seq<B>, E>)
    ensures r.Success? <==> forall k | 0 <= k < |xs| :: f(xs[k]).Success?
    ensures r.Success? ==> |r.value| == |xs| && forall k | 0 <= k < |xs| :: f(xs[k]) == Success(r.value[k])
    ensures r.Failure? ==> exists k | 0 <= k < |xs| :: f(xs[k]) == Failure(r.error) && forall j | 0 <= j < k :: f(xs[j]).Success?
    decreases |xs|
  {
    if xs == [] then Success([])
    else
      var init := xs[..|xs| - 1];
      assert forall k | 0 <= k < |init| :: init[k] == xs[k];
      match MapAll(f, init)
      case Failure(e) => Failure(e)
      case Success(ys) =>
        match f(xs[|xs| - 1])
        case Failure(e) => Failure(e)
        case Success(y) => Success(ys + [y])
  }

  /** Once a prefix fails, the whole loop fails with the same error. */
  lemma {:induction false} MapAllFailsEarly<A, B, E>(f: A -> Result<B, E>, xs: seq<A>, i: nat)
    requires i <= |xs| && MapAll(f, xs[..i]).Failure?
    ensures MapAll(f, xs) == MapAll(f, xs[..i])
    decreases |xs|
  {
    if i < |xs| {
      var init := xs[..|xs| - 1];
      assert init[..i] == xs[..i];
      MapAllFailsEarly(f, init, i);
    } else {
      assert xs[..i] == xs;
    }
  }

  /** One more successful step extends the result by that step's value. */
  lemma MapAllStep<A, B, E>(f: A -> Result<B, E>, xs: seq<A>, i: nat, ys: seq<B>)
    requires i < |xs| && MapAll(f, xs[..i]) == Success(ys)
    ensures MapAll(f, xs[..i + 1]) == match f(xs[i]) case Failure(e) => Failure(e) case Success(y) => Success(ys + [y])
  {
    assert xs[..i + 1][..i] == xs[..i];
  }

  /** The values `f` gives the elements of `xs`, in order, skipping the elements it gives none for. */
  function Collect<A, B>(f: A -> Option<B>, xs: seq<A>): seq<B>
    decreases |xs|
  {
    if xs == [] then []
    else Collect(f, xs[..|xs| - 1]) + (match f(xs[|xs| - 1]) case None => [] case Some(y) => [y])
  }

  lemma CollectStep<A, B>(f: A -> Option<B>, xs: seq<A>, i: nat)
    requires i < |xs|
    ensures Collect(f, xs[..i + 1]) == Collect(f, xs[..i]) + (match f(xs[i]) case None => [] case Some(y) => [y])
  {
    assert xs[..i + 1][..i] == xs[..i];
  }

  /** Something is collected exactly when `f` gives a value for some element. */
  lemma {:induction false} CollectPresentIff<A, B>(f: A -> Option<B>, xs: seq<A>)
    ensures Collect(f, xs) != [] <==> exists k | 0 <= k < |xs| :: f(xs[k]).Some?
    decreases |xs|
  {
    if xs != [] {
      var n := |xs| - 1;
      var init := xs[..n];
      CollectPresentIff(f, init);
      if f(xs[n]).None? && Collect(f, init) == [] {
        forall k | 0 <= k < |xs|
          ensures f(xs[k]).None?
        {
          if k < n {
            assert xs[k] == init[k];
          }
        }
      } else if f(xs[n]).None? {
        var k :| 0 <= k < |init| && f(init[k]).Some?;
        assert xs[k] == init[k];
      }
    }
  }

  /** Every value `f` gives an element is collected. */
  lemma {:induction false} CollectHas<A, B>(f: A -> Option<B>, xs: seq<A>)
    ensures forall k | 0 <= k < |xs| && f(xs[k]).Some? :: f(xs[k]).value in Collect(f, xs)
    decreases |xs|
  {
    if xs != [] {
      var n := |xs| - 1;
      var init := xs[..n];
      CollectHas(f, init);
      forall k | 0 <= k < |xs| && f(xs[k]).Some?
        ensures f(xs[k]).value in Collect(f, xs)
      {
        if k < n {
          assert xs[k] == init[k];
        }
      }
    }
  }

  /** Every collected value is the value `f` gives some element. */
  lemma {:induction false} CollectFrom<A, B>(f: A -> Option<B>, xs: seq<A>)
    ensures forall y | y in Collect(f, xs) :: exists k | 0 <= k < |xs| :: f(xs[k]) == Some(y)
    decreases |xs|
  {
    if xs != [] {
      var n := |xs| - 1;
      var init := xs[..n];
      CollectFrom(f, init);
      forall y | y in Collect(f, xs)
        ensures exists k | 0 <= k < |xs| :: f(xs[k]) == Some(y)
      {
        if y in Collect(f, init) {
          var k :| 0 <= k < |init| && f(init[k]) == Some(y);
          assert xs[k] == init[k];
        } else {
          assert f(xs[n]) == Some(y);
        }
      }
    }
  }
}

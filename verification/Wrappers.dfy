/** Option and Result: the model's stand-ins for Python's `None` and for
    operations that can raise. Result supports the `:-` failure operator. */
module Wrappers {

  datatype Option<+T> = None | Some(value: T)

  datatype Result<+R, +E> = Success(value: R) | Failure(error: E)
  {
    predicate IsFailure()
    {
      Failure?
    }

    function PropagateFailure<U>(): Result<U, E>
      requires Failure?
    {
      Failure(error)
    }

    function Extract(): R
      requires Success?
    {
      value
    }
  }

  /** Applies `f` to every element in order and collects the results; the
      first element on which `f` fails decides the error. */
  function MapAll<A, B, E>(xs: seq<A>, f: A -> Result<B, E>): (r: Result<seq<B>, E>)
    ensures r.Success? <==> forall i | 0 <= i < |xs| :: f(xs[i]).Success?
    ensures r.Success? ==> |r.value| == |xs|
    ensures r.Success? ==> forall i | 0 <= i < |xs| :: f(xs[i]) == Success(r.value[i])
    ensures r.Failure? ==> exists i | 0 <= i < |xs| ::
      && f(xs[i]) == Failure(r.error)
      && forall j | 0 <= j < i :: f(xs[j]).Success?
    decreases |xs|
  {
    if xs == [] then
      Success([])
    else
      match f(xs[0])
      case Failure(err) => Failure(err)
      case Success(y) =>
        match MapAll(xs[1..], f)
        case Failure(err) =>
          assert exists i | 0 <= i < |xs| ::
            && f(xs[i]) == Failure(err)
            && forall j | 0 <= j < i :: f(xs[j]).Success?
          by {
            var i :| 0 <= i < |xs[1..]|
              && f(xs[1..][i]) == Failure(err)
              && forall j | 0 <= j < i :: f(xs[1..][j]).Success?;
            assert xs[1..][i] == xs[i + 1];
            forall j | 0 <= j < i + 1
              ensures f(xs[j]).Success?
            {
              if j > 0 {
                assert xs[1..][j - 1] == xs[j];
              }
            }
          }
          Failure(err)
        case Success(ys) =>
          assert forall i | 1 <= i < |xs| :: xs[1..][i - 1] == xs[i];
          Success([y] + ys)
  }

  /** `zip`: the i-th elements of both sequences paired, as many pairs as
      the shorter sequence has elements. */
  function Zip<A, B>(xs: seq<A>, ys: seq<B>): (r: seq<(A, B)>)
    ensures |r| == if |xs| <= |ys| then |xs| else |ys|
    ensures forall i | 0 <= i < |r| :: r[i] == (xs[i], ys[i])
  {
    if xs == [] || ys == [] then [] else [(xs[0], ys[0])] + Zip(xs[1..], ys[1..])
  }

  /** The first components of a list of pairs (the keys of a dictionary's
      entries, in order). */
  function Firsts<A, B>(ps: seq<(A, B)>): (r: seq<A>)
    ensures |r| == |ps|
    ensures forall i | 0 <= i < |ps| :: r[i] == ps[i].0
  {
    if ps == [] then [] else [ps[0].0] + Firsts(ps[1..])
  }

  /** The second components of a list of pairs. */
  function Seconds<A, B>(ps: seq<(A, B)>): (r: seq<B>)
    ensures |r| == |ps|
    ensures forall i | 0 <= i < |ps| :: r[i] == ps[i].1
  {
    if ps == [] then [] else [ps[0].1] + Seconds(ps[1..])
  }

  /** Unzipping a zip gives back both sequences. */
  lemma UnzipZip<A, B>(xs: seq<A>, ys: seq<B>)
    requires |xs| == |ys|
    ensures Firsts(Zip(xs, ys)) == xs && Seconds(Zip(xs, ys)) == ys
  {
  }
}

/** Option and Result, the two failure-carrying values the model uses. */
module Wrappers {

  /** Python's `None` or a value. */
  datatype Option<+T> = None | Some(value: T)

  /** A value, or the exception that ended the computation. */
  datatype Result<+T, +E> = Ok(value: T) | Err(error: E)

  /** The last element of `xs + ys` and what comes before it, when `ys` is
      not empty. */
  lemma AppendInit<T>(xs: seq<T>, ys: seq<T>)
    requires |ys| > 0
    ensures (xs + ys)[..|xs + ys| - 1] == xs + ys[..|ys| - 1]
    ensures (xs + ys)[|xs + ys| - 1] == ys[|ys| - 1]
  {
  }

  /** Dropping the last element of the prefix of length `j + 1`. */
  lemma PrefixOfPrefix<T>(s: seq<T>, j: nat)
    requires j < |s|
    ensures s[..j + 1][..j] == s[..j]
    ensures s[..j + 1][j] == s[j]
  {
  }

  /** Apply `f` to each element in order, stopping at the first error. */
  function MapAll<A, B, E>(xs: seq<A>, f: A -> Result<B, E>): (r: Result<seq<B>, E>)
    ensures r.Ok? ==> |r.value| == |xs|
  {
    if |xs| == 0 then Ok([])
    else match MapAll(xs[..|xs| - 1], f)
      case Err(e) => Err(e)
      case Ok(ys) =>
        match f(xs[|xs| - 1])
          case Err(e) => Err(e)
          case Ok(y) => Ok(ys + [y])
  }

  /** Success exactly when every element succeeds, each result in its place;
      otherwise the error of the first element that fails. */
  lemma {:induction false} MapAllOutcome<A, B, E>(xs: seq<A>, f: A -> Result<B, E>)
    ensures MapAll(xs, f).Ok? <==> forall i | 0 <= i < |xs| :: f(xs[i]).Ok?
    ensures MapAll(xs, f).Ok? ==> forall i | 0 <= i < |xs| :: MapAll(xs, f).value[i] == f(xs[i]).value
    ensures MapAll(xs, f).Err? ==>
      exists i | 0 <= i < |xs| ::
        && f(xs[i]) == Err(MapAll(xs, f).error)
        && forall j | 0 <= j < i :: f(xs[j]).Ok?
  {
    if |xs| > 0 {
      var init := xs[..|xs| - 1];
      MapAllOutcome(init, f);
      assert forall i | 0 <= i < |init| :: init[i] == xs[i];
      if MapAll(init, f).Err? {
        var i :| 0 <= i < |init| && f(init[i]) == Err(MapAll(init, f).error)
          && forall j | 0 <= j < i :: f(init[j]).Ok?;
        assert f(xs[i]) == Err(MapAll(xs, f).error);
      }
    }
  }

  /** One more element that succeeds extends the results by its own. */
  lemma MapAllSnoc<A, B, E>(xs: seq<A>, x: A, f: A -> Result<B, E>, ys: seq<B>)
    requires MapAll(xs, f) == Ok(ys)
    requires f(x).Ok?
    ensures MapAll(xs + [x], f) == Ok(ys + [f(x).value])
  {
    assert (xs + [x])[..|xs|] == xs;
  }

  /** One more element that fails makes its error the outcome. */
  lemma MapAllSnocErr<A, B, E>(xs: seq<A>, x: A, f: A -> Result<B, E>)
    requires MapAll(xs, f).Ok?
    requires f(x).Err?
    ensures MapAll(xs + [x], f) == Err(f(x).error)
  {
    assert (xs + [x])[..|xs|] == xs;
  }

  /** Mapping two runs is mapping the first and, if it succeeds, the second. */
  lemma {:induction false} MapAllAppend<A, B, E>(xs: seq<A>, ys: seq<A>, f: A -> Result<B, E>)
    ensures MapAll(xs + ys, f) ==
      match MapAll(xs, f)
        case Err(e) => Err(e)
        case Ok(a) => match MapAll(ys, f) case Err(e) => Err(e) case Ok(b) => Ok(a + b)
  {
    if |ys| == 0 {
      assert xs + ys == xs;
      if MapAll(xs, f).Ok? {
        assert MapAll(xs, f).value + [] == MapAll(xs, f).value;
      }
    } else {
      var init := ys[..|ys| - 1];
      MapAllAppend(xs, init, f);
      AppendInit(xs, ys);
      if MapAll(xs, f).Ok? && MapAll(init, f).Ok? && f(ys[|ys| - 1]).Ok? {
        assert MapAll(xs, f).value + MapAll(ys, f).value ==
          (MapAll(xs, f).value + MapAll(init, f).value) + [f(ys[|ys| - 1]).value];
      }
    }
  }

  /** Once an element has failed, no later element changes the outcome. */
  lemma {:induction false} MapAllErrorPersists<A, B, E>(xs: seq<A>, more: seq<A>, f: A -> Result<B, E>)
    requires xs <= more
    requires MapAll(xs, f).Err?
    ensures MapAll(more, f) == MapAll(xs, f)
    decreases |more|
  {
    if |more| > |xs| {
      var init := more[..|more| - 1];
      assert xs <= init;
      MapAllErrorPersists(xs, init, f);
    } else {
      assert xs == more;
    }
  }
}

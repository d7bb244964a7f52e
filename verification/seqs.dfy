/** Two sequence searches used to state "the last one wins" and "the loop
    stops at the first failing element". */
module Seqs {
  import opened Wrappers

  /** The value `f` gives for the LAST element of `xs` it gives one for. */
  function LastSome<T, V>(xs: seq<T>, f: T -> Option<V>): Option<V>
    decreases |xs|
  {
    if |xs| == 0 then None
    else if f(xs[|xs| - 1]).Some? then f(xs[|xs| - 1])
    else LastSome(xs[..|xs| - 1], f)
  }

  /** `LastSome` is `None` exactly when `f` gives nothing for every element,
      and otherwise it is the value of an element after which `f` gives
      nothing. */
  lemma {:induction false} LastSomeSpec<T, V>(xs: seq<T>, f: T -> Option<V>)
    ensures LastSome(xs, f).None? <==> forall i :: 0 <= i < |xs| ==> f(xs[i]).None?
    ensures LastSome(xs, f).Some? ==>
              exists i :: 0 <= i < |xs| && f(xs[i]) == LastSome(xs, f) && forall j :: i < j < |xs| ==> f(xs[j]).None?
    decreases |xs|
  {
    if |xs| > 0 && f(xs[|xs| - 1]).None? {
      var init := xs[..|xs| - 1];
      LastSomeSpec(init, f);
      assert forall i :: 0 <= i < |init| ==> xs[i] == init[i];
      if LastSome(init, f).Some? {
        var i :| 0 <= i < |init| && f(init[i]) == LastSome(init, f) && forall j :: i < j < |init| ==> f(init[j]).None?;
        assert f(xs[i]) == LastSome(xs, f);
      }
    }
  }

  /** Peeling the first element: a later value overrides the first one. */
  lemma {:induction false} LastSomeFront<T, V>(xs: seq<T>, f: T -> Option<V>)
    requires |xs| > 0
    ensures LastSome(xs, f) == if LastSome(xs[1..], f).Some? then LastSome(xs[1..], f) else f(xs[0])
    decreases |xs|
  {
    if |xs| > 1 {
      var init := xs[..|xs| - 1];
      assert init[1..] == xs[1..][..|xs[1..]| - 1];
      assert xs[1..][|xs[1..]| - 1] == xs[|xs| - 1];
      if f(xs[|xs| - 1]).None? {
        LastSomeFront(init, f);
      }
    }
  }

  /** `LastSomeFront` for a sequence written as its head and its tail. */
  lemma LastSomeCons<T, V>(x: T, rest: seq<T>, f: T -> Option<V>)
    ensures LastSome([x] + rest, f) == if LastSome(rest, f).Some? then LastSome(rest, f) else f(x)
  {
    var xs := [x] + rest;
    assert xs[0] == x && xs[1..] == rest;
    LastSomeFront(xs, f);
  }

  /** The index of the first element satisfying `p`, or `|xs|` if none does. */
  function FirstIndex<T>(xs: seq<T>, p: T -> bool): (n: nat)
    ensures n <= |xs|
    ensures forall i :: 0 <= i < n ==> !p(xs[i])
    ensures n < |xs| ==> p(xs[n])
    decreases |xs|
  {
    if |xs| == 0 then 0
    else if p(xs[0]) then 0
    else
      var n := 1 + FirstIndex(xs[1..], p);
      assert forall i :: 0 < i < |xs| ==> xs[i] == xs[1..][i - 1];
      n
  }

  /** `f` applied to every element in order, stopping at the first failure. */
  function TryMap<T, U, E>(xs: seq<T>, f: T -> Result<U, E>): (r: Result<seq<U>, E>)
    ensures r.Success? ==> |r.value| == |xs| && forall i :: 0 <= i < |xs| ==> f(xs[i]) == Success(r.value[i])
    ensures r.Failure? <==> exists i :: 0 <= i < |xs| && f(xs[i]).Failure?
    ensures r.Failure? ==>
              exists i :: 0 <= i < |xs| && f(xs[i]) == Failure(r.error) && forall j :: 0 <= j < i ==> f(xs[j]).Success?
    decreases |xs|
  {
    if |xs| == 0 then Success([])
    else
      assert forall i :: 0 < i < |xs| ==> xs[i] == xs[1..][i - 1];
      match f(xs[0])
      case Failure(err) => Failure(err)
      case Success(first) =>
        match TryMap(xs[1..], f)
        case Failure(err) =>
          ghost var i :| 0 <= i < |xs| - 1 && f(xs[1..][i]) == Failure(err) &&
                         forall j :: 0 <= j < i ==> f(xs[1..][j]).Success?;
          assert f(xs[i + 1]) == Failure(err);
          Failure(err)
        case Success(rest) => Success([first] + rest)
  }
}

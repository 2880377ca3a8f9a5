/** Failure-carrying results used in place of the program's exceptions and `None` returns. */
module Wrappers {

  datatype Option<+T> = None | Some(value: T)

  /** The result of a computation that either yields a value or raises. */
  datatype Result<+T, +E> = Ok(value: T) | Err(error: E)

  /** The result of an effectful step: `Raised` stands for a propagating exception. */
  datatype Outcome = Done | Raised {
    predicate IsFailure() {
      Raised?
    }

    function PropagateFailure(): Outcome
      requires Raised?
    {
      Raised
    }
  }

  lemma SingletonElement<T>(s: set<T>, x: T)
    requires |s| == 1 && x in s
    ensures s == {x}
  {
    assert |s - {x}| == 0;
  }

  lemma AnElement<T>(s: set<T>) returns (x: T)
    requires |s| > 0
    ensures x in s
  {
    assert s != {};
    x :| x in s;
  }

  function Elements<T>(s: seq<T>): set<T> {
    set x | x in s
  }

  /** The sole element of a singleton set. */
  function TheOnly<T>(s: set<T>): (x: T)
    requires |s| == 1
    ensures s == {x}
  {
    assert forall x, y | x in s && y in s :: x == y by {
      forall x, y | x in s && y in s ensures x == y {
        SingletonElement(s, x);
      }
    }
    assert s != {};
    var x :| x in s;
    SingletonElement(s, x);
    x
  }

  /**
   A loop that appends one result per item: `Ok(None)` items are skipped and the first
   error is the result.
   */
  function Collect<T, E>(rs: seq<Result<Option<T>, E>>): Result<seq<T>, E> {
    if rs == [] then Ok([])
    else
      var n := |rs| - 1;
      var front := Collect(rs[..n]);
      if front.Err? then front
      else
        match rs[n]
        case Err(e) => Err(e)
        case Ok(None) => front
        case Ok(Some(v)) => Ok(front.value + [v])
  }

  lemma {:induction false} FirstErrorIsTheResult<T, E>(rs: seq<Result<Option<T>, E>>, k: nat)
    requires k <= |rs| && Collect(rs[..k]).Err?
    ensures Collect(rs) == Collect(rs[..k])
    decreases |rs|
  {
    if k == |rs| {
      assert rs[..k] == rs;
    } else {
      assert rs[..|rs| - 1][..k] == rs[..k];
      FirstErrorIsTheResult(rs[..|rs| - 1], k);
    }
  }

  lemma {:induction false} CollectAll<T, E>(rs: seq<Result<Option<T>, E>>, values: seq<T>)
    requires |rs| == |values| && forall i :: 0 <= i < |rs| ==> rs[i] == Ok(Some(values[i]))
    ensures Collect(rs) == Ok(values)
    decreases |rs|
  {
    if rs != [] {
      var n := |rs| - 1;
      CollectAll(rs[..n], values[..n]);
      assert values == values[..n] + [values[n]];
    }
  }

  lemma {:induction false} CollectIs<T, E>(rs: seq<Result<Option<T>, E>>, values: seq<T>)
    requires |rs| == |values| && Collect(rs) == Ok(values)
    requires forall i :: 0 <= i < |rs| ==> rs[i] != Ok(None)
    ensures forall i :: 0 <= i < |rs| ==> rs[i] == Ok(Some(values[i]))
    decreases |rs|
  {
    if rs != [] {
      var n := |rs| - 1;
      CollectShort(rs[..n]);
      assert rs[n].Ok? && values == Collect(rs[..n]).value + [rs[n].value.value];
      CollectIs(rs[..n], values[..n]);
    }
  }

  lemma {:induction false} CollectAppend<T, E>(xs: seq<Result<Option<T>, E>>, ys: seq<Result<Option<T>, E>>)
    ensures Collect(xs + ys) ==
      (match Collect(xs)
       case Err(e) => Err(e)
       case Ok(vs) => match Collect(ys) case Err(e) => Err(e) case Ok(ws) => Ok(vs + ws))
    decreases |ys|
  {
    if ys == [] {
      assert xs + ys == xs;
      assert Collect(xs).Ok? ==> Collect(xs).value + [] == Collect(xs).value;
    } else {
      var n := |ys| - 1;
      var all := xs + ys;
      assert all[..|all| - 1] == xs + ys[..n] && all[|all| - 1] == ys[n];
      CollectAppend(xs, ys[..n]);
      if Collect(xs).Ok? && Collect(ys).Ok? && ys[n].value.Some? {
        var vs, ws, v := Collect(xs).value, Collect(ys[..n]).value, ys[n].value.value;
        assert vs + (ws + [v]) == vs + ws + [v];
      }
    }
  }

  lemma {:induction false} CollectNothing<T, E>(rs: seq<Result<Option<T>, E>>)
    ensures Collect(rs) == Ok([]) <==> forall i :: 0 <= i < |rs| ==> rs[i] == Ok(None)
    decreases |rs|
  {
    if rs != [] {
      CollectNothing(rs[..|rs| - 1]);
    }
  }

  lemma {:induction false} CollectFull<T, E>(rs: seq<Result<Option<T>, E>>)
    requires Collect(rs).Ok? && forall i :: 0 <= i < |rs| ==> rs[i] != Ok(None)
    ensures |Collect(rs).value| == |rs|
    decreases |rs|
  {
    if rs != [] {
      CollectFull(rs[..|rs| - 1]);
    }
  }

  lemma {:induction false} CollectShort<T, E>(rs: seq<Result<Option<T>, E>>)
    ensures Collect(rs).Ok? ==> |Collect(rs).value| <= |rs|
    decreases |rs|
  {
    if rs != [] {
      CollectShort(rs[..|rs| - 1]);
    }
  }
}

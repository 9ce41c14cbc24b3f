/** Values shared by every module of the model.

    C# references that may be null become `Option`, with `None` for null.
    An operation that may throw becomes a function or method returning `Result`,
    whose `Fail` carries the message of the exception it stands for. */
module Base {

  datatype Option<+T> = None | Some(value: T)

  datatype Result<+T> = Ok(value: T) | Fail(message: string)

  /** Applies `f` to each element in order, stopping at the first failure (a loop whose
      body may throw). */
  function MapResult<A, B>(xs: seq<A>, f: A -> Result<B>): (r: Result<seq<B>>)
    ensures r.Ok? ==> |r.value| == |xs| && forall i :: 0 <= i < |xs| ==> f(xs[i]) == Ok(r.value[i])
    ensures r.Ok? <==> forall i :: 0 <= i < |xs| ==> f(xs[i]).Ok?
    ensures r.Fail? ==> exists i :: 0 <= i < |xs| && f(xs[i]) == Fail(r.message) &&
                                    forall j :: 0 <= j < i ==> f(xs[j]).Ok?
    decreases |xs|
  {
    if xs == [] then Ok([])
    else
      var n := |xs| - 1;
      assert forall i :: 0 <= i < n ==> xs[..n][i] == xs[i];
      match MapResult(xs[..n], f)
      case Fail(m) => Fail(m)
      case Ok(ys) =>
        match f(xs[n])
        case Fail(m) => Fail(m)
        case Ok(y) => Ok(ys + [y])
  }

  lemma MapResultSnoc<A, B>(xs: seq<A>, x: A, f: A -> Result<B>)
    ensures MapResult(xs + [x], f) ==
      match MapResult(xs, f)
      case Fail(m) => Fail(m)
      case Ok(ys) => (match f(x) case Fail(m) => Fail(m) case Ok(y) => Ok(ys + [y]))
  {
    assert (xs + [x])[..|xs|] == xs;
  }

  /** Once a prefix fails, so does every extension, with the same message. */
  lemma MapResultFailPrefix<A, B>(xs: seq<A>, ys: seq<A>, f: A -> Result<B>)
    requires MapResult(xs, f).Fail?
    ensures MapResult(xs + ys, f) == MapResult(xs, f)
  {
    var r := MapResult(xs, f);
    var i :| 0 <= i < |xs| && f(xs[i]) == Fail(r.message) && forall j :: 0 <= j < i ==> f(xs[j]).Ok?;
    var s := MapResult(xs + ys, f);
    assert (xs + ys)[i] == xs[i];
    assert forall j :: 0 <= j < i ==> (xs + ys)[j] == xs[j];
    var k :| 0 <= k < |xs + ys| && f((xs + ys)[k]) == Fail(s.message) && forall j :: 0 <= j < k ==> f((xs + ys)[j]).Ok?;
    assert k == i;
  }

  /** The first failure ends the list: a failing element after a prefix that succeeds
      is the result of the whole list. */
  lemma MapResultStops<A, B>(xs: seq<A>, i: nat, f: A -> Result<B>)
    requires i < |xs| && MapResult(xs[..i], f).Ok? && f(xs[i]).Fail?
    ensures MapResult(xs, f) == Fail(f(xs[i]).message)
  {
    MapResultSnoc(xs[..i], xs[i], f);
    assert xs[..i] + [xs[i]] == xs[..i + 1];
    MapResultFailStays(xs, i + 1, f);
  }

  lemma {:induction false} MapResultFailStays<A, B>(xs: seq<A>, k: nat, f: A -> Result<B>)
    requires k <= |xs| && MapResult(xs[..k], f).Fail?
    ensures MapResult(xs, f) == MapResult(xs[..k], f)
    decreases |xs| - k
  {
    if k < |xs| {
      MapResultSnoc(xs[..k], xs[k], f);
      assert xs[..k] + [xs[k]] == xs[..k + 1];
      MapResultFailStays(xs, k + 1, f);
    } else {
      assert xs[..k] == xs;
    }
  }

  /** The first element `f` accepts, mapped (a loop that returns at its first hit). */
  function FirstSome<A, B>(xs: seq<A>, f: A -> Option<B>): (r: Option<B>)
    ensures r.Some? ==> exists i :: 0 <= i < |xs| && f(xs[i]) == r && forall j :: 0 <= j < i ==> f(xs[j]).None?
    ensures r.None? <==> forall i :: 0 <= i < |xs| ==> f(xs[i]).None?
    decreases |xs|
  {
    if xs == [] then None
    else if f(xs[0]).Some? then f(xs[0])
    else
      var r := FirstSome(xs[1..], f);
      assert forall i :: 1 <= i < |xs| ==> xs[i] == xs[1..][i - 1];
      assert r.Some? ==> exists i :: 0 <= i < |xs| && f(xs[i]) == r && forall j :: 0 <= j < i ==> f(xs[j]).None? by {
        if r.Some? {
          var k :| 0 <= k < |xs[1..]| && f(xs[1..][k]) == r && forall j :: 0 <= j < k ==> f(xs[1..][j]).None?;
          assert f(xs[k + 1]) == r;
        }
      }
      r
  }

  /** The values `f` gives for the elements it accepts, in order (a loop that adds each
      parsed line to a list). */
  function Collect<A, B>(xs: seq<A>, f: A -> Option<B>): (r: seq<B>)
    ensures |r| <= |xs|
    ensures r == [] <==> forall i :: 0 <= i < |xs| ==> f(xs[i]).None?
    ensures forall y :: y in r ==> exists i :: 0 <= i < |xs| && f(xs[i]) == Some(y)
    decreases |xs|
  {
    if xs == [] then []
    else
      var n := |xs| - 1;
      var r := Collect(xs[..n], f) + (if f(xs[n]).Some? then [f(xs[n]).value] else []);
      assert forall i :: 0 <= i < n ==> xs[..n][i] == xs[i];
      assert forall y :: y in Collect(xs[..n], f) ==> exists i :: 0 <= i < n && f(xs[i]) == Some(y) by {
        forall y | y in Collect(xs[..n], f) ensures exists i :: 0 <= i < n && f(xs[i]) == Some(y) {
          var i :| 0 <= i < n && f(xs[..n][i]) == Some(y);
          assert f(xs[i]) == Some(y);
        }
      }
      r
  }

  lemma CollectSnoc<A, B>(xs: seq<A>, x: A, f: A -> Option<B>)
    ensures Collect(xs + [x], f) == Collect(xs, f) + (if f(x).Some? then [f(x).value] else [])
  {
    assert (xs + [x])[..|xs|] == xs;
  }

  /** Reads output lines one by one and keeps every value `f` gives. */
  method CollectLines<A, B>(lines: seq<A>, f: A -> Option<B>) returns (result: seq<B>)
    ensures result == Collect(lines, f)
  {
    result := [];
    var i := 0;
    while i < |lines|
      invariant 0 <= i <= |lines|
      invariant result == Collect(lines[..i], f)
    {
      var item := f(lines[i]);
      CollectSnoc(lines[..i], lines[i], f);
      assert lines[..i + 1] == lines[..i] + [lines[i]];
      if item.Some? {
        result := result + [item.value];
      }
      i := i + 1;
    }
    assert lines[..i] == lines;
  }
}

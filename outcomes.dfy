/** Option and Result, and the ways one scrape of the modem can fail. */
module Outcomes {

  datatype Option<+T> = None | Some(value: T)

  /** Every exception that escapes `Collector.collect`, as a value. */
  datatype Error =
    | FetchFailed                      // requests.get raised, or raise_for_status did
    | UnknownCaption(title: string)    // `assert False, title` on a table nobody expects
    | MissingField(field: string)      // KeyError from `row[k]`
    | NotAFloat(token: string)         // ValueError from `float(token)`

  datatype Result<+T> = Ok(value: T) | Err(error: Error)

  /** Running steps one after the other, each yielding a list: the lists joined in
      order, or the failure of the first step that fails, which ends the run. */
  function Flatten<T>(rs: seq<Result<seq<T>>>): (r: Result<seq<T>>)
    decreases |rs|
  {
    if |rs| == 0 then Ok([])
    else
      match Flatten(rs[..|rs| - 1])
      case Err(e) => Err(e)
      case Ok(xs) =>
        match rs[|rs| - 1]
        case Err(e) => Err(e)
        case Ok(ys) => Ok(xs + ys)
  }

  /** The run succeeds exactly when every step does. */
  lemma {:induction false} FlattenSucceeds<T>(rs: seq<Result<seq<T>>>)
    ensures Flatten(rs).Ok? <==> forall i :: 0 <= i < |rs| ==> rs[i].Ok?
    decreases |rs|
  {
    if |rs| > 0 {
      var rs' := rs[..|rs| - 1];
      FlattenSucceeds(rs');
      assert forall i :: 0 <= i < |rs'| ==> rs'[i] == rs[i];
    }
  }

  /** A failed run reports the failure of its first failing step. */
  lemma {:induction false} FlattenFailure<T>(rs: seq<Result<seq<T>>>)
    ensures Flatten(rs).Err? ==>
              exists i :: 0 <= i < |rs| && rs[i] == Err(Flatten(rs).error)
                          && forall j :: 0 <= j < i ==> rs[j].Ok?
    decreases |rs|
  {
    if |rs| > 0 {
      var rs' := rs[..|rs| - 1];
      FlattenFailure(rs');
      FlattenSucceeds(rs');
      assert forall i :: 0 <= i < |rs'| ==> rs'[i] == rs[i];
    }
  }

  /** Running two batches of steps one after the other: the first batch's failure
      ends the run; otherwise the lists of both batches, in order. */
  lemma {:induction false} FlattenAppend<T>(a: seq<Result<seq<T>>>, b: seq<Result<seq<T>>>)
    ensures Flatten(a).Err? ==> Flatten(a + b) == Flatten(a)
    ensures Flatten(a + b).Ok? <==> Flatten(a).Ok? && Flatten(b).Ok?
    ensures Flatten(a + b).Ok? ==> Flatten(a + b).value == Flatten(a).value + Flatten(b).value
    decreases |b|
  {
    if |b| == 0 {
      assert a + b == a;
    } else {
      var b' := b[..|b| - 1];
      assert (a + b)[..|a + b| - 1] == a + b';
      assert (a + b)[|a + b| - 1] == b[|b| - 1];
      FlattenAppend(a, b');
      var ra, rb' := Flatten(a), Flatten(b');
      if ra.Ok? && rb'.Ok? && b[|b| - 1].Ok? {
        assert ra.value + rb'.value + b[|b| - 1].value == ra.value + (rb'.value + b[|b| - 1].value);
      }
    }
  }

  /** Step n, in terms of the run of the steps before it. */
  lemma FlattenStepAt<T>(rs: seq<Result<seq<T>>>, n: nat)
    requires n < |rs|
    ensures Flatten(rs[..n]).Err? ==> Flatten(rs[..n + 1]) == Flatten(rs[..n])
    ensures Flatten(rs[..n]).Ok? && rs[n].Err? ==> Flatten(rs[..n + 1]) == Err(rs[n].error)
    ensures Flatten(rs[..n]).Ok? && rs[n].Ok? ==> Flatten(rs[..n + 1]) == Ok(Flatten(rs[..n]).value + rs[n].value)
  {
    assert rs[..n + 1][..n] == rs[..n];
  }

  /** Once the first n steps have failed, the whole run fails the same way. */
  lemma FlattenPrefixErr<T>(rs: seq<Result<seq<T>>>, n: nat)
    requires n <= |rs|
    requires Flatten(rs[..n]).Err?
    ensures Flatten(rs) == Flatten(rs[..n])
  {
    FlattenAppend(rs[..n], rs[n..]);
    assert rs[..n] + rs[n..] == rs;
  }

  /** Whatever holds of every item of every step's list holds of every item of the
      joined list. */
  lemma {:induction false} FlattenAll<T>(rs: seq<Result<seq<T>>>, p: T -> bool)
    requires forall i, j :: 0 <= i < |rs| && rs[i].Ok? && 0 <= j < |rs[i].value| ==> p(rs[i].value[j])
    ensures Flatten(rs).Ok? ==> forall j :: 0 <= j < |Flatten(rs).value| ==> p(Flatten(rs).value[j])
    decreases |rs|
  {
    if |rs| > 0 {
      var rs' := rs[..|rs| - 1];
      assert forall i :: 0 <= i < |rs'| ==> rs'[i] == rs[i];
      FlattenAll(rs', p);
    }
  }
}

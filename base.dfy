/** Failure-carrying values shared by every module of the model. */
module Base {

  /** A value that may be absent. */
  datatype Option<+T> = None | Some(value: T)

  /** A value, or the reason it could not be produced. */
  datatype Result<+T, +E> = Ok(value: T) | Err(error: E)

  /**
    Runs a sequence of steps that each may fail, in order: the values of all of
    them, or the error of the first that fails (the fatal error ends the run).
  */
  function Collect<T, E>(rs: seq<Result<T, E>>): Result<seq<T>, E>
    decreases |rs|
  {
    if |rs| == 0 then Ok([])
    else
      match Collect(rs[..|rs| - 1])
      case Err(e) => Err(e)
      case Ok(done) =>
        match rs[|rs| - 1]
        case Err(e) => Err(e)
        case Ok(v) => Ok(done + [v])
  }

  /** Once a prefix has failed, the whole run fails with the same error. */
  lemma {:induction false} CollectStops<T, E>(rs: seq<Result<T, E>>, i: int)
    requires 0 <= i <= |rs| && Collect(rs[..i]).Err?
    ensures Collect(rs) == Collect(rs[..i])
    decreases |rs| - i
  {
    if i < |rs| {
      assert rs[..i + 1][..i] == rs[..i];
      CollectStops(rs, i + 1);
    } else {
      assert rs[..i] == rs;
    }
  }

  /**
    A run succeeds exactly when every step does, with their values in order;
    it fails with the error of the first failing step, every earlier one having
    succeeded.
  */
  lemma {:induction false} CollectShape<T, E>(rs: seq<Result<T, E>>)
    ensures var c := Collect(rs);
      && (c.Ok? <==> forall k :: 0 <= k < |rs| ==> rs[k].Ok?)
      && (c.Ok? ==> |c.value| == |rs| && forall k :: 0 <= k < |rs| ==> rs[k] == Ok(c.value[k]))
      && (c.Err? ==> exists k :: 0 <= k < |rs| && rs[k] == Err(c.error) && forall j :: 0 <= j < k ==> rs[j].Ok?)
    decreases |rs|
  {
    if |rs| > 0 {
      var front := rs[..|rs| - 1];
      CollectShape(front);
      assert forall j :: 0 <= j < |front| ==> rs[j] == front[j];
      var c := Collect(rs);
      var p := Collect(front);
      if p.Err? {
        var k :| 0 <= k < |front| && front[k] == Err(p.error) && forall j :: 0 <= j < k ==> front[j].Ok?;
        assert rs[k] == Err(c.error);
      } else if rs[|rs| - 1].Err? {
        assert rs[|rs| - 1] == Err(c.error);
      } else {
        assert c.value == p.value + [rs[|rs| - 1].value];
      }
    }
  }
}

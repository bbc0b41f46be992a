/** Failure-carrying values shared by every module: `Option` stands for Python's
    `None`-or-value returns and `Result` for a value or the exception that
    the Python code would raise instead. */
module Results {

  datatype Option<+T> = None | Some(value: T) {
    function GetOr(default: T): T {
      match this
      case Some(v) => v
      case None => default
    }
  }

  datatype Result<+T, +E> = Ok(value: T) | Err(error: E)

  /** Runs a sequence of steps that may each raise: the values of all of
      them, or the error of the first one that fails. */
  function AllOk<T, E>(rs: seq<Result<T, E>>): (r: Result<seq<T>, E>)
    ensures r.Ok? <==> forall i :: 0 <= i < |rs| ==> rs[i].Ok?
    ensures r.Ok? ==> |r.value| == |rs| && forall i :: 0 <= i < |rs| ==> r.value[i] == rs[i].value
    ensures r.Err? ==> exists i :: 0 <= i < |rs| && rs[i] == Err(r.error) && forall j :: 0 <= j < i ==> rs[j].Ok?
  {
    if |rs| == 0 then Ok([])
    else
      match rs[0]
      case Err(e) => Err(e)
      case Ok(v) =>
        var rest := AllOk(rs[1..]);
        assert forall i :: 1 <= i < |rs| ==> rs[i] == rs[1..][i - 1];
        match rest
        case Err(e) =>
          assert exists i :: 1 <= i < |rs| && rs[i] == Err(e) && forall j :: 0 <= j < i ==> rs[j].Ok? by {
            var i :| 0 <= i < |rs[1..]| && rs[1..][i] == Err(e) && forall j :: 0 <= j < i ==> rs[1..][j].Ok?;
            assert rs[i + 1] == Err(e);
            forall j | 0 <= j < i + 1
              ensures rs[j].Ok?
            {
              if j > 0 { assert rs[j] == rs[1..][j - 1]; }
            }
          }
          Err(e)
        case Ok(vs) => Ok([v] + vs)
  }
}

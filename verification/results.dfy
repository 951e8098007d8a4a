/** Failure-compatible wrappers shared by every solver: a Python exception
    becomes an `Err`, and `:-` propagates it the way an uncaught exception
    propagates out of the calling function. */
module Results {

  datatype Option<+T> = None | Some(value: T)

  datatype Result<+T, +E> = Ok(value: T) | Err(error: E) {
    predicate IsFailure() {
      Err?
    }

    function PropagateFailure<U>(): Result<U, E>
      requires Err?
    {
      Err(error)
    }

    function Extract(): T
      requires Ok?
    {
      value
    }
  }

  /** Reading a `defaultdict(int)`: a missing key counts as zero. */
  function Count<K>(m: map<K, nat>, k: K): nat {
    if k in m then m[k] else 0
  }

  /** A list comprehension whose element expression may raise: every line
      converted, in order, or the error of the first line that fails. */
  function ParseEach<T, E>(lines: seq<string>, parse: string -> Result<T, E>): (r: Result<seq<T>, E>)
    ensures r.Ok? <==> forall k :: 0 <= k < |lines| ==> parse(lines[k]).Ok?
    ensures r.Ok? ==> |r.value| == |lines| && forall k :: 0 <= k < |lines| ==> parse(lines[k]) == Ok(r.value[k])
    ensures r.Err? ==> exists k :: 0 <= k < |lines| && parse(lines[k]) == Err(r.error)
                                   && forall j :: 0 <= j < k ==> parse(lines[j]).Ok?
  {
    if lines == [] then Ok([])
    else
      var p :- parse(lines[0]);
      var rest :- ParseEach(lines[1..], parse);
      assert forall k :: 1 <= k < |lines| ==> lines[k] == lines[1..][k - 1];
      Ok([p] + rest)
  }

  /** Once some lines fail to convert, more lines after them change nothing. */
  lemma {:induction false} ParseEachErr<T, E>(lines: seq<string>, more: seq<string>, parse: string -> Result<T, E>)
    requires ParseEach(lines, parse).Err?
    ensures ParseEach(lines + more, parse) == ParseEach(lines, parse)
  {
    assert (lines + more)[0] == lines[0] && (lines + more)[1..] == lines[1..] + more;
    if parse(lines[0]).Ok? {
      ParseEachErr(lines[1..], more, parse);
    }
  }

  /** A failing prefix decides the whole list. */
  lemma ParseEachPrefixErr<T, E>(lines: seq<string>, i: nat, parse: string -> Result<T, E>)
    requires i <= |lines| && ParseEach(lines[..i], parse).Err?
    ensures ParseEach(lines, parse) == ParseEach(lines[..i], parse)
  {
    assert lines == lines[..i] + lines[i..];
    ParseEachErr(lines[..i], lines[i..], parse);
  }

  /** Converting one more line: the error of the lines before it, else
      the error of the new line, else one more value at the end. */
  lemma {:induction false} ParseEachSnoc<T, E>(lines: seq<string>, x: string, parse: string -> Result<T, E>)
    ensures ParseEach(lines + [x], parse)
            == match ParseEach(lines, parse)
               case Err(e) => Err(e)
               case Ok(vs) => (match parse(x) case Err(e) => Err(e) case Ok(v) => Ok(vs + [v]))
  {
    if lines == [] {
      assert lines + [x] == [x] && [x][1..] == [];
      match parse(x)
      case Err(_) =>
      case Ok(v) => assert [v] + [] == [] + [v];
    } else {
      assert (lines + [x])[0] == lines[0] && (lines + [x])[1..] == lines[1..] + [x];
      ParseEachSnoc(lines[1..], x, parse);
      match parse(lines[0])
      case Err(_) =>
      case Ok(p) =>
        match ParseEach(lines[1..], parse)
        case Err(_) =>
        case Ok(vs) =>
          match parse(x)
          case Err(_) =>
          case Ok(v) => assert [p] + (vs + [v]) == ([p] + vs) + [v];
    }
  }
}

/** Option, Result and Outcome: null returns and the exceptions of the repository. */
module Wrappers {

  datatype Option<+T> = None | Some(value: T) {
    function GetOr(default: T): T {
      match this
      case Some(v) => v
      case None => default
    }
  }

  /** A value, or the error the repository raises as an exception. */
  datatype Result<+T, +E> = Success(value: T) | Failure(error: E)

  /** Completion of an operation that returns nothing but may raise. */
  datatype Outcome<+E> = Pass | Fail(error: E)

  /** The present values of a sequence of options, in order. */
  function Somes<T>(s: seq<Option<T>>): seq<T>
    decreases |s|
  {
    if |s| == 0 then []
    else Somes(s[..|s| - 1]) + (if s[|s| - 1].Some? then [s[|s| - 1].value] else [])
  }

  /** Exactly the present values survive, and none is invented. */
  lemma {:induction false} SomesMembers<T>(s: seq<Option<T>>, x: T)
    ensures |Somes(s)| <= |s|
    ensures x in Somes(s) <==> Some(x) in s
    decreases |s|
  {
    if |s| > 0 {
      var init := s[..|s| - 1];
      SomesMembers(init, x);
      assert s == init + [s[|s| - 1]];
    }
  }

  /** Skipping absent values keeps the order of the rest. */
  lemma {:induction false} SomesAppend<T>(a: seq<Option<T>>, b: seq<Option<T>>)
    ensures Somes(a + b) == Somes(a) + Somes(b)
    decreases |b|
  {
    if |b| > 0 {
      var init := b[..|b| - 1];
      assert (a + b)[..|a + b| - 1] == a + init;
      SomesAppend(a, init);
    } else {
      assert a + b == a;
    }
  }
}

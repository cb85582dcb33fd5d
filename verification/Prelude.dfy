/** Failure-aware result types and the two sequence helpers every component uses. */
module Prelude {

  datatype Option<+T> = None | Some(value: T)

  datatype Result<+T, +E> = Ok(value: T) | Err(error: E)

  function Min(a: int, b: int): int {
    if a <= b then a else b
  }

  function Max(a: int, b: int): int {
    if a >= b then a else b
  }

  /** The bytes of a chunked stream, with the chunk boundaries forgotten. */
  function Flatten<T>(chunks: seq<seq<T>>): seq<T> {
    if chunks == [] then [] else chunks[0] + Flatten(chunks[1..])
  }

  lemma {:induction false} FlattenAppend<T>(chunks: seq<seq<T>>, last: seq<T>)
    ensures Flatten(chunks + [last]) == Flatten(chunks) + last
  {
    if chunks == [] {
      assert chunks + [last] == [last];
      assert Flatten([last]) == last + Flatten<T>([]);
    } else {
      FlattenAppend(chunks[1..], last);
      assert (chunks + [last])[1..] == chunks[1..] + [last];
    }
  }

  // ----- lists without repetition

  function Elements<T(==)>(s: seq<T>): set<T> {
    set x | x in s
  }

  ghost predicate Distinct<T>(s: seq<T>) {
    forall i, j :: 0 <= i < j < |s| ==> s[i] != s[j]
  }

  lemma ElementsCons<T>(s: seq<T>)
    requires s != []
    ensures Elements(s) == {s[0]} + Elements(s[1..])
    ensures Distinct(s) ==> s[0] !in Elements(s[1..]) && Distinct(s[1..])
  {
    forall x | x in s
      ensures x == s[0] || x in s[1..]
    {
      var i :| 0 <= i < |s| && s[i] == x;
      if i > 0 { assert s[1..][i - 1] == x; }
    }
    if Distinct(s) {
      forall x | x in s[1..]
        ensures x != s[0]
      {
        var j :| 0 <= j < |s[1..]| && s[1..][j] == x;
        assert s[j + 1] == x;
      }
    }
  }

  lemma {:induction false} DistinctCount<T>(s: seq<T>)
    requires Distinct(s)
    ensures |Elements(s)| == |s|
    decreases |s|
  {
    hide Elements, Distinct;
    if s != [] {
      ElementsCons(s);
      DistinctCount(s[1..]);
    } else {
      NoElements<T>();
    }
  }

  lemma NoElements<T>()
    ensures Elements<T>([]) == {}
  {
  }

  lemma ElementsSplit<T>(s: seq<T>, k: nat)
    requires k <= |s| && Distinct(s)
    ensures Elements(s) - Elements(s[..k]) == Elements(s[k..]) && Distinct(s[..k]) && Distinct(s[k..])
  {
    assert s[..k] + s[k..] == s;
    forall x | x in s[k..]
      ensures x !in s[..k]
    {
      var i :| 0 <= i < |s[k..]| && s[k..][i] == x;
      assert s[k + i] == x;
    }
  }
}

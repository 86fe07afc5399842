/** Optional values and small sequence facts shared by every module of the model. */
module Wrappers {

  /** A value that may be absent: PHP's `null`, a missing array key, or `false` returned for "unavailable". */
  datatype Option<+T> = None | Some(value: T) {
    function GetOr(default: T): T {
      match this
      case Some(v) => v
      case None => default
    }
  }

  /** Concatenation regroups; stated once so that proofs over long contexts can cite it. */
  lemma AppendAssoc<T>(a: seq<T>, b: seq<T>, c: seq<T>)
    ensures (a + b) + c == a + (b + c)
  {
  }

  /** `array_map($f, $s)` over a list: `f` of each element, in order. */
  function MapSeq<T, U>(f: T -> U, s: seq<T>): (r: seq<U>)
    ensures |r| == |s| && forall i :: 0 <= i < |s| ==> r[i] == f(s[i])
  {
    if s == [] then [] else MapSeq(f, s[..|s| - 1]) + [f(s[|s| - 1])]
  }

  /** Mapping distributes over concatenation. */
  lemma MapSeqAppend<T, U>(f: T -> U, a: seq<T>, b: seq<T>)
    ensures MapSeq(f, a + b) == MapSeq(f, a) + MapSeq(f, b)
  {
    var l, r := MapSeq(f, a + b), MapSeq(f, a) + MapSeq(f, b);
    forall i | 0 <= i < |l| ensures l[i] == r[i] {
      if i < |a| { assert (a + b)[i] == a[i]; } else { assert (a + b)[i] == b[i - |a|]; }
    }
  }

  /** A `foreach` that appends `f` of each element of `s` to `list`. */
  method AppendMapped<T, U>(f: T -> U, list: seq<U>, s: seq<T>) returns (r: seq<U>)
    ensures r == list + MapSeq(f, s)
  {
    r := list;
    for i := 0 to |s|
      invariant r == list + MapSeq(f, s[..i])
    {
      assert s[..i + 1][..i] == s[..i];
      r := r + [f(s[i])];
    }
    assert s[..|s|] == s;
  }
}

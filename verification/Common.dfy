/** Value types and sequence facts shared by the component models. */
module Common {

  datatype Option<+T> = None | Some(value: T)

  datatype Result<+T, +E> = Ok(value: T) | Err(error: E)

  function Max(a: int, b: int): int { if a < b then b else a }

  function Min(a: int, b: int): int { if a < b then a else b }

  /** `s` lists exactly the members of `members`, in some order. */
  ghost predicate Lists<T(!new)>(s: seq<T>, members: set<T>) {
    forall x :: x in s <==> x in members
  }

  predicate NoDuplicates<T(==)>(s: seq<T>) {
    forall i, j :: 0 <= i < j < |s| ==> s[i] != s[j]
  }

  /** The first `count` entries, or all of them; none when `count` is negative. */
  function Take<T>(s: seq<T>, count: int): seq<T> {
    if count <= 0 then [] else if count <= |s| then s[..count] else s
  }

  lemma {:induction false} NoDuplicatesSize<T(!new)>(s: seq<T>, members: set<T>)
    requires NoDuplicates(s) && Lists(s, members)
    ensures |members| == |s|
  {
    if s == [] {
      assert members == {};
    } else {
      var rest, last := s[..|s| - 1], s[|s| - 1];
      assert s == rest + [last];
      NoDuplicatesSize(rest, members - {last});
    }
  }

  lemma {:induction false} SubsetSize<T>(a: set<T>, b: set<T>)
    requires a <= b
    ensures |a| <= |b|
  {
    if a != {} {
      var x :| x in a;
      SubsetSize(a - {x}, b - {x});
    }
  }
}

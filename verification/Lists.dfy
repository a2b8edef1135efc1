/** Sequences as lists without duplicates, splicing, and the option type. */
module Lists {

  datatype Option<+T> = None | Some(value: T)

  ghost predicate Distinct<T>(s: seq<T>) {
    forall i, j {:trigger s[i], s[j]} :: 0 <= i < j < |s| ==> s[i] != s[j]
  }

  /** The list without the first `x`. */
  function Remove<T(==)>(s: seq<T>, x: T): seq<T> {
    if s == [] then [] else if s[0] == x then s[1..] else [s[0]] + Remove(s[1..], x)
  }

  lemma {:induction false} RemoveAt<T>(s: seq<T>, k: nat)
    requires Distinct(s) && k < |s|
    ensures Remove(s, s[k]) == s[..k] + s[k + 1..]
  {
    if k > 0 {
      RemoveAt(s[1..], k - 1);
      assert s[..k] == [s[0]] + s[1..][..k - 1];
      assert s[1..][k - 1 + 1..] == s[k + 1..];
    } else {
      assert s[..0] + s[1..] == s[1..];
    }
  }

  lemma {:induction false} RemoveAbsent<T>(s: seq<T>, x: T)
    requires x !in s
    ensures Remove(s, x) == s
  {
    if s != [] {
      RemoveAbsent(s[1..], x);
      assert s == [s[0]] + s[1..];
    }
  }

  lemma {:induction false} RemoveCommute<T>(s: seq<T>, x: T, y: T)
    ensures Remove(Remove(s, x), y) == Remove(Remove(s, y), x)
  {
    if s != [] {
      RemoveCommute(s[1..], x, y);
      var sx, sy := [s[0]] + Remove(s[1..], x), [s[0]] + Remove(s[1..], y);
      assert sx[1..] == Remove(s[1..], x) && sy[1..] == Remove(s[1..], y);
    }
  }

  /** Removing takes out exactly the one element. */
  lemma RemoveKeeps<T>(s: seq<T>, x: T)
    requires Distinct(s)
    ensures Distinct(Remove(s, x)) && forall y :: y in Remove(s, x) <==> y in s && y != x
    ensures |Remove(s, x)| == if x in s then |s| - 1 else |s|
  {
    hide Distinct, Remove;
    if x in s {
      var k :| 0 <= k < |s| && s[k] == x;
      RemoveAt(s, k);
      WithoutPlace(s, k);
    } else {
      RemoveAbsent(s, x);
    }
  }

  lemma WithoutPlace<T>(s: seq<T>, k: nat)
    requires Distinct(s) && k < |s|
    ensures var r := s[..k] + s[k + 1..];
            Distinct(r) && |r| == |s| - 1 && forall y :: y in r <==> y in s && y != s[k]
  {
    var r := s[..k] + s[k + 1..];
    forall y | y in s && y != s[k]
      ensures y in r
    {
      var j :| 0 <= j < |s| && s[j] == y;
      assert y == if j < k then r[j] else r[j - 1];
    }
  }

  /** `part` written over the list from `pos` on. */
  function Splice<T>(s: seq<T>, pos: nat, part: seq<T>): (r: seq<T>)
    requires pos + |part| <= |s|
    ensures |r| == |s|
  {
    s[..pos] + part + s[pos + |part|..]
  }
}

/** Small data types and counting facts shared by the other modules. */
module Common {

  datatype Option<+T> = None | Some(value: T)

  ghost predicate NoDuplicates<T>(s: seq<T>) {
    forall i, j :: 0 <= i < j < |s| ==> s[i] != s[j]
  }

  /** The first occurrence of x taken out of s. */
  function Without<T(==)>(s: seq<T>, x: T): seq<T> {
    if s == [] then [] else if s[0] == x then s[1..] else [s[0]] + Without(s[1..], x)
  }

  lemma {:induction false} WithoutMembers<T>(s: seq<T>, x: T)
    requires NoDuplicates(s)
    ensures NoDuplicates(Without(s, x))
    ensures forall y :: y in Without(s, x) <==> y in s && y != x
  {
    if s != [] {
      var tail := s[1..];
      WithoutMembers(tail, x);
      assert s == [s[0]] + tail;
      if s[0] == x {
        assert x !in tail;
      } else {
        assert s[0] !in tail;
      }
    }
  }

  /** The total of f over a sequence. */
  function Sum<T>(s: seq<T>, f: T -> nat): nat {
    if s == [] then 0 else f(s[0]) + Sum(s[1..], f)
  }

  lemma {:induction false} SumUpdate<T>(s: seq<T>, f: T -> nat, i: nat, x: T)
    requires i < |s|
    ensures Sum(s[i := x], f) + f(s[i]) == Sum(s, f) + f(x)
  {
    if i == 0 {
      assert s[0 := x][1..] == s[1..];
    } else {
      assert s[i := x][1..] == s[1..][i - 1 := x];
      SumUpdate(s[1..], f, i - 1, x);
    }
  }

  lemma {:induction false} SumAtLeast<T>(s: seq<T>, f: T -> nat, i: nat)
    requires i < |s|
    ensures f(s[i]) <= Sum(s, f)
  {
    if i > 0 {
      SumAtLeast(s[1..], f, i - 1);
    }
  }

  lemma {:induction false} SumPositive<T>(s: seq<T>, f: T -> nat) returns (i: nat)
    requires Sum(s, f) > 0
    ensures i < |s| && f(s[i]) > 0
  {
    if f(s[0]) > 0 {
      i := 0;
    } else {
      var j := SumPositive(s[1..], f);
      i := j + 1;
    }
  }
}

/** What several models share. */
module Basics {

  datatype Option<+T> = None | Some(value: T)

  function Min(a: int, b: int): (m: int)
    ensures m <= a && m <= b && (m == a || m == b)
  {
    if a < b then a else b
  }

  function Max(a: nat, b: nat): (m: nat)
    ensures m >= a && m >= b && (m == a || m == b)
  {
    if a > b then a else b
  }

  function Sum(s: seq<nat>): (n: nat) {
    if s == [] then 0 else s[0] + Sum(s[1..])
  }

  lemma {:induction false} SumMore(s: seq<nat>, x: nat)
    ensures Sum(s + [x]) == Sum(s) + x
  {
    if s != [] {
      assert (s + [x])[1..] == s[1..] + [x];
      SumMore(s[1..], x);
    }
  }

  /** How many elements satisfy p. */
  function Number<T>(s: seq<T>, p: T -> bool): (n: nat)
    ensures n <= |s|
  {
    if s == [] then 0 else Number(s[1..], p) + if p(s[0]) then 1 else 0
  }

  lemma {:induction false} NumberSet<T>(s: seq<T>, p: T -> bool, t: nat, x: T)
    requires t < |s|
    ensures Number(s[t := x], p) ==
            Number(s, p) + (if p(x) then 1 else 0) - (if p(s[t]) then 1 else 0)
    decreases |s|
  {
    if t > 0 {
      NumberSet(s[1..], p, t - 1, x);
      assert s[t := x][1..] == s[1..][t - 1 := x];
    } else {
      assert s[t := x][1..] == s[1..];
    }
  }

  lemma {:induction false} NumberNone<T>(s: seq<T>, p: T -> bool)
    requires forall t :: 0 <= t < |s| ==> !p(s[t])
    ensures Number(s, p) == 0
  {
    if s != [] {
      NumberNone(s[1..], p);
    }
  }

  lemma {:induction false} NumberAll<T>(s: seq<T>, p: T -> bool)
    requires forall t :: 0 <= t < |s| ==> p(s[t])
    ensures Number(s, p) == |s|
  {
    if s != [] {
      NumberAll(s[1..], p);
    }
  }

  lemma {:induction false} NumberConcat<T>(a: seq<T>, b: seq<T>, p: T -> bool)
    ensures Number(a + b, p) == Number(a, p) + Number(b, p)
    decreases |a|
  {
    if a == [] {
      assert a + b == b;
    } else {
      assert (a + b)[0] == a[0] && (a + b)[1..] == a[1..] + b;
      NumberConcat(a[1..], b, p);
    }
  }

  lemma NumberMore<T>(s: seq<T>, p: T -> bool, x: T)
    ensures Number(s + [x], p) == Number(s, p) + if p(x) then 1 else 0
  {
    NumberConcat(s, [x], p);
    assert [x][1..] == [];
  }
}

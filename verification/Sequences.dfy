/** Facts about sequences that the proofs share. */
module Sequences {

  lemma ConsConcat<T>(a: seq<T>, b: seq<T>)
    requires a != []
    ensures (a + b)[0] == a[0] && (a + b)[1..] == a[1..] + b
  {
  }

  lemma Associative<T>(a: seq<T>, b: seq<T>, c: seq<T>)
    ensures (a + b) + c == a + (b + c)
  {
  }

  lemma SliceOfSlice<T>(s: seq<T>, a: nat, b: nat, lo: nat, hi: nat)
    requires a <= b <= |s| && lo <= hi <= b - a
    ensures s[a..b][lo..hi] == s[a + lo..a + hi]
  {
    var x, y := s[a..b][lo..hi], s[a + lo..a + hi];
    assert |x| == |y| && forall j :: 0 <= j < |x| ==> x[j] == s[a + lo + j] == y[j];
  }

  function Concat<T>(ss: seq<seq<T>>): (r: seq<T>) {
    if ss == [] then [] else ss[0] + Concat(ss[1..])
  }

  lemma {:induction false} ConcatAppend<T>(a: seq<seq<T>>, b: seq<seq<T>>)
    ensures Concat(a + b) == Concat(a) + Concat(b)
  {
    if a == [] {
      assert a + b == b;
    } else {
      ConcatAppend(a[1..], b);
      ConsConcat(a, b);
      Associative(a[0], Concat(a[1..]), Concat(b));
    }
  }

  lemma ConcatSingle<T>(s: seq<T>)
    ensures Concat([s]) == s
  {
    assert [s][1..] == [];
  }

  lemma {:induction false} ConcatOfEmpties<T>(ss: seq<seq<T>>)
    requires forall j :: 0 <= j < |ss| ==> ss[j] == []
    ensures Concat(ss) == []
  {
    if ss != [] { ConcatOfEmpties(ss[1..]); }
  }

  lemma ConcatEndsAt<T>(t: seq<seq<T>>, i: nat)
    requires i < |t| && t[i] != [] && forall j :: i < j < |t| ==> t[j] == []
    ensures var all := Concat(t); all != [] && all[|all| - 1] == t[i][|t[i]| - 1]
  {
    assert t == t[..i + 1] + t[i + 1..];
    ConcatAppend(t[..i + 1], t[i + 1..]);
    ConcatOfEmpties(t[i + 1..]);
    assert t[..i + 1] == t[..i] + [t[i]];
    ConcatAppend(t[..i], [t[i]]);
    ConcatSingle(t[i]);
  }
}

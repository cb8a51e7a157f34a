/** Fixed-size tables scanned from the front, and what they hold altogether. */
module Tables {

  /** The first entry that satisfies p, or the length of the table. */
  function First<T>(s: seq<T>, p: T -> bool): (i: nat)
    ensures i <= |s| && (i < |s| ==> p(s[i]))
    ensures forall j :: 0 <= j < i ==> !p(s[j])
  {
    if s == [] then 0 else if p(s[0]) then 0 else 1 + First(s[1..], p)
  }

  lemma FirstAt<T>(s: seq<T>, p: T -> bool, i: nat)
    requires i < |s|
    ensures First(s, p) == i <==> p(s[i]) && forall j :: 0 <= j < i ==> !p(s[j])
  {
  }

  /** Everything the entries of a table hold. */
  function Collect<T, U>(s: seq<T>, f: T -> multiset<U>): multiset<U>
  {
    if s == [] then multiset{} else Collect(s[..|s| - 1], f) + f(s[|s| - 1])
  }

  /** Replacing one entry exchanges what it held for what it holds. */
  lemma {:induction false} CollectUpdate<T, U>(s: seq<T>, f: T -> multiset<U>, i: nat, x: T)
    requires i < |s|
    ensures Collect(s[i := x], f) + f(s[i]) == Collect(s, f) + f(x)
  {
    var n := |s| - 1;
    if i == n {
      assert s[i := x][..n] == s[..n];
    } else {
      assert s[i := x][..n] == s[..n][i := x];
      CollectUpdate(s[..n], f, i, x);
      assert s[i := x][n] == s[n];
      assert s[..n][i] == s[i];
      var a, b := Collect(s[..n][i := x], f), Collect(s[..n], f);
      assert Collect(s[i := x], f) == a + f(s[n]);
      assert a + f(s[n]) + f(s[i]) == b + f(s[n]) + f(x) by {
        assert a + f(s[n]) + f(s[i]) == (a + f(s[i])) + f(s[n]);
        assert b + f(s[n]) + f(x) == (b + f(x)) + f(s[n]);
      }
    }
  }

  /** An entry's share is part of the whole. */
  lemma {:induction false} CollectHas<T, U>(s: seq<T>, f: T -> multiset<U>, i: nat)
    requires i < |s|
    ensures f(s[i]) <= Collect(s, f)
  {
    if i < |s| - 1 {
      CollectHas(s[..|s| - 1], f, i);
    }
  }

  lemma {:induction false} CollectNone<T, U>(s: seq<T>, f: T -> multiset<U>)
    requires forall i :: 0 <= i < |s| ==> f(s[i]) == multiset{}
    ensures Collect(s, f) == multiset{}
  {
    if s != [] {
      CollectNone(s[..|s| - 1], f);
    }
  }

  lemma CollectOne<T, U>(x: T, f: T -> multiset<U>)
    ensures Collect([x], f) == f(x)
  {
    var s := [x];
    assert s[..|s| - 1] == [];
    assert Collect(s, f) == Collect([], f) + f(x);
  }

  lemma {:induction false} CollectConcat<T, U>(s: seq<T>, t: seq<T>, f: T -> multiset<U>)
    ensures Collect(s + t, f) == Collect(s, f) + Collect(t, f)
  {
    if t == [] {
      assert s + t == s;
    } else {
      assert (s + t)[..|s + t| - 1] == s + t[..|t| - 1];
      CollectConcat(s, t[..|t| - 1], f);
    }
  }
}

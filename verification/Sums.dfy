/** Sums over the first n elements of a sequence, and how one update changes them. */
module Sums {

  ghost function Total<T>(f: T -> nat, s: seq<T>, n: nat): nat
    requires n <= |s|
  {
    if n == 0 then 0 else Total(f, s, n - 1) + f(s[n - 1])
  }

  lemma {:induction false} TotalSame<T>(f: T -> nat, s: seq<T>, t: seq<T>, n: nat)
    requires n <= |s| && n <= |t|
    requires forall i :: 0 <= i < n ==> s[i] == t[i]
    ensures Total(f, s, n) == Total(f, t, n)
  {
    if n > 0 {
      TotalSame(f, s, t, n - 1);
    }
  }

  lemma {:induction false} TotalUpdate<T>(f: T -> nat, s: seq<T>, n: nat, i: nat, x: T)
    requires i < n <= |s|
    ensures Total(f, s[i := x], n) + f(s[i]) == Total(f, s, n) + f(x)
  {
    if i == n - 1 {
      TotalSame(f, s, s[i := x], n - 1);
    } else {
      TotalUpdate(f, s, n - 1, i, x);
    }
  }

  lemma TotalSnoc<T>(f: T -> nat, s: seq<T>, x: T)
    ensures Total(f, s + [x], |s| + 1) == Total(f, s, |s|) + f(x)
  {
    TotalSame(f, s, s + [x], |s|);
  }

  lemma {:induction false} TotalAppend<T>(f: T -> nat, s: seq<T>, t: seq<T>)
    ensures Total(f, s + t, |s + t|) == Total(f, s, |s|) + Total(f, t, |t|)
  {
    if t == [] {
      assert s + t == s;
    } else {
      var n := |t| - 1;
      assert s + t == (s + t[..n]) + [t[n]];
      TotalSame(f, s + t, s + t[..n], |s| + n);
      TotalSame(f, t, t[..n], n);
      TotalAppend(f, s, t[..n]);
    }
  }

  lemma TotalSplit<T>(f: T -> nat, s: seq<T>, i: nat)
    requires i < |s|
    ensures Total(f, s[..i] + s[i + 1..], |s| - 1) + f(s[i]) == Total(f, s, |s|)
  {
    var left, right := s[..i], s[i + 1..];
    TotalAppend(f, left, right);
    TotalSnoc(f, left, s[i]);
    TotalAppend(f, left + [s[i]], right);
    assert s == left + [s[i]] + right;
  }

  lemma {:induction false} TotalAtLeast<T>(f: T -> nat, s: seq<T>, n: nat, i: nat)
    requires i < n <= |s|
    ensures f(s[i]) <= Total(f, s, n)
  {
    if i < n - 1 {
      TotalAtLeast(f, s, n - 1, i);
    }
  }

  lemma {:induction false} TotalZero<T>(f: T -> nat, s: seq<T>, n: nat)
    requires n <= |s|
    requires forall i :: 0 <= i < n ==> f(s[i]) == 0
    ensures Total(f, s, n) == 0
  {
    if n > 0 {
      TotalZero(f, s, n - 1);
    }
  }

  ghost function Gather<T, U>(f: T -> multiset<U>, s: seq<T>, n: nat): multiset<U>
    requires n <= |s|
  {
    if n == 0 then multiset{} else Gather(f, s, n - 1) + f(s[n - 1])
  }

  lemma {:induction false} GatherSame<T, U>(f: T -> multiset<U>, s: seq<T>, t: seq<T>, n: nat)
    requires n <= |s| && n <= |t|
    requires forall i :: 0 <= i < n ==> s[i] == t[i]
    ensures Gather(f, s, n) == Gather(f, t, n)
  {
    if n > 0 {
      GatherSame(f, s, t, n - 1);
    }
  }

  lemma {:induction false} GatherUpdate<T, U>(f: T -> multiset<U>, s: seq<T>, n: nat, i: nat, x: T)
    requires i < n <= |s|
    ensures Gather(f, s[i := x], n) + f(s[i]) == Gather(f, s, n) + f(x)
  {
    if i == n - 1 {
      GatherSame(f, s, s[i := x], n - 1);
      var rest := Gather(f, s, n - 1);
      assert rest + f(x) + f(s[i]) == rest + f(s[i]) + f(x);
    } else {
      GatherUpdate(f, s, n - 1, i, x);
      var last := f(s[n - 1]);
      assert Gather(f, s[i := x], n) + f(s[i]) == Gather(f, s[i := x], n - 1) + f(s[i]) + last;
      assert Gather(f, s, n) + f(x) == Gather(f, s, n - 1) + f(x) + last;
    }
  }

  lemma {:induction false} GatherEmpty<T, U>(f: T -> multiset<U>, s: seq<T>, n: nat)
    requires n <= |s|
    requires forall i :: 0 <= i < n ==> f(s[i]) == multiset{}
    ensures Gather(f, s, n) == multiset{}
  {
    if n > 0 {
      GatherEmpty(f, s, n - 1);
    }
  }

  /** f(base) + f(base + 1) + ... over n consecutive indices. */
  ghost function Span<U>(f: nat -> multiset<U>, base: nat, n: nat): multiset<U> {
    if n == 0 then multiset{} else Span(f, base, n - 1) + f(base + n - 1)
  }

  lemma {:induction false} SpanShift<U>(f: nat -> multiset<U>, base: nat, n: nat)
    ensures Span(f, base, n) + f(base + n) == f(base) + Span(f, base + 1, n)
  {
    if n > 0 {
      SpanShift(f, base, n - 1);
      var last := f(base + n);
      assert Span(f, base, n) + last == f(base) + Span(f, base + 1, n - 1) + last;
      assert Span(f, base + 1, n) == Span(f, base + 1, n - 1) + last;
    }
  }

  lemma {:induction false} GatherIsSpan<T, U>(f: T -> multiset<U>, s: seq<T>, g: nat -> multiset<U>, n: nat)
    requires n <= |s| && forall i: nat :: i < n ==> f(s[i]) == g(i)
    ensures Gather(f, s, n) == Span(g, 0, n)
  {
    if n > 0 {
      GatherIsSpan(f, s, g, n - 1);
    }
  }

  /** Equal parts on both sides cancel. */
  lemma CancelPart<U>(a: multiset<U>, x: multiset<U>, rows: multiset<U>, b: multiset<U>)
    requires a + x == (rows + x) + b
    ensures a == rows + b
  {
    forall u
      ensures a[u] == (rows + b)[u]
    {
      assert (a + x)[u] == ((rows + x) + b)[u];
    }
  }
}

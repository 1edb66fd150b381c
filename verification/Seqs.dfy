/** Sequences built item by item, and what reordering the items leaves alone. */
module Seqs {
  import opened Options

  /** A sequence of at most one item. */
  function Maybe<T>(o: Option<T>): seq<T> {
    if o.Some? then [o.value] else []
  }

  lemma Regroup<T>(a: seq<T>, b: seq<T>, c: seq<T>)
    ensures a + (b + c) == a + b + c
  {
  }

  lemma RegroupThree<T>(a: seq<T>, b: seq<T>, c: seq<T>, d: seq<T>)
    ensures a + (b + c + d) == a + b + c + d
  {
  }

  /** The concatenation of f over s. */
  function FlatMap<T, U>(s: seq<T>, f: T -> seq<U>): seq<U> {
    if s == [] then [] else FlatMap(s[..|s| - 1], f) + f(s[|s| - 1])
  }

  /** Whether p holds of every item, read from the front on. */
  predicate AllIn<T>(s: seq<T>, p: T -> bool) {
    s == [] || (AllIn(s[..|s| - 1], p) && p(s[|s| - 1]))
  }

  lemma {:induction false} AllInAt<T>(s: seq<T>, p: T -> bool, i: nat)
    requires AllIn(s, p) && i < |s|
    ensures p(s[i])
  {
    var m := |s| - 1;
    if i < m {
      AllInAt(s[..m], p, i);
      assert s[..m][i] == s[i];
    }
  }

  lemma {:induction false} AllInExactly<T>(s: seq<T>, p: T -> bool)
    ensures AllIn(s, p) <==> forall i :: 0 <= i < |s| ==> p(s[i])
  {
    if s != [] {
      var m := |s| - 1;
      AllInExactly(s[..m], p);
      assert forall i :: 0 <= i < m ==> s[..m][i] == s[i];
    }
  }

  lemma {:induction false} AllInMoved<T>(s: seq<T>, t: seq<T>, p: T -> bool)
    requires AllIn(t, p) && forall i :: 0 <= i < |s| ==> s[i] in t
    ensures AllIn(s, p)
  {
    if s != [] {
      var m := |s| - 1;
      AllInMoved(s[..m], t, p);
      assert s[m] in t;
      var j :| 0 <= j < |t| && t[j] == s[m];
      AllInAt(t, p, j);
    }
  }

  /** Reordering the items changes nothing about all of them. */
  lemma AllInReordered<T>(s: seq<T>, t: seq<T>, p: T -> bool)
    requires multiset(s) == multiset(t)
    ensures AllIn(s, p) <==> AllIn(t, p)
  {
    forall i | 0 <= i < |s| ensures s[i] in t {
      assert s[i] in multiset(t);
    }
    forall i | 0 <= i < |t| ensures t[i] in s {
      assert t[i] in multiset(s);
    }
    if AllIn(t, p) { AllInMoved(s, t, p); }
    if AllIn(s, p) { AllInMoved(t, s, p); }
  }

  /** f over s from the left; nothing once f gives nothing. */
  function Folded<S, T>(start: S, s: seq<T>, f: (S, T) -> Option<S>): Option<S> {
    if s == [] then Some(start)
    else
      var before := Folded(start, s[..|s| - 1], f);
      if before.None? then None else f(before.value, s[|s| - 1])
  }

  lemma FoldedLast<S, T>(start: S, s: seq<T>, f: (S, T) -> Option<S>)
    requires s != []
    ensures var before := Folded(start, s[..|s| - 1], f);
            Folded(start, s, f) == if before.None? then None else f(before.value, s[|s| - 1])
  {
  }

  lemma {:induction false} FoldedPrefix<S, T>(start: S, s: seq<T>, f: (S, T) -> Option<S>, n: nat)
    requires Folded(start, s, f).Some? && n <= |s|
    ensures Folded(start, s[..n], f).Some?
  {
    if n == |s| {
      assert s[..n] == s;
    } else {
      assert s[..|s| - 1][..n] == s[..n];
      FoldedPrefix(start, s[..|s| - 1], f, n);
    }
  }

  /** What holds after the first n items and is kept by f holds at the end. */
  lemma {:induction false} FoldedKeeps<S(!new), T(!new)>(
      start: S, s: seq<T>, f: (S, T) -> Option<S>, inv: S -> bool, n: nat)
    requires n <= |s| && Folded(start, s, f).Some?
    requires Folded(start, s[..n], f).Some? ==> inv(Folded(start, s[..n], f).value)
    requires forall a, t :: inv(a) && t in s && f(a, t).Some? ==> inv(f(a, t).value)
    ensures inv(Folded(start, s, f).value)
  {
    if n == |s| {
      assert s[..n] == s;
    } else {
      var front := s[..|s| - 1];
      assert front[..n] == s[..n];
      FoldedKeeps(start, front, f, inv, n);
      assert s[|s| - 1] in s;
    }
  }

  function Without<T>(s: seq<T>, i: nat): seq<T>
    requires i < |s|
  {
    s[..i] + s[i + 1..]
  }

  lemma {:induction false} FlatMapWithout<T, U>(s: seq<T>, i: nat, f: T -> seq<U>)
    requires i < |s|
    ensures multiset(FlatMap(s, f)) == multiset(FlatMap(Without(s, i), f)) + multiset(f(s[i]))
  {
    var m := |s| - 1;
    if i == m {
      assert Without(s, i) == s[..m];
    } else {
      FlatMapWithout(s[..m], i, f);
      var rest := Without(s, i);
      assert rest[..m - 1] == Without(s[..m], i) && rest[m - 1] == s[m];
      assert FlatMap(rest, f) == FlatMap(Without(s[..m], i), f) + f(s[m]);
    }
  }

  lemma MultisetWithout<T>(s: seq<T>, i: nat)
    requires i < |s|
    ensures multiset(Without(s, i)) == multiset(s) - multiset{s[i]}
  {
    assert s == s[..i] + [s[i]] + s[i + 1..];
  }

  lemma Reappears<T>(s: seq<T>, t: seq<T>) returns (i: nat)
    requires s != [] && multiset(s) == multiset(t)
    ensures i < |t| && t[i] == s[|s| - 1]
    ensures multiset(s[..|s| - 1]) == multiset(Without(t, i))
  {
    var m := |s| - 1;
    assert s[m] in multiset(t);
    i :| 0 <= i < |t| && t[i] == s[m];
    MultisetWithout(s, m);
    MultisetWithout(t, i);
    assert Without(s, m) == s[..m];
  }

  /** Reordering the items reorders the result. */
  lemma {:induction false} FlatMapReordered<T, U>(s: seq<T>, t: seq<T>, f: T -> seq<U>)
    requires multiset(s) == multiset(t)
    ensures multiset(FlatMap(s, f)) == multiset(FlatMap(t, f))
  {
    if s == [] {
      assert |multiset(t)| == 0;
    } else {
      var i := Reappears(s, t);
      FlatMapReordered(s[..|s| - 1], Without(t, i), f);
      FlatMapWithout(t, i, f);
    }
  }

  // ----- The last item that has a value

  function LastOf<T, V>(s: seq<T>, f: T -> Option<V>, start: V): V {
    if s == [] then start
    else if f(s[|s| - 1]).Some? then f(s[|s| - 1]).value
    else LastOf(s[..|s| - 1], f, start)
  }

  /** The items that have a value have the same one. */
  ghost predicate Agreeing<T, V>(s: seq<T>, f: T -> Option<V>) {
    forall i, j :: 0 <= i < |s| && 0 <= j < |s| && f(s[i]).Some? && f(s[j]).Some? ==> f(s[i]) == f(s[j])
  }

  lemma {:induction false} LastIsMet<T, V>(s: seq<T>, f: T -> Option<V>, start: V)
    ensures (forall i :: 0 <= i < |s| ==> f(s[i]).None?) ==> LastOf(s, f, start) == start
    ensures forall i :: 0 <= i < |s| && f(s[i]).Some? ==>
              exists j :: 0 <= j < |s| && f(s[j]) == Some(LastOf(s, f, start))
  {
    if s != [] {
      var m := |s| - 1;
      LastIsMet(s[..m], f, start);
      if f(s[m]).None? {
        assert forall i :: 0 <= i < m ==> s[..m][i] == s[i];
      }
    }
  }

  /** Reordering changes nothing when the values agree. */
  lemma LastReordered<T, V>(s: seq<T>, t: seq<T>, f: T -> Option<V>, start: V)
    requires Agreeing(s, f) && multiset(s) == multiset(t)
    ensures LastOf(s, f, start) == LastOf(t, f, start)
  {
    LastIsMet(s, f, start);
    LastIsMet(t, f, start);
    forall i | 0 <= i < |s| ensures s[i] in t {
      assert s[i] in multiset(t);
    }
    forall i | 0 <= i < |t| ensures t[i] in s {
      assert t[i] in multiset(s);
    }
  }

  /** Any value can be made the last one. */
  lemma LastMoved<T, V>(s: seq<T>, f: T -> Option<V>, start: V, i: nat) returns (t: seq<T>)
    requires i < |s| && f(s[i]).Some?
    ensures multiset(t) == multiset(s) && LastOf(t, f, start) == f(s[i]).value
  {
    t := Without(s, i) + [s[i]];
    MultisetWithout(s, i);
  }

  /** Two values that differ can be told apart by two orders. */
  lemma LastDiffers<T, V>(s: seq<T>, f: T -> Option<V>, start: V) returns (t: seq<T>)
    requires !Agreeing(s, f)
    ensures multiset(t) == multiset(s) && LastOf(t, f, start) != LastOf(s, f, start)
  {
    var i, j :| 0 <= i < |s| && 0 <= j < |s| && f(s[i]).Some? && f(s[j]).Some? && f(s[i]) != f(s[j]);
    t := LastMoved(s, f, start, i);
    if LastOf(t, f, start) == LastOf(s, f, start) {
      t := LastMoved(s, f, start, j);
    }
  }
}

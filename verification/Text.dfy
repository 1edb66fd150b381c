/** The string operations the modelled code takes from Go's strings package.
    A string is a sequence of characters; letter case is ASCII only. */
module Text {

  predicate IsUpper(c: char) { 'A' <= c <= 'Z' }

  predicate IsLower(c: char) { 'a' <= c <= 'z' }

  function LowerChar(c: char): char {
    if IsUpper(c) then c - 'A' + 'a' else c
  }

  function UpperChar(c: char): char {
    if IsLower(c) then c - 'a' + 'A' else c
  }

  function ToLower(s: string): (r: string)
    ensures |r| == |s| && forall i :: 0 <= i < |s| ==> r[i] == LowerChar(s[i])
  {
    seq(|s|, i requires 0 <= i < |s| => LowerChar(s[i]))
  }

  /** No ASCII capital letter. */
  predicate Lowered(s: string) {
    forall i :: 0 <= i < |s| ==> !IsUpper(s[i])
  }

  lemma ToLowerFixesLowered(s: string)
    requires Lowered(s)
    ensures ToLower(s) == s
  {
  }

  lemma ToLowerConcat(a: string, b: string)
    ensures ToLower(a + b) == ToLower(a) + ToLower(b)
  {
  }

  /** strings.Split with a one-character separator. */
  function Split(s: string, c: char): (parts: seq<string>)
    ensures |parts| >= 1
    ensures forall i :: 0 <= i < |parts| ==> c !in parts[i]
  {
    if s == "" then [""]
    else
      var rest := Split(s[1..], c);
      if s[0] == c then [""] + rest else [[s[0]] + rest[0]] + rest[1..]
  }

  /** strings.Join. */
  function Join(parts: seq<string>, sep: string): string {
    if parts == [] then ""
    else if |parts| == 1 then parts[0]
    else parts[0] + (sep + Join(parts[1..], sep))
  }

  lemma {:induction false} SplitWhole(s: string, c: char)
    requires c !in s
    ensures Split(s, c) == [s]
  {
    if s != "" {
      SplitWhole(s[1..], c);
      assert s == [s[0]] + s[1..];
    }
  }

  lemma {:induction false} SplitAt(a: string, c: char, b: string)
    ensures Split(a + [c] + b, c) == Split(a, c) + Split(b, c)
  {
    if a == "" {
      assert (a + [c] + b)[1..] == b;
    } else {
      assert (a + [c] + b)[1..] == a[1..] + [c] + b;
      SplitAt(a[1..], c, b);
    }
  }

  lemma {:induction false} JoinSplit(s: string, c: char)
    ensures Join(Split(s, c), [c]) == s
  {
    if s != "" {
      JoinSplit(s[1..], c);
      var rest := Split(s[1..], c);
      if s[0] == c {
        assert ([""] + rest)[1..] == rest;
      } else {
        var parts := [[s[0]] + rest[0]] + rest[1..];
        assert parts[1..] == rest[1..];
        if |rest| > 1 {
          assert Join(parts, [c]) == [s[0]] + (rest[0] + ([c] + Join(rest[1..], [c])));
        }
      }
      assert s == [s[0]] + s[1..];
    }
  }

  /** A string cut in two at its last separator is cut in two by Split. */
  lemma SplitLast(a: string, c: char, b: string)
    requires c !in b
    ensures Split(a + [c] + b, c) == Split(a, c) + [b]
    ensures Join(Split(a, c), [c]) == a
  {
    SplitAt(a, c, b);
    SplitWhole(b, c);
    JoinSplit(a, c);
  }

  function TrimLeft(s: string, c: char): (r: string)
    ensures r == "" || r[0] != c
    ensures |r| <= |s| && r == s[|s| - |r|..]
  {
    if s != "" && s[0] == c then TrimLeft(s[1..], c) else s
  }

  function TrimRight(s: string, c: char): (r: string)
    ensures r == "" || r[|r| - 1] != c
    ensures r <= s
  {
    if s != "" && s[|s| - 1] == c then TrimRight(s[..|s| - 1], c) else s
  }

  /** strings.Trim with a one-character cutset. */
  function Trim(s: string, c: char): (r: string)
    ensures r == "" || (r[0] != c && r[|r| - 1] != c)
    ensures forall i :: 0 <= i < |r| ==> r[i] in s
  {
    TrimRight(TrimLeft(s, c), c)
  }

  /** Only c is trimmed. */
  lemma {:induction false} TrimRightKeeps(s: string, c: char)
    ensures forall k :: |TrimRight(s, c)| <= k < |s| ==> s[k] == c
  {
    if s != "" && s[|s| - 1] == c {
      TrimRightKeeps(s[..|s| - 1], c);
      assert forall k :: 0 <= k < |s| - 1 ==> s[..|s| - 1][k] == s[k];
    }
  }

  predicate AllAre(s: string, c: char) {
    forall i :: 0 <= i < |s| ==> s[i] == c
  }

  lemma {:induction false} TrimLeftDrops(pre: string, c: char, s: string)
    requires AllAre(pre, c)
    ensures TrimLeft(pre + s, c) == TrimLeft(s, c)
  {
    if pre == "" {
      assert pre + s == s;
    } else {
      assert (pre + s)[1..] == pre[1..] + s;
      TrimLeftDrops(pre[1..], c, s);
    }
  }

  lemma {:induction false} TrimRightDrops(s: string, c: char, post: string)
    requires AllAre(post, c)
    ensures TrimRight(s + post, c) == TrimRight(s, c)
  {
    if post == "" {
      assert s + post == s;
    } else {
      assert (s + post)[..|s + post| - 1] == s + post[..|post| - 1];
      TrimRightDrops(s, c, post[..|post| - 1]);
    }
  }

  /** Trim removes exactly the outer runs of c. */
  lemma TrimWrapped(pre: string, s: string, post: string, c: char)
    requires AllAre(pre, c) && AllAre(post, c)
    requires s == "" || (s[0] != c && s[|s| - 1] != c)
    ensures Trim(pre + s + post, c) == s
  {
    assert pre + s + post == pre + (s + post);
    TrimLeftDrops(pre, c, s + post);
    if s == "" {
      assert s + post == post && post + "" == post;
      TrimLeftDrops(post, c, "");
    } else {
      TrimRightDrops(s, c, post);
    }
  }

  predicate HasSuffix(s: string, t: string) {
    |t| <= |s| && s[|s| - |t|..] == t
  }

  /** strings.TrimPrefix. */
  function TrimPrefix(s: string, p: string): string {
    if p <= s then s[|p|..] else s
  }

  /** strings.TrimSuffix. */
  function TrimSuffix(s: string, t: string): string {
    if HasSuffix(s, t) then s[..|s| - |t|] else s
  }

  lemma LastOfConcat(a: string, b: string)
    requires b != ""
    ensures (a + b)[|a + b| - 1] == b[|b| - 1]
  {
  }
}

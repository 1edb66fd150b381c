/** How a WHERE text is read: into tokens, then by the precedence of SQL, where OR binds
    weakest, then AND, then NOT; a parenthesised text is read by itself. The truth of an
    atomic comparison is a parameter. */
module Sql {
  import opened Seqs
  import opened Text

  datatype Token = Open | Close | Hole | Word(text: string) | Quoted(text: string)

  /** White space, as strings.Fields takes it among the characters up to U+00FF. */
  predicate IsSpace(c: char) {
    c == ' ' || '\t' <= c <= '\r' || c == '\U{85}' || c == '\U{a0}'
  }

  predicate IsQuote(c: char) { c == '\'' || c == '"' || c == '`' }

  predicate IsWordChar(c: char) {
    !IsSpace(c) && !IsQuote(c) && c != '(' && c != ')' && c != '?'
  }

  /** The first position of c, or the length. */
  function Find(s: string, c: char): (i: nat)
    ensures i <= |s| && c !in s[..i] && (i < |s| ==> s[i] == c)
  {
    if s == "" || s[0] == c then 0
    else
      var i := Find(s[1..], c);
      assert s[..i + 1] == [s[0]] + s[1..][..i];
      i + 1
  }

  function WordEnd(s: string): (i: nat)
    ensures i <= |s| && (i < |s| ==> !IsWordChar(s[i]))
    ensures forall k :: 0 <= k < i ==> IsWordChar(s[k])
  {
    if s == "" || !IsWordChar(s[0]) then 0 else 1 + WordEnd(s[1..])
  }

  /** Past the closing quote, or the end when the quote is never closed. */
  function QuoteEnd(s: string): (i: nat)
    requires s != ""
    ensures 1 <= i <= |s|
  {
    var i := Find(s[1..], s[0]);
    if i + 1 < |s| then i + 2 else |s|
  }

  /** The length of the first lexeme. */
  function First(s: string): (n: nat)
    requires s != ""
    ensures 1 <= n <= |s|
  {
    if IsQuote(s[0]) then QuoteEnd(s) else if IsWordChar(s[0]) then WordEnd(s) else 1
  }

  /** The token of a lexeme; white space has none. */
  function TokenOf(lexeme: string): seq<Token>
    requires lexeme != ""
  {
    if IsSpace(lexeme[0]) then []
    else if lexeme[0] == '(' then [Open]
    else if lexeme[0] == ')' then [Close]
    else if lexeme[0] == '?' then [Hole]
    else if IsQuote(lexeme[0]) then [Quoted(lexeme)]
    else [Word(lexeme)]
  }

  function Lex(s: string): seq<Token>
    decreases |s|
  {
    if s == "" then [] else TokenOf(s[..First(s)]) + Lex(s[First(s)..])
  }

  /** Every quote is closed. */
  predicate Closed(s: string)
    decreases |s|
  {
    s == "" || ((IsQuote(s[0]) ==> s[0] in s[1..]) && Closed(s[First(s)..]))
  }

  lemma {:induction false} FindInPrefix(a: string, b: string, c: char)
    requires c in a
    ensures Find(a + b, c) == Find(a, c) < |a|
  {
    if a[0] != c {
      assert (a + b)[1..] == a[1..] + b;
      assert c in a[1..];
      FindInPrefix(a[1..], b, c);
    }
  }

  lemma {:induction false} WordEndInPrefix(a: string, b: string)
    requires a != "" && IsWordChar(a[0])
    requires b == "" || !IsWordChar(a[|a| - 1]) || !IsWordChar(b[0])
    ensures WordEnd(a + b) == WordEnd(a)
  {
    assert (a + b)[1..] == a[1..] + b;
    if |a| == 1 {
      assert a[1..] + b == b;
    } else if IsWordChar(a[1]) {
      WordEndInPrefix(a[1..], b);
    }
  }

  /** No word runs across the seam of a and b. */
  predicate Parts(a: string, b: string) {
    a == "" || b == "" || !IsWordChar(a[|a| - 1]) || !IsWordChar(b[0])
  }

  lemma FirstInPrefix(a: string, b: string)
    requires a != "" && Closed(a) && Parts(a, b)
    ensures First(a + b) == First(a)
    ensures IsQuote(a[0]) ==> a[0] in (a + b)[1..]
  {
    if IsQuote(a[0]) {
      assert (a + b)[1..] == a[1..] + b;
      FindInPrefix(a[1..], b, a[0]);
    } else if IsWordChar(a[0]) {
      WordEndInPrefix(a, b);
    }
  }

  /** The first token of a is that of a and b together; what follows stands the same way. */
  lemma LexStep(a: string, b: string) returns (head: seq<Token>, tail: string)
    requires a != "" && Closed(a) && Parts(a, b)
    ensures |tail| < |a| && Closed(tail) && Parts(tail, b)
    ensures Lex(a) == head + Lex(tail) && Lex(a + b) == head + Lex(tail + b)
    ensures Closed(tail + b) ==> Closed(a + b)
  {
    var n := First(a);
    FirstInPrefix(a, b);
    head, tail := TokenOf(a[..n]), a[n..];
    assert (a + b)[..n] == a[..n];
    assert (a + b)[n..] == tail + b;
  }

  /** Tokens of a concatenation, when the first text closes its quotes. */
  lemma {:induction false} LexConcat(a: string, b: string)
    requires Closed(a) && Parts(a, b)
    ensures Lex(a + b) == Lex(a) + Lex(b)
    ensures Closed(b) ==> Closed(a + b)
    decreases |a|
  {
    if a == "" {
      assert a + b == b;
    } else {
      var head, tail := LexStep(a, b);
      LexConcat(tail, b);
      Regroup(head, Lex(tail), Lex(b));
    }
  }

  datatype Keyword = And | Or

  predicate IsWordOf(t: Token, w: string) { t.Word? && ToLower(t.text) == w }

  predicate IsKey(t: Token, key: Keyword) {
    IsWordOf(t, if key.And? then "and" else "or")
  }

  /** The words that can cut a text in two or keep it from being cut. */
  predicate Joins(t: Token) {
    IsWordOf(t, "and") || IsWordOf(t, "or") || IsWordOf(t, "between")
  }

  predicate IsReserved(t: Token) { Joins(t) || IsWordOf(t, "not") }

  /** Whether an AND to come belongs to a BETWEEN. */
  predicate StaysBetween(t: Token, between: bool) {
    IsWordOf(t, "between") || (between && !IsWordOf(t, "and"))
  }

  /** The position of the first top-level key, or the length. An AND that follows a BETWEEN
      belongs to it. */
  function Cut(ts: seq<Token>, key: Keyword, depth: int, between: bool): (i: nat)
    ensures i <= |ts|
  {
    if ts == [] then 0
    else if ts[0].Open? then 1 + Cut(ts[1..], key, depth + 1, between)
    else if ts[0].Close? then 1 + Cut(ts[1..], key, depth - 1, between)
    else if depth != 0 then 1 + Cut(ts[1..], key, depth, between)
    else if IsKey(ts[0], key) && !(key.And? && between) then 0
    else
      1 + Cut(ts[1..], key, depth, StaysBetween(ts[0], between))
  }

  function Net(ts: seq<Token>): int {
    if ts == [] then 0
    else (if ts[0].Open? then 1 else if ts[0].Close? then -1 else 0) + Net(ts[1..])
  }

  /** Starting inside depth parentheses, none of them is closed. */
  predicate StaysInside(ts: seq<Token>, depth: int) {
    if ts == [] then depth >= 1
    else
      depth >= 1
      && StaysInside(ts[1..], depth + if ts[0].Open? then 1 else if ts[0].Close? then -1 else 0)
  }

  /** Parentheses match. */
  predicate Balanced(ts: seq<Token>) { StaysInside(ts, 1) && Net(ts) == 0 }

  predicate Parenthesised(ts: seq<Token>) {
    |ts| >= 2 && ts[0].Open? && ts[|ts| - 1].Close? && Balanced(ts[1..|ts| - 1])
  }

  function Holes(ts: seq<Token>): nat {
    if ts == [] then 0 else (if ts[0].Hole? then 1 else 0) + Holes(ts[1..])
  }

  /** How many of the arguments the holes of ts take. */
  function Taken<V>(ts: seq<Token>, args: seq<V>): nat {
    if Holes(ts) <= |args| then Holes(ts) else |args|
  }

  /** The truth of a condition with its holes filled from args, left to right. */
  function Reads<V>(ts: seq<Token>, args: seq<V>, atom: (seq<Token>, seq<V>) -> bool): bool
    decreases |ts|
  {
    var i := Cut(ts, Or, 0, false);
    var j := Cut(ts, And, 0, false);
    if i < |ts| then
      var n := Taken(ts[..i], args);
      Reads(ts[..i], args[..n], atom) || Reads(ts[i + 1..], args[n..], atom)
    else if j < |ts| then
      var n := Taken(ts[..j], args);
      Reads(ts[..j], args[..n], atom) && Reads(ts[j + 1..], args[n..], atom)
    else if Parenthesised(ts) then Reads(ts[1..|ts| - 1], args, atom)
    else if ts != [] && IsWordOf(ts[0], "not") then !Reads(ts[1..], args, atom)
    else atom(ts, args)
  }

  /** No top-level key cuts the text; the parentheses it opens or closes and the BETWEEN it
      begins are complete at its end. */
  predicate Neutral(ts: seq<Token>, depth: int, between: bool) {
    if ts == [] then depth == 0 && !between
    else if ts[0].Open? then Neutral(ts[1..], depth + 1, between)
    else if ts[0].Close? then Neutral(ts[1..], depth - 1, between)
    else if depth != 0 then Neutral(ts[1..], depth, between)
    else
      !IsKey(ts[0], Or) && (IsKey(ts[0], And) ==> between) && Neutral(ts[1..], 0, StaysBetween(ts[0], between))
  }

  /** Neutral, and no NOT in front. */
  predicate Atomic(ts: seq<Token>) {
    Neutral(ts, 0, false) && (ts != [] ==> !IsWordOf(ts[0], "not"))
  }

  /** One comparison that ends in its only hole. */
  predicate Clause(ts: seq<Token>) {
    Atomic(ts) && Holes(ts) == 1 && ts[|ts| - 1].Hole?
  }

  lemma {:induction false} CutNeutral(ts: seq<Token>, rest: seq<Token>, key: Keyword, depth: int, between: bool)
    requires Neutral(ts, depth, between)
    ensures Cut(ts + rest, key, depth, between) == |ts| + Cut(rest, key, 0, false)
  {
    if ts == [] {
      assert ts + rest == rest;
    } else {
      assert (ts + rest)[1..] == ts[1..] + rest;
      var next := if ts[0].Open? then depth + 1 else if ts[0].Close? then depth - 1 else depth;
      var stays := if ts[0].Open? || ts[0].Close? || depth != 0 then between else StaysBetween(ts[0], between);
      CutNeutral(ts[1..], rest, key, next, stays);
    }
  }

  lemma CutWhole(ts: seq<Token>, key: Keyword)
    requires Neutral(ts, 0, false)
    ensures Cut(ts, key, 0, false) == |ts|
  {
    CutNeutral(ts, [], key, 0, false);
    assert ts + [] == ts;
  }

  /** A hole at the end changes nothing. */
  lemma {:induction false} NeutralWithHole(ts: seq<Token>, depth: int, between: bool)
    ensures Neutral(ts + [Hole], depth, between) <==> Neutral(ts, depth, between)
  {
    if ts == [] {
      assert (ts + [Hole])[1..] == [];
    } else {
      assert (ts + [Hole])[1..] == ts[1..] + [Hole];
      var next := if ts[0].Open? then depth + 1 else if ts[0].Close? then depth - 1 else depth;
      var stays := if ts[0].Open? || ts[0].Close? || depth != 0 then between else StaysBetween(ts[0], between);
      NeutralWithHole(ts[1..], next, stays);
    }
  }

  lemma {:induction false} CutInside(ts: seq<Token>, rest: seq<Token>, key: Keyword, depth: int, between: bool)
    requires StaysInside(ts, depth)
    ensures Cut(ts + rest, key, depth, between) == |ts| + Cut(rest, key, depth + Net(ts), between)
  {
    if ts == [] {
      assert ts + rest == rest;
    } else {
      assert (ts + rest)[1..] == ts[1..] + rest;
      CutInside(ts[1..], rest, key, depth + if ts[0].Open? then 1 else if ts[0].Close? then -1 else 0, between);
    }
  }

  lemma CutParenthesised(ts: seq<Token>, rest: seq<Token>, key: Keyword)
    requires Balanced(ts)
    ensures Cut([Open] + ts + [Close] + rest, key, 0, false) == |ts| + 2 + Cut(rest, key, 0, false)
  {
    var all := [Open] + ts + [Close] + rest;
    assert all[1..] == ts + ([Close] + rest);
    CutInside(ts, [Close] + rest, key, 1, false);
    assert ([Close] + rest)[1..] == rest;
  }

  lemma {:induction false} HolesConcat(a: seq<Token>, b: seq<Token>)
    ensures Holes(a + b) == Holes(a) + Holes(b)
  {
    if a == [] {
      assert a + b == b;
    } else {
      assert (a + b)[1..] == a[1..] + b;
      HolesConcat(a[1..], b);
    }
  }

  lemma ReadsAtomic<V>(ts: seq<Token>, args: seq<V>, atom: (seq<Token>, seq<V>) -> bool)
    requires Atomic(ts) && (ts != [] ==> !ts[|ts| - 1].Close?)
    ensures Reads(ts, args, atom) == atom(ts, args)
  {
    CutWhole(ts, And);
    CutWhole(ts, Or);
  }

  lemma ReadsParenthesised<V>(ts: seq<Token>, args: seq<V>, atom: (seq<Token>, seq<V>) -> bool)
    requires Balanced(ts)
    ensures Reads([Open] + ts + [Close], args, atom) == Reads(ts, args, atom)
  {
    var all := [Open] + ts + [Close];
    CutParenthesised(ts, [], And);
    CutParenthesised(ts, [], Or);
    assert all + [] == all && all[1..|all| - 1] == ts;
  }

  const AND_TOKEN := Word("AND")

  lemma AndIsReserved()
    ensures IsKey(AND_TOKEN, And) && !IsKey(AND_TOKEN, Or)
  {
    assert ToLower("AND") == "and";
    assert "and"[0] != "or"[0];
  }

  lemma ReadsCutAnd<V>(ts: seq<Token>, j: nat, args: seq<V>, atom: (seq<Token>, seq<V>) -> bool)
    requires Cut(ts, Or, 0, false) == |ts| && Cut(ts, And, 0, false) == j < |ts|
    requires Holes(ts[..j]) <= |args|
    ensures Reads(ts, args, atom)
         == (Reads(ts[..j], args[..Holes(ts[..j])], atom) && Reads(ts[j + 1..], args[Holes(ts[..j])..], atom))
  {
  }

  /** left has no top-level OR or AND, so its first top-level key is the AND after it. */
  ghost predicate Uncut(left: seq<Token>, right: seq<Token>) {
    && (forall key :: Cut(left + ([AND_TOKEN] + right), key, 0, false)
                   == |left| + Cut([AND_TOKEN] + right, key, 0, false))
    && Cut(right, Or, 0, false) == |right|
  }

  lemma CutsOfAnd(left: seq<Token>, right: seq<Token>)
    requires Uncut(left, right)
    ensures var all := left + ([AND_TOKEN] + right);
            Cut(all, Or, 0, false) == |all| && Cut(all, And, 0, false) == |left|
  {
    AndIsReserved();
    assert ([AND_TOKEN] + right)[1..] == right;
  }

  /** A text without a top-level OR or AND, then AND, then a text without a top-level OR. */
  lemma ReadsAnd<V>(
      all: seq<Token>, left: seq<Token>, right: seq<Token>, args: seq<V>, atom: (seq<Token>, seq<V>) -> bool)
    requires all == left + ([AND_TOKEN] + right) && Uncut(left, right) && Holes(left) <= |args|
    ensures Reads(all, args, atom)
         == (Reads(left, args[..Holes(left)], atom) && Reads(right, args[Holes(left)..], atom))
  {
    CutsOfAnd(left, right);
    var l, r := all[..|left|], all[|left| + 1..];
    assert l == left && r == right;
    ReadsCutAnd(all, |left|, args, atom);
  }

  /** Clauses joined by AND. */
  function Conjoined(clauses: seq<seq<Token>>): seq<Token>
    requires clauses != []
  {
    if |clauses| == 1 then clauses[0] else clauses[0] + ([AND_TOKEN] + Conjoined(clauses[1..]))
  }

  predicate Clauses(clauses: seq<seq<Token>>) {
    forall i :: 0 <= i < |clauses| ==> Clause(clauses[i])
  }

  lemma {:induction false} ConjoinedCut(clauses: seq<seq<Token>>)
    requires clauses != [] && Clauses(clauses)
    ensures Cut(Conjoined(clauses), Or, 0, false) == |Conjoined(clauses)|
  {
    AndIsReserved();
    CutWhole(clauses[0], Or);
    if |clauses| > 1 {
      ConjoinedCut(clauses[1..]);
      var rest := [AND_TOKEN] + Conjoined(clauses[1..]);
      assert rest[1..] == Conjoined(clauses[1..]);
      CutNeutral(clauses[0], rest, Or, 0, false);
    }
  }

  lemma {:induction false} ConjoinedHoles(clauses: seq<seq<Token>>)
    requires clauses != [] && Clauses(clauses)
    ensures Holes(Conjoined(clauses)) == |clauses|
  {
    if |clauses| > 1 {
      ConjoinedHoles(clauses[1..]);
      HolesConcat([AND_TOKEN], Conjoined(clauses[1..]));
      HolesConcat(clauses[0], [AND_TOKEN] + Conjoined(clauses[1..]));
    }
  }

  lemma ClauseUncut(clauses: seq<seq<Token>>)
    requires |clauses| > 1 && Clauses(clauses)
    ensures Uncut(clauses[0], Conjoined(clauses[1..]))
  {
    ConjoinedCut(clauses[1..]);
    CutNeutral(clauses[0], [AND_TOKEN] + Conjoined(clauses[1..]), And, 0, false);
    CutNeutral(clauses[0], [AND_TOKEN] + Conjoined(clauses[1..]), Or, 0, false);
  }

  /** One clause, then the rest. */
  lemma ReadsFirst<V>(
      all: seq<Token>, clause: seq<Token>, rest: seq<Token>, args: seq<V>, atom: (seq<Token>, seq<V>) -> bool)
    requires all == clause + ([AND_TOKEN] + rest) && Uncut(clause, rest)
    requires Clause(clause) && |args| >= 1
    ensures Reads(all, args, atom) <==> atom(clause, [args[0]]) && Reads(rest, args[1..], atom)
  {
    ReadsAnd(all, clause, rest, args, atom);
    var first := args[..1];
    assert first == [args[0]];
    ReadsAtomic(clause, first, atom);
  }

  /** A conjunction reads as: every clause holds of its own argument. */
  lemma {:induction false} ReadsConjoined<V>(
      clauses: seq<seq<Token>>, args: seq<V>, atom: (seq<Token>, seq<V>) -> bool)
    requires clauses != [] && Clauses(clauses) && |args| == |clauses|
    ensures Reads(Conjoined(clauses), args, atom)
        <==> forall i :: 0 <= i < |clauses| ==> atom(clauses[i], [args[i]])
  {
    if |clauses| == 1 {
      ReadsAtomic(clauses[0], args, atom);
      assert args == [args[0]];
    } else {
      ClauseUncut(clauses);
      ReadsFirst(Conjoined(clauses), clauses[0], Conjoined(clauses[1..]), args, atom);
      ReadsConjoined(clauses[1..], args[1..], atom);
      assert forall i :: 0 < i < |clauses| ==> clauses[i] == clauses[1..][i - 1] && args[i] == args[1..][i - 1];
    }
  }

  function Bracket(guard: seq<Token>): seq<Token> { [Open] + guard + [Close] }

  lemma GuardUncut(guard: seq<Token>, clauses: seq<seq<Token>>)
    requires Balanced(guard) && clauses != [] && Clauses(clauses)
    ensures Uncut(Bracket(guard), Conjoined(clauses))
    ensures Holes(Bracket(guard)) == Holes(guard)
  {
    HolesConcat([Open] + guard, [Close]);
    HolesConcat([Open], guard);
    ConjoinedCut(clauses);
    CutParenthesised(guard, [AND_TOKEN] + Conjoined(clauses), And);
    CutParenthesised(guard, [AND_TOKEN] + Conjoined(clauses), Or);
  }

  /** A parenthesised condition without holes, and then a conjunction. */
  lemma {:induction false} ReadsGuarded<V>(
      guard: seq<Token>, clauses: seq<seq<Token>>, args: seq<V>, atom: (seq<Token>, seq<V>) -> bool)
    requires Balanced(guard) && Holes(guard) == 0
    requires clauses != [] && Clauses(clauses) && |args| == |clauses|
    ensures Reads(Bracket(guard) + ([AND_TOKEN] + Conjoined(clauses)), args, atom)
        <==> Reads(guard, [], atom) && forall i :: 0 <= i < |clauses| ==> atom(clauses[i], [args[i]])
  {
    GuardUncut(guard, clauses);
    var none, rest := args[..0], args[0..];
    assert none == [] && rest == args;
    ReadsAnd(Bracket(guard) + ([AND_TOKEN] + Conjoined(clauses)), Bracket(guard), Conjoined(clauses), args, atom);
    ReadsParenthesised(guard, [], atom);
    ReadsConjoined(clauses, args, atom);
  }
}

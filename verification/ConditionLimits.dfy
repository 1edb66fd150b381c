/** Where the condition compiler stops meaning what it says. */
module ConditionLimits {
  import opened Options
  import opened Text
  import opened Sql
  import opened Conditions
  import opened ConditionMeaning

  // ----- Plain operator keys are safe

  ghost predicate Spaceless(word: string) {
    word != "" && forall i :: 0 <= i < |word| ==> !IsSpace(word[i])
  }

  lemma {:induction false} FieldEndAt(word: string, rest: string)
    requires Spaceless(word) && (rest == "" || IsSpace(rest[0]))
    ensures FieldEnd(word + rest) == |word|
  {
    assert (word + rest)[1..] == word[1..] + rest;
    if |word| > 1 {
      FieldEndAt(word[1..], rest);
    } else {
      assert word[1..] + rest == rest;
    }
  }

  lemma OneFieldKey(word: string)
    requires Spaceless(word)
    ensures Fields(word) == [word]
  {
    FieldEndAt(word, "");
    assert word + "" == word && word[..|word|] == word && word[|word|..] == "";
  }

  lemma TwoFields(col: string, op: string)
    requires Spaceless(col) && Spaceless(op)
    ensures Fields(col + (" " + op)) == [col, op]
  {
    var rest := " " + op;
    FieldEndAt(col, rest);
    OneFieldKey(op);
    assert (col + rest)[..|col|] == col && (col + rest)[|col|..] == rest && rest[1..] == op;
  }

  ghost predicate AllSpaceless(words: seq<string>) {
    forall i :: 0 <= i < |words| ==> Spaceless(words[i])
  }

  /** The fields of words with a blank between them are the words. */
  lemma {:induction false} FieldsOfJoined(words: seq<string>)
    requires AllSpaceless(words)
    ensures Fields(Join(words, " ")) == words
  {
    if |words| == 1 {
      OneFieldKey(words[0]);
    } else if |words| > 1 {
      var rest := " " + Join(words[1..], " ");
      FieldsOfJoined(words[1..]);
      FieldEndAt(words[0], rest);
      var s := words[0] + rest;
      assert s[..|words[0]|] == words[0] && s[|words[0]|..] == rest && rest[1..] == Join(words[1..], " ");
      assert Join(words, " ") == s;
      assert words == [words[0]] + words[1..];
    }
  }

  lemma TwoWords(col: string, op: string)
    requires IsOneWord(col) && IsOneWord(op)
    ensures Closed(col + (" " + op)) && Lex(col + (" " + op)) == [Word(col), Word(op)]
  {
    LexWord(col);
    LexWord(op);
    LexAfterBlank(op);
    LexConcat(col, " " + op);
  }

  lemma NoHoles(a: Token, b: Token)
    requires a.Word? && b.Word?
    ensures Holes([a, b]) == 0
  {
    assert [a, b][1..] == [b] && [b][1..] == [];
    assert Holes([b]) == 0;
  }

  /** The key of a column and an operator. */
  function OperatorKey(col: string, op: string): string { col + (" " + op) }

  ghost predicate IsOperatorKey(col: string, op: string) {
    && IsOneWord(col) && IsOneWord(op) && Lowered(OperatorKey(col, op))
    && KindOf(OperatorKey(col, op)).KColumn?
    && op != "in" && op != "notin" && op != "like"
  }

  lemma OperatorKeyClause(col: string, op: string, v: Value)
    requires IsOperatorKey(col, op)
    ensures var item: Item := (OperatorKey(col, op), v);
            && Key(item) == OperatorKey(col, op) && !Bad(item) && ItemKind(item) == KColumn
            && ClauseOf(item) == Some((Operator(OperatorKey(col, op)), v)) && CallOf(item) == None
            && TokensOf(item) == Lex(OperatorKey(col, op)) + [Hole]
  {
    ToLowerFixesLowered(OperatorKey(col, op));
    TwoFields(col, op);
  }

  /** The two words, with a hole after them, read as one comparison. */
  predicate WordsJoinNothing(col: string, op: string) {
    var c, o := Word(col), Word(op);
    && !IsWordOf(c, "or") && !IsWordOf(c, "and") && !IsWordOf(c, "not")
    && !IsWordOf(o, "or") && !IsWordOf(o, "between")
    && (IsWordOf(c, "between") <==> IsWordOf(o, "and"))
  }

  lemma TwoWordsAtomic(col: string, op: string)
    ensures Atomic([Word(col), Word(op)]) <==> WordsJoinNothing(col, op)
  {
    var ts := [Word(col), Word(op)];
    assert ts[1..] == [Word(op)] && ts[1..][1..] == [];
    var stays := StaysBetween(Word(col), false);
    assert Neutral(ts[1..], 0, stays)
        == (!IsWordOf(Word(op), "or") && (IsWordOf(Word(op), "and") ==> stays) && !StaysBetween(Word(op), stays));
    BetweenIsNoAnd();
  }

  lemma BetweenIsNoAnd()
    ensures "between" != "and" && "between" != "or" && "and" != "or"
  {
    assert "between"[0] == 'b' && "and"[0] == 'a' && "or"[0] == 'o';
  }

  lemma OperatorReadable(k: string)
    requires |Fields(k)| == 2 && Fields(k)[1] !in ["in", "notin", "like"]
    ensures KeyReadable(k) <==> Closed(k) && Atomic(Lex(k)) && Holes(Lex(k)) == 0
  {
  }

  /** A column and an operator, both plain words, make a readable key exactly when neither of them
      joins or negates, "between and" apart; it is read as that comparison. */
  lemma {:induction false} PlainOperatorReadable(col: string, op: string, v: Value)
    requires IsOperatorKey(col, op)
    ensures KeyReadable(OperatorKey(col, op)) <==> WordsJoinNothing(col, op)
    ensures TokensOf((OperatorKey(col, op), v)) == [Word(col), Word(op)] + [Hole]
  {
    OperatorKeyClause(col, op, v);
    TwoWords(col, op);
    TwoFields(col, op);
    NoHoles(Word(col), Word(op));
    TwoWordsAtomic(col, op);
    OperatorReadable(OperatorKey(col, op));
  }

  // ----- A function call on the column is safe

  /** The key of a function, a column in parentheses and an operator. */
  function CallKey(f: string, col: string, op: string): string { f + ("(" + (col + (")" + (" " + op)))) }

  lemma Punctuation()
    ensures Closed("(") && Lex("(") == [Open] && Closed(")") && Lex(")") == [Close]
  {
    LexOne("(");
    LexOne(")");
  }

  lemma CallLexed(f: string, col: string, op: string)
    requires IsOneWord(f) && IsOneWord(col) && IsOneWord(op)
    ensures Closed(CallKey(f, col, op))
    ensures Lex(CallKey(f, col, op)) == [Word(f)] + ([Open] + ([Word(col)] + ([Close] + [Word(op)])))
  {
    Punctuation();
    LexWord(f);
    LexWord(col);
    LexWord(op);
    LexAfterBlank(op);
    LexConcat(")", " " + op);
    LexConcat(col, ")" + (" " + op));
    LexConcat("(", col + (")" + (" " + op)));
    LexConcat(f, "(" + (col + (")" + (" " + op))));
  }

  /** Inside parentheses any word may stand. */
  lemma CallAtomic(f: Token, col: Token, op: Token)
    requires f.Word? && col.Word? && op.Word? && !IsReserved(f) && !Joins(op)
    ensures var ts := [f] + ([Open] + ([col] + ([Close] + [op])));
            Atomic(ts) && Holes(ts) == 0
  {
    var s1 := [Close] + [op];
    var s2 := [col] + s1;
    var s3 := [Open] + s2;
    var ts := [f] + s3;
    assert ts[1..] == s3 && s3[1..] == s2 && s2[1..] == s1 && s1[1..] == [op] && [op][1..] == [];
    assert Neutral([op], 0, false) && Holes([op]) == 0;
    assert Neutral(s1, 1, false) && Holes(s1) == 0;
    assert Neutral(s2, 1, false) && Holes(s2) == 0;
    assert Neutral(s3, 0, false) && Holes(s3) == 0;
  }

  /** A function of a column compared by a plain operator is a readable key. */
  lemma {:induction false} CallKeyReadable(f: string, col: string, op: string)
    requires IsOneWord(f) && IsOneWord(col) && IsOneWord(op) && !IsReserved(Word(f)) && !Joins(Word(op))
    requires op !in ["in", "notin", "like"]
    ensures Fields(CallKey(f, col, op)) == [f + ("(" + (col + ")")), op] && KeyReadable(CallKey(f, col, op))
  {
    var left := f + ("(" + (col + ")"));
    assert CallKey(f, col, op) == left + (" " + op);
    TwoFields(left, op);
    CallLexed(f, col, op);
    CallAtomic(Word(f), Word(col), Word(op));
    OperatorReadable(CallKey(f, col, op));
  }

  // ----- A reserved operator escapes the conjunction

  /** A row of which only the bare hole is true. */
  const BARE: Row := Row((ts, args) => ts == [Hole], (col, v) => false)

  lemma ReadsOr(all: seq<Token>, left: seq<Token>, args: seq<Value>)
    requires all == left + [Word("or"), Hole] && Cut(all, Or, 0, false) == |left|
    ensures Reads(all, args, BARE.atom)
  {
    assert all[|left| + 1..] == [Hole];
    var rest := args[Taken(all[..|left|], args)..];
    ReadsAtomic([Hole], rest, BARE.atom);
  }

  lemma OrIsReserved()
    ensures IsKey(Word("or"), Or)
  {
    assert ToLower("or") == "or";
  }

  lemma CutAtOr(first: seq<Token>, col: string)
    requires Atomic(first) && !IsReserved(Word(col))
    ensures var left := first + ([AND_TOKEN] + [Word(col)]);
            Cut(left + [Word("or"), Hole], Or, 0, false) == |left|
  {
    var tail := [Word("or"), Hole];
    OrIsReserved();
    AndIsReserved();
    assert [Word(col)][1..] == [] && Neutral([Word(col)], 0, false);
    CutNeutral([Word(col)], tail, Or, 0, false);
    var rest := [AND_TOKEN] + ([Word(col)] + tail);
    assert rest[1..] == [Word(col)] + tail;
    CutNeutral(first, rest, Or, 0, false);
    assert first + ([AND_TOKEN] + [Word(col)]) + tail == first + rest;
  }

  lemma TwoJoined(a: string, b: string)
    requires a != ""
    ensures WhereText("", [a, b]) == a + (" AND " + b) != ""
  {
    assert [a, b][1..] == [b];
    assert Join([a, b], " AND ") == a + (" AND " + b);
  }

  lemma RegroupFour(ts: seq<Token>, a: Token, b: Token, c: Token, d: Token)
    ensures ts + ([a] + ([b, c] + [d])) == ts + ([a] + [b]) + [c, d]
  {
  }

  /** The text of a clean clause and of an operator key whose operator is OR. */
  lemma LexWithOr(clause: string, col: string)
    requires Clean(clause) && IsOneWord(col)
    ensures Lex(clause + (" AND " + Operator(OperatorKey(col, "or"))))
         == Lex(clause) + ([AND_TOKEN] + [Word(col)]) + [Word("or"), Hole]
  {
    var k := OperatorKey(col, "or");
    TwoWords(col, "or");
    LexBeforeTail(k);
    LexAnd(clause, Operator(k));
    RegroupFour(Lex(clause), AND_TOKEN, Word(col), Word("or"), Hole);
  }

  lemma OrTextReads(clause: string, col: string, args: seq<Value>)
    requires Clean(clause) && IsOneWord(col) && !IsReserved(Word(col))
    ensures var text := WhereText("", [clause, Operator(OperatorKey(col, "or"))]);
            text != "" && Reads(Lex(text), args, BARE.atom)
  {
    TwoJoined(clause, Operator(OperatorKey(col, "or")));
    LexWithOr(clause, col);
    CutAtOr(Lex(clause), col);
    ReadsOr(
      Lex(clause + (" AND " + Operator(OperatorKey(col, "or")))), Lex(clause) + ([AND_TOKEN] + [Word(col)]), args);
  }

  lemma WalkOfTwo(a: Item, b: Item)
    requires ClauseOf(a).Some? && ClauseOf(b).Some? && ItemKind(a).KColumn? && ItemKind(b).KColumn?
    requires CallOf(a) == None && CallOf(b) == None && !Bad(a) && !Bad(b)
    ensures var w := After(Begin("", false, false), [a, b], false);
            && w.clauses == [ClauseOf(a).value, ClauseOf(b).value] && w.where_ == ""
            && CallsMade([a, b]) == [] && AllGood([a, b])
  {
    assert [a, b][..1] == [a] && [a][..0] == [];
    var begin := Begin("", false, false);
    assert After(begin, [a], false) == Visit(begin, a, false);
    assert CallsMade([a]) == [] && AllGood([a]);
  }

  lemma OrFinishSelects(w: Walk, clause: (string, Value), col: string, v: Value)
    requires w.clauses == [clause, (Operator(OperatorKey(col, "or")), v)] && w.where_ == ""
    requires Clean(clause.0) && IsOneWord(col) && !IsReserved(Word(col))
    ensures Selects(BARE, Finish(w))
  {
    assert Texts(w.clauses) == [clause.0, Operator(OperatorKey(col, "or"))];
    OrTextReads(clause.0, col, Args(w.clauses));
    FinishSelects(BARE, w);
  }

  /** Beside any readable clause, a key whose operator is OR lets through a row that the clause
      rejects. */
  lemma {:induction false} OrKeyEscapes(item: Item, col: string, v: Value)
    requires Readable(item) && ClauseOf(item).Some? && CallOf(item) == None && TokensOf(item) != [Hole]
    requires ItemKind(item).KColumn? && !Bad(item)
    requires IsOperatorKey(col, "or") && !IsReserved(Word(col))
    ensures var order: seq<Item> := [item, (OperatorKey(col, "or"), v)];
            var w := After(Begin("", false, false), order, false);
            Selects(BARE, [Table] + CallsMade(order) + Finish(w)) && !Asks(BARE, item)
  {
    var other: Item := (OperatorKey(col, "or"), v);
    OperatorKeyClause(col, "or", v);
    WalkOfTwo(item, other);
    ClauseTokens(item);
    OrFinishSelects(After(Begin("", false, false), [item, other], false), ClauseOf(item).value, col, v);
    OnlyTable(After(Begin("", false, false), [item, other], false), CallsMade([item, other]));
    AsksInParts(BARE, item);
  }

  lemma OnlyTable(w: Walk, calls: seq<Call>)
    requires calls == [] && Selects(BARE, Finish(w))
    ensures Selects(BARE, [Table] + calls + Finish(w))
  {
    SelectsConcat(BARE, [Table] + calls, Finish(w));
  }

  // ----- Keys that collide

  /** Two keys that lower-casing makes equal: the order decides the result. */
  lemma {:induction false} CollidingKeysDiffer()
    ensures var s: seq<Item> := [("orderby", Str("a")), ("OrderBy", Str("b"))];
            var t: seq<Item> := [("OrderBy", Str("b")), ("orderby", Str("a"))];
            && multiset(s) == multiset(t)
            && After(Begin("", true, false), s, true).orderby != After(Begin("", true, false), t, true).orderby
  {
    var a, b: Item := ("orderby", Str("a")), ("OrderBy", Str("b"));
    assert Key(a) == "orderby" && Key(b) == "orderby";
    assert ItemKind(a) == KOrderBy && ItemKind(b) == KOrderBy;
    assert [a, b][..1] == [a] && [b, a][..1] == [b];
  }
}

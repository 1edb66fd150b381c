/** Exactly which keys keep their meaning, whatever else the condition map holds. */
module ConditionExact {
  import opened Options
  import opened Text
  import opened Sql
  import opened Conditions
  import opened ConditionMeaning
  import opened ConditionLimits
  import ConditionOrder

  type Atom = (seq<Token>, seq<Value>) -> bool

  /** The compiled query selects the rows the entries ask for. */
  ghost predicate Preserved(row: Row, order: seq<Item>, autoIncr: string, isOrder: bool, isPaging: bool) {
    Selects(row, Compiled(order, autoIncr, isOrder, isPaging)) <==> forall i :: 0 <= i < |order| ==> Asks(row, order[i])
  }

  /** The map's other keys are readable. */
  ghost predicate Beside(order: seq<Item>, k: string) {
    && ConditionOrder.DistinctKeys(order)
    && (forall i :: 0 <= i < |order| ==> Readable(order[i]) || Key(order[i]) == k)
    && (ConditionOrder.WhereOf(order) == "" || Standalone(ConditionOrder.WhereOf(order)))
  }

  /** Whatever else the map holds, the key keeps its meaning. */
  ghost predicate Safe(k: string) {
    forall row, order: seq<Item>, autoIncr, isOrder, isPaging ::
      Beside(order, k) ==> Preserved(row, order, autoIncr, isOrder, isPaging)
  }

  lemma NotSafe(row: Row, order: seq<Item>, k: string)
    requires Beside(order, k) && !Preserved(row, order, "", false, false)
    ensures !Safe(k)
  {
  }

  lemma SafeIfReadable(k: string)
    requires KindOf(k).KColumn? && KeyReadable(k)
    ensures Safe(k)
  {
    forall row, order: seq<Item>, autoIncr, isOrder, isPaging | Beside(order, k)
      ensures Preserved(row, order, autoIncr, isOrder, isPaging)
    {
      MeaningPreserved(row, order, autoIncr, isOrder, isPaging);
    }
  }

  // ----- Rows that cannot be told apart by the pieces of a text

  ghost predicate Within(p: seq<Token>, ts: seq<Token>) {
    |p| <= |ts| && forall t :: t in p ==> t in ts
  }

  ghost predicate AgreeWithin(ts: seq<Token>, a: Atom, b: Atom) {
    forall p, args :: Within(p, ts) ==> a(p, args) == b(p, args)
  }

  /** The same, for what is shorter than the whole. */
  ghost predicate AgreeBelow(ts: seq<Token>, a: Atom, b: Atom) {
    forall p, args :: Within(p, ts) && |p| < |ts| ==> a(p, args) == b(p, args)
  }

  lemma PieceAgrees(ts: seq<Token>, p: seq<Token>, a: Atom, b: Atom)
    requires AgreeBelow(ts, a, b) && Within(p, ts) && |p| < |ts|
    ensures AgreeWithin(p, a, b)
  {
  }

  /** The text is not one comparison: it is cut, or negated, or put in parentheses. */
  predicate Branches(ts: seq<Token>) {
    || Cut(ts, Or, 0, false) < |ts| || Cut(ts, And, 0, false) < |ts|
    || Parenthesised(ts) || (ts != [] && IsWordOf(ts[0], "not"))
  }

  /** Comparisons that agree on the pieces give the whole the same truth. */
  lemma {:induction false} ReadsAlike(ts: seq<Token>, args: seq<Value>, a: Atom, b: Atom)
    requires AgreeWithin(ts, a, b)
    ensures Reads(ts, args, a) == Reads(ts, args, b)
    decreases |ts|, 1
  {
    if Branches(ts) {
      BranchesAlike(ts, args, a, b);
    }
  }

  lemma {:induction false} BranchesAlike(ts: seq<Token>, args: seq<Value>, a: Atom, b: Atom)
    requires AgreeBelow(ts, a, b) && Branches(ts)
    ensures Reads(ts, args, a) == Reads(ts, args, b)
    decreases |ts|, 0
  {
    var i, j := Cut(ts, Or, 0, false), Cut(ts, And, 0, false);
    if i < |ts| {
      var n := Taken(ts[..i], args);
      PiecesAlike(ts, ts[..i], args[..n], a, b);
      PiecesAlike(ts, ts[i + 1..], args[n..], a, b);
    } else if j < |ts| {
      var n := Taken(ts[..j], args);
      PiecesAlike(ts, ts[..j], args[..n], a, b);
      PiecesAlike(ts, ts[j + 1..], args[n..], a, b);
    } else if Parenthesised(ts) {
      PiecesAlike(ts, ts[1..|ts| - 1], args, a, b);
    } else {
      PiecesAlike(ts, ts[1..], args, a, b);
    }
  }

  lemma {:induction false} PiecesAlike(ts: seq<Token>, p: seq<Token>, args: seq<Value>, a: Atom, b: Atom)
    requires AgreeBelow(ts, a, b) && Within(p, ts) && |p| < |ts|
    ensures Reads(p, args, a) == Reads(p, args, b)
    decreases |p|, 2
  {
    PieceAgrees(ts, p, a, b);
    ReadsAlike(p, args, a, b);
  }

  /** A row of which one comparison alone is true, and a row of which none is. */
  function Only(y: seq<Token>): Row { Row((ts, args) => ts == y, (col, v) => false) }

  const NOTHING := Row((ts, args) => false, (col, v) => false)

  // ----- A key by itself

  lemma WalkOfOne(a: Item)
    requires ClauseOf(a).Some? && ItemKind(a).KColumn? && CallOf(a) == None && !Bad(a)
    ensures var w := After(Begin("", false, false), [a], false);
            && w.clauses == [ClauseOf(a).value] && w.where_ == "" && CallsMade([a]) == []
  {
    assert [a][..0] == [];
    assert After(Begin("", false, false), [a], false) == Visit(Begin("", false, false), a, false);
  }

  lemma TableSelects(row: Row, calls: seq<Call>)
    ensures Selects(row, [Table] + [] + calls) <==> Selects(row, calls)
  {
    SelectsConcat(row, [Table], calls);
    assert [Table] + [] + calls == [Table] + calls;
  }

  /** What the session selects when the walk has made no call on it. */
  lemma ClausesDecide(row: Row, order: seq<Item>, text: string)
    requires var w := After(Begin("", false, false), order, false);
             CallsMade(order) == [] && text == WhereText(w.where_, Texts(w.clauses)) != ""
    ensures var w := After(Begin("", false, false), order, false);
            Selects(row, [Table] + CallsMade(order) + Finish(w)) <==> Reads(Lex(text), Args(w.clauses), row.atom)
  {
    var w := After(Begin("", false, false), order, false);
    TableSelects(row, Finish(w));
    FinishSelects(row, w);
  }

  lemma OneKeyIsBeside(k: string, v: Value)
    requires Key((k, v)) == k && KindOf(k).KColumn?
    ensures Beside([(k, v)], k)
  {
    var order: seq<Item> := [(k, v)];
    assert order[..0] == [] && ItemKind(order[0]) == KColumn;
    assert ConditionOrder.Setting(order, KWhere) == ConditionOrder.Setting(order[..0], KWhere);
  }

  lemma OneWalked(a: Item, text: string, v: Value)
    requires ClauseOf(a) == Some((text, v)) && ItemKind(a).KColumn? && CallOf(a) == None && !Bad(a)
    ensures var w := After(Begin("", false, false), [a], false);
            CallsMade([a]) == [] && w.where_ == "" && Texts(w.clauses) == [text] && Args(w.clauses) == [v]
  {
    WalkOfOne(a);
    assert Texts([(text, v)]) == [text] && Args([(text, v)]) == [v];
  }

  lemma OneText(text: string)
    ensures WhereText("", [text]) == text
  {
  }

  /** An item that adds a clause and nothing else. */
  ghost predicate Adds(item: Item, text: string) {
    && Key(item) == item.0 && ItemKind(item).KColumn? && !Bad(item) && CallOf(item) == None
    && ClauseOf(item) == Some((text, item.1)) && text != ""
  }

  lemma AsksItsClause(row: Row, item: Item, text: string)
    requires Adds(item, text)
    ensures Asks(row, item) <==> row.atom(TokensOf(item), [item.1])
  {
    AsksInParts(row, item);
  }

  lemma AloneDecides(row: Row, item: Item, text: string)
    requires Adds(item, text)
    ensures Preserved(row, [item], "", false, false)
        <==> (Reads(Lex(text), [item.1], row.atom) <==> row.atom(TokensOf(item), [item.1]))
  {
    var order: seq<Item> := [item];
    OneWalked(item, text, item.1);
    OneText(text);
    ClausesDecide(row, order, text);
    AsksItsClause(row, item, text);
    assert (forall i :: 0 <= i < |order| ==> Asks(row, order[i])) <==> Asks(row, order[0]);
  }

  /** A text that says the same of the two rows cannot be the comparison the key asks for. */
  lemma MisreadAlone(item: Item, text: string)
    requires Adds(item, text)
    requires Reads(Lex(text), [item.1], Only(TokensOf(item)).atom) == Reads(Lex(text), [item.1], NOTHING.atom)
    ensures !Safe(item.0)
  {
    OneKeyIsBeside(item.0, item.1);
    AloneDecides(Only(TokensOf(item)), item, text);
    AloneDecides(NOTHING, item, text);
    if Preserved(NOTHING, [item], "", false, false) {
      NotSafe(Only(TokensOf(item)), [item], item.0);
    } else {
      NotSafe(NOTHING, [item], item.0);
    }
  }

  // ----- A backquote in a name

  /** A quoted name never holds a backquote. */
  predicate CleanQuote(t: Token) {
    t.Quoted? && |t.text| >= 2 && t.text[0] == '`' ==> '`' !in t.text[1..|t.text| - 1]
  }

  lemma InnerClean(s: string)
    requires s != "" && s[0] == '`' && First(s) >= 2
    ensures '`' !in s[..First(s)][1..First(s) - 1]
  {
    var i := Find(s[1..], '`');
    var inner := s[..First(s)][1..First(s) - 1];
    assert |inner| <= i;
    forall k | 0 <= k < |inner| ensures inner[k] != '`' {
      assert inner[k] == s[1..][..i][k];
    }
  }

  lemma FirstCleanQuote(s: string)
    requires s != ""
    ensures forall t :: t in TokenOf(s[..First(s)]) ==> CleanQuote(t)
  {
    var lexeme := s[..First(s)];
    if s[0] == '`' && First(s) >= 2 {
      InnerClean(s);
    }
    assert CleanQuote(Quoted(lexeme));
  }

  lemma {:induction false} QuotesClean(s: string)
    ensures forall t :: t in Lex(s) ==> CleanQuote(t)
    decreases |s|
  {
    if s != "" {
      FirstCleanQuote(s);
      QuotesClean(s[First(s)..]);
    }
  }

  /** A name that the text does not hold is not asked for. */
  lemma NameLost(item: Item, text: string)
    requires Adds(item, text) && TokensOf(item) != [] && TokensOf(item)[0] !in Lex(text)
    ensures !Safe(item.0)
  {
    var y, x := TokensOf(item), Lex(text);
    forall p, args | Within(p, x) ensures Only(y).atom(p, args) == NOTHING.atom(p, args) {
      assert y[0] !in p;
    }
    ReadsAlike(x, [item.1], Only(y).atom, NOTHING.atom);
    MisreadAlone(item, text);
  }

  /** The name a key with a backquote asks for is never read. */
  lemma BackquoteLost(item: Item, text: string, name: string)
    requires Adds(item, text) && '`' in name
    requires TokensOf(item) != [] && TokensOf(item)[0] == Quoted("`" + name + "`")
    ensures !Safe(item.0)
  {
    QuotesClean(text);
    assert ("`" + name + "`")[1..|name| + 1] == name;
    assert !CleanQuote(TokensOf(item)[0]);
    NameLost(item, text);
  }

  // ----- A name with blanks around it

  /** What is no blank is in a field. */
  lemma {:induction false} FieldsHold(s: string, c: char) returns (j: nat)
    requires c in s && !IsSpace(c)
    ensures j < |Fields(s)| && c in Fields(s)[j]
    decreases |s|
  {
    if IsSpace(s[0]) {
      assert s == [s[0]] + s[1..];
      j := FieldsHold(s[1..], c);
    } else {
      var n := FieldEnd(s);
      assert s == s[..n] + s[n..];
      j := 0;
      if c !in s[..n] {
        var i := FieldsHold(s[n..], c);
        j := i + 1;
      }
    }
  }

  lemma OneFieldLexed(k: string)
    requires '`' !in k
    ensures Lex(OneField(k)) == [Quoted("`" + k + "`"), Word("="), Hole]
  {
    PlainWords();
    QuotedClause(k, "=");
    OneFieldText(k);
  }

  lemma OneFieldAdds(k: string, v: Value)
    requires Lowered(k) && KindOf(k).KColumn? && |Fields(k)| == 1
    ensures Adds((k, v), OneField(k)) && TokensOf((k, v))[0] == Quoted("`" + Fields(k)[0] + "`")
  {
    ToLowerFixesLowered(k);
  }

  lemma QuotesApart(a: string, b: string)
    requires a != b
    ensures Quoted("`" + a + "`") != Quoted("`" + b + "`")
  {
    assert ("`" + a + "`")[1..|a| + 1] == a && ("`" + b + "`")[1..|b| + 1] == b;
  }

  /** The code looks up a column whose name has the blanks. */
  lemma BlankLost(k: string)
    requires Lowered(k) && KindOf(k).KColumn? && |Fields(k)| == 1 && k != Fields(k)[0] && '`' !in k
    ensures !Safe(k)
  {
    OneFieldAdds(k, Int(0));
    OneFieldLexed(k);
    QuotesApart(k, Fields(k)[0]);
    NameLost((k, Int(0)), OneField(k));
  }

  // ----- An operator key whose quotes stay open

  lemma {:induction false} WordEndStays(s: string, b: string)
    requires WordEnd(s) < |s|
    ensures WordEnd(s + b) == WordEnd(s)
  {
    if IsWordChar(s[0]) {
      assert (s + b)[1..] == s[1..] + b;
      WordEndStays(s[1..], b);
    }
  }

  lemma FirstStays(s: string, b: string)
    requires s != "" && First(s) < |s| && (IsQuote(s[0]) ==> s[0] in s[1..])
    ensures First(s + b) == First(s)
  {
    if IsQuote(s[0]) {
      assert (s + b)[1..] == s[1..] + b;
      FindInPrefix(s[1..], b, s[0]);
    } else if IsWordChar(s[0]) {
      WordEndStays(s, b);
    }
  }

  lemma {:induction false} FindNone(s: string, c: char)
    requires c !in s
    ensures Find(s, c) == |s|
  {
    if s != "" {
      FindNone(s[1..], c);
    }
  }

  lemma OpenToTheEnd(s: string)
    requires s != "" && IsQuote(s[0]) && s[0] !in s[1..]
    ensures |Lex(s)| == 1
  {
    FindNone(s[1..], s[0]);
    assert s[..|s|] == s && s[|s|..] == "";
  }

  /** What follows an open quote belongs to it. */
  lemma {:induction false} LexOpen(s: string, b: string)
    requires !Closed(s) && forall i :: 0 <= i < |b| ==> !IsQuote(b[i])
    ensures |Lex(s + b)| == |Lex(s)|
    decreases |s|
  {
    if IsQuote(s[0]) && s[0] !in s[1..] {
      assert (s + b)[1..] == s[1..] + b;
      OpenToTheEnd(s);
      OpenToTheEnd(s + b);
    } else {
      var n := First(s);
      assert s[n..] != "";
      FirstStays(s, b);
      assert (s + b)[..n] == s[..n] && (s + b)[n..] == s[n..] + b;
      LexOpen(s[n..], b);
    }
  }

  // ----- Operator keys

  /** A key that is pasted before its hole as it is. */
  ghost predicate IsOperator(k: string) {
    Lowered(k) && KindOf(k).KColumn? && |Fields(k)| == 2 && Fields(k)[1] !in ["in", "notin", "like"]
  }

  lemma OperatorAdds(k: string, v: Value)
    requires IsOperator(k)
    ensures Adds((k, v), Operator(k)) && TokensOf((k, v)) == Lex(k) + [Hole]
  {
    ToLowerFixesLowered(k);
  }

  /** Quotes left open: fewer tokens are read than the comparison has. */
  lemma OpenUnsafe(k: string)
    requires IsOperator(k) && !Closed(k)
    ensures !Safe(k)
  {
    var item: Item := (k, Int(0));
    OperatorAdds(k, Int(0));
    LexOpen(k, " ?");
    var y, x := TokensOf(item), Lex(Operator(k));
    forall p, args | Within(p, x) ensures Only(y).atom(p, args) == NOTHING.atom(p, args) {
      assert |p| < |y|;
    }
    ReadsAlike(x, [item.1], Only(y).atom, NOTHING.atom);
    MisreadAlone(item, Operator(k));
  }

  /** A key that is cut or negated: only pieces of the comparison are read. */
  lemma BranchingUnsafe(k: string)
    requires IsOperator(k) && Closed(k) && Branches(Lex(k) + [Hole])
    ensures !Safe(k)
  {
    var item: Item := (k, Int(0));
    OperatorAdds(k, Int(0));
    LexBeforeTail(k);
    var y := TokensOf(item);
    assert forall p, args :: Within(p, y) && |p| < |y| ==> Only(y).atom(p, args) == NOTHING.atom(p, args);
    BranchesAlike(y, [item.1], Only(y).atom, NOTHING.atom);
    MisreadAlone(item, Operator(k));
  }

  // ----- Two keys, the second a plain column

  /** A word that names a column and is none of the settings. */
  ghost predicate IsColumn(word: string) {
    IsOneWord(word) && Lowered(word) && KindOf(word).KColumn? && '`' !in word
  }

  lemma ColumnKey(word: string, v: Value)
    requires IsColumn(word)
    ensures Key((word, v)) == word && ItemKind((word, v)) == KColumn && Fields(word) == [word]
  {
    ToLowerFixesLowered(word);
    OneFieldKey(word);
  }

  lemma ColumnReadable(word: string, v: Value)
    requires IsColumn(word)
    ensures Readable((word, v))
  {
    ColumnKey(word, v);
  }

  lemma ColumnAdds(word: string, v: Value)
    requires IsColumn(word)
    ensures Adds((word, v), OneField(word))
  {
    ColumnKey(word, v);
  }

  function ColumnTokens(word: string): seq<Token> { [Quoted("`" + word + "`"), Word("="), Hole] }

  lemma ColumnLexed(word: string, v: Value)
    requires IsColumn(word)
    ensures TokensOf((word, v)) == ColumnTokens(word) && Lex(OneField(word)) == ColumnTokens(word)
  {
    ColumnKey(word, v);
    PlainWords();
    QuotedClause(word, "=");
    OneFieldText(word);
  }

  lemma TwoAreBeside(k: string, word: string, v: Value)
    requires Key((k, v)) == k && KindOf(k).KColumn? && IsColumn(word) && k != word
    ensures Beside([(k, v), (word, v)], k)
  {
    ColumnKey(word, v);
    ColumnReadable(word, v);
    OneKeyIsBeside(k, v);
    var order: seq<Item> := [(k, v), (word, v)];
    assert order[..1] == [(k, v)];
    assert ConditionOrder.Setting(order, KWhere) == ConditionOrder.Setting(order[..1], KWhere);
  }

  lemma TwoWalked(a: Item, b: Item, text: string, other: string)
    requires Adds(a, text) && Adds(b, other)
    ensures var w := After(Begin("", false, false), [a, b], false);
            && CallsMade([a, b]) == [] && w.where_ == ""
            && Texts(w.clauses) == [text, other] && Args(w.clauses) == [a.1, b.1]
  {
    WalkOfTwo(a, b);
    var clauses := [(text, a.1), (other, b.1)];
    assert Texts(clauses) == [text, other] && Args(clauses) == [a.1, b.1];
  }

  /** The tokens of an operator key's clause and a column's after it. */
  function Both(k: string, word: string): seq<Token> {
    Lex(k) + [Hole] + ([AND_TOKEN] + ColumnTokens(word))
  }

  lemma BothLexed(k: string, word: string)
    requires Closed(k) && IsColumn(word)
    ensures var text := WhereText("", [Operator(k), OneField(word)]);
            text != "" && Lex(text) == Both(k, word)
  {
    LexBeforeTail(k);
    TwoJoined(Operator(k), OneField(word));
    LexAnd(Operator(k), OneField(word));
    ColumnLexed(word, Int(0));
  }

  lemma TwoSelected(row: Row, k: string, word: string, v: Value)
    requires IsOperator(k) && Closed(k) && IsColumn(word)
    ensures var order: seq<Item> := [(k, v), (word, v)];
            var w := After(Begin("", false, false), order, false);
            Selects(row, [Table] + CallsMade(order) + Finish(w)) <==> Reads(Both(k, word), [v, v], row.atom)
  {
    var a: Item, b: Item := (k, v), (word, v);
    OperatorAdds(k, v);
    ColumnAdds(word, v);
    TwoWalked(a, b, Operator(k), OneField(word));
    BothLexed(k, word);
    ClausesDecide(row, [a, b], WhereText("", [Operator(k), OneField(word)]));
  }

  lemma TwoAsked(row: Row, a: Item, b: Item)
    ensures var order: seq<Item> := [a, b];
            (forall i :: 0 <= i < |order| ==> Asks(row, order[i])) <==> Asks(row, a) && Asks(row, b)
  {
    var order: seq<Item> := [a, b];
    assert order[0] == a && order[1] == b;
  }

  /** What the session selects for the two keys, against what they ask. */
  lemma TwoDecide(row: Row, k: string, word: string, v: Value)
    requires IsOperator(k) && Closed(k) && IsColumn(word)
    ensures Preserved(row, [(k, v), (word, v)], "", false, false)
        <==> (Reads(Both(k, word), [v, v], row.atom)
              <==> row.atom(Lex(k) + [Hole], [v]) && row.atom(ColumnTokens(word), [v]))
  {
    var a: Item, b: Item := (k, v), (word, v);
    OperatorAdds(k, v);
    ColumnAdds(word, v);
    ColumnLexed(word, v);
    TwoSelected(row, k, word, v);
    AsksItsClause(row, a, Operator(k));
    AsksItsClause(row, b, OneField(word));
    TwoAsked(row, a, b);
  }

  // ----- A key that swallows the AND after it

  /** No parenthesis and no joining word. */
  predicate Flat(ts: seq<Token>) {
    forall i :: 0 <= i < |ts| ==> !ts[i].Open? && !ts[i].Close? && !Joins(ts[i])
  }

  lemma {:induction false} CutFlat(ts: seq<Token>, key: Keyword, depth: int, between: bool)
    requires Flat(ts)
    ensures Cut(ts, key, depth, between) == |ts|
  {
    if ts != [] {
      CutFlat(ts[1..], key, depth, if depth != 0 then between else StaysBetween(ts[0], between));
    }
  }

  lemma AndIsAnd()
    ensures IsWordOf(AND_TOKEN, "and") && !IsWordOf(AND_TOKEN, "between") && !IsWordOf(AND_TOKEN, "or")
  {
    AndIsReserved();
    BetweenIsNoAnd();
  }

  /** A text that is not cut, but not neutral either, takes the AND after it. */
  lemma {:induction false} CutSwallows(ts: seq<Token>, rest: seq<Token>, key: Keyword, depth: int, between: bool)
    requires Cut(ts, Or, depth, between) == |ts| && Cut(ts, And, depth, between) == |ts|
    requires !Neutral(ts, depth, between) && Flat(rest)
    ensures Cut(ts + ([AND_TOKEN] + rest), key, depth, between) == |ts| + 1 + |rest|
  {
    var all := ts + ([AND_TOKEN] + rest);
    if ts == [] {
      AndIsAnd();
      assert all[1..] == rest;
      CutFlat(rest, key, depth, if depth != 0 then between else StaysBetween(AND_TOKEN, between));
    } else {
      assert all[1..] == ts[1..] + ([AND_TOKEN] + rest);
      var next := if ts[0].Open? then depth + 1 else if ts[0].Close? then depth - 1 else depth;
      var stays := if ts[0].Open? || ts[0].Close? || depth != 0 then between else StaysBetween(ts[0], between);
      CutSwallows(ts[1..], rest, key, next, stays);
    }
  }

  /** A row of which only comparisons shorter than n are true. */
  function Shorter(n: nat): Row { Row((ts, args) => |ts| < n, (col, v) => false) }

  lemma ColumnIsFlat(word: string)
    ensures Flat(ColumnTokens(word))
  {
    PlainWords();
  }

  lemma SwallowedRead(k: string, word: string, args: seq<Value>, row: Row)
    requires !Branches(Lex(k) + [Hole]) && !Neutral(Lex(k), 0, false)
    ensures Reads(Both(k, word), args, row.atom) == row.atom(Both(k, word), args)
  {
    var y, all := Lex(k) + [Hole], Both(k, word);
    NeutralWithHole(Lex(k), 0, false);
    ColumnIsFlat(word);
    CutSwallows(y, ColumnTokens(word), Or, 0, false);
    CutSwallows(y, ColumnTokens(word), And, 0, false);
    assert all[0] == y[0] && all[|all| - 1] == Hole;
  }

  lemma SwallowingUnsafe(k: string, word: string)
    requires IsOperator(k) && Closed(k) && IsColumn(word) && k != word
    requires !Branches(Lex(k) + [Hole]) && !Neutral(Lex(k), 0, false)
    ensures !Safe(k)
  {
    var v := Int(0);
    var row := Shorter(|Both(k, word)|);
    OperatorAdds(k, v);
    TwoAreBeside(k, word, v);
    TwoDecide(row, k, word, v);
    SwallowedRead(k, word, [v, v], row);
    NotSafe(row, [(k, v), (word, v)], k);
  }

  // ----- A key with a hole of its own

  /** A row of which only comparisons with one argument are true. */
  const ONE_ARGUMENT := Row((ts, args) => |args| == 1, (col, v) => false)

  lemma CutAfter(ts: seq<Token>, word: string)
    requires Neutral(ts, 0, false)
    ensures var all := ts + ([AND_TOKEN] + ColumnTokens(word));
            Cut(all, Or, 0, false) == |all| && Cut(all, And, 0, false) == |ts|
  {
    var rest := [AND_TOKEN] + ColumnTokens(word);
    ColumnIsFlat(word);
    AndIsAnd();
    assert rest[1..] == ColumnTokens(word);
    CutFlat(ColumnTokens(word), Or, 0, false);
    CutNeutral(ts, rest, Or, 0, false);
    CutNeutral(ts, rest, And, 0, false);
  }

  lemma HoledRead(k: string, word: string, v: Value)
    requires Atomic(Lex(k)) && Holes(Lex(k)) > 0
    ensures !Reads(Both(k, word), [v, v], ONE_ARGUMENT.atom)
  {
    var y, all := Lex(k) + [Hole], Both(k, word);
    NeutralWithHole(Lex(k), 0, false);
    HolesConcat(Lex(k), [Hole]);
    CutAfter(y, word);
    assert all[..|y|] == y && [v, v][..2] == [v, v];
    ReadsAtomic(y, [v, v], ONE_ARGUMENT.atom);
  }

  lemma HoledUnsafe(k: string, word: string)
    requires IsOperator(k) && Closed(k) && Atomic(Lex(k)) && Holes(Lex(k)) > 0 && IsColumn(word) && k != word
    ensures !Safe(k)
  {
    var v := Int(0);
    OperatorAdds(k, v);
    TwoAreBeside(k, word, v);
    TwoDecide(ONE_ARGUMENT, k, word, v);
    HoledRead(k, word, v);
    NotSafe(ONE_ARGUMENT, [(k, v), (word, v)], k);
  }

  // ----- The condition is exact

  lemma IdIsColumn()
    ensures IsColumn("id")
  {
    assert "id"[0] == 'i' && "id"[1] == 'd';
  }

  /** A key that is not atomic is cut or negated, or swallows the AND after it. */
  lemma NotAtomic(ts: seq<Token>)
    requires !Atomic(ts)
    ensures Branches(ts + [Hole]) || !Neutral(ts, 0, false)
  {
    assert ts != [] ==> (ts + [Hole])[0] == ts[0];
  }

  lemma OperatorExactly(k: string)
    requires IsOperator(k) && !KeyReadable(k)
    ensures !Safe(k)
  {
    IdIsColumn();
    ColumnKey("id", Int(0));
    OperatorReadable(k);
    if !Closed(k) {
      OpenUnsafe(k);
    } else if Branches(Lex(k) + [Hole]) {
      BranchingUnsafe(k);
    } else if !Atomic(Lex(k)) {
      NotAtomic(Lex(k));
      SwallowingUnsafe(k, "id");
    } else {
      HoledUnsafe(k, "id");
    }
  }

  lemma NameExactly(k: string)
    requires Lowered(k) && KindOf(k).KColumn? && !IsOperator(k) && !KeyReadable(k)
    ensures !Safe(k)
  {
    var item: Item := (k, Int(0));
    ToLowerFixesLowered(k);
    if |Fields(k)| == 1 && '`' in k {
      var j := FieldsHold(k, '`');
      BackquoteLost(item, OneField(k), Fields(k)[0]);
    } else if |Fields(k)| == 1 {
      BlankLost(k);
    } else {
      BackquoteLost(item, Like(Fields(k)[0]), Fields(k)[0]);
    }
  }

  /** A key keeps its meaning in every map, beside any readable keys, if and only if it is
      readable. */
  lemma {:induction false} SafeExactly(k: string)
    requires Lowered(k) && KindOf(k).KColumn?
    ensures Safe(k) <==> KeyReadable(k)
  {
    if KeyReadable(k) {
      SafeIfReadable(k);
    } else if IsOperator(k) {
      OperatorExactly(k);
    } else {
      NameExactly(k);
    }
  }

  lemma BlankBefore(word: string)
    requires Spaceless(word)
    ensures Fields(" " + word) == [word] && KindOf(" " + word).KColumn?
  {
    OneFieldKey(word);
    assert (" " + word)[1..] == word && (" " + word)[0] == ' ';
  }

  /** A column's name after a blank never keeps its meaning: the blank is quoted with it, and
      another column is looked up. */
  lemma {:induction false} BlankNameUnsafe(word: string)
    requires Spaceless(word) && Lowered(word)
    ensures Fields(" " + word) == [word] && !Safe(" " + word)
  {
    BlankBefore(word);
    SafeExactly(" " + word);
  }

  /** For a key of two plain words: neither joins or negates, or they are "between and". */
  lemma {:induction false} OperatorKeysExactly(col: string, op: string)
    requires IsOperatorKey(col, op)
    ensures Safe(OperatorKey(col, op)) <==> WordsJoinNothing(col, op)
  {
    PlainOperatorReadable(col, op, Int(0));
    SafeExactly(OperatorKey(col, op));
  }

  lemma BetweenAndWords()
    ensures WordsJoinNothing("between", "and")
  {
    assert ToLower("between") == "between" && ToLower("and") == "and";
    assert ToLower("between")[0] == 'b' && ToLower("and")[0] == 'a';
    assert "or"[0] == 'o' && "not"[0] == 'n';
  }

  lemma BetweenAndIsKey()
    ensures IsOperatorKey("between", "and")
  {
    var k := OperatorKey("between", "and");
    assert |k| == 11 && k[7] == ' ' && k[0] == 'b';
  }

  /** The one key of two joining words that is read as it is meant. */
  lemma {:induction false} BetweenAndIsSafe()
    ensures Safe(OperatorKey("between", "and"))
  {
    BetweenAndIsKey();
    BetweenAndWords();
    OperatorKeysExactly("between", "and");
  }
}

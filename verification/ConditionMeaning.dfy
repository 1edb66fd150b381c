/** The compiled query selects the rows that satisfy every entry of the condition map. */
module ConditionMeaning {
  import opened Text
  import opened Sql
  import opened Seqs
  import opened Conditions
  import ConditionOrder

  /** One row's view of the database: the truth of an atomic comparison, its holes filled,
      and of a membership. */
  datatype Row = Row(atom: (seq<Token>, seq<Value>) -> bool, member: (string, Value) -> bool)

  predicate Allows(row: Row, call: Call) {
    match call
    case In(col, v) => row.member(col, v)
    case NotIn(col, v) => !row.member(col, v)
    case Where(text, args) => text == "" || Reads(Lex(text), args, row.atom)
    case _ => true
  }

  /** A session selects the rows every call on it allows. */
  ghost predicate Selects(row: Row, calls: seq<Call>) {
    forall i :: 0 <= i < |calls| ==> Allows(row, calls[i])
  }

  /** What an entry of the map asks of a row: blanks around a column's name are no part of it. */
  predicate Asks(row: Row, item: Item) {
    var k := Key(item);
    var fields := Fields(k);
    match KindOf(k)
    case KWhere => TextOf(item.1) == "" || Reads(Lex(TextOf(item.1)), [], row.atom)
    case KColumn =>
      if |fields| == 1 then row.atom([Quoted("`" + fields[0] + "`"), Word("="), Hole], [item.1])
      else if |fields| != 2 then true
      else if fields[1] == "in" then row.member(fields[0], item.1)
      else if fields[1] == "notin" then !row.member(fields[0], item.1)
      else if fields[1] == "like" then row.atom([Quoted("`" + fields[0] + "`"), Word("like"), Hole], [item.1])
      else row.atom(Lex(k) + [Hole], [item.1])
    case _ => true
  }

  /** Keys that cannot be misread: no backquote where the compiler adds them, no blank around a
      name that is the whole key, and an operator
      key that closes its quotes, its parentheses and its BETWEEN, is cut by no top-level AND or
      OR, begins with no NOT and holds no hole. */
  predicate KeyReadable(k: string) {
    var fields := Fields(k);
    if |fields| == 1 then k == fields[0] && '`' !in k
    else if |fields| != 2 || fields[1] == "in" || fields[1] == "notin" then true
    else if fields[1] == "like" then '`' !in fields[0]
    else Closed(k) && Atomic(Lex(k)) && Holes(Lex(k)) == 0
  }

  /** An entry that adds a readable clause or none; a statement given as a whole, which leaves no
      use for conditions, is not one. */
  predicate Readable(item: Item) {
    !ItemKind(item).KSql? && (ItemKind(item).KColumn? ==> KeyReadable(Key(item)))
  }

  /** A raw condition that stands by itself: quotes closed, parentheses matched, no hole. */
  predicate Standalone(raw: string) {
    Closed(raw) && Balanced(Lex(raw)) && Holes(Lex(raw)) == 0
  }

  // ----- Each clause

  /** A clause is read as one atomic comparison with one hole. */
  ghost predicate Clean(text: string) {
    Closed(text) && Clause(Lex(text)) && text != "" && !IsWordChar(text[|text| - 1])
  }

  lemma LexOne(s: string)
    requires s != "" && First(s) == |s|
    ensures Lex(s) == TokenOf(s) && (!IsQuote(s[0]) ==> Closed(s))
  {
    assert s[..|s|] == s && s[|s|..] == "";
  }

  lemma {:induction false} FindAbsent(s: string, c: char)
    requires c !in s
    ensures Find(s + [c], c) == |s|
  {
    if s != "" {
      assert (s + [c])[1..] == s[1..] + [c];
      FindAbsent(s[1..], c);
    }
  }

  lemma QuoteEndOf(s: string)
    requires '`' !in s
    ensures QuoteEnd("`" + s + "`") == |s| + 2 && '`' in ("`" + s + "`")[1..]
  {
    var q := "`" + s + "`";
    assert q[1..] == s + "`";
    FindAbsent(s, '`');
    assert q[1..][|s|] == '`';
  }

  lemma LexQuoted(s: string)
    requires '`' !in s
    ensures Lex("`" + s + "`") == [Quoted("`" + s + "`")] && Closed("`" + s + "`")
  {
    QuoteEndOf(s);
    LexWhole("`" + s + "`");
  }

  lemma LexWhole(q: string)
    requires q != "" && IsQuote(q[0]) && QuoteEnd(q) == |q| && q[0] in q[1..]
    ensures Lex(q) == [Quoted(q)] && Closed(q)
  {
    var n := First(q);
    assert n == |q| && !IsSpace(q[0]);
    var whole, rest := q[..n], q[n..];
    assert whole == q && rest == "";
    assert TokenOf(whole) == [Quoted(whole)];
    assert Lex(rest) == [] && Closed(rest);
  }

  lemma LexBlank()
    ensures Closed(" ") && Lex(" ") == []
  {
    LexOne(" ");
  }

  lemma LexHole()
    ensures Closed("?") && Lex("?") == [Hole]
  {
    LexOne("?");
  }

  lemma LexTail()
    ensures Closed(" ?") && Lex(" ?") == [Hole]
  {
    LexBlank();
    LexHole();
    LexConcat(" ", "?");
    assert " " + "?" == " ?";
  }

  /** A text, then a blank and a hole. */
  lemma LexBeforeTail(s: string)
    requires Closed(s)
    ensures Closed(s + " ?") && Lex(s + " ?") == Lex(s) + [Hole]
  {
    LexTail();
    LexConcat(s, " ?");
  }

  /** A blank before a text changes nothing. */
  lemma LexAfterBlank(s: string)
    requires Closed(s)
    ensures Closed(" " + s) && Lex(" " + s) == Lex(s)
  {
    LexBlank();
    LexConcat(" ", s);
  }

  ghost predicate IsOneWord(word: string) {
    word != "" && forall i :: 0 <= i < |word| ==> IsWordChar(word[i])
  }

  lemma LexWord(word: string)
    requires IsOneWord(word)
    ensures Closed(word) && Lex(word) == [Word(word)]
  {
    LexOne(word);
  }

  lemma LexRest(word: string)
    requires IsOneWord(word)
    ensures var rest := " " + (word + " ?");
            Closed(rest) && Lex(rest) == [Word(word), Hole] && rest[|rest| - 1] == '?' && rest[0] == ' '
  {
    LexWord(word);
    LexBeforeTail(word);
    LexAfterBlank(word + " ?");
  }

  lemma CleanNamed(text: string, q: string, word: string)
    requires Closed(text) && Lex(text) == [Quoted(q), Word(word), Hole] && !IsReserved(Word(word))
    requires text != "" && text[|text| - 1] == '?'
    ensures Clean(text)
  {
    ThreeTokens(Quoted(q), Word(word));
  }

  /** A quoted name and the rest of its clause. */
  lemma LexNamed(q: string, rest: string, word: string)
    requires Closed(q) && Lex(q) == [Quoted(q)]
    requires Closed(rest) && Lex(rest) == [Word(word), Hole] && rest != "" && rest[0] == ' '
    ensures Closed(q + rest) && Lex(q + rest) == [Quoted(q), Word(word), Hole]
  {
    LexConcat(q, rest);
  }

  lemma QuotedClause(s: string, word: string)
    requires '`' !in s && IsOneWord(word) && !IsReserved(Word(word))
    ensures var text := "`" + s + "`" + (" " + (word + " ?"));
            Clean(text) && Lex(text) == [Quoted("`" + s + "`"), Word(word), Hole]
  {
    LexQuoted(s);
    LexRest(word);
    var q, rest := "`" + s + "`", " " + (word + " ?");
    LexNamed(q, rest, word);
    LastOfConcat(q, rest);
    CleanNamed(q + rest, q, word);
  }

  lemma ThreeTokens(a: Token, b: Token)
    requires a.Quoted? && b.Word? && !IsReserved(b)
    ensures Clause([a, b, Hole])
  {
    assert [a, b, Hole][1..] == [b, Hole] && [b, Hole][1..] == [Hole] && [Hole][1..] == [];
    assert Holes([Hole]) == 1;
    assert Holes([b, Hole]) == 1;
  }

  lemma PlainWords()
    ensures IsOneWord("=") && !IsReserved(Word("="))
    ensures IsOneWord("like") && !IsReserved(Word("like"))
  {
    assert |ToLower("=")| == 1;
    assert ToLower("like")[0] == 'l';
  }

  lemma ClauseWithHole(ts: seq<Token>)
    requires Atomic(ts) && Holes(ts) == 0
    ensures Clause(ts + [Hole])
  {
    HolesConcat(ts, [Hole]);
    NeutralWithHole(ts, 0, false);
  }

  lemma OperatorClause(k: string)
    requires Closed(k) && Atomic(Lex(k)) && Holes(Lex(k)) == 0
    ensures Clean(Operator(k)) && Lex(Operator(k)) == Lex(k) + [Hole]
  {
    ClauseWithHole(Lex(k));
    LexBeforeTail(k);
    LastOfConcat(k, " ?");
  }

  lemma OneFieldText(k: string)
    ensures OneField(k) == "`" + k + "`" + (" " + ("=" + " ?"))
  {
  }

  lemma LikeText(col: string)
    ensures Like(col) == "`" + col + "`" + (" " + ("like" + " ?"))
  {
  }

  /** The tokens an item's clause must be read as. */
  function TokensOf(item: Item): seq<Token> {
    var k := Key(item);
    var fields := Fields(k);
    if |fields| == 1 then [Quoted("`" + fields[0] + "`"), Word("="), Hole]
    else if |fields| == 2 && fields[1] == "like" then [Quoted("`" + fields[0] + "`"), Word("like"), Hole]
    else Lex(k) + [Hole]
  }

  lemma ClauseTokens(item: Item)
    requires Readable(item) && ClauseOf(item).Some?
    ensures Clean(ClauseOf(item).value.0) && Lex(ClauseOf(item).value.0) == TokensOf(item)
  {
    var k := Key(item);
    var fields := Fields(k);
    PlainWords();
    if |fields| == 1 {
      QuotedClause(k, "=");
      OneFieldText(k);
    } else if fields[1] == "like" {
      QuotedClause(fields[0], "like");
      LikeText(fields[0]);
    } else {
      OperatorClause(k);
    }
  }

  // ----- The joined text

  function LexAll(texts: seq<string>): seq<seq<Token>> {
    seq(|texts|, i requires 0 <= i < |texts| => Lex(texts[i]))
  }

  ghost predicate AllClean(texts: seq<string>) {
    forall i :: 0 <= i < |texts| ==> Clean(texts[i])
  }

  lemma LexSeparator()
    ensures Closed(" AND ") && Lex(" AND ") == [AND_TOKEN]
  {
    LexTrailingBlank("AND");
    SeparatorSpelled();
  }

  lemma SeparatorSpelled()
    ensures " " + ("AND" + " ") == " AND "
  {
  }

  lemma LexTrailingBlank(word: string)
    requires IsOneWord(word)
    ensures Closed(" " + (word + " ")) && Lex(" " + (word + " ")) == [Word(word)]
  {
    LexWord(word);
    LexBlank();
    LexConcat(word, " ");
    LexAfterBlank(word + " ");
  }

  lemma LexAnd(left: string, right: string)
    requires Closed(left) && left != ""
    ensures Lex(left + (" AND " + right)) == Lex(left) + ([AND_TOKEN] + Lex(right))
  {
    LexSeparator();
    LexConcat(" AND ", right);
    LexConcat(left, " AND " + right);
  }

  lemma {:induction false} LexJoined(texts: seq<string>)
    requires texts != [] && AllClean(texts)
    ensures Lex(Join(texts, " AND ")) == Conjoined(LexAll(texts)) && Join(texts, " AND ") != ""
  {
    if |texts| > 1 {
      assert LexAll(texts)[1..] == LexAll(texts[1..]);
      LexJoined(texts[1..]);
      assert Clean(texts[0]);
      LexAnd(texts[0], Join(texts[1..], " AND "));
    } else {
      assert LexAll(texts) == [Lex(texts[0])];
      assert Clean(texts[0]);
    }
  }

  lemma CleanClauses(texts: seq<string>)
    requires AllClean(texts)
    ensures Clauses(LexAll(texts))
  {
    forall i | 0 <= i < |texts| ensures Clause(LexAll(texts)[i]) {
      assert Clean(texts[i]);
    }
  }

  lemma LexBracketed(raw: string)
    requires Closed(raw)
    ensures Closed("(" + raw + ")") && Lex("(" + raw + ")") == Bracket(Lex(raw))
  {
    LexOne("(");
    LexOne(")");
    LexConcat(raw, ")");
    LexConcat("(", raw + ")");
    assert "(" + (raw + ")") == "(" + raw + ")";
    assert [Open] + (Lex(raw) + [Close]) == Bracket(Lex(raw));
  }

  lemma SplitText(raw: string, strs: string)
    ensures "(" + raw + ") AND " + strs == "(" + raw + ")" + (" AND " + strs)
  {
  }

  lemma GuardedText(raw: string, texts: seq<string>)
    requires raw != "" && Closed(raw) && texts != [] && AllClean(texts)
    ensures WhereText(raw, texts) != ""
    ensures Lex(WhereText(raw, texts)) == Bracket(Lex(raw)) + ([AND_TOKEN] + Conjoined(LexAll(texts)))
  {
    LexJoined(texts);
    var strs := Join(texts, " AND ");
    LexBracketed(raw);
    LexAnd("(" + raw + ")", strs);
    SplitText(raw, strs);
  }

  /** The WHERE text with its arguments says: the raw condition, and every clause. */
  lemma {:induction false} WhereReads(raw: string, clauses: seq<(string, Value)>, row: Row)
    requires raw == "" || Standalone(raw)
    requires AllClean(Texts(clauses))
    ensures var text := WhereText(raw, Texts(clauses));
            && Holes(Lex(text)) == |Args(clauses)|
            && ((text == "" || Reads(Lex(text), Args(clauses), row.atom))
                <==> (raw == "" || Reads(Lex(raw), [], row.atom))
                     && forall i :: 0 <= i < |clauses| ==> row.atom(Lex(clauses[i].0), [clauses[i].1]))
  {
    var texts, args := Texts(clauses), Args(clauses);
    var tokens := LexAll(texts);
    assert forall i :: 0 <= i < |clauses| ==> tokens[i] == Lex(clauses[i].0) && args[i] == clauses[i].1;
    if clauses == [] {
      assert args == [];
    } else if raw == "" {
      CleanClauses(texts);
      LexJoined(texts);
      ConjoinedHoles(tokens);
      ReadsConjoined(tokens, args, row.atom);
    } else {
      CleanClauses(texts);
      GuardedText(raw, texts);
      GuardedHoles(Lex(raw), tokens);
      ReadsGuarded(Lex(raw), tokens, args, row.atom);
    }
  }

  lemma GuardedHoles(guard: seq<Token>, clauses: seq<seq<Token>>)
    requires Balanced(guard) && Holes(guard) == 0 && clauses != [] && Clauses(clauses)
    ensures Holes(Bracket(guard) + ([AND_TOKEN] + Conjoined(clauses))) == |clauses|
  {
    GuardUncut(guard, clauses);
    ConjoinedHoles(clauses);
    HolesConcat([AND_TOKEN], Conjoined(clauses));
    HolesConcat(Bracket(guard), [AND_TOKEN] + Conjoined(clauses));
  }

  // ----- The whole map

  predicate CallAllows(row: Row, item: Item) {
    CallOf(item).Some? ==> Allows(row, CallOf(item).value)
  }

  predicate ClauseHolds(row: Row, item: Item) {
    ClauseOf(item).Some? ==> row.atom(TokensOf(item), [item.1])
  }

  predicate RawHolds(row: Row, item: Item) {
    ItemKind(item).KWhere? ==> TextOf(item.1) == "" || Reads(Lex(TextOf(item.1)), [], row.atom)
  }

  function CallPart(row: Row): Item -> bool { item => CallAllows(row, item) }

  function ClausePart(row: Row): Item -> bool { item => ClauseHolds(row, item) }

  function RawPart(row: Row): Item -> bool { item => RawHolds(row, item) }

  lemma ColumnAsksInParts(row: Row, item: Item)
    requires ItemKind(item).KColumn?
    ensures Asks(row, item) <==> CallAllows(row, item) && ClauseHolds(row, item)
  {
  }

  lemma AsksInParts(row: Row, item: Item)
    ensures Asks(row, item) <==> CallAllows(row, item) && ClauseHolds(row, item) && RawHolds(row, item)
  {
    if ItemKind(item).KColumn? {
      ColumnAsksInParts(row, item);
    }
  }

  lemma OneCall(row: Row, item: Item)
    ensures Selects(row, Maybe(CallOf(item))) <==> CallPart(row)(item)
  {
    var calls := Maybe(CallOf(item));
    assert |calls| > 0 ==> Allows(row, calls[0]) == CallAllows(row, item);
  }

  lemma {:induction false} CallsSelect(row: Row, order: seq<Item>)
    ensures Selects(row, CallsMade(order)) <==> Each(order, CallPart(row))
  {
    if order != [] {
      var m := |order| - 1;
      CallsSelect(row, order[..m]);
      SelectsConcat(row, CallsMade(order[..m]), Maybe(CallOf(order[m])));
      OneCall(row, order[m]);
      SplitLastItem(order, CallPart(row));
    }
  }

  lemma SelectsConcat(row: Row, a: seq<Call>, b: seq<Call>)
    ensures Selects(row, a + b) <==> Selects(row, a) && Selects(row, b)
  {
    assert forall i :: 0 <= i < |b| ==> b[i] == (a + b)[|a| + i];
    assert forall i :: 0 <= i < |a| ==> a[i] == (a + b)[i];
  }

  ghost predicate Each(order: seq<Item>, p: Item -> bool) {
    forall i :: 0 <= i < |order| ==> p(order[i])
  }

  lemma SplitLastItem(order: seq<Item>, p: Item -> bool)
    requires order != []
    ensures Each(order, p) <==> Each(order[..|order| - 1], p) && p(order[|order| - 1])
  {
    var front := order[..|order| - 1];
    assert forall i :: 0 <= i < |front| ==> front[i] == order[i];
  }

  ghost predicate ClausesHold(row: Row, clauses: seq<(string, Value)>) {
    forall i :: 0 <= i < |clauses| ==> row.atom(Lex(clauses[i].0), [clauses[i].1])
  }

  lemma ClausesHoldConcat(row: Row, a: seq<(string, Value)>, b: seq<(string, Value)>)
    ensures ClausesHold(row, a + b) <==> ClausesHold(row, a) && ClausesHold(row, b)
    ensures AllClean(Texts(a)) && AllClean(Texts(b)) ==> AllClean(Texts(a + b))
  {
    assert Texts(a + b) == Texts(a) + Texts(b);
    assert forall i :: 0 <= i < |b| ==> b[i] == (a + b)[|a| + i];
    assert forall i :: 0 <= i < |a| ==> a[i] == (a + b)[i];
  }

  lemma ClauseArgument(item: Item)
    requires ClauseOf(item).Some?
    ensures ClauseOf(item).value.1 == item.1
  {
  }

  lemma OneText(row: Row, text: string, v: Value)
    ensures ClausesHold(row, [(text, v)]) <==> row.atom(Lex(text), [v])
    ensures Clean(text) ==> AllClean(Texts([(text, v)]))
  {
    assert [(text, v)][0] == (text, v);
  }

  lemma OneClause(row: Row, item: Item)
    requires Readable(item)
    ensures ClausesHold(row, Maybe(ClauseOf(item))) <==> ClauseHolds(row, item)
    ensures AllClean(Texts(Maybe(ClauseOf(item))))
  {
    var clause := ClauseOf(item);
    if clause.Some? {
      ClauseTokens(item);
      ClauseArgument(item);
      OneText(row, clause.value.0, clause.value.1);
    }
  }

  lemma {:induction false} ClausesSelect(row: Row, begin: Walk, order: seq<Item>, isOrder: bool)
    requires begin.clauses == [] && forall i :: 0 <= i < |order| ==> Readable(order[i])
    ensures ClausesHold(row, After(begin, order, isOrder).clauses)
        <==> Each(order, ClausePart(row))
    ensures AllClean(Texts(After(begin, order, isOrder).clauses))
  {
    if order != [] {
      var m := |order| - 1;
      ClausesSelect(row, begin, order[..m], isOrder);
      ClausesHoldConcat(row, After(begin, order[..m], isOrder).clauses, Maybe(ClauseOf(order[m])));
      OneClause(row, order[m]);
      SplitLastItem(order, ClausePart(row));
    }
  }

  lemma RawSelects(row: Row, order: seq<Item>)
    requires ConditionOrder.DistinctKeys(order)
    ensures var raw := ConditionOrder.WhereOf(order);
            (raw == "" || Reads(Lex(raw), [], row.atom)) <==> Each(order, RawPart(row))
  {
    var raw := ConditionOrder.WhereOf(order);
    if ConditionOrder.Setting(order, KWhere).Some? {
      var i := ConditionOrder.SettingFound(order, KWhere);
      assert RawHolds(row, order[i]) <==> (raw == "" || Reads(Lex(raw), [], row.atom));
    }
    forall i | 0 <= i < |order| && (raw == "" || Reads(Lex(raw), [], row.atom)) ensures RawHolds(row, order[i]) {
      if ItemKind(order[i]).KWhere? {
        ConditionOrder.SettingMet(order, KWhere, i);
      }
    }
  }

  /** Ordering and paging allow every row. */
  ghost predicate AllowAll(row: Row, calls: seq<Call>) {
    forall i :: 0 <= i < |calls| ==> Allows(row, calls[i])
  }

  lemma ConditionAlone(row: Row, text: string, args: seq<Value>, ordering: seq<Call>, limit: seq<Call>)
    requires AllowAll(row, ordering) && AllowAll(row, limit)
    ensures Selects(row, [Where(text, args)] + ordering + limit)
        <==> text == "" || Reads(Lex(text), args, row.atom)
  {
    var condition := Where(text, args);
    SelectsConcat(row, [condition] + ordering, limit);
    SelectsConcat(row, [condition], ordering);
    assert [condition][0] == condition;
  }

  lemma FinishSelects(row: Row, w: Walk)
    ensures Selects(row, Finish(w))
        <==> (var text := WhereText(w.where_, Texts(w.clauses));
              text == "" || Reads(Lex(text), Args(w.clauses), row.atom))
  {
    var ordering := if w.orderby != "" then [OrderBy(w.orderby)] else [];
    ConditionAlone(row, WhereText(w.where_, Texts(w.clauses)), Args(w.clauses), ordering, LimitOf(w));
  }

  /** The condition map says what it means: whatever the iteration order, the calls made on the
      session select exactly the rows that every entry of the map asks for, and the WHERE text
      has one hole for each argument. */
  lemma {:induction false} MeaningPreserved(row: Row, order: seq<Item>, autoIncr: string, isOrder: bool, isPaging: bool)
    requires ConditionOrder.DistinctKeys(order) && forall i :: 0 <= i < |order| ==> Readable(order[i])
    requires ConditionOrder.WhereOf(order) == "" || Standalone(ConditionOrder.WhereOf(order))
    ensures var w := After(Begin(autoIncr, isOrder, isPaging), order, isOrder);
            && (Selects(row, Compiled(order, autoIncr, isOrder, isPaging))
                <==> forall i :: 0 <= i < |order| ==> Asks(row, order[i]))
            && Holes(Lex(WhereText(w.where_, Texts(w.clauses)))) == |Args(w.clauses)|
  {
    var begin := Begin(autoIncr, isOrder, isPaging);
    var w := After(begin, order, isOrder);
    SelectsConcat(row, [Table] + CallsMade(order), Finish(w));
    SelectsConcat(row, [Table], CallsMade(order));
    CallsSelect(row, order);
    ClausesSelect(row, begin, order, isOrder);
    ConditionOrder.WalkFilters(begin, order, isOrder);
    RawSelects(row, order);
    FinishSelects(row, w);
    WhereReads(w.where_, w.clauses, row);
    Combine(row, order);
  }

  lemma Combine(row: Row, order: seq<Item>)
    ensures (forall i :: 0 <= i < |order| ==> Asks(row, order[i]))
        <==> Each(order, CallPart(row)) && Each(order, ClausePart(row))
             && Each(order, RawPart(row))
  {
    forall i | 0 <= i < |order|
      ensures Asks(row, order[i])
          <==> CallAllows(row, order[i]) && ClauseHolds(row, order[i]) && RawHolds(row, order[i])
    {
      AsksInParts(row, order[i]);
    }
  }
}

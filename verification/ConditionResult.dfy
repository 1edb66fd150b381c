/** What the calls left on the session make of a table, against what the map's entries ask for. */
module ConditionResult {
  import opened Options
  import opened Seqs
  import opened Text
  import opened Conditions
  import opened ConditionMeaning
  import opened ConditionOrder

  // ----- What a session has been told, apart from its conditions

  datatype Query = Query(
    grouping: string,
    having: string,
    selection: string,
    distinct: string,
    locked: bool,
    cols: seq<string>,
    mustCols: seq<string>,
    omitted: seq<string>,
    allCols: bool,
    statement: Option<Value>,
    ordering: string,
    limit: Option<(int, int)>)

  const BLANK := Query("", "", "", "", false, [], [], [], false, None, "", None)

  function Told(q: Query, call: Call): Query {
    match call
    case Table => q
    case GroupBy(s) => q.(grouping := s)
    case Having(s) => q.(having := s)
    case SQL(v) => q.(statement := Some(v))
    case Select(s) => q.(selection := s)
    case Distinct(s) => q.(distinct := s)
    case ForUpdate => q.(locked := true)
    case Cols(ss) => q.(cols := q.cols + ss)
    case MustCols(ss) => q.(mustCols := q.mustCols + ss)
    case Omit(ss) => q.(omitted := q.omitted + ss)
    case AllCols => q.(allCols := true)
    case In(_, _) => q
    case NotIn(_, _) => q
    case Where(_, _) => q
    case OrderBy(s) => q.(ordering := s)
    case Limit(limit, start) => q.(limit := Some((limit, start)))
  }

  function QueryOf(calls: seq<Call>): Query {
    if calls == [] then BLANK else Told(QueryOf(calls[..|calls| - 1]), calls[|calls| - 1])
  }

  // ----- What the map asks for, key by key

  /** The value under a key, whatever its letter case. */
  function At(order: seq<Item>, name: string): Option<Value> {
    if order == [] then None
    else if ToLower(order[|order| - 1].0) == name then Some(order[|order| - 1].1)
    else At(order[..|order| - 1], name)
  }

  /** What a map holds under each of its keys. */
  type Entries = string -> Option<Value>

  function EntriesOf(order: seq<Item>): Entries { name => At(order, name) }

  function TextAt(held: Entries, name: string): string {
    if held(name).Some? && held(name).value.Str? then held(name).value.s else ""
  }

  function ListAt(held: Entries, name: string): seq<string> {
    if held(name).Some? && held(name).value.Strs? then held(name).value.ss else []
  }

  function NumberAt(held: Entries, name: string): int {
    if held(name).Some? then Number(held(name).value) else 0
  }

  /** The page asked for, the first by default, and its size, 1000 by default. */
  function AskedPage(held: Entries): int {
    if NumberAt(held, "page") > 1 then NumberAt(held, "page") else 1
  }

  function AskedSize(held: Entries): int {
    if NumberAt(held, "pagesize") > 0 then NumberAt(held, "pagesize") else 1000
  }

  function AskedOrdering(held: Entries, autoIncr: string, isOrder: bool): string {
    if !isOrder then ""
    else if held("orderby").Some? then TextAt(held, "orderby")
    else if autoIncr != "" then autoIncr + " desc"
    else ""
  }

  function AskedLimit(held: Entries, isPaging: bool): Option<(int, int)> {
    if !isPaging || held("nolimit").Some? then None
    else Some((AskedSize(held), Wrap64((AskedPage(held) - 1) * AskedSize(held))))
  }

  function AskedSettings(held: Entries): Query {
    Query(
      TextAt(held, "groupby"), TextAt(held, "having"), TextAt(held, "select"), TextAt(held, "distinct"),
      held("forupdate").Some?, ListAt(held, "cols"), ListAt(held, "mustcols"), ListAt(held, "omit"),
      held("allcols").Some?, held("sql"), "", None)
  }

  function Asked(held: Entries, autoIncr: string, isOrder: bool, isPaging: bool): Query {
    AskedSettings(held).(
      ordering := AskedOrdering(held, autoIncr, isOrder), limit := AskedLimit(held, isPaging))
  }

  // ----- The calls tell the session what the map asks for

  type Settings = Kind -> Option<Value>

  function TextIn(given: Settings, kind: Kind): string {
    if given(kind).Some? then TextOf(given(kind).value) else ""
  }

  function ListIn(given: Settings, kind: Kind): seq<string> {
    if given(kind).Some? then ListOf(given(kind).value) else []
  }

  /** What the walk tells the session of the settings it has met. */
  function ToldBy(given: Settings): Query {
    Query(
      TextIn(given, KGroupBy), TextIn(given, KHaving), TextIn(given, KSelect), TextIn(given, KDistinct),
      given(KForUpdate).Some?, ListIn(given, KCols), ListIn(given, KMustCols), ListIn(given, KOmit),
      given(KAllCols).Some?, given(KSql), "", None)
  }

  function SettingsOf(order: seq<Item>): Settings { kind => Setting(order, kind) }

  lemma KindNamed(kind: Kind)
    requires !kind.KColumn?
    ensures KindOf(NameOf(kind)) == kind
  {
  }

  /** The names of the settings; any other key names a column. */
  lemma {:induction false} SettingNames(k: string)
    ensures KindOf(k).KColumn?
            <==> k !in ["nolimit", "orderby", "groupby", "having", "page", "pagesize", "where", "sql", "select",
                        "distinct", "forupdate", "cols", "mustcols", "omit", "allcols"]
    ensures KindOf(k).KWhere? <==> k == "where"
  {
    KindNamed(KWhere);
  }

  lemma {:induction false} AtIsSetting(order: seq<Item>, kind: Kind)
    requires !kind.KColumn?
    ensures At(order, NameOf(kind)) == Setting(order, kind)
  {
    if order != [] {
      KindNamed(kind);
      AtIsSetting(order[..|order| - 1], kind);
    }
  }

  lemma QueryOfMore(calls: seq<Call>, call: Call)
    ensures QueryOf(calls + [call]) == Told(QueryOf(calls), call)
  {
    assert (calls + [call])[..|calls|] == calls;
  }

  function ToldMore(q: Query, call: Option<Call>): Query {
    if call.Some? then Told(q, call.value) else q
  }

  /** One setting more. */
  ghost predicate OneMore(given: Settings, more: Settings, kind: Kind, v: Value) {
    given(kind).None? && forall k :: more(k) == if k == kind then Some(v) else given(k)
  }

  lemma GroupTells(given: Settings, more: Settings, kind: Kind, v: Value)
    requires OneMore(given, more, kind, v) && kind in {KGroupBy, KHaving}
    ensures ToldBy(more) == ToldMore(ToldBy(given), SettingCall(kind, v))
  {
  }

  lemma SelectTells(given: Settings, more: Settings, kind: Kind, v: Value)
    requires OneMore(given, more, kind, v) && kind in {KSelect, KDistinct}
    ensures ToldBy(more) == ToldMore(ToldBy(given), SettingCall(kind, v))
  {
  }

  lemma ListTells(given: Settings, more: Settings, kind: Kind, v: Value)
    requires OneMore(given, more, kind, v) && kind in {KCols, KMustCols, KOmit}
    ensures ToldBy(more) == ToldMore(ToldBy(given), SettingCall(kind, v))
  {
  }

  lemma FlagTells(given: Settings, more: Settings, kind: Kind, v: Value)
    requires OneMore(given, more, kind, v)
    requires kind !in {KGroupBy, KHaving, KSelect, KDistinct, KCols, KMustCols, KOmit, KColumn}
    ensures ToldBy(more) == ToldMore(ToldBy(given), SettingCall(kind, v))
  {
  }

  /** It tells the session that setting and leaves the others alone. */
  lemma SettingTells(given: Settings, more: Settings, kind: Kind, v: Value)
    requires OneMore(given, more, kind, v) && !kind.KColumn?
    ensures ToldBy(more) == ToldMore(ToldBy(given), SettingCall(kind, v))
  {
    if kind in {KGroupBy, KHaving} {
      GroupTells(given, more, kind, v);
    } else if kind in {KSelect, KDistinct} {
      SelectTells(given, more, kind, v);
    } else if kind in {KCols, KMustCols, KOmit} {
      ListTells(given, more, kind, v);
    } else {
      FlagTells(given, more, kind, v);
    }
  }

  lemma ColumnTells(q: Query, k: string, v: Value)
    ensures ToldMore(q, ColumnCall(k, v)) == q
  {
  }

  lemma SameTold(given: Settings, more: Settings)
    requires forall k: Kind :: !k.KColumn? ==> more(k) == given(k)
    ensures ToldBy(more) == ToldBy(given)
  {
  }

  lemma ToldByMore(order: seq<Item>)
    requires order != [] && DistinctKeys(order)
    ensures ToldBy(SettingsOf(order))
            == ToldMore(ToldBy(SettingsOf(order[..|order| - 1])), CallOf(order[|order| - 1]))
  {
    var front, last := order[..|order| - 1], order[|order| - 1];
    var kind := ItemKind(last);
    forall k ensures SettingsOf(order)(k) == if k == kind then Some(last.1) else SettingsOf(front)(k) {
    }
    if kind.KColumn? {
      SameTold(SettingsOf(front), SettingsOf(order));
      ColumnTells(ToldBy(SettingsOf(front)), Key(last), last.1);
    } else {
      SettingBefore(order, kind);
      SettingTells(SettingsOf(front), SettingsOf(order), kind, last.1);
    }
  }

  lemma CallsMore(calls: seq<Call>, more: seq<Call>, call: Option<Call>)
    ensures QueryOf(calls + (more + Maybe(call)))
            == ToldMore(QueryOf(calls + more), call)
  {
    if call.Some? {
      QueryOfMore(calls + more, call.value);
      assert calls + (more + [call.value]) == calls + more + [call.value];
    } else {
      assert more + [] == more;
    }
  }

  lemma {:induction false} WalkTells(order: seq<Item>)
    requires DistinctKeys(order)
    ensures QueryOf([Table] + CallsMade(order)) == ToldBy(SettingsOf(order))
  {
    if order == [] {
      assert [Table] + CallsMade(order) == [] + [Table];
      QueryOfMore([], Table);
    } else {
      var front := order[..|order| - 1];
      WalkTells(front);
      ToldByMore(order);
      CallsMore([Table], CallsMade(front), CallOf(order[|order| - 1]));
    }
  }

  lemma FinishParts(calls: seq<Call>, w: Walk)
    ensures calls + Finish(w)
            == calls + [Where(WhereText(w.where_, Texts(w.clauses)), Args(w.clauses))]
               + (if w.orderby != "" then [OrderBy(w.orderby)] else [])
               + LimitOf(w)
  {
  }

  lemma OrderingTells(calls: seq<Call>, s: string)
    requires QueryOf(calls).ordering == ""
    ensures QueryOf(calls + if s != "" then [OrderBy(s)] else []) == QueryOf(calls).(ordering := s)
  {
    if s != "" {
      QueryOfMore(calls, OrderBy(s));
    } else {
      assert calls + [] == calls;
    }
  }

  lemma LimitTells(calls: seq<Call>, paging: bool, limit: int, start: int)
    requires QueryOf(calls).limit == None
    ensures QueryOf(calls + if paging then [Limit(limit, start)] else [])
            == QueryOf(calls).(limit := if paging then Some((limit, start)) else None)
  {
    if paging {
      QueryOfMore(calls, Limit(limit, start));
    } else {
      assert calls + [] == calls;
    }
  }

  lemma FinishTells(calls: seq<Call>, condition: Call, s: string, paging: bool, limit: int, start: int)
    requires condition.Where? && QueryOf(calls).ordering == "" && QueryOf(calls).limit == None
    ensures QueryOf(calls + [condition] + (if s != "" then [OrderBy(s)] else [])
                    + (if paging then [Limit(limit, start)] else []))
            == QueryOf(calls).(ordering := s, limit := if paging then Some((limit, start)) else None)
  {
    QueryOfMore(calls, condition);
    OrderingTells(calls + [condition], s);
    LimitTells(calls + [condition] + (if s != "" then [OrderBy(s)] else []), paging, limit, start);
  }

  /** The settings by kind are the entries by name. */
  ghost predicate SameEntries(given: Settings, held: Entries) {
    forall kind: Kind :: !kind.KColumn? ==> given(kind) == held(NameOf(kind))
  }

  lemma EntriesAreSettings(order: seq<Item>)
    ensures SameEntries(SettingsOf(order), EntriesOf(order))
  {
    forall kind: Kind | !kind.KColumn? ensures SettingsOf(order)(kind) == EntriesOf(order)(NameOf(kind)) {
      AtIsSetting(order, kind);
    }
  }

  lemma ToldAsAsked(given: Settings, held: Entries)
    requires SameEntries(given, held)
    ensures ToldBy(given) == AskedSettings(held)
  {
  }

  lemma OrderedAsAsked(order: seq<Item>, autoIncr: string, isOrder: bool)
    ensures OrderByOf(order, autoIncr, isOrder) == AskedOrdering(EntriesOf(order), autoIncr, isOrder)
  {
    AtIsSetting(order, KOrderBy);
  }

  lemma PagedAsAsked(order: seq<Item>, isPaging: bool)
    ensures PagingOf(order, isPaging) == AskedLimit(EntriesOf(order), isPaging).Some?
    ensures PageOf(order) == AskedPage(EntriesOf(order)) && PageSizeOf(order) == AskedSize(EntriesOf(order))
  {
    AtIsSetting(order, KNoLimit);
    AtIsSetting(order, KPage);
    AtIsSetting(order, KPageSize);
  }

  /** Of a map whose keys are distinct after lower-casing, the calls tell the session the grouping,
      the selection, the columns, the locking, the statement, the ordering and the page that its
      entries ask for, and nothing else. */
  lemma {:induction false} QueryAsked(order: seq<Item>, autoIncr: string, isOrder: bool, isPaging: bool)
    requires DistinctKeys(order)
    ensures QueryOf(Compiled(order, autoIncr, isOrder, isPaging))
            == Asked(EntriesOf(order), autoIncr, isOrder, isPaging)
  {
    var w := After(Begin(autoIncr, isOrder, isPaging), order, isOrder);
    WalkTells(order);
    FinishParts([Table] + CallsMade(order), w);
    FinishTells(
      [Table] + CallsMade(order), Where(WhereText(w.where_, Texts(w.clauses)), Args(w.clauses)), w.orderby,
      w.paging, w.pageSize, Wrap64((w.page - 1) * w.pageSize));
    WalkOrders(order, autoIncr, isOrder, isPaging);
    WalkPages(Begin(autoIncr, isOrder, isPaging), order, isOrder);
    EntriesAreSettings(order);
    ToldAsAsked(SettingsOf(order), EntriesOf(order));
    OrderedAsAsked(order, autoIncr, isOrder);
    PagedAsAsked(order, isPaging);
  }

  /** A call that says something. */
  predicate Speaks(call: Call) {
    match call
    case GroupBy(s) => s != ""
    case Having(s) => s != ""
    case Select(s) => s != ""
    case Distinct(s) => s != ""
    case OrderBy(s) => s != ""
    case _ => true
  }

  lemma SettingSpeaks(kind: Kind, v: Value)
    ensures SettingCall(kind, v).Some? ==> Speaks(SettingCall(kind, v).value)
  {
  }

  lemma ColumnSpeaks(k: string, v: Value)
    ensures ColumnCall(k, v).Some? ==> Speaks(ColumnCall(k, v).value)
  {
  }

  lemma {:induction false} WalkSpeaks(order: seq<Item>)
    ensures forall call :: call in CallsMade(order) ==> Speaks(call)
  {
    if order != [] {
      var last := order[|order| - 1];
      WalkSpeaks(order[..|order| - 1]);
      SettingSpeaks(ItemKind(last), last.1);
      ColumnSpeaks(Key(last), last.1);
    }
  }

  /** No call is made with an empty text, apart from the condition. */
  lemma {:induction false} NoEmptyCalls(order: seq<Item>, autoIncr: string, isOrder: bool, isPaging: bool)
    ensures forall call :: call in Compiled(order, autoIncr, isOrder, isPaging) ==> Speaks(call)
  {
    WalkSpeaks(order);
  }

  // ----- The rows of the result

  /** What the database makes of the rows selected, by the query but for its limit. */
  type Database = (seq<Row>, Query) -> seq<Row>

  /** The rows of a table that all calls allow. */
  ghost function Selected(table: seq<Row>, calls: seq<Call>): seq<Row> {
    if table == [] then []
    else
      var last := table[|table| - 1];
      Selected(table[..|table| - 1], calls) + if Selects(last, calls) then [last] else []
  }

  /** The rows of a table that every entry of the map asks for. */
  ghost function Wanted(table: seq<Row>, order: seq<Item>): seq<Row> {
    if table == [] then []
    else
      var last := table[|table| - 1];
      Wanted(table[..|table| - 1], order)
      + if forall i :: 0 <= i < |order| ==> Asks(last, order[i]) then [last] else []
  }

  /** The window that a limit and a start leave; numbers below zero, which no database takes, leave
      nothing. */
  function Windowed(rows: seq<Row>, limit: Option<(int, int)>): seq<Row> {
    if limit.None? then rows
    else if limit.value.0 < 0 || limit.value.1 < 0 then []
    else Window(rows, limit.value.0, limit.value.1)
  }

  ghost function Result(db: Database, table: seq<Row>, calls: seq<Call>): seq<Row> {
    Windowed(db(Selected(table, calls), QueryOf(calls).(limit := None)), QueryOf(calls).limit)
  }

  /** A map that can be read: keys distinct after lower-casing, each of them readable. */
  ghost predicate ReadableMap(order: seq<Item>) {
    && DistinctKeys(order) && (forall i :: 0 <= i < |order| ==> Readable(order[i]))
    && (WhereOf(order) == "" || Standalone(WhereOf(order)))
  }

  lemma {:induction false} SelectedAsWanted(
      table: seq<Row>, order: seq<Item>, autoIncr: string, isOrder: bool, isPaging: bool)
    requires ReadableMap(order)
    ensures Selected(table, Compiled(order, autoIncr, isOrder, isPaging)) == Wanted(table, order)
  {
    if table != [] {
      SelectedAsWanted(table[..|table| - 1], order, autoIncr, isOrder, isPaging);
      MeaningPreserved(table[|table| - 1], order, autoIncr, isOrder, isPaging);
    }
  }

  /** What a readable map asks of a table: of the rows every entry asks for, grouped, selected and
      ordered as asked, the page asked for. */
  ghost function Answer(db: Database, table: seq<Row>, order: seq<Item>, autoIncr: string, isOrder: bool,
      isPaging: bool): seq<Row>
  {
    var q := Asked(EntriesOf(order), autoIncr, isOrder, isPaging);
    Windowed(db(Wanted(table, order), q.(limit := None)), q.limit)
  }

  /** The calls left on the session give that answer, whatever the iteration order. */
  lemma {:induction false} ResultAsked(
      db: Database, table: seq<Row>, order: seq<Item>, autoIncr: string, isOrder: bool, isPaging: bool)
    requires ReadableMap(order)
    ensures Result(db, table, Compiled(order, autoIncr, isOrder, isPaging))
            == Answer(db, table, order, autoIncr, isOrder, isPaging)
  {
    QueryAsked(order, autoIncr, isOrder, isPaging);
    SelectedAsWanted(table, order, autoIncr, isOrder, isPaging);
  }

  // ----- The pages of one map

  /** Entries that ask nothing of a row. */
  lemma PageAsksNothing(row: Row, item: Item)
    requires ItemKind(item) in {KPage, KNoLimit}
    ensures Asks(row, item)
  {
  }

  lemma {:induction false} WantedMore(table: seq<Row>, order: seq<Item>, item: Item)
    requires ItemKind(item) in {KPage, KNoLimit}
    ensures Wanted(table, order + [item]) == Wanted(table, order)
  {
    if table != [] {
      var last := table[|table| - 1];
      WantedMore(table[..|table| - 1], order, item);
      PageAsksNothing(last, item);
      assert forall i :: 0 <= i < |order| ==> (order + [item])[i] == order[i];
    }
  }

  lemma AtMore(order: seq<Item>, item: Item, name: string)
    ensures At(order + [item], name) == if ToLower(item.0) == name then Some(item.1) else At(order, name)
  {
    assert (order + [item])[..|order|] == order;
  }

  /** Entries that differ under one name at most. */
  ghost predicate DifferAt(held: Entries, other: Entries, name: string) {
    forall n :: n != name ==> held(n) == other(n)
  }

  lemma MoreDiffers(order: seq<Item>, item: Item)
    ensures DifferAt(EntriesOf(order), EntriesOf(order + [item]), ToLower(item.0))
    ensures EntriesOf(order + [item])(ToLower(item.0)) == Some(item.1)
  {
    forall n ensures n != ToLower(item.0) ==> EntriesOf(order)(n) == EntriesOf(order + [item])(n) {
      AtMore(order, item, n);
    }
    AtMore(order, item, ToLower(item.0));
  }

  /** Neither a page nor "nolimit" changes another setting. */
  lemma AskedBeside(held: Entries, other: Entries, name: string, autoIncr: string, isOrder: bool)
    requires DifferAt(held, other, name) && (name == "page" || name == "nolimit")
    ensures AskedSettings(held) == AskedSettings(other)
    ensures AskedOrdering(held, autoIncr, isOrder) == AskedOrdering(other, autoIncr, isOrder)
    ensures AskedSize(held) == AskedSize(other)
  {
  }

  lemma {:induction false} AtFound(order: seq<Item>, name: string) returns (i: nat)
    requires exists j :: 0 <= j < |order| && Key(order[j]) == name
    ensures i < |order| && Key(order[i]) == name && At(order, name) == Some(order[i].1)
  {
    i := |order| - 1;
    if Key(order[i]) != name {
      var front := order[..i];
      var j :| 0 <= j < |order| && Key(order[j]) == name;
      assert Key(front[j]) == name;
      i := AtFound(front, name);
    }
  }

  lemma {:induction false} AtNone(order: seq<Item>, name: string)
    requires forall j :: 0 <= j < |order| ==> Key(order[j]) != name
    ensures At(order, name) == None
  {
    if order != [] {
      AtNone(order[..|order| - 1], name);
    }
  }

  lemma SameItems(s: seq<Item>, t: seq<Item>)
    requires multiset(s) == multiset(t)
    ensures forall i :: 0 <= i < |s| ==> s[i] in t
    ensures forall i :: 0 <= i < |t| ==> t[i] in s
  {
    forall i | 0 <= i < |s| ensures s[i] in t {
      assert s[i] in multiset(t);
    }
    forall i | 0 <= i < |t| ensures t[i] in s {
      assert t[i] in multiset(s);
    }
  }

  /** What is under a key does not depend on the iteration order. */
  lemma AtReordered(s: seq<Item>, t: seq<Item>, name: string)
    requires DistinctKeys(s) && multiset(s) == multiset(t)
    ensures At(s, name) == At(t, name)
  {
    SameItems(s, t);
    if exists j :: 0 <= j < |t| && Key(t[j]) == name {
      var i := AtFound(t, name);
      var k :| 0 <= k < |s| && s[k] == t[i];
      assert Key(s[k]) == name;
      var m := AtFound(s, name);
      assert m == k;
    } else {
      AtNone(t, name);
      AtNone(s, name);
    }
  }

  lemma AskedReordered(s: seq<Item>, t: seq<Item>, autoIncr: string, isOrder: bool, isPaging: bool)
    requires DistinctKeys(s) && multiset(s) == multiset(t)
    ensures Asked(EntriesOf(s), autoIncr, isOrder, isPaging) == Asked(EntriesOf(t), autoIncr, isOrder, isPaging)
  {
    forall n ensures EntriesOf(s)(n) == EntriesOf(t)(n) {
      AtReordered(s, t, n);
    }
    AskedAlike(EntriesOf(s), EntriesOf(t), autoIncr, isOrder, isPaging);
  }

  lemma AskedAlike(held: Entries, other: Entries, autoIncr: string, isOrder: bool, isPaging: bool)
    requires forall n :: held(n) == other(n)
    ensures Asked(held, autoIncr, isOrder, isPaging) == Asked(other, autoIncr, isOrder, isPaging)
  {
  }

  lemma AllAsked(row: Row, s: seq<Item>, t: seq<Item>)
    requires forall i :: 0 <= i < |s| ==> s[i] in t
    requires forall i :: 0 <= i < |t| ==> Asks(row, t[i])
    ensures forall i :: 0 <= i < |s| ==> Asks(row, s[i])
  {
  }

  lemma {:induction false} WantedReordered(table: seq<Row>, s: seq<Item>, t: seq<Item>)
    requires multiset(s) == multiset(t)
    ensures Wanted(table, s) == Wanted(table, t)
  {
    if table != [] {
      var last := table[|table| - 1];
      WantedReordered(table[..|table| - 1], s, t);
      SameItems(s, t);
      if forall i :: 0 <= i < |t| ==> Asks(last, t[i]) {
        AllAsked(last, s, t);
      }
      if forall i :: 0 <= i < |s| ==> Asks(last, s[i]) {
        AllAsked(last, t, s);
      }
    }
  }

  /** The whole result of a map without a limit, in any iteration order. */
  ghost function Unpaged(db: Database, table: seq<Row>, order: seq<Item>, autoIncr: string, isOrder: bool): seq<Row> {
    db(Wanted(table, order), Asked(EntriesOf(order), autoIncr, isOrder, false))
  }

  lemma PageKey(v: Value)
    ensures Key(("page", v)) == "page" && ItemKind(("page", v)) == KPage
    ensures Key(("nolimit", v)) == "nolimit" && ItemKind(("nolimit", v)) == KNoLimit
  {
    assert ToLower("page") == "page" && ToLower("nolimit") == "nolimit";
    KindNamed(KPage);
    KindNamed(KNoLimit);
  }

  /** What a map with a page asks: what it asks without, and that page. */
  lemma PageAsked(held: Entries, paged: Entries, page: nat, start: nat, autoIncr: string, isOrder: bool)
    requires DifferAt(held, paged, "page") && paged("page") == Some(Int(page)) && held("nolimit") == None
    requires 1 <= page < 0x8000_0000_0000_0000
    requires start == (page - 1) * AskedSize(held) && start < 0x8000_0000_0000_0000
    ensures Asked(paged, autoIncr, isOrder, true)
            == Asked(held, autoIncr, isOrder, false).(limit := Some((AskedSize(held) as int, start as int)))
  {
    AskedBeside(held, paged, "page", autoIncr, isOrder);
    WrapsNothing(page);
    WrapsNothing(start);
  }

  /** The result for one page, its entry anywhere among the others. */
  lemma PageResult(db: Database, table: seq<Row>, order: seq<Item>, paged: seq<Item>, page: nat, start: nat,
      autoIncr: string, isOrder: bool)
    requires At(order, "nolimit") == None && 1 <= page < 0x8000_0000_0000_0000
    requires start == (page - 1) * AskedSize(EntriesOf(order)) && start < 0x8000_0000_0000_0000
    requires ReadableMap(paged) && multiset(paged) == multiset(order + [("page", Int(page))])
    ensures Result(db, table, Compiled(paged, autoIncr, isOrder, true))
            == Window(Unpaged(db, table, order, autoIncr, isOrder), AskedSize(EntriesOf(order)), start)
  {
    var item: Item := ("page", Int(page));
    PageKey(Int(page));
    ResultAsked(db, table, paged, autoIncr, isOrder, true);
    AskedReordered(paged, order + [item], autoIncr, isOrder, true);
    WantedReordered(table, paged, order + [item]);
    MoreDiffers(order, item);
    PageAsked(EntriesOf(order), EntriesOf(order + [item]), page, start, autoIncr, isOrder);
    WantedMore(table, order, item);
  }

  lemma WrapsNothing(n: int)
    requires -0x8000_0000_0000_0000 <= n < 0x8000_0000_0000_0000
    ensures Wrap64(n) == Clamp64(n) == n
  {
  }

  lemma StartIsBefore(page: nat, size: nat)
    requires 1 <= page && 1 <= size
    ensures 0 <= (page - 1) * size <= page * size && page <= page * size
  {
  }

  /** The result of the map with "nolimit" anywhere among the others. */
  lemma WholeResult(db: Database, table: seq<Row>, order: seq<Item>, whole: seq<Item>, v: Value, autoIncr: string,
      isOrder: bool)
    requires ReadableMap(whole) && multiset(whole) == multiset(order + [("nolimit", v)])
    ensures Result(db, table, Compiled(whole, autoIncr, isOrder, true)) == Unpaged(db, table, order, autoIncr, isOrder)
  {
    var item: Item := ("nolimit", v);
    PageKey(v);
    ResultAsked(db, table, whole, autoIncr, isOrder, true);
    AskedReordered(whole, order + [item], autoIncr, isOrder, true);
    WantedReordered(table, whole, order + [item]);
    MoreDiffers(order, item);
    AskedBeside(EntriesOf(order), EntriesOf(order + [item]), "nolimit", autoIncr, isOrder);
    WantedMore(table, order, item);
  }

  /** The results for some maps, one after another. */
  ghost function PutTogether(db: Database, table: seq<Row>, maps: seq<seq<Item>>, autoIncr: string, isOrder: bool)
      : seq<Row>
  {
    if maps == [] then []
    else
      PutTogether(db, table, maps[..|maps| - 1], autoIncr, isOrder)
      + Result(db, table, Compiled(maps[|maps| - 1], autoIncr, isOrder, true))
  }

  /** maps[p] is the map with page p + 1 for one entry more, in some iteration order. */
  ghost predicate ArePages(order: seq<Item>, maps: seq<seq<Item>>) {
    forall p :: 0 <= p < |maps| ==>
      ReadableMap(maps[p]) && multiset(maps[p]) == multiset(order + [("page", Int(p + 1))])
  }

  lemma {:induction false} PagesTogether(
      db: Database, table: seq<Row>, order: seq<Item>, maps: seq<seq<Item>>, autoIncr: string, isOrder: bool)
    requires At(order, "nolimit") == None && ArePages(order, maps)
    requires |maps| * AskedSize(EntriesOf(order)) < 0x8000_0000_0000_0000
    ensures AskedSize(EntriesOf(order)) >= 1
    ensures PutTogether(db, table, maps, autoIncr, isOrder)
            == Pages(Unpaged(db, table, order, autoIncr, isOrder), AskedSize(EntriesOf(order)), |maps|)
  {
    if maps != [] {
      var n := |maps|;
      StartIsBefore(n, AskedSize(EntriesOf(order)));
      PagesTogether(db, table, order, maps[..n - 1], autoIncr, isOrder);
      PageResult(
        db, table, order, maps[n - 1], n, (n - 1) * AskedSize(EntriesOf(order)), autoIncr, isOrder);
    }
  }

  /** The results for the pages 1 to n of a map, put together, are the first n pages' worth of the
      result for the map with "nolimit", each map compiled in an iteration order of its own; that is
      the whole of it when there are pages enough. */
  lemma {:induction false} PagesOfMap(
      db: Database, table: seq<Row>, order: seq<Item>, maps: seq<seq<Item>>, whole: seq<Item>, v: Value,
      autoIncr: string, isOrder: bool)
    requires At(order, "nolimit") == None && ArePages(order, maps)
    requires ReadableMap(whole) && multiset(whole) == multiset(order + [("nolimit", v)])
    requires |maps| * AskedSize(EntriesOf(order)) < 0x8000_0000_0000_0000
    ensures var rows := Result(db, table, Compiled(whole, autoIncr, isOrder, true));
            var n := |maps| * AskedSize(EntriesOf(order));
            n >= 0 && PutTogether(db, table, maps, autoIncr, isOrder) == rows[..Lesser(n, |rows|)]
  {
    PagesTogether(db, table, order, maps, autoIncr, isOrder);
    WholeResult(db, table, order, whole, v, autoIncr, isOrder);
    PagesConcatenate(Unpaged(db, table, order, autoIncr, isOrder), AskedSize(EntriesOf(order)), |maps|);
    assert |maps| * AskedSize(EntriesOf(order)) >= 0;
  }

  // ----- Numbers in every spelling

  /** The decimal numeral of a number. */
  function Numeral(n: nat): string {
    if n < 10 then [(n as char) + '0'] else Numeral(n / 10) + [((n % 10) as char) + '0']
  }

  lemma {:induction false} NumeralReads(n: nat)
    ensures Digits(Numeral(n)) && Decimal(Numeral(n)) == n
  {
    if n >= 10 {
      NumeralReads(n / 10);
      var s := Numeral(n);
      assert s[..|s| - 1] == Numeral(n / 10);
    } else {
      var s := Numeral(n);
      assert s[..0] == "";
    }
  }

  /** A sign before a numeral. */
  lemma SignedReads(sign: char, n: nat)
    requires sign == '+' || sign == '-'
    ensures var s := [sign] + Numeral(n);
            !Digits(s) && s != "" && s[0] == sign && Digits(s[1..]) && Decimal(s[1..]) == n
  {
    var s := [sign] + Numeral(n);
    NumeralReads(n);
    assert s[1..] == Numeral(n) && s[0] == sign;
  }

  /** A number of 64 bits counts the same as an int, as a float and as a text, with a sign or
      without. */
  lemma {:induction false} SpellingsAgree(n: nat)
    requires n < 0x8000_0000_0000_0000
    ensures Number(Int(n)) == Number(Float(n)) == n && Number(Int(0 - n)) == Number(Float(0 - n)) == 0 - n
    ensures Number(Str(Numeral(n))) == Number(Str("+" + Numeral(n))) == n && Number(Str("-" + Numeral(n))) == 0 - n
  {
    NumeralReads(n);
    SignedReads('+', n);
    SignedReads('-', n);
    WrapsNothing(n);
    WrapsNothing(0 - n);
  }

  /** Whatever is no number counts as 0, and a numeral beyond 64 bits as the nearest bound. */
  lemma {:induction false} OtherSpellings(s: string, n: nat, ss: seq<string>, id: nat)
    ensures Number(Str(s)) != 0 ==>
              Digits(s) || (s != "" && (s[0] == '+' || s[0] == '-') && Digits(s[1..]))
    ensures n >= 0x8000_0000_0000_0000 ==>
              Number(Str(Numeral(n))) == 0x7fff_ffff_ffff_ffff
              && Number(Str("-" + Numeral(n))) == -0x8000_0000_0000_0000
    ensures Number(Strs(ss)) == 0 && Number(Other(id)) == 0
  {
    NumeralReads(n);
    SignedReads('-', n);
  }
}

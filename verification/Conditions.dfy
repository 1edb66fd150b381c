/** The condition compiler: a map of conditions, met in any order, becomes calls on a
    session, a WHERE text with positional arguments, an ordering and a page. */
module Conditions {
  import opened Options
  import opened Text
  import opened Sql
  import opened Seqs

  type Int64 = n: int | -0x8000_0000_0000_0000 <= n < 0x8000_0000_0000_0000

  /** The values a condition may carry, as far as the compiler tells them apart. A float
      is represented by the 64-bit integer it converts to. */
  datatype Value =
    | Int(n: int)
    | Float(converted: Int64)
    | Str(s: string)
    | Strs(ss: seq<string>)
    | Other(id: nat)

  datatype Call =
    | Table
    | GroupBy(s: string)
    | Having(s: string)
    | SQL(v: Value)
    | Select(s: string)
    | Distinct(s: string)
    | ForUpdate
    | Cols(ss: seq<string>)
    | MustCols(ss: seq<string>)
    | Omit(ss: seq<string>)
    | AllCols
    | In(col: string, v: Value)
    | NotIn(col: string, v: Value)
    | Where(text: string, args: seq<Value>)
    | OrderBy(s: string)
    | Limit(limit: int, start: int)

  /** What a key, in lower case, stands for. */
  datatype Kind =
    | KNoLimit | KOrderBy | KGroupBy | KHaving | KPage | KPageSize | KWhere | KSql | KSelect
    | KDistinct | KForUpdate | KCols | KMustCols | KOmit | KAllCols | KColumn

  type Item = (string, Value)

  const DEFAULT_PAGE_SIZE := 1000

  function NameOf(kind: Kind): string {
    match kind
    case KNoLimit => "nolimit"
    case KOrderBy => "orderby"
    case KGroupBy => "groupby"
    case KHaving => "having"
    case KPage => "page"
    case KPageSize => "pagesize"
    case KWhere => "where"
    case KSql => "sql"
    case KSelect => "select"
    case KDistinct => "distinct"
    case KForUpdate => "forupdate"
    case KCols => "cols"
    case KMustCols => "mustcols"
    case KOmit => "omit"
    case KAllCols => "allcols"
    case KColumn => ""
  }

  function KindOf(k: string): (kind: Kind)
    ensures !kind.KColumn? ==> k == NameOf(kind)
  {
    if k == "nolimit" then KNoLimit
    else if k == "orderby" then KOrderBy
    else if k == "groupby" then KGroupBy
    else if k == "having" then KHaving
    else if k == "page" then KPage
    else if k == "pagesize" then KPageSize
    else if k == "where" then KWhere
    else if k == "sql" then KSql
    else if k == "select" then KSelect
    else if k == "distinct" then KDistinct
    else if k == "forupdate" then KForUpdate
    else if k == "cols" then KCols
    else if k == "mustcols" then KMustCols
    else if k == "omit" then KOmit
    else if k == "allcols" then KAllCols
    else KColumn
  }

  function Key(item: Item): string { ToLower(item.0) }

  function ItemKind(item: Item): Kind { KindOf(Key(item)) }

  // ----- Numbers

  function Wrap64(n: int): int {
    (n + 0x8000_0000_0000_0000) % 0x1_0000_0000_0000_0000 - 0x8000_0000_0000_0000
  }

  function Clamp64(n: int): int {
    if n < -0x8000_0000_0000_0000 then -0x8000_0000_0000_0000
    else if n > 0x7fff_ffff_ffff_ffff then 0x7fff_ffff_ffff_ffff
    else n
  }

  predicate Digits(s: string) { s != "" && forall i :: 0 <= i < |s| ==> '0' <= s[i] <= '9' }

  function Decimal(s: string): nat
    requires forall i :: 0 <= i < |s| ==> '0' <= s[i] <= '9'
  {
    if s == "" then 0 else 10 * Decimal(s[..|s| - 1]) + (s[|s| - 1] as int - '0' as int)
  }

  /** strconv.Atoi with the error dropped: 0 for a syntax error, the nearest bound for a
      number out of range. */
  function Atoi(s: string): int {
    if Digits(s) then Clamp64(Decimal(s))
    else if s != "" && s[0] == '+' && Digits(s[1..]) then Clamp64(Decimal(s[1..]))
    else if s != "" && s[0] == '-' && Digits(s[1..]) then Clamp64(-(Decimal(s[1..]) as int))
    else 0
  }

  function Number(v: Value): int {
    match v
    case Float(t) => t
    case Str(s) => Atoi(s)
    case Int(n) => Wrap64(n)
    case _ => 0
  }

  function Max(i: int, j: int): int { if j > i then j else i }

  // ----- Keys that name columns

  /** strings.Fields; trimming the key first, as the code does, changes nothing. */
  function Fields(s: string): seq<string>
    decreases |s|
  {
    if s == "" then []
    else if IsSpace(s[0]) then Fields(s[1..])
    else [s[..FieldEnd(s)]] + Fields(s[FieldEnd(s)..])
  }

  function FieldEnd(s: string): (i: nat)
    ensures i <= |s| && (s != "" && !IsSpace(s[0]) ==> i >= 1)
  {
    if s == "" || IsSpace(s[0]) then 0 else 1 + FieldEnd(s[1..])
  }

  /** A key that is no setting and has neither one nor two fields. */
  predicate Bad(item: Item) {
    ItemKind(item).KColumn? && |Fields(Key(item))| != 1 && |Fields(Key(item))| != 2
  }

  function OneField(k: string): string { "`" + k + "` = ?" }

  function Like(col: string): string { "`" + col + "` like ?" }

  function Operator(k: string): string { k + " ?" }

  /** The clause and argument an item adds to the WHERE text. */
  function ClauseOf(item: Item): Option<(string, Value)> {
    var k := Key(item);
    var fields := Fields(k);
    if !KindOf(k).KColumn? then None
    else if |fields| == 1 then Some((OneField(k), item.1))
    else if |fields| != 2 || fields[1] == "in" || fields[1] == "notin" then None
    else if fields[1] == "like" then Some((Like(fields[0]), item.1))
    else Some((Operator(k), item.1))
  }

  function TextOf(v: Value): string {
    if v.Str? then v.s else ""
  }

  function ListOf(v: Value): seq<string> {
    if v.Strs? then v.ss else []
  }

  function When(made: bool, call: Call): Option<Call> {
    if made then Some(call) else None
  }

  /** The session call a setting makes while the map is walked. */
  function SettingCall(kind: Kind, v: Value): Option<Call> {
    match kind
    case KGroupBy => When(TextOf(v) != "", GroupBy(TextOf(v)))
    case KHaving => When(TextOf(v) != "", Having(TextOf(v)))
    case KSql => Some(SQL(v))
    case KSelect => When(TextOf(v) != "", Select(TextOf(v)))
    case KDistinct => When(TextOf(v) != "", Distinct(TextOf(v)))
    case KForUpdate => Some(ForUpdate)
    case KCols => When(v.Strs?, Cols(ListOf(v)))
    case KMustCols => When(v.Strs?, MustCols(ListOf(v)))
    case KOmit => When(v.Strs?, Omit(ListOf(v)))
    case KAllCols => Some(AllCols)
    case _ => None
  }

  /** The session call of a key that names a column. */
  function ColumnCall(k: string, v: Value): Option<Call> {
    var fields := Fields(k);
    if |fields| != 2 then None
    else if fields[1] == "in" then Some(In(fields[0], v))
    else When(fields[1] == "notin", NotIn(fields[0], v))
  }

  function CallOf(item: Item): Option<Call> {
    if ItemKind(item).KColumn? then ColumnCall(Key(item), item.1) else SettingCall(ItemKind(item), item.1)
  }

  function CallsMade(order: seq<Item>): seq<Call> {
    if order == [] then [] else CallsMade(order[..|order| - 1]) + Maybe(CallOf(order[|order| - 1]))
  }

  // ----- The walk over the map

  datatype Walk = Walk(
    clauses: seq<(string, Value)>,
    orderby: string,
    page: int,
    pageSize: int,
    where_: string,
    paging: bool)

  function Begin(autoIncr: string, isOrder: bool, isPaging: bool): Walk {
    Walk([], if isOrder && autoIncr != "" then autoIncr + " desc" else "", 1, DEFAULT_PAGE_SIZE, "", isPaging)
  }

  function Visit(w: Walk, item: Item, isOrder: bool): Walk {
    var v := item.1;
    var kind := ItemKind(item);
    Walk(
      w.clauses + Maybe(ClauseOf(item)),
      if kind.KOrderBy? && isOrder then TextOf(v) else w.orderby,
      if kind.KPage? && w.paging then Max(Number(v), w.page) else w.page,
      if kind.KPageSize? && w.paging && Number(v) > 0 then Number(v) else w.pageSize,
      if kind.KWhere? && TextOf(v) != "" then TextOf(v) else w.where_,
      w.paging && !kind.KNoLimit?)
  }

  /** The walk after the items of one iteration order. */
  function After(begin: Walk, order: seq<Item>, isOrder: bool): Walk {
    if order == [] then begin
    else Visit(After(begin, order[..|order| - 1], isOrder), order[|order| - 1], isOrder)
  }

  function Texts(clauses: seq<(string, Value)>): seq<string> {
    seq(|clauses|, i requires 0 <= i < |clauses| => clauses[i].0)
  }

  function Args(clauses: seq<(string, Value)>): seq<Value> {
    seq(|clauses|, i requires 0 <= i < |clauses| => clauses[i].1)
  }

  function WhereText(where_: string, texts: seq<string>): string {
    var strs := Join(texts, " AND ");
    if |where_| > 0 && |strs| > 0 then "(" + where_ + ") AND " + strs
    else if |strs| > 0 then strs
    else where_
  }

  function LimitOf(w: Walk): seq<Call> {
    if w.paging then [Limit(w.pageSize, Wrap64((w.page - 1) * w.pageSize))] else []
  }

  /** The calls made once the walk is over. */
  function Finish(w: Walk): seq<Call> {
    [Where(WhereText(w.where_, Texts(w.clauses)), Args(w.clauses))]
    + (if w.orderby != "" then [OrderBy(w.orderby)] else [])
    + LimitOf(w)
  }

  class Session {
    var calls: seq<Call>

    constructor ()
      ensures calls == []
    {
      calls := [];
    }

    method Record(call: Call)
      modifies this
      ensures calls == old(calls) + [call]
    {
      calls := calls + [call];
    }

    method RecordText(v: Value, call: Call)
      modifies this
      ensures calls == old(calls) + Maybe(When(TextOf(v) != "", call))
    {
      if v.Str? && |v.s| > 0 {
        calls := calls + [call];
      }
    }

    method RecordList(v: Value, call: Call)
      modifies this
      ensures calls == old(calls) + Maybe(When(v.Strs?, call))
    {
      if v.Strs? {
        calls := calls + [call];
      }
    }
  }

  /** The same for a key that names a column. */
  method MeetColumn(sess: Session, w: Walk, item: Item) returns (ok: bool, next: Walk)
    requires ItemKind(item).KColumn?
    modifies sess
    ensures ok <==> !Bad(item)
    ensures next == w.(clauses := w.clauses + Maybe(ClauseOf(item)))
    ensures sess.calls == old(sess.calls) + Maybe(CallOf(item))
  {
    ok, next := true, w;
    var k, v := ToLower(item.0), item.1;
    var fields := Fields(k);
    if |fields| == 1 {
      next := w.(clauses := w.clauses + [(OneField(k), v)]);
    } else if |fields| != 2 {
      ok := false;
    } else if fields[1] == "in" {
      sess.Record(In(fields[0], v));
    } else if fields[1] == "notin" {
      sess.Record(NotIn(fields[0], v));
    } else if fields[1] == "like" {
      next := w.(clauses := w.clauses + [(Like(fields[0]), v)]);
    } else {
      next := w.(clauses := w.clauses + [(Operator(k), v)]);
    }
  }

  /** One key of the map, in the source's own switch. */
  method Meet(sess: Session, w: Walk, item: Item, isOrder: bool) returns (ok: bool, next: Walk)
    modifies sess
    ensures ok <==> !Bad(item)
    ensures ok ==> next == Visit(w, item, isOrder)
    ensures sess.calls == old(sess.calls) + Maybe(CallOf(item))
    ensures !ok ==> sess.calls == old(sess.calls)
  {
    ok, next := true, w;
    var k, v := ToLower(item.0), item.1;
    match KindOf(k)
    case KNoLimit => next := w.(paging := false);
    case KOrderBy =>
      if isOrder {
        next := w.(orderby := if v.Str? && |v.s| > 0 then v.s else "");
      }
    case KGroupBy => sess.RecordText(v, GroupBy(TextOf(v)));
    case KHaving => sess.RecordText(v, Having(TextOf(v)));
    case KPage =>
      if w.paging {
        next := w.(page := Max(Number(v), w.page));
      }
    case KPageSize =>
      if w.paging && Number(v) > 0 {
        next := w.(pageSize := Number(v));
      }
    case KWhere =>
      if v.Str? && |v.s| > 0 {
        next := w.(where_ := v.s);
      }
    case KSql => sess.Record(SQL(v));
    case KSelect => sess.RecordText(v, Select(TextOf(v)));
    case KDistinct => sess.RecordText(v, Distinct(TextOf(v)));
    case KForUpdate => sess.Record(ForUpdate);
    case KCols => sess.RecordList(v, Cols(ListOf(v)));
    case KMustCols => sess.RecordList(v, MustCols(ListOf(v)));
    case KOmit => sess.RecordList(v, Omit(ListOf(v)));
    case KAllCols => sess.Record(AllCols);
    case KColumn => ok, next := MeetColumn(sess, w, item);
  }

  predicate Good(item: Item) { !Bad(item) }

  predicate AllGood(order: seq<Item>) {
    AllIn(order, Good)
  }

  lemma AllGoodIs(order: seq<Item>)
    ensures AllGood(order) <==> forall i :: 0 <= i < |order| ==> Good(order[i])
  {
    AllInExactly(order, Good);
  }

  lemma OneMore(begin: Walk, order: seq<Item>, n: nat, isOrder: bool)
    requires n < |order|
    ensures After(begin, order[..n + 1], isOrder) == Visit(After(begin, order[..n], isOrder), order[n], isOrder)
    ensures CallsMade(order[..n + 1]) == CallsMade(order[..n]) + Maybe(CallOf(order[n]))
    ensures AllGood(order[..n + 1]) <==> AllGood(order[..n]) && !Bad(order[n])
  {
    assert order[..n + 1][..n] == order[..n];
  }

  /** Walks the map, stopping before the first bad key; the calls already made stay made. */
  method WalkMap(sess: Session, begin: Walk, order: seq<Item>, isOrder: bool)
      returns (ok: bool, w: Walk, n: nat)
    modifies sess
    ensures n <= |order| && AllGood(order[..n]) && (ok <==> n == |order|)
    ensures !ok ==> Bad(order[n])
    ensures w == After(begin, order[..n], isOrder)
    ensures sess.calls == old(sess.calls) + CallsMade(order[..n])
  {
    ok, w, n := true, begin, 0;
    while ok && n < |order|
      invariant n <= |order| && AllGood(order[..n])
      invariant ok || (n < |order| && Bad(order[n]))
      invariant w == After(begin, order[..n], isOrder)
      invariant sess.calls == old(sess.calls) + CallsMade(order[..n])
      decreases |order| - n, ok
    {
      ok, w := MeetNext(sess, begin, order, n, w, isOrder, old(sess.calls));
      if ok {
        n := n + 1;
      }
    }
  }

  /** One turn of the walk. */
  method MeetNext(sess: Session, begin: Walk, order: seq<Item>, n: nat, w: Walk, isOrder: bool,
      ghost base: seq<Call>)
      returns (ok: bool, next: Walk)
    requires n < |order| && w == After(begin, order[..n], isOrder)
    requires sess.calls == base + CallsMade(order[..n])
    modifies sess
    ensures ok <==> !Bad(order[n])
    ensures ok ==> next == After(begin, order[..n + 1], isOrder)
    ensures ok ==> (AllGood(order[..n]) ==> AllGood(order[..n + 1]))
    ensures ok ==> sess.calls == base + CallsMade(order[..n + 1])
    ensures !ok ==> sess.calls == old(sess.calls) && next == w
  {
    OneMore(begin, order, n, isOrder);
    ok, next := Meet(sess, w, order[n], isOrder);
    if !ok {
      next := w;
    }
  }

  /** Hands the outcome of the walk to the session. */
  method Conclude(sess: Session, w: Walk)
    modifies sess
    ensures sess.calls == old(sess.calls) + Finish(w)
  {
    sess.Record(Where(WhereText(w.where_, Texts(w.clauses)), Args(w.clauses)));
    if w.orderby != "" {
      sess.Record(OrderBy(w.orderby));
    }
    if w.paging {
      sess.Record(Limit(w.pageSize, Wrap64((w.page - 1) * w.pageSize)));
    }
  }

  /** Every call made for a map without a bad key. */
  function Compiled(order: seq<Item>, autoIncr: string, isOrder: bool, isPaging: bool): seq<Call> {
    [Table] + CallsMade(order) + Finish(After(Begin(autoIncr, isOrder, isPaging), order, isOrder))
  }

  /** Compiles the conditions in the iteration order the map happens to have. */
  method BuildCond(sess: Session, autoIncr: string, order: seq<Item>, isOrder: bool, isPaging: bool)
      returns (ok: bool, n: nat)
    modifies sess
    ensures n <= |order| && AllGood(order[..n]) && (ok <==> n == |order|)
    ensures !ok ==> Bad(order[n])
    ensures ok <==> forall i :: 0 <= i < |order| && ItemKind(order[i]).KColumn? ==>
                      |Fields(Key(order[i]))| == 1 || |Fields(Key(order[i]))| == 2
    ensures ok ==> sess.calls == old(sess.calls) + Compiled(order, autoIncr, isOrder, isPaging)
    ensures !ok ==> sess.calls == old(sess.calls) + [Table] + CallsMade(order[..n])
  {
    sess.Record(Table);
    var w;
    ok, w, n := WalkMap(sess, Begin(autoIncr, isOrder, isPaging), order, isOrder);
    AllGoodIs(order[..n]);
    if ok {
      assert order[..n] == order;
      Conclude(sess, w);
      RegroupThree(old(sess.calls), [Table], CallsMade(order), Finish(w));
    }
  }
}

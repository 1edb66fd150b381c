/** The iteration order of the map does not matter. */
module ConditionOrder {
  import opened Options
  import opened Text
  import opened Seqs
  import opened Conditions

  /** No two keys are the same after lower-casing. */
  ghost predicate DistinctKeys(order: seq<Item>) {
    forall i, j :: 0 <= i < j < |order| ==> Key(order[i]) != Key(order[j])
  }

  /** The value given to a setting: the last one met. */
  function Setting(order: seq<Item>, kind: Kind): Option<Value> {
    if order == [] then None
    else if ItemKind(order[|order| - 1]) == kind then Some(order[|order| - 1].1)
    else Setting(order[..|order| - 1], kind)
  }

  lemma {:induction false} SettingMet(order: seq<Item>, kind: Kind, i: nat)
    requires DistinctKeys(order) && !kind.KColumn?
    requires i < |order| && ItemKind(order[i]) == kind
    ensures Setting(order, kind) == Some(order[i].1)
  {
    var m := |order| - 1;
    if i < m {
      assert Key(order[i]) == NameOf(kind);
      assert ItemKind(order[m]) != kind;
      SettingMet(order[..m], kind, i);
    }
  }

  lemma {:induction false} SettingFound(order: seq<Item>, kind: Kind) returns (i: nat)
    requires Setting(order, kind).Some?
    ensures i < |order| && ItemKind(order[i]) == kind && Setting(order, kind) == Some(order[i].1)
  {
    i := |order| - 1;
    if ItemKind(order[i]) != kind {
      i := SettingFound(order[..i], kind);
    }
  }

  function OrderByOf(order: seq<Item>, autoIncr: string, isOrder: bool): string {
    if isOrder && Setting(order, KOrderBy).Some? then TextOf(Setting(order, KOrderBy).value)
    else Begin(autoIncr, isOrder, true).orderby
  }

  function WhereOf(order: seq<Item>): string {
    if Setting(order, KWhere).Some? then TextOf(Setting(order, KWhere).value) else ""
  }

  function PageOf(order: seq<Item>): int {
    if Setting(order, KPage).Some? then Max(Number(Setting(order, KPage).value), 1) else 1
  }

  function PageSizeOf(order: seq<Item>): int {
    if Setting(order, KPageSize).Some? && Number(Setting(order, KPageSize).value) > 0
    then Number(Setting(order, KPageSize).value) else DEFAULT_PAGE_SIZE
  }

  function PagingOf(order: seq<Item>, isPaging: bool): bool {
    isPaging && Setting(order, KNoLimit).None?
  }

  function LimitFor(order: seq<Item>, isPaging: bool): seq<Call> {
    if PagingOf(order, isPaging)
    then [Limit(PageSizeOf(order), Wrap64((PageOf(order) - 1) * PageSizeOf(order)))] else []
  }

  lemma NoneEarlier(order: seq<Item>, kind: Kind)
    requires order != [] && DistinctKeys(order) && !kind.KColumn?
    requires ItemKind(order[|order| - 1]) == kind
    ensures Setting(order[..|order| - 1], kind).None?
  {
    var m := |order| - 1;
    if Setting(order[..m], kind).Some? {
      var i := SettingFound(order[..m], kind);
      assert false;
    }
  }

  /** A setting before the last item, when the last item is that setting. */
  lemma SettingBefore(order: seq<Item>, kind: Kind)
    requires order != [] && DistinctKeys(order) && !kind.KColumn?
    ensures var before := Setting(order[..|order| - 1], kind);
            Setting(order, kind) == if ItemKind(order[|order| - 1]) == kind then Some(order[|order| - 1].1) else before
    ensures ItemKind(order[|order| - 1]) == kind ==> Setting(order[..|order| - 1], kind).None?
  {
    if ItemKind(order[|order| - 1]) == kind {
      NoneEarlier(order, kind);
    }
  }

  lemma {:induction false} WalkOrders(order: seq<Item>, autoIncr: string, isOrder: bool, isPaging: bool)
    requires DistinctKeys(order)
    ensures After(Begin(autoIncr, isOrder, isPaging), order, isOrder).orderby == OrderByOf(order, autoIncr, isOrder)
  {
    if order != [] {
      WalkOrders(order[..|order| - 1], autoIncr, isOrder, isPaging);
    }
  }

  lemma {:induction false} WalkFilters(begin: Walk, order: seq<Item>, isOrder: bool)
    requires DistinctKeys(order) && begin.where_ == ""
    ensures After(begin, order, isOrder).where_ == WhereOf(order)
  {
    if order != [] {
      WalkFilters(begin, order[..|order| - 1], isOrder);
      SettingBefore(order, KWhere);
    }
  }

  ghost predicate PageSettled(w: Walk, order: seq<Item>, isPaging: bool) {
    && w.paging == PagingOf(order, isPaging)
    && (w.paging ==> w.page == PageOf(order) && w.pageSize == PageSizeOf(order))
  }

  lemma {:induction false} WalkPages(begin: Walk, order: seq<Item>, isOrder: bool)
    requires DistinctKeys(order) && begin.page == 1 && begin.pageSize == DEFAULT_PAGE_SIZE
    ensures PageSettled(After(begin, order, isOrder), order, begin.paging)
  {
    if order != [] {
      WalkPages(begin, order[..|order| - 1], isOrder);
      SettingBefore(order, KPage);
      SettingBefore(order, KPageSize);
      SettingBefore(order, KNoLimit);
    }
  }

  /** What the walk leaves behind, read off the map alone. */
  lemma {:induction false} WalkSummarised(order: seq<Item>, autoIncr: string, isOrder: bool, isPaging: bool)
    requires DistinctKeys(order)
    ensures var w := After(Begin(autoIncr, isOrder, isPaging), order, isOrder);
            && w.orderby == OrderByOf(order, autoIncr, isOrder)
            && w.where_ == WhereOf(order)
            && LimitOf(w) == LimitFor(order, isPaging)
  {
    WalkOrders(order, autoIncr, isOrder, isPaging);
    WalkFilters(Begin(autoIncr, isOrder, isPaging), order, isOrder);
    assert PageSettled(After(Begin(autoIncr, isOrder, isPaging), order, isOrder), order, isPaging) by {
      WalkPages(Begin(autoIncr, isOrder, isPaging), order, isOrder);
    }
  }

  function ClausesOf(item: Item): seq<(string, Value)> { Maybe(ClauseOf(item)) }

  function CallsOf(item: Item): seq<Call> { Maybe(CallOf(item)) }

  lemma {:induction false} WalkCollects(begin: Walk, order: seq<Item>, isOrder: bool)
    requires begin.clauses == []
    ensures After(begin, order, isOrder).clauses == FlatMap(order, ClausesOf)
    ensures CallsMade(order) == FlatMap(order, CallsOf)
  {
    if order != [] {
      WalkCollects(begin, order[..|order| - 1], isOrder);
    }
  }

  // ----- Exactly when the order matters

  function OrderByPart(isOrder: bool): Item -> Option<string> {
    item => if isOrder && Orders(item) then Some(TextOf(item.1)) else None
  }

  predicate Orders(item: Item) { ItemKind(item).KOrderBy? }

  predicate Filters(item: Item) { ItemKind(item).KWhere? && TextOf(item.1) != "" }

  predicate Sizes(item: Item) { ItemKind(item).KPageSize? && Number(item.1) > 0 }

  function WherePart(item: Item): Option<string> {
    if Filters(item) then Some(TextOf(item.1)) else None
  }

  function PageSizePart(item: Item): Option<int> {
    if Sizes(item) then Some(Number(item.1)) else None
  }

  function NotNoLimit(item: Item): bool { !ItemKind(item).KNoLimit? }

  /** The largest page met, the first when there is none. */
  function TopPage(order: seq<Item>): int {
    if order == [] then 1
    else
      var before := TopPage(order[..|order| - 1]);
      var last := order[|order| - 1];
      if ItemKind(last).KPage? then Max(Number(last.1), before) else before
  }

  lemma {:induction false} TextsFolded(begin: Walk, order: seq<Item>, isOrder: bool)
    ensures var w := After(begin, order, isOrder);
            && w.orderby == LastOf(order, OrderByPart(isOrder), begin.orderby)
            && w.where_ == LastOf(order, WherePart, begin.where_)
            && w.paging == (begin.paging && AllIn(order, NotNoLimit))
  {
    if order != [] {
      TextsFolded(begin, order[..|order| - 1], isOrder);
    }
  }

  lemma {:induction false} PagesFolded(begin: Walk, order: seq<Item>, isOrder: bool)
    requires begin.paging && begin.page == 1 && AllIn(order, NotNoLimit)
    ensures var w := After(begin, order, isOrder);
            && w.page == TopPage(order) && w.pageSize == LastOf(order, PageSizePart, begin.pageSize)
  {
    if order != [] {
      TextsFolded(begin, order[..|order| - 1], isOrder);
      PagesFolded(begin, order[..|order| - 1], isOrder);
    }
  }

  lemma {:induction false} TopPageIs(order: seq<Item>)
    ensures TopPage(order) >= 1
    ensures forall i :: 0 <= i < |order| && ItemKind(order[i]).KPage? ==> Number(order[i].1) <= TopPage(order)
    ensures TopPage(order) == 1
            || exists i :: 0 <= i < |order| && ItemKind(order[i]).KPage? && Number(order[i].1) == TopPage(order)
  {
    if order != [] {
      var m := |order| - 1;
      TopPageIs(order[..m]);
      assert forall i :: 0 <= i < m ==> order[..m][i] == order[i];
    }
  }

  lemma TopPageReordered(s: seq<Item>, t: seq<Item>)
    requires multiset(s) == multiset(t)
    ensures TopPage(s) == TopPage(t)
  {
    TopPageIs(s);
    TopPageIs(t);
    forall i | 0 <= i < |s| ensures s[i] in t {
      assert s[i] in multiset(t);
    }
    forall i | 0 <= i < |t| ensures t[i] in s {
      assert t[i] in multiset(s);
    }
  }

  /** What an order of the map decides beyond the collection of its clauses and calls. */
  ghost predicate SameSettings(v: Walk, w: Walk) {
    v.orderby == w.orderby && v.where_ == w.where_ && LimitOf(v) == LimitOf(w)
  }

  ghost predicate OrderFree(order: seq<Item>, autoIncr: string, isOrder: bool, isPaging: bool) {
    forall t: seq<Item> :: multiset(t) == multiset(order) ==>
      SameSettings(
        After(Begin(autoIncr, isOrder, isPaging), order, isOrder),
        After(Begin(autoIncr, isOrder, isPaging), t, isOrder))
  }

  /** All orderings asked for are the same, if orderings are wanted. */
  ghost predicate OneOrderBy(order: seq<Item>, isOrder: bool) {
    isOrder ==>
      forall i, j :: 0 <= i < |order| && 0 <= j < |order| && Orders(order[i]) && Orders(order[j]) ==>
        TextOf(order[i].1) == TextOf(order[j].1)
  }

  /** All raw conditions that are not empty are the same. */
  ghost predicate OneWhere(order: seq<Item>) {
    forall i, j :: 0 <= i < |order| && 0 <= j < |order| && Filters(order[i]) && Filters(order[j]) ==>
      TextOf(order[i].1) == TextOf(order[j].1)
  }

  /** All page sizes that count are the same, if the result is paged. */
  ghost predicate OnePageSize(order: seq<Item>, isPaging: bool) {
    isPaging && (forall i :: 0 <= i < |order| ==> !ItemKind(order[i]).KNoLimit?) ==>
      forall i, j :: 0 <= i < |order| && 0 <= j < |order| && Sizes(order[i]) && Sizes(order[j]) ==>
        Number(order[i].1) == Number(order[j].1)
  }

  lemma OrderByAgrees(order: seq<Item>, isOrder: bool)
    ensures OneOrderBy(order, isOrder) <==> Agreeing(order, OrderByPart(isOrder))
  {
    var f := OrderByPart(isOrder);
    assert forall i :: 0 <= i < |order| ==>
             f(order[i]) == if isOrder && Orders(order[i]) then Some(TextOf(order[i].1)) else None;
  }

  lemma WhereAgrees(order: seq<Item>)
    ensures OneWhere(order) <==> Agreeing(order, WherePart)
  {
    assert forall i :: 0 <= i < |order| ==> WherePart(order[i]).Some? == Filters(order[i]);
  }

  lemma PageSizeAgrees(order: seq<Item>)
    requires forall i :: 0 <= i < |order| ==> !ItemKind(order[i]).KNoLimit?
    ensures OnePageSize(order, true) <==> Agreeing(order, PageSizePart)
  {
    assert forall i :: 0 <= i < |order| ==> PageSizePart(order[i]).Some? == Sizes(order[i]);
  }

  lemma NoLimitFree(order: seq<Item>)
    ensures AllIn(order, NotNoLimit) <==> forall i :: 0 <= i < |order| ==> NotNoLimit(order[i])
  {
    AllInExactly(order, NotNoLimit);
  }

  /** One other order: the texts. */
  lemma TextsReordered(s: seq<Item>, t: seq<Item>, begin: Walk, isOrder: bool)
    requires multiset(s) == multiset(t) && OneOrderBy(s, isOrder) && OneWhere(s)
    ensures var v := After(begin, s, isOrder);
            var w := After(begin, t, isOrder);
            v.orderby == w.orderby && v.where_ == w.where_ && v.paging == w.paging
  {
    OrderByAgrees(s, isOrder);
    WhereAgrees(s);
    LastReordered(s, t, OrderByPart(isOrder), begin.orderby);
    LastReordered(s, t, WherePart, begin.where_);
    AllInReordered(s, t, NotNoLimit);
    TextsFolded(begin, s, isOrder);
    TextsFolded(begin, t, isOrder);
  }

  lemma PageReordered(s: seq<Item>, t: seq<Item>, begin: Walk, isOrder: bool)
    requires multiset(s) == multiset(t) && begin.page == 1 && begin.paging && OnePageSize(s, true)
    requires AllIn(s, NotNoLimit) && AllIn(t, NotNoLimit)
    ensures After(begin, s, isOrder).page == After(begin, t, isOrder).page
    ensures After(begin, s, isOrder).pageSize == After(begin, t, isOrder).pageSize
  {
    NoLimitFree(s);
    PageSizeAgrees(s);
    LastReordered(s, t, PageSizePart, begin.pageSize);
    TopPageReordered(s, t);
    PagesFolded(begin, s, isOrder);
    PagesFolded(begin, t, isOrder);
  }

  lemma SameLimit(v: Walk, w: Walk)
    requires v.paging == w.paging && (v.paging ==> v.page == w.page && v.pageSize == w.pageSize)
    ensures LimitOf(v) == LimitOf(w)
  {
  }

  lemma PagingReordered(s: seq<Item>, t: seq<Item>, begin: Walk, isOrder: bool)
    requires multiset(s) == multiset(t)
    ensures After(begin, s, isOrder).paging == After(begin, t, isOrder).paging
    ensures After(begin, s, isOrder).paging ==> begin.paging && AllIn(s, NotNoLimit) && AllIn(t, NotNoLimit)
  {
    TextsFolded(begin, s, isOrder);
    TextsFolded(begin, t, isOrder);
    AllInReordered(s, t, NotNoLimit);
  }

  /** One other order: the page. */
  lemma LimitReordered(s: seq<Item>, t: seq<Item>, begin: Walk, isOrder: bool)
    requires multiset(s) == multiset(t) && begin.page == 1 && OnePageSize(s, begin.paging)
    ensures LimitOf(After(begin, s, isOrder)) == LimitOf(After(begin, t, isOrder))
  {
    PagingReordered(s, t, begin, isOrder);
    if After(begin, s, isOrder).paging {
      PageReordered(s, t, begin, isOrder);
    }
    SameLimit(After(begin, s, isOrder), After(begin, t, isOrder));
  }

  lemma TextsDiffer(order: seq<Item>, autoIncr: string, isOrder: bool, isPaging: bool)
    requires !OneOrderBy(order, isOrder) || !OneWhere(order)
    ensures !OrderFree(order, autoIncr, isOrder, isPaging)
  {
    var begin := Begin(autoIncr, isOrder, isPaging);
    OrderByAgrees(order, isOrder);
    WhereAgrees(order);
    TextsFolded(begin, order, isOrder);
    if !OneOrderBy(order, isOrder) {
      var t := LastDiffers(order, OrderByPart(isOrder), begin.orderby);
      TextsFolded(begin, t, isOrder);
    } else {
      var t := LastDiffers(order, WherePart, begin.where_);
      TextsFolded(begin, t, isOrder);
    }
  }

  lemma LimitsDiffer(order: seq<Item>, autoIncr: string, isOrder: bool, isPaging: bool)
    requires !OnePageSize(order, isPaging)
    ensures !OrderFree(order, autoIncr, isOrder, isPaging)
  {
    var begin := Begin(autoIncr, isOrder, isPaging);
    NoLimitFree(order);
    PageSizeAgrees(order);
    var t := LastDiffers(order, PageSizePart, begin.pageSize);
    AllInReordered(order, t, NotNoLimit);
    TextsFolded(begin, order, isOrder);
    TextsFolded(begin, t, isOrder);
    PagesFolded(begin, order, isOrder);
    PagesFolded(begin, t, isOrder);
  }

  /** Every iteration order of the entries gives the same ordering, raw condition and page if and
      only if the orderings agree, the raw conditions agree and the page sizes agree, each where
      it is used; the largest page wins in any order. */
  lemma {:induction false} OrderFreeExactly(order: seq<Item>, autoIncr: string, isOrder: bool, isPaging: bool)
    ensures OrderFree(order, autoIncr, isOrder, isPaging)
            <==> OneOrderBy(order, isOrder) && OneWhere(order) && OnePageSize(order, isPaging)
  {
    if !OneOrderBy(order, isOrder) || !OneWhere(order) {
      TextsDiffer(order, autoIncr, isOrder, isPaging);
    } else if !OnePageSize(order, isPaging) {
      LimitsDiffer(order, autoIncr, isOrder, isPaging);
    } else {
      var begin := Begin(autoIncr, isOrder, isPaging);
      forall t: seq<Item> | multiset(t) == multiset(order)
        ensures SameSettings(After(begin, order, isOrder), After(begin, t, isOrder))
      {
        TextsReordered(order, t, begin, isOrder);
        LimitReordered(order, t, begin, isOrder);
      }
    }
  }

  /** Keys distinct after lower-casing hold each setting once. */
  lemma SettingsOnce(order: seq<Item>, isOrder: bool, isPaging: bool)
    requires DistinctKeys(order)
    ensures OneOrderBy(order, isOrder) && OneWhere(order) && OnePageSize(order, isPaging)
  {
    forall i, j | 0 <= i < |order| && 0 <= j < |order| && ItemKind(order[i]) == ItemKind(order[j])
        && !ItemKind(order[i]).KColumn?
      ensures i == j
    {
      assert Key(order[i]) == NameOf(ItemKind(order[i])) && Key(order[j]) == NameOf(ItemKind(order[j]));
    }
  }

  /** Whatever the keys, two iteration orders of one map succeed or fail alike and collect the
      same clauses with their arguments and the same calls, in some order. */
  lemma {:induction false} CollectedAlike(s: seq<Item>, t: seq<Item>, begin: Walk, isOrder: bool)
    requires multiset(s) == multiset(t) && begin.clauses == []
    ensures AllGood(s) <==> AllGood(t)
    ensures multiset(After(begin, s, isOrder).clauses) == multiset(After(begin, t, isOrder).clauses)
    ensures multiset(CallsMade(s)) == multiset(CallsMade(t))
  {
    AllInReordered(s, t, Good);
    WalkCollects(begin, s, isOrder);
    WalkCollects(begin, t, isOrder);
    FlatMapReordered(s, t, ClausesOf);
    FlatMapReordered(s, t, CallsOf);
  }

  /** Confluence: two iteration orders of a map with keys distinct after lower-casing agree on
      everything: error, ordering, page, session calls, clauses and raw condition. */
  lemma {:induction false} Confluence(s: seq<Item>, t: seq<Item>, autoIncr: string, isOrder: bool, isPaging: bool)
    requires DistinctKeys(s) && multiset(s) == multiset(t)
    ensures AllGood(s) <==> AllGood(t)
    ensures var v := After(Begin(autoIncr, isOrder, isPaging), s, isOrder);
            var w := After(Begin(autoIncr, isOrder, isPaging), t, isOrder);
            SameSettings(v, w) && multiset(v.clauses) == multiset(w.clauses)
    ensures multiset(CallsMade(s)) == multiset(CallsMade(t))
  {
    SettingsOnce(s, isOrder, isPaging);
    OrderFreeExactly(s, autoIncr, isOrder, isPaging);
    assert SameSettings(
        After(Begin(autoIncr, isOrder, isPaging), s, isOrder), After(Begin(autoIncr, isOrder, isPaging), t, isOrder));
    CollectedAlike(s, t, Begin(autoIncr, isOrder, isPaging), isOrder);
  }

  // ----- Pages

  function Lesser(a: nat, b: nat): nat { if a < b then a else b }

  /** The rows a limit and a start leave of a result. */
  function Window<R>(rows: seq<R>, limit: nat, start: nat): seq<R> {
    rows[Lesser(start, |rows|)..Lesser(start + limit, |rows|)]
  }

  /** The first n pages, one after another. */
  function Pages<R>(rows: seq<R>, size: nat, n: nat): seq<R> {
    if n == 0 then [] else Pages(rows, size, n - 1) + Window(rows, size, (n - 1) * size)
  }

  /** Consecutive pages put together are the unpaged result, as far as they reach. */
  lemma {:induction false} PagesConcatenate<R>(rows: seq<R>, size: nat, n: nat)
    ensures Pages(rows, size, n) == rows[..Lesser(n * size, |rows|)]
    ensures n * size >= |rows| ==> Pages(rows, size, n) == rows
  {
    if n > 0 {
      PagesConcatenate(rows, size, n - 1);
      assert n * size == (n - 1) * size + size;
      assert (n - 1) * size >= 0;
    }
  }

  lemma StartFits(n: nat, size: nat)
    ensures n * size >= 0 && (n * size == Wrap64(n * size) <==> n * size < 0x8000_0000_0000_0000)
  {
  }

  /** The page asked for is the window it should be if and only if its start fits 64 bits. */
  lemma {:induction false} LimitIsAPage(order: seq<Item>, autoIncr: string, isOrder: bool)
    requires DistinctKeys(order) && Setting(order, KNoLimit).None?
    ensures PageOf(order) >= 1 && PageSizeOf(order) >= 1
    ensures LimitOf(After(Begin(autoIncr, isOrder, true), order, isOrder))
            == [Limit(PageSizeOf(order), (PageOf(order) - 1) * PageSizeOf(order))]
            <==> (PageOf(order) - 1) * PageSizeOf(order) < 0x8000_0000_0000_0000
  {
    WalkSummarised(order, autoIncr, isOrder, true);
    StartFits(PageOf(order) - 1, PageSizeOf(order));
  }

  lemma PageKeys()
    ensures forall v: Value :: ItemKind(("page", v)) == KPage && ItemKind(("pagesize", v)) == KPageSize
  {
    assert ToLower("page") == "page" && ToLower("pagesize") == "pagesize";
    assert NameOf(KPage) == "page" && NameOf(KPageSize) == "pagesize";
  }

  lemma WalkOfTwoPages(a: Item, b: Item, isOrder: bool)
    requires ItemKind(a).KPage? && ItemKind(b).KPageSize? && Number(a.1) > 1 && Number(b.1) > 0
    ensures LimitOf(After(Begin("", isOrder, true), [a, b], isOrder))
            == [Limit(Number(b.1), Wrap64((Number(a.1) - 1) * Number(b.1)))]
  {
    assert [a, b][..1] == [a] && [a][..0] == [];
    var w := Visit(Begin("", isOrder, true), a, isOrder);
    assert After(Begin("", isOrder, true), [a], isOrder) == w;
    assert w.page == Number(a.1) && w.paging;
  }

  /** A page far out: the start wraps to a negative number. */
  lemma {:induction false} StartOverflows(isOrder: bool)
    ensures var order: seq<Item> := [("page", Int(0x4000_0000_0000_0000)), ("pagesize", Int(4))];
            DistinctKeys(order) && LimitOf(After(Begin("", isOrder, true), order, isOrder)) == [Limit(4, -4)]
  {
    PageKeys();
    WalkOfTwoPages(("page", Int(0x4000_0000_0000_0000)), ("pagesize", Int(4)), isOrder);
  }
}

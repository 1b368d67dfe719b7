/** In which order a list query returns rows: what its ORDER BY means, and that it is what the request's text asks for. */
module QueryOrder {
  import opened Text
  import opened QueryDefinition
  import opened QuerySort
  import opened QueryParse
  import opened QueryApply
  import QueryLaws

  /** ORDER BY: the first column in which two rows differ decides, the other way round for DESC. */
  predicate Precedes(db: Database, orders: seq<Order>, a: Row, b: Row) {
    orders != [] &&
    var sign := db.compare(a.value(orders[0].column), b.value(orders[0].column));
    if sign == 0 then Precedes(db, orders[1..], a, b)
    else if orders[0].direction == "ASC" then sign < 0
    else orders[0].direction == "DESC" && sign > 0
  }

  predicate Tied(db: Database, column: string, a: Row, b: Row) {
    db.compare(a.value(column), b.value(column)) == 0
  }

  /** Which of two rows a list of sorts asks for first: at the first sort in which they differ it has the smaller value, or
      the greater one when the sort is descending. */
  predicate AskedBefore(db: Database, sorts: seq<Sort>, a: Row, b: Row) {
    exists k :: 0 <= k < |sorts| && DecidesAt(db, sorts, a, b, k)
  }

  predicate DecidesAt(db: Database, sorts: seq<Sort>, a: Row, b: Row, k: nat)
    requires k < |sorts|
  {
    && (forall j :: 0 <= j < k ==> Tied(db, sorts[j].column, a, b))
    && var sign := db.compare(a.value(sorts[k].column), b.value(sorts[k].column));
       if sorts[k].descending then sign > 0 else sign < 0
  }

  lemma AskedStep(db: Database, sorts: seq<Sort>, a: Row, b: Row)
    requires sorts != []
    ensures AskedBefore(db, sorts, a, b)
            <==> DecidesAt(db, sorts, a, b, 0) || (Tied(db, sorts[0].column, a, b) && AskedBefore(db, sorts[1..], a, b))
  {
    forall k | 1 <= k < |sorts|
      ensures DecidesAt(db, sorts, a, b, k) <==> Tied(db, sorts[0].column, a, b) && DecidesAt(db, sorts[1..], a, b, k - 1)
    {
      if Tied(db, sorts[0].column, a, b) && DecidesAt(db, sorts[1..], a, b, k - 1) {
        assert forall j :: 0 < j < k ==> sorts[j] == sorts[1..][j - 1];
      }
      if DecidesAt(db, sorts, a, b, k) {
        assert forall j :: 0 <= j < k - 1 ==> sorts[1..][j] == sorts[j + 1];
      }
    }
    if AskedBefore(db, sorts[1..], a, b) {
      var k :| 0 <= k < |sorts[1..]| && DecidesAt(db, sorts[1..], a, b, k);
      assert DecidesAt(db, sorts, a, b, k + 1) <==> Tied(db, sorts[0].column, a, b);
    }
  }

  /** The ORDER BY that `Apply` builds orders rows as the sorts ask. */
  lemma {:induction false} OrdersMean(db: Database, sorts: seq<Sort>, a: Row, b: Row)
    ensures Precedes(db, Orders(sorts), a, b) <==> AskedBefore(db, sorts, a, b)
    decreases |sorts|
  {
    hide AskedBefore;
    if sorts == [] {
      NothingAsked(db, a, b);
    } else {
      AskedStep(db, sorts, a, b);
      OrdersMean(db, sorts[1..], a, b);
      assert Orders(sorts)[1..] == Orders(sorts[1..]);
    }
  }

  lemma NothingAsked(db: Database, a: Row, b: Row)
    ensures !AskedBefore(db, [], a, b)
  {
  }

  /** One part of the sort parameter: a field's name, after a dash for descending. */
  predicate PartAsks(part: string, sort: Sort, sortable: seq<SortField>) {
    if part != "" && part[0] == '-' then sort.descending && SortField(part[1..], sort.column) in sortable
    else !sort.descending && SortField(part, sort.column) in sortable
  }

  lemma PrintedPartAsks(sort: Sort, sortable: seq<SortField>)
    requires ValidSortable(sortable) && SortField(sort.field, sort.column) in sortable
    ensures PartAsks(PrintSort(sort), sort, sortable)
  {
    var i :| 0 <= i < |sortable| && sortable[i] == SortField(sort.field, sort.column);
    assert IsApiName(sortable[i].name);
    assert sort.field != "" && sort.field[0] != '-';
    if sort.descending {
      assert PrintSort(sort)[1..] == sort.field;
    } else {
      assert PrintSort(sort) == sort.field;
    }
  }

  lemma PrintedHasNoComma(sort: Sort, sortable: seq<SortField>)
    requires ValidSortable(sortable) && SortField(sort.field, sort.column) in sortable
    ensures ',' !in PrintSort(sort)
  {
    var i :| 0 <= i < |sortable| && sortable[i] == SortField(sort.field, sort.column);
    assert IsApiName(sortable[i].name);
    assert forall j :: 0 <= j < |sort.field| ==> NameChar(sort.field[j]);
  }

  lemma SortTextAsks(raw: string, sorts: seq<Sort>, sortable: seq<SortField>)
    requires ValidSortable(sortable) && SortOf(raw, sortable) == Ok(sorts)
    ensures var parts := SplitOn(raw, ',');
            |sorts| == |parts| && forall k :: 0 <= k < |parts| ==> PartAsks(parts[k], sorts[k], sortable)
  {
    hide SortOf, PartAsks, ValidSortable, PrintSort, Join, SplitOn;
    SortParsesExactlyPrinted(raw, sorts, sortable);
    var parts := PrintedParts(sorts);
    forall k | 0 <= k < |parts| ensures ',' !in parts[k] && PartAsks(parts[k], sorts[k], sortable) {
      PrintedHasNoComma(sorts[k], sortable);
      PrintedPartAsks(sorts[k], sortable);
    }
    SplitOnJoin(parts, ',');
  }

  /** An accepted request lists rows in the order that its text asks for: part by part of the sort parameter, a field after a
      dash descending, and without the parameter by the definition's own sorts. */
  lemma AcceptedRequestOrders(parsers: QueryFilter.Parsers, values: Values, keys: seq<string>, definition: Definition, db: Database, a: Row, b: Row)
    requires AreKeys(keys, values) && Parsed(parsers, values, keys, definition).Ok?
    ensures var sorts := Parsed(parsers, values, keys, definition).value.sort;
            (Precedes(db, Orders(sorts), a, b) <==> AskedBefore(db, sorts, a, b))
            && if "sort" in values then
                 |values["sort"]| == 1
                 && var parts := SplitOn(values["sort"][0], ',');
                    |sorts| == |parts| && forall k :: 0 <= k < |parts| ==> PartAsks(parts[k], sorts[k], definition.sortable)
               else
                 |sorts| == |definition.defaultSort|
                 && forall k :: 0 <= k < |sorts| ==>
                      sorts[k].field == definition.defaultSort[k].field && sorts[k].descending == definition.defaultSort[k].descending
                      && SortField(sorts[k].field, sorts[k].column) in definition.sortable
  {
    hide FirstFault, PageOf, PerPageOf, SearchOf, FiltersOf, SortOf, PartAsks, SplitOn, ValidFilters, ValidDefault, Precedes, AskedBefore,
      QueryLaws.FilterFits, FilterOf, QueryLaws.FilterKeys, Columns;
    var sorts := Parsed(parsers, values, keys, definition).value.sort;
    OrdersMean(db, sorts, a, b);
    QueryLaws.AcceptedRequestFits(parsers, values, keys, definition);
    assert OrderOf(values, definition) == Ok(sorts);
    if "sort" in values {
      EmptySortFails(definition.sortable);
      SortTextAsks(First(values, "sort").value, sorts, definition.sortable);
    } else {
      assert sorts == DefaultOrder(definition.defaultSort, Columns(definition.sortable));
    }
  }

  /** A parameter without a value, or with several, reads as "" and is refused. */
  lemma EmptySortFails(sortable: seq<SortField>)
    ensures SortOf("", sortable).Err?
  {
    SplitOfEmpty();
  }
}

/** Pagination of a list endpoint: the page count of api/resource.go, computed in floating point, and the offset and
    limit of query/query.go, computed in 64-bit integers. */
module Paging {
  import opened Numbers

  // 2^53: every integer up to here is a float64.
  const EXACT := 0x20_0000_0000_0000
  const RANGE := 0x1_0000_0000_0000_0000

  predicate ExactAt(round: real -> real, n: nat) {
    round(n as real) == n as real
  }

  /** What the page count needs from rounding to float64 (IEEE 754-2019, section 4.3.1): it is monotone, exact on the
      integers up to 2^53, and within a relative error of 2^-53 on the range of quotients of two positive integers. */
  ghost predicate Rounding(round: real -> real) {
    && (forall x, y :: x <= y ==> round(x) <= round(y))
    && (forall n: nat :: n <= EXACT ==> ExactAt(round, n))
    && (forall x: real :: 1.0 <= x * (RANGE as real) && x <= RANGE as real ==>
          (x - round(x)) * (EXACT as real) <= x && (round(x) - x) * (EXACT as real) <= x)
  }

  function Ceil(x: real): int {
    0 - (-x).Floor
  }

  /** `int(math.Ceil(float64(total) / float64(perPage)))` for a positive total. */
  function PageCount(round: real -> real, total: int, perPage: int): int {
    if total <= 0 || round(perPage as real) == 0.0 then 0
    else Ceil(round(round(total as real) / round(perPage as real)))
  }

  /** The number of pages of `perPage` rows that `total` rows need. */
  function PagesNeeded(total: nat, perPage: nat): nat
    requires perPage >= 1
  {
    (total + perPage - 1) / perPage
  }

  lemma CeilIs(x: real, c: int)
    requires (c - 1) as real < x <= c as real
    ensures Ceil(x) == c
  {
    assert (-x).Floor as real <= -x < (-x).Floor as real + 1.0;
  }

  lemma Scale(a: real, b: real, c: real)
    requires c > 0.0
    ensures a * c <= b * c <==> a <= b
  {
    assert (b - a) * c == b * c - a * c;
  }

  lemma Commutes(a: real, b: real)
    ensures a * b == b * a
  {
  }

  lemma Monotone(round: real -> real, x: real, y: real)
    requires Rounding(round) && x <= y
    ensures round(x) <= round(y)
  {
  }

  lemma ScaleInt(a: int, b: int, c: int)
    requires c > 0
    ensures a * c <= b * c <==> a <= b
  {
    assert (b - a) * c == b * c - a * c;
  }

  lemma NeededBounds(total: nat, perPage: nat)
    requires total >= 1 && perPage >= 1
    ensures var c := PagesNeeded(total, perPage);
            1 <= c <= total && (c - 1) * perPage + 1 <= total <= c * perPage
  {
    var c := PagesNeeded(total, perPage);
    var r := (total + perPage - 1) % perPage;
    assert total + perPage - 1 == c * perPage + r;
    assert (c - 1) * perPage == c * perPage - perPage;
    ScaleInt(c, 0, perPage);
    ScaleInt(c - 1, total - 1, perPage);
    ScaleInt(1, perPage, total);
    assert (total - 1) * perPage == total * perPage - perPage;
    assert (total - 1) * (perPage - 1) == total * perPage - total - perPage + 1;
  }

  lemma QuotientBounds(total: nat, perPage: nat, c: nat)
    requires total >= 1 && perPage >= 1 && c >= 1
    requires (c - 1) * perPage + 1 <= total <= c * perPage
    ensures var q := total as real / perPage as real;
            q * (perPage as real) == total as real && q <= c as real
            && (q - (c - 1) as real) * (perPage as real) >= 1.0
  {
    var p := perPage as real;
    var q := total as real / p;
    assert q * p == total as real;
    assert (c as real) * p == (c * perPage) as real;
    assert ((c - 1) as real) * p == ((c - 1) * perPage) as real;
    assert (q - (c - 1) as real) * p == q * p - ((c - 1) as real) * p;
    Scale(q, c as real, p);
  }

  /** A quotient below 2^53 / perPage is rounded by less than the distance to the integer below it. */
  lemma RoundedAbove(q: real, r: real, low: real, p: real, total: real)
    requires p >= 1.0 && q * p == total && total < EXACT as real
    requires (q - low) * p >= 1.0
    requires (q - r) * (EXACT as real) <= q
    ensures r > low
  {
    var e := EXACT as real;
    Scale((q - r) * e, q, p);
    assert (q - r) * e * p == ((q - r) * p) * e;
    Scale(1.0, (q - r) * p, e);
    Scale(q - low, q - r, p);
  }

  lemma InRange(q: real, p: real, total: real)
    requires 1.0 <= p <= RANGE as real && 1.0 <= total <= RANGE as real && q * p == total
    ensures 0.0 < q && 1.0 <= q * (RANGE as real) && q <= RANGE as real
  {
    Scale(q, 0.0, p);
    assert 0.0 < q;
    var range := RANGE as real;
    Scale(p, range, q);
    Commutes(p, q);
    Commutes(range, q);
    Scale(1.0, p, q);
  }

  lemma RoundedQuotient(round: real -> real, q: real, c: nat, p: real, total: real)
    requires Rounding(round) && 1 <= c <= EXACT && q <= c as real
    requires 1.0 <= p && q * p == total && total < EXACT as real && (q - (c - 1) as real) * p >= 1.0
    requires 1.0 <= q * (RANGE as real) && q <= RANGE as real
    ensures Ceil(round(q)) == c
  {
    hide Ceil;
    RoundedAbove(q, round(q), (c - 1) as real, p, total);
    assert ExactAt(round, c);
    CeilIs(round(q), c);
  }

  lemma CountWithinExact(round: real -> real, total: nat, perPage: nat)
    requires Rounding(round) && 1 <= total < EXACT && 1 <= perPage <= EXACT
    ensures PageCount(round, total, perPage) == PagesNeeded(total, perPage)
  {
    hide PagesNeeded, Ceil;
    var c := PagesNeeded(total, perPage);
    var p := perPage as real;
    var q := total as real / p;
    NeededBounds(total, perPage);
    QuotientBounds(total, perPage, c);
    InRange(q, p, total as real);
    RoundedQuotient(round, q, c, p, total as real);
    assert ExactAt(round, total) && ExactAt(round, perPage);
  }

  lemma OnePage(total: nat, perPage: nat)
    requires 1 <= total <= perPage
    ensures PagesNeeded(total, perPage) == 1
  {
    NeededBounds(total, perPage);
    ScaleInt(2, PagesNeeded(total, perPage), perPage);
  }

  lemma SmallQuotient(round: real -> real, q: real, p: real, total: real)
    requires Rounding(round) && q * p == total && 1.0 <= total <= p <= RANGE as real
    ensures Ceil(round(q)) == 1
  {
    hide Ceil;
    InRange(q, p, total);
    Scale(q, 1.0, p);
    assert q <= 1.0;
    assert ExactAt(round, 1);
    Monotone(round, q, 1 as real);
    assert (q - round(q)) * (EXACT as real) <= q;
    CeilIs(round(q), 1);
  }

  lemma CountOfOneHugePage(round: real -> real, total: nat, perPage: nat)
    requires Rounding(round) && 1 <= total < EXACT && EXACT < perPage <= MAX_INT64
    ensures PageCount(round, total, perPage) == 1 == PagesNeeded(total, perPage)
  {
    hide PagesNeeded, Ceil;
    OnePage(total, perPage);
    var p := round(perPage as real);
    assert ExactAt(round, EXACT) && ExactAt(round, total);
    assert (p - perPage as real) * (EXACT as real) <= perPage as real;
    assert EXACT as real <= p <= RANGE as real;
    var q := total as real / p;
    assert q * p == total as real;
    SmallQuotient(round, q, p, total as real);
  }

  /** The floating-point page count is the integer ceiling, for every page size and every total below 2^53. */
  lemma PageCountIsExact(round: real -> real, total: nat, perPage: nat)
    requires Rounding(round) && total < EXACT && 1 <= perPage <= MAX_INT64
    ensures PageCount(round, total, perPage) == PagesNeeded(total, perPage)
  {
    hide PagesNeeded, Ceil, Rounding;
    if total == 0 {
      NoRowsNoPages(perPage);
    } else if perPage <= EXACT {
      CountWithinExact(round, total, perPage);
    } else {
      CountOfOneHugePage(round, total, perPage);
    }
  }

  /** What else holds of rounding to float64: it keeps the floats, and from 2^53 on these are integers. */
  ghost predicate FloatRounding(round: real -> real) {
    && Rounding(round)
    && (forall x :: round(round(x)) == round(x))
    && (forall x :: x >= EXACT as real ==> round(x) == round(x).Floor as real)
  }

  /** With one row a page, for every total: the count is right exactly when the total is a float64. */
  lemma OneRowPages(round: real -> real, total: nat)
    requires FloatRounding(round)
    ensures PageCount(round, total, 1) == PagesNeeded(total, 1) <==> ExactAt(round, total)
  {
    hide Rounding;
    if total < EXACT {
      PageCountIsExact(round, total, 1);
      SmallIsExact(round, total);
    } else {
      SmallIsExact(round, 1);
      var r := round(total as real);
      assert r / 1.0 == r;
      CeilIs(r, r.Floor);
    }
  }

  lemma SmallIsExact(round: real -> real, n: nat)
    requires Rounding(round) && n <= EXACT
    ensures ExactAt(round, n)
  {
  }

  /** One such total: rounding half to even takes 2^53 + 1 to 2^53, and the last page is lost. */
  lemma PageCountLosesAPage(round: real -> real)
    requires Rounding(round) && round((EXACT + 1) as real) == EXACT as real
    ensures PageCount(round, EXACT + 1, 1) == EXACT && PagesNeeded(EXACT + 1, 1) == EXACT + 1
  {
    assert ExactAt(round, 1) && ExactAt(round, EXACT);
    assert EXACT as real / 1.0 == EXACT as real;
    CeilIs(EXACT as real, EXACT);
  }

  // ---------------------------------------------------------------------------------- offset and limit

  /** Two's-complement reading of an integer in 64 bits. */
  function Wrapped(x: int): int {
    (x - MIN_INT64) % RANGE + MIN_INT64
  }

  /** The offset `ApplyPagination` asks for; its limit is `perPage`. */
  function Offset(page: int, perPage: int): int {
    Wrapped(Wrapped(page - 1) * perPage)
  }

  /** The rows a query with this offset and limit returns from a fixed result order. */
  function Window<Row>(rows: seq<Row>, offset: nat, limit: nat): seq<Row> {
    var low := if offset <= |rows| then offset else |rows|;
    var high := if offset + limit <= |rows| then offset + limit else |rows|;
    rows[low..high]
  }

  /** Pages `1` to `last`, one after the other. */
  function Listed<Row>(rows: seq<Row>, perPage: nat, last: nat): seq<Row> {
    if last == 0 then []
    else Listed(rows, perPage, last - 1) + (if Offset(last, perPage) < 0 then [] else Window(rows, Offset(last, perPage), perPage))
  }

  /** The requested offset is the intended one exactly when the intended one fits in 64 bits. */
  lemma OffsetIsExact(page: int, perPage: int)
    requires 1 <= page <= MAX_INT64 && 1 <= perPage <= MAX_INT64
    ensures Offset(page, perPage) == (page - 1) * perPage <==> (page - 1) * perPage <= MAX_INT64
    ensures MIN_INT64 <= Offset(page, perPage) <= MAX_INT64
  {
    assert Wrapped(page - 1) == page - 1;
    assert (page - 1) * perPage >= 0;
  }

  /** A page far past the end can wrap around to the first row. */
  lemma FarPageRepeatsTheFirst<Row>(rows: seq<Row>)
    ensures var page := 0x4000_0000_0000_0001;
            Offset(page, 4) == 0 && Window(rows, 0, 4) == (if |rows| <= 4 then rows else rows[..4])
  {
    assert Wrapped(0x4000_0000_0000_0000) == 0x4000_0000_0000_0000;
  }

  lemma NextWindow<Row>(rows: seq<Row>, low: nat, perPage: nat)
    requires low <= |rows| && perPage >= 1
    ensures rows[..low] + Window(rows, low, perPage) == (if low + perPage <= |rows| then rows[..low + perPage] else rows)
  {
  }

  lemma {:induction false} ListedIsPrefix<Row>(rows: seq<Row>, perPage: nat, last: nat)
    requires 1 <= perPage <= MAX_INT64
    requires last >= 1 ==> (last - 1) * perPage <= |rows| && |rows| <= MAX_INT64
    ensures Listed(rows, perPage, last) == (if last * perPage <= |rows| then rows[..last * perPage] else rows)
  {
    hide Window, Offset;
    if last >= 1 {
      var low := (last - 1) * perPage;
      assert last * perPage == low + perPage;
      assert last >= 2 ==> (last - 2) * perPage == low - perPage;
      ListedIsPrefix(rows, perPage, last - 1);
      OffsetIsExactFrom(last, perPage);
      NextWindow(rows, low, perPage);
    }
  }

  lemma OffsetIsExactFrom(page: int, perPage: int)
    requires 1 <= page && 1 <= perPage <= MAX_INT64 && (page - 1) * perPage <= MAX_INT64
    ensures Offset(page, perPage) == (page - 1) * perPage && (page - 1) * perPage >= 0
  {
    assert 0 <= page - 1 <= (page - 1) * perPage;
    assert Wrapped(page - 1) == page - 1;
  }

  lemma NeededPagesList<Row>(rows: seq<Row>, perPage: nat)
    requires |rows| < EXACT && 1 <= perPage <= MAX_INT64
    ensures Listed(rows, perPage, PagesNeeded(|rows|, perPage)) == rows
  {
    hide Window, Offset, PagesNeeded;
    if |rows| == 0 {
      NoRowsNoPages(perPage);
    } else {
      NeededBounds(|rows|, perPage);
      ListedIsPrefix(rows, perPage, PagesNeeded(|rows|, perPage));
    }
  }

  /** A page whose offset does not wrap has rows exactly when it is one of the needed pages. */
  lemma PageHasRows<Row>(rows: seq<Row>, perPage: nat, page: nat)
    requires |rows| < EXACT && 1 <= perPage <= MAX_INT64 && 1 <= page && (page - 1) * perPage <= MAX_INT64
    ensures 0 <= Offset(page, perPage)
    ensures Window(rows, Offset(page, perPage), perPage) != [] <==> page <= PagesNeeded(|rows|, perPage)
  {
    hide Offset, PagesNeeded;
    OffsetIsExactFrom(page, perPage);
    var low := (page - 1) * perPage;
    if |rows| == 0 {
      NoRowsNoPages(perPage);
    } else {
      var c := PagesNeeded(|rows|, perPage);
      NeededBounds(|rows|, perPage);
      ScaleInt(page - 1, c - 1, perPage);
      ScaleInt(c, page - 1, perPage);
    }
  }

  /** Pages 1 to the reported count list every row once, in order, each with some rows; a later page is empty
      unless its offset wraps. */
  lemma PagesPartitionTheRows<Row>(round: real -> real, rows: seq<Row>, perPage: nat, page: nat)
    requires Rounding(round) && |rows| < EXACT && 1 <= perPage <= MAX_INT64 && page >= 1
    ensures var count := PageCount(round, |rows|, perPage);
            count >= 0 && Listed(rows, perPage, count) == rows
            && (page <= count ==> (page - 1) * perPage <= MAX_INT64)
            && ((page - 1) * perPage <= MAX_INT64 ==>
                  0 <= Offset(page, perPage)
                  && (Window(rows, Offset(page, perPage), perPage) != [] <==> page <= count))
  {
    hide PageCount, PagesNeeded, Offset, Listed, Window, Rounding;
    PageCountIsExact(round, |rows|, perPage);
    NeededPagesList(rows, perPage);
    var count := PageCount(round, |rows|, perPage);
    if page <= count {
      assert |rows| > 0 by {
        assert |rows| == 0 ==> PagesNeeded(0, perPage) == 0 by {
          NoRowsNoPages(perPage);
        }
      }
      NeededBounds(|rows|, perPage);
      ScaleInt(page - 1, count - 1, perPage);
    }
    if (page - 1) * perPage <= MAX_INT64 {
      PageHasRows(rows, perPage, page);
    }
  }

  lemma NoRowsNoPages(perPage: nat)
    requires perPage >= 1
    ensures PagesNeeded(0, perPage) == 0
  {
  }
}

/** The pages of a filtered queue, and the links between them. */
module QueuePaging {
  import opened Text

  const QUEUE_PAGE_SIZE: nat := 25
  const QUEUE_PAGE_WINDOW: nat := 2

  datatype Row = Row(id: string, effectId: string, description: string, reversibility: string)

  /** The page size asked for: a number, the word for all, or text that is neither. */
  datatype PerArg = PerNumber(n: int) | PerAll | PerJunk

  /** The page asked for; `None` when it is no number. */
  type PageArg = Option<int>

  /** A page size as a row count, 0 for every matching row. */
  function NormalisePer(per: PerArg): nat {
    match per
    case PerAll => 0
    case PerJunk => QUEUE_PAGE_SIZE
    case PerNumber(n) => if n <= 0 then 0 else n
  }

  predicate RowMatches(row: Row, lower: string -> string, needle: string) {
    || Contains(lower(row.id), lower(needle)) || Contains(lower(row.effectId), lower(needle))
    || Contains(lower(row.description), lower(needle)) || Contains(lower(row.reversibility), lower(needle))
  }

  function Filter(rows: seq<Row>, lower: string -> string, needle: string): seq<Row> {
    if rows == [] then []
    else (if RowMatches(rows[0], lower, needle) then [rows[0]] else []) + Filter(rows[1..], lower, needle)
  }

  function Matches(rows: seq<Row>, lower: string -> string, query: string): seq<Row> {
    if Strip(query) == [] then rows else Filter(rows, lower, Strip(query))
  }

  /** A link to a page of the same search: parameters at their default are left out. */
  datatype Link = Link(q: Option<string>, page: Option<int>, per: Option<PerArg>)

  function Href(needle: string, page: int, per: nat): Link {
    Link(if needle == [] then None else Some(needle),
         if page > 1 then Some(page) else None,
         if per == QUEUE_PAGE_SIZE then None else Some(if per == 0 then PerAll else PerNumber(per)))
  }

  datatype Page = Page(
    total: nat, matching: nat, firstIndex: nat, lastIndex: int, query: string, rows: seq<Row>, per: nat,
    page: nat, pages: nat, prevHref: Option<Link>, nextHref: Option<Link>, numbers: set<int>)

  /** Ceiling division. */
  function PagesFor(matching: nat, per: nat): (n: nat)
    requires per > 0
    ensures n >= 1
  {
    var n := (matching + per - 1) / per;
    if n < 1 then 1 else n
  }

  function Slice(matches: seq<Row>, from: nat, count: nat): seq<Row> {
    if from >= |matches| then [] else if from + count >= |matches| then matches[from..] else matches[from..from + count]
  }

  function Clamp(page: PageArg, pages: nat): nat
    requires pages >= 1
  {
    var p := if page.Some? then page.value else 1;
    if p < 1 then 1 else if p > pages then pages else p
  }

  function Between(low: int, high: int): (s: set<int>)
    ensures forall n :: n in s <==> low <= n <= high
    decreases high - low
  {
    if low > high then {} else {low} + Between(low + 1, high)
  }

  /** One page of the queue, and the way to every other. */
  function QueuePage(rows: seq<Row>, lower: string -> string, query: string, page: PageArg, perArg: PerArg): Page {
    var needle, matches, per := Strip(query), Matches(rows, lower, query), NormalisePer(perArg);
    var pages := if per == 0 then 1 else PagesFor(|matches|, per);
    var current := if per == 0 then 1 else Clamp(page, pages);
    var visible := if per == 0 then matches else Slice(matches, (current - 1) * per, per);
    var first := if visible == [] then 0 else (current - 1) * per + 1;
    var last := if visible == [] then 0 else first + |visible| - 1;
    var low := if current - QUEUE_PAGE_WINDOW > 1 then current - QUEUE_PAGE_WINDOW else 1;
    var high := if current + QUEUE_PAGE_WINDOW < pages then current + QUEUE_PAGE_WINDOW else pages;
    Page(|rows|, |matches|, first, last, needle, visible, per, current, pages,
         if current > 1 then Some(Href(needle, current - 1, per)) else None,
         if current < pages then Some(Href(needle, current + 1, per)) else None,
         if pages > 1 then {1, pages} + Between(low, high) else {})
  }

  /** What a link leads to: the same queue under the link's parameters, defaults filled in. */
  function FollowLink(rows: seq<Row>, lower: string -> string, link: Link): Page {
    QueuePage(rows, lower, if link.q.Some? then link.q.value else "", if link.page.Some? then link.page else Some(1),
              if link.per.Some? then link.per.value else PerNumber(QUEUE_PAGE_SIZE))
  }

  // ---- every matching row on exactly one page ----

  lemma PagesBound(matching: nat, per: nat)
    requires per > 0
    ensures var pages := PagesFor(matching, per);
            pages >= 1 && matching <= pages * per
  {
  }

  ghost predicate OnPage(per: nat, c: int, i: nat) {
    (c - 1) * per <= i < (c - 1) * per + per
  }

  /** The matches shown on one page. */
  lemma RowsOfPage(rows: seq<Row>, lower: string -> string, query: string, perArg: PerArg, c: int)
    requires NormalisePer(perArg) > 0
    requires 1 <= c <= QueuePage(rows, lower, query, Some(c), perArg).pages
    ensures var p, matches, from := QueuePage(rows, lower, query, Some(c), perArg), Matches(rows, lower, query),
                                    (c - 1) * NormalisePer(perArg);
            && p.page == c && from >= 0
            && p.rows == matches[Min(from, |matches|)..Min(from + NormalisePer(perArg), |matches|)]
            && (p.rows != [] ==> p.firstIndex == from + 1 && p.lastIndex == from + |p.rows|)
            && (p.rows == [] ==> p.firstIndex == 0 && p.lastIndex == 0)
  {
    hide *;
    MulKeepsOrder(0, c - 1, NormalisePer(perArg));
    PageIsInRange(rows, lower, query, Some(c), perArg);
    PageShows(rows, lower, query, Some(c), perArg);
    SliceBetween(Matches(rows, lower, query), (c - 1) * NormalisePer(perArg), NormalisePer(perArg));
  }

  lemma PageShows(rows: seq<Row>, lower: string -> string, query: string, page: PageArg, perArg: PerArg)
    requires NormalisePer(perArg) > 0
    ensures var p, per := QueuePage(rows, lower, query, page, perArg), NormalisePer(perArg);
            && p.page >= 1 && (p.page - 1) * per >= 0
            && p.rows == Slice(Matches(rows, lower, query), (p.page - 1) * per, per)
            && p.firstIndex == (if p.rows == [] then 0 else (p.page - 1) * per + 1)
            && p.lastIndex == (if p.rows == [] then 0 else (p.page - 1) * per + |p.rows|)
  {
    hide Matches, Strip, PagesFor, Between, Href, Slice;
    MulKeepsOrder(0, QueuePage(rows, lower, query, page, perArg).page - 1, NormalisePer(perArg));
  }

  lemma SliceBetween(matches: seq<Row>, from: nat, count: nat)
    ensures Slice(matches, from, count) == matches[Min(from, |matches|)..Min(from + count, |matches|)]
  {
  }

  /** Row `i` of the matches is on page `c` exactly when the page's index range covers it, and then at its place. */
  lemma RowOnItsPage(rows: seq<Row>, lower: string -> string, query: string, perArg: PerArg, c: int, i: nat)
    requires NormalisePer(perArg) > 0
    requires var p := QueuePage(rows, lower, query, Some(c), perArg);
             1 <= c <= p.pages && i < |Matches(rows, lower, query)|
    ensures var p, matches, from := QueuePage(rows, lower, query, Some(c), perArg), Matches(rows, lower, query),
                                    (c - 1) * NormalisePer(perArg);
            && (p.firstIndex <= i + 1 <= p.lastIndex <==> OnPage(NormalisePer(perArg), c, i))
            && (OnPage(NormalisePer(perArg), c, i) ==> 0 <= i - from < |p.rows| && p.rows[i - from] == matches[i])
  {
    hide QueuePage, Matches;
    RowsOfPage(rows, lower, query, perArg, c);
  }

  lemma QuotientIs(i: nat, per: nat, q: int)
    requires per > 0 && q * per <= i < q * per + per
    ensures i / per == q
  {
    var d := i / per;
    assert i == d * per + i % per;
    assert (q + 1) * per == q * per + per && (d + 1) * per == d * per + per;
    if d > q {
      MulKeepsOrder(q + 1, d, per);
    } else if d < q {
      MulKeepsOrder(d + 1, q, per);
    }
  }

  lemma OnQuotientPage(per: nat, i: nat)
    requires per > 0
    ensures OnPage(per, i / per + 1, i)
  {
  }

  lemma QuotientPageExists(matching: nat, per: nat, i: nat)
    requires per > 0 && i < matching
    ensures i / per < PagesFor(matching, per)
  {
    hide PagesFor;
    var q, pages := i / per, PagesFor(matching, per);
    PagesBound(matching, per);
    assert i == q * per + i % per;
    if q >= pages {
      MulKeepsOrder(pages, q, per);
    }
  }

  /** The pages partition the matches: row `i` is on page `i / per + 1`, which there is, and on that one alone. */
  lemma ExactlyOnePage(matching: nat, per: nat, i: nat)
    requires per > 0 && i < matching
    ensures 1 <= i / per + 1 <= PagesFor(matching, per)
    ensures forall c: int :: OnPage(per, c, i) <==> c == i / per + 1
  {
    hide PagesFor;
    QuotientPageExists(matching, per, i);
    forall c: int
      ensures OnPage(per, c, i) <==> c == i / per + 1
    {
      OnQuotientPage(per, i);
      if OnPage(per, c, i) {
        QuotientIs(i, per, c - 1);
      }
    }
  }

  /** A page is empty only when nothing matches at all. */
  lemma NoEmptyPage(rows: seq<Row>, lower: string -> string, query: string, perArg: PerArg, page: PageArg)
    ensures QueuePage(rows, lower, query, page, perArg).rows == [] <==> Matches(rows, lower, query) == []
  {
    hide QueuePage, Matches, PagesFor, Slice, NormalisePer;
    var p, per := QueuePage(rows, lower, query, page, perArg), NormalisePer(perArg);
    var matching := |Matches(rows, lower, query)|;
    if per == 0 {
      ShowsAll(rows, lower, query, perArg, page);
    } else {
      PageIsInRange(rows, lower, query, page, perArg);
      PageShows(rows, lower, query, page, perArg);
      PagesAre(rows, lower, query, perArg, page);
      SliceBetween(Matches(rows, lower, query), (p.page - 1) * per, per);
      if matching > 0 {
        LastPageStarts(matching, per);
        MulKeepsOrder(p.page - 1, p.pages - 1, per);
        assert Min((p.page - 1) * per, matching) < Min((p.page - 1) * per + per, matching);
      }
    }
  }

  lemma ShowsAll(rows: seq<Row>, lower: string -> string, query: string, perArg: PerArg, page: PageArg)
    requires NormalisePer(perArg) == 0
    ensures var p := QueuePage(rows, lower, query, page, perArg);
            p.pages == 1 && p.rows == Matches(rows, lower, query)
  {
  }

  lemma PagesAre(rows: seq<Row>, lower: string -> string, query: string, perArg: PerArg, page: PageArg)
    requires NormalisePer(perArg) > 0
    ensures var pages := PagesFor(|Matches(rows, lower, query)|, NormalisePer(perArg));
            QueuePage(rows, lower, query, page, perArg).pages == pages
  {
  }

  lemma LastPageStarts(matching: nat, per: nat)
    requires per > 0 && matching > 0
    ensures (PagesFor(matching, per) - 1) * per < matching
  {
  }

  // ---- the search ----

  predicate Found(row: Row, lower: string -> string, query: string) {
    Strip(query) == [] || RowMatches(row, lower, Strip(query))
  }

  lemma {:induction false} FilterSplits(a: seq<Row>, b: seq<Row>, lower: string -> string, needle: string)
    ensures Filter(a + b, lower, needle) == Filter(a, lower, needle) + Filter(b, lower, needle)
  {
    hide RowMatches;
    if a == [] {
      assert a + b == b;
    } else {
      assert (a + b)[1..] == a[1..] + b;
      FilterSplits(a[1..], b, lower, needle);
      var head := if RowMatches(a[0], lower, needle) then [a[0]] else [];
      RegroupRows(head, Filter(a[1..], lower, needle), Filter(b, lower, needle));
    }
  }

  lemma RegroupRows(a: seq<Row>, m: seq<Row>, z: seq<Row>)
    ensures a + (m + z) == a + m + z
  {
  }

  lemma MatchesSplit(a: seq<Row>, b: seq<Row>, lower: string -> string, query: string)
    ensures Matches(a + b, lower, query) == Matches(a, lower, query) + Matches(b, lower, query)
  {
    FilterSplits(a, b, lower, Strip(query));
  }

  /** The matches are the rows found, in queue order: the one at `k` comes after those found before it, and there are
      no others. */
  lemma {:induction false} MatchesExactly(rows: seq<Row>, lower: string -> string, query: string, k: nat)
    requires k < |rows|
    ensures var before, matches := Matches(rows[..k], lower, query), Matches(rows, lower, query);
            if Found(rows[k], lower, query) then |before| < |matches| && before + [rows[k]] == matches[..|before| + 1]
            else Matches(rows[..k + 1], lower, query) == before
  {
    hide Strip, RowMatches;
    var front := rows[..k] + [rows[k]];
    MatchesSplit(rows[..k], [rows[k]], lower, query);
    MatchesSplit(front, rows[k + 1..], lower, query);
    assert rows[..k + 1] == front && rows == front + rows[k + 1..];
    assert Filter([rows[k]][1..], lower, Strip(query)) == [];
  }

  /** A search for text that stands in the id, the effect id, the description or the class of a row finds it, and one
      for text that stands in none of them does not; a blank search finds every row. */
  lemma FoundByFields(row: Row, lower: string -> string, query: string)
    ensures var needle := lower(Strip(query));
            Matches([row], lower, query)
            == if || Strip(query) == [] || Contains(lower(row.id), needle) || Contains(lower(row.effectId), needle)
                  || Contains(lower(row.description), needle) || Contains(lower(row.reversibility), needle)
               then [row] else []
  {
    hide RowMatches;
    MatchesByFields(row, lower, Strip(query));
    assert [row][1..] == [];
    assert Filter([row][1..], lower, Strip(query)) == [];
    assert Filter([row], lower, Strip(query)) == if RowMatches(row, lower, Strip(query)) then [row] else [];
  }

  lemma MatchesByFields(row: Row, lower: string -> string, needle: string)
    ensures RowMatches(row, lower, needle)
       <==> || Contains(lower(row.id), lower(needle)) || Contains(lower(row.effectId), lower(needle))
            || Contains(lower(row.description), lower(needle)) || Contains(lower(row.reversibility), lower(needle))
  {
  }

  /** Lower-casing character by character, every row is found by any trimmed part of any of the four. */
  lemma FoundByPart(row: Row, lower: string -> string, a: string, part: string, z: string)
    requires Trimmed(part) && forall x, y :: lower(x + y) == lower(x) + lower(y)
    requires a + part + z in {row.id, row.effectId, row.description, row.reversibility}
    ensures Matches([row], lower, part) == [row]
  {
    StripTrimmed(part);
    FoundByFields(row, lower, part);
    assert lower(a + part + z) == lower(a + part) + lower(z) == lower(a) + lower(part) + lower(z);
    ContainsMiddle(lower(a), lower(part), lower(z));
  }

  /** The sizes a page can have, and the counts it states. */
  lemma PageByFields(rows: seq<Row>, lower: string -> string, query: string, page: PageArg, n: int)
    ensures QueuePage(rows, lower, query, page, PerJunk).per == 25
    ensures QueuePage(rows, lower, query, page, PerAll).per == 0
    ensures QueuePage(rows, lower, query, page, PerNumber(n)).per == if n <= 0 then 0 else n
    ensures var p := QueuePage(rows, lower, query, page, PerNumber(n));
            p.total == |rows| && p.matching == |Matches(rows, lower, query)| && p.query == Strip(query)
  {
    hide Matches, Strip, PagesFor, Slice, Between, Href;
  }

  /** A link names search, page and size, except a blank search, the first page and the usual size. */
  lemma LinkByFields(needle: string, page: int, per: nat)
    ensures Href(needle, page, per)
         == Link(if needle == "" then None else Some(needle), if page <= 1 then None else Some(page),
                 if per == 25 then None else if per == 0 then Some(PerAll) else Some(PerNumber(per)))
  {
  }

  /** Every held row a search finds can be reached: it stands on a page there is, at a place fixed by how many rows were
      found before it. */
  lemma EveryFoundRowIsReachable(rows: seq<Row>, lower: string -> string, query: string, perArg: PerArg, k: nat)
    requires k < |rows| && Found(rows[k], lower, query) && NormalisePer(perArg) > 0
    ensures var i := |Matches(rows[..k], lower, query)|;
            var c, at := i / NormalisePer(perArg) + 1, i % NormalisePer(perArg);
            var p := QueuePage(rows, lower, query, Some(c), perArg);
            c <= p.pages && at < |p.rows| && p.rows[at] == rows[k]
  {
    hide *;
    var per, i, matches := NormalisePer(perArg), |Matches(rows[..k], lower, query)|, Matches(rows, lower, query);
    MatchesExactly(rows, lower, query, k);
    assert matches[i] == (Matches(rows[..k], lower, query) + [rows[k]])[i];
    ExactlyOnePage(|matches|, per, i);
    OnQuotientPage(per, i);
    PagesAre(rows, lower, query, perArg, Some(i / per + 1));
    RowOnItsPage(rows, lower, query, perArg, i / per + 1, i);
    assert i == i / per * per + i % per;
    assert i / per + 1 - 1 == i / per;
  }

  // ---- reading every page ----

  function PagesUpTo(rows: seq<Row>, lower: string -> string, query: string, perArg: PerArg, k: nat): seq<Row> {
    if k == 0 then []
    else PagesUpTo(rows, lower, query, perArg, k - 1) + QueuePage(rows, lower, query, Some(k), perArg).rows
  }

  lemma {:induction false} PagesConcatenate(
    rows: seq<Row>, lower: string -> string, query: string, perArg: PerArg, k: nat)
    requires NormalisePer(perArg) > 0
    requires k <= QueuePage(rows, lower, query, Some(1), perArg).pages
    ensures var matches := Matches(rows, lower, query);
            PagesUpTo(rows, lower, query, perArg, k) == matches[..Min(k * NormalisePer(perArg), |matches|)]
  {
    hide QueuePage, Matches;
    if k > 0 {
      var per, matches := NormalisePer(perArg), Matches(rows, lower, query);
      PagesConcatenate(rows, lower, query, perArg, k - 1);
      SamePages(rows, lower, query, perArg, Some(1), Some(k));
      RowsOfPage(rows, lower, query, perArg, k);
      assert k * per == (k - 1) * per + per;
      TakeThenSlice(matches, Min((k - 1) * per, |matches|), Min(k * per, |matches|));
    }
  }

  lemma TakeThenSlice<T>(s: seq<T>, i: nat, j: nat)
    requires i <= j <= |s|
    ensures s[..i] + s[i..j] == s[..j]
  {
  }

  lemma SamePages(rows: seq<Row>, lower: string -> string, query: string, perArg: PerArg,
                  page1: PageArg, page2: PageArg)
    ensures QueuePage(rows, lower, query, page1, perArg).pages == QueuePage(rows, lower, query, page2, perArg).pages
  {
  }

  /** Reading every page from first to last is reading every matching row, in order, once. */
  lemma AllPagesAreAllMatches(rows: seq<Row>, lower: string -> string, query: string, perArg: PerArg)
    ensures var p := QueuePage(rows, lower, query, Some(1), perArg);
            && PagesUpTo(rows, lower, query, perArg, p.pages) == Matches(rows, lower, query)
            && p.matching == |PagesUpTo(rows, lower, query, perArg, p.pages)|
  {
    var matches, per := Matches(rows, lower, query), NormalisePer(perArg);
    if per == 0 {
      assert PagesUpTo(rows, lower, query, perArg, 0) == [];
    } else {
      PagesConcatenate(rows, lower, query, perArg, PagesFor(|matches|, per));
      PagesBound(|matches|, per);
    }
  }

  // ---- links ----

  lemma NeedleIsStripped(query: string)
    ensures Strip(Strip(query)) == Strip(query)
  {
  }

  function Distance(a: int, b: int): nat {
    if a < b then b - a else a - b
  }

  /** Whatever page is asked for, the page shown is the nearest there is (the first if no number was asked for), and
      numbered links stay in range and reach both ends. */
  lemma PageIsInRange(rows: seq<Row>, lower: string -> string, query: string, page: PageArg, perArg: PerArg)
    ensures var p := QueuePage(rows, lower, query, page, perArg);
            && 1 <= p.page <= p.pages
            && (p.pages > 1 ==> {1, p.page, p.pages} <= p.numbers && forall n <- p.numbers :: 1 <= n <= p.pages)
            && (page.Some? && 1 <= page.value <= p.pages ==> p.page == page.value)
            && (page.Some? ==>
                  forall c: int | 1 <= c <= p.pages :: Distance(p.page, page.value) <= Distance(c, page.value))
            && (page.None? ==> p.page == 1)
  {
  }

  lemma HrefsOf(rows: seq<Row>, lower: string -> string, query: string, page: PageArg, perArg: PerArg)
    ensures var p, per := QueuePage(rows, lower, query, page, perArg), NormalisePer(perArg);
            && p.nextHref == (if p.page < p.pages then Some(Href(Strip(query), p.page + 1, per)) else None)
            && p.prevHref == (if p.page > 1 then Some(Href(Strip(query), p.page - 1, per)) else None)
  {
  }

  /** There is a next link exactly before the last page and a previous one exactly after the first, and each leads where
      it says: one page on and one page back in the same search at the same size. */
  lemma LinksLeadToNeighbours(rows: seq<Row>, lower: string -> string, query: string, page: PageArg, perArg: PerArg)
    ensures var p := QueuePage(rows, lower, query, page, perArg);
            && (p.nextHref.Some? <==> p.page < p.pages) && (p.prevHref.Some? <==> p.page > 1)
            && (p.nextHref.Some? ==>
                  var q := QueuePage(rows, lower, query, Some(p.page + 1), perArg);
                  FollowLink(rows, lower, p.nextHref.value) == q && q.page == p.page + 1)
            && (p.prevHref.Some? ==>
                  var q := QueuePage(rows, lower, query, Some(p.page - 1), perArg);
                  FollowLink(rows, lower, p.prevHref.value) == q && q.page == p.page - 1)
  {
    hide *;
    var p := QueuePage(rows, lower, query, page, perArg);
    HrefsOf(rows, lower, query, page, perArg);
    PageIsInRange(rows, lower, query, page, perArg);
    if p.nextHref.Some? {
      LinkRoundTrip(rows, lower, query, p.page + 1, perArg);
      SamePages(rows, lower, query, perArg, page, Some(p.page + 1));
      PageIsInRange(rows, lower, query, Some(p.page + 1), perArg);
    }
    if p.prevHref.Some? {
      LinkRoundTrip(rows, lower, query, p.page - 1, perArg);
      SamePages(rows, lower, query, perArg, page, Some(p.page - 1));
      PageIsInRange(rows, lower, query, Some(p.page - 1), perArg);
    }
  }

  /** A page is determined by the trimmed search, the page and the row count. */
  lemma SamePage(rows: seq<Row>, lower: string -> string, query1: string, query2: string, page: PageArg,
                 per1: PerArg, per2: PerArg)
    requires Strip(query1) == Strip(query2) && NormalisePer(per1) == NormalisePer(per2)
    ensures QueuePage(rows, lower, query1, page, per1) == QueuePage(rows, lower, query2, page, per2)
  {
    hide Strip, Filter, PagesFor, Between, Href, Slice;
    assert Matches(rows, lower, query1) == Matches(rows, lower, query2);
  }

  /** A link carries search, page and size through: following it shows the page it was made for. */
  lemma LinkRoundTrip(rows: seq<Row>, lower: string -> string, query: string, page: int, perArg: PerArg)
    requires page >= 1
    ensures var link := Href(Strip(query), page, NormalisePer(perArg));
            FollowLink(rows, lower, link) == QueuePage(rows, lower, query, Some(page), perArg)
  {
    hide QueuePage;
    NeedleIsStripped(query);
    var per, needle := NormalisePer(perArg), Strip(query);
    var perArg' := if per == QUEUE_PAGE_SIZE then PerNumber(QUEUE_PAGE_SIZE)
                   else if per == 0 then PerAll else PerNumber(per);
    assert Strip(if needle == [] then "" else needle) == needle;
    SamePage(rows, lower, if needle == [] then "" else needle, query, Some(page), perArg', perArg);
  }

  /** The page reached from the first one by following `k` next links. */
  function Walk(rows: seq<Row>, lower: string -> string, query: string, perArg: PerArg, k: nat): Page {
    if k == 0 then QueuePage(rows, lower, query, Some(1), perArg)
    else
      var p := Walk(rows, lower, query, perArg, k - 1);
      if p.nextHref.Some? then FollowLink(rows, lower, p.nextHref.value) else p
  }

  /** Next links from the first page visit every page, in order, and end at the last. */
  lemma {:induction false} NextLinksVisitEveryPage(
    rows: seq<Row>, lower: string -> string, query: string, perArg: PerArg, k: nat)
    ensures var p := QueuePage(rows, lower, query, Some(1), perArg);
            && Walk(rows, lower, query, perArg, k) == QueuePage(rows, lower, query, Some(Min(k + 1, p.pages)), perArg)
            && Walk(rows, lower, query, perArg, k).page == Min(k + 1, p.pages)
  {
    hide QueuePage, FollowLink;
    var pages := QueuePage(rows, lower, query, Some(1), perArg).pages;
    PageIsInRange(rows, lower, query, Some(1), perArg);
    if k > 0 {
      NextLinksVisitEveryPage(rows, lower, query, perArg, k - 1);
      SamePages(rows, lower, query, perArg, Some(1), Some(Min(k, pages)));
      PageIsInRange(rows, lower, query, Some(Min(k, pages)), perArg);
      LinksLeadToNeighbours(rows, lower, query, Some(Min(k, pages)), perArg);
    }
  }

  // ---- how far numbered links reach ----

  ghost predicate Hop(rows: seq<Row>, lower: string -> string, query: string, perArg: PerArg, a: int, b: int) {
    b in QueuePage(rows, lower, query, Some(a), perArg).numbers
  }

  /** Numbered links lead to the first page, the last, and those at most two away. */
  lemma HopsAre(rows: seq<Row>, lower: string -> string, query: string, perArg: PerArg, a: int, b: int)
    ensures var pages := QueuePage(rows, lower, query, Some(1), perArg).pages;
            pages > 1 && 1 <= a <= pages ==>
              (Hop(rows, lower, query, perArg, a, b)
               <==> 1 <= b <= pages && (b == 1 || b == pages || Distance(a, b) <= QUEUE_PAGE_WINDOW))
  {
    hide Matches, Strip, PagesFor, Slice, Href;
  }

  ghost predicate WithinTwoHops(rows: seq<Row>, lower: string -> string, query: string, perArg: PerArg, a: int, b: int)
  {
    exists m :: 1 <= m <= QueuePage(rows, lower, query, Some(1), perArg).pages
                && Hop(rows, lower, query, perArg, a, m) && Hop(rows, lower, query, perArg, m, b)
  }

  lemma TwoHopsSuffice(rows: seq<Row>, lower: string -> string, query: string, perArg: PerArg, a: int, b: int)
    requires var pages := QueuePage(rows, lower, query, Some(1), perArg).pages;
             1 < pages <= 8 && 1 <= a <= pages && 1 <= b <= pages
    ensures WithinTwoHops(rows, lower, query, perArg, a, b)
  {
    hide QueuePage, Hop;
    var pages := QueuePage(rows, lower, query, Some(1), perArg).pages;
    var m := if Distance(a, b) <= 2 then b else if Distance(a, b) <= 4 then (if a < b then a + 2 else a - 2)
             else if b <= 3 then 1 else pages;
    HopsAre(rows, lower, query, perArg, a, m);
    HopsAre(rows, lower, query, perArg, m, b);
  }

  lemma SixIsTooFar(rows: seq<Row>, lower: string -> string, query: string, perArg: PerArg)
    ensures QueuePage(rows, lower, query, Some(1), perArg).pages > 8 ==>
              !WithinTwoHops(rows, lower, query, perArg, 1, 6)
  {
    hide QueuePage, Hop;
    var pages := QueuePage(rows, lower, query, Some(1), perArg).pages;
    if pages > 8 {
      forall m | 1 <= m <= pages
        ensures !(Hop(rows, lower, query, perArg, 1, m) && Hop(rows, lower, query, perArg, m, 6))
      {
        HopsAre(rows, lower, query, perArg, 1, m);
        HopsAre(rows, lower, query, perArg, m, 6);
      }
    }
  }

  /** Any page is at most two numbered links away, exactly while there are no more than eight pages. */
  lemma TwoHopsExactly(rows: seq<Row>, lower: string -> string, query: string, perArg: PerArg)
    ensures var pages := QueuePage(rows, lower, query, Some(1), perArg).pages;
            pages > 1 ==>
              ((forall a, b | 1 <= a <= pages && 1 <= b <= pages :: WithinTwoHops(rows, lower, query, perArg, a, b))
               <==> pages <= 8)
  {
    hide QueuePage, WithinTwoHops;
    var pages := QueuePage(rows, lower, query, Some(1), perArg).pages;
    if pages > 8 {
      SixIsTooFar(rows, lower, query, perArg);
    } else if pages > 1 {
      forall a, b | 1 <= a <= pages && 1 <= b <= pages
        ensures WithinTwoHops(rows, lower, query, perArg, a, b)
      {
        TwoHopsSuffice(rows, lower, query, perArg, a, b);
      }
    }
  }
}

/**
 * `pagination`: reads `page` and `limit` from the query string with
 * `parseInt(...) || default`, computes `skip`, counts the matching documents,
 * fetches the requested window of them newest first, and derives the
 * previous/next page numbers from the stateless formulas.
 */
module Pagination {
  import opened Common
  import opened Text
  import opened Http
  import opened Query

  const DefaultPage := 1
  const DefaultLimit := 10

  /** The paginated result: counts, navigation numbers and the page of documents. */
  datatype PageResult<T> = PageResult(
    total_count: nat,
    next_page_number: Option<int>,
    prev_page_number: Option<int>,
    data: seq<T>)

  // ---------------------------------------------------------------- parseInt

  function DigitValue(c: char): nat
    requires IsDigit(c)
  {
    c as int - '0' as int
  }

  predicate AllDigits(s: string) {
    forall i :: 0 <= i < |s| ==> IsDigit(s[i])
  }

  /** The value of a string of decimal digits, most significant first. */
  function DigitsValue(ds: string): nat
    requires AllDigits(ds)
  {
    if |ds| == 0 then 0 else DigitsValue(ds[..|ds| - 1]) * 10 + DigitValue(ds[|ds| - 1])
  }

  /** The longest prefix of `s` made of decimal digits. */
  function LeadingDigits(s: string): (ds: string)
    ensures AllDigits(ds) && |ds| <= |s| && ds == s[..|ds|]
    ensures |ds| < |s| ==> !IsDigit(s[|ds|])
  {
    if |s| > 0 && IsDigit(s[0]) then [s[0]] + LeadingDigits(s[1..]) else []
  }

  /** What follows the leading `\s` and an optional sign. */
  function Unsigned(s: string): string {
    var t := TrimStart(s);
    if |t| > 0 && (t[0] == '-' || t[0] == '+') then t[1..] else t
  }

  /** The sign `parseInt` reads: a `-` right after the leading `\s`. */
  predicate Negative(s: string) {
    var t := TrimStart(s);
    |t| > 0 && t[0] == '-'
  }

  /**
   * Decimal `parseInt`: skips leading `\s`, reads an optional sign and the
   * longest run of digits after it; `None` (NaN) when there is no digit there.
   */
  function ParseInt(s: string): (r: Option<int>)
    ensures r.Some? <==> |Unsigned(s)| > 0 && IsDigit(Unsigned(s)[0])
    ensures r.Some? && !Negative(s) ==> r.value >= 0
    ensures r.Some? && r.value < 0 ==> Negative(s)
  {
    var ds := LeadingDigits(Unsigned(s));
    if |ds| == 0 then None
    else if Negative(s) then Some(0 - DigitsValue(ds))
    else Some(DigitsValue(ds))
  }

  /** The decimal digits of a natural number. */
  function NatDigits(n: nat): (ds: string)
    ensures |ds| > 0
    decreases n
  {
    if n < 10 then ['0' + n as char] else NatDigits(n / 10) + ['0' + (n % 10) as char]
  }

  /** `String(n)` for an integer: its decimal form, with `-` when negative. */
  function Decimal(n: int): string {
    if n < 0 then "-" + NatDigits(-n) else NatDigits(n)
  }

  lemma {:induction false} NatDigitsValue(n: nat)
    ensures AllDigits(NatDigits(n)) && DigitsValue(NatDigits(n)) == n
    decreases n
  {
    var ds := NatDigits(n);
    if n >= 10 {
      NatDigitsValue(n / 10);
      assert ds[..|ds| - 1] == NatDigits(n / 10);
    }
  }

  lemma {:induction false} LeadingDigitsOf(ds: string, rest: string)
    requires AllDigits(ds)
    requires rest == [] || !IsDigit(rest[0])
    ensures LeadingDigits(ds + rest) == ds
  {
    if |ds| > 0 {
      assert (ds + rest)[1..] == ds[1..] + rest;
      LeadingDigitsOf(ds[1..], rest);
      assert ds == [ds[0]] + ds[1..];
    } else {
      assert ds + rest == rest;
    }
  }

  /** A string that starts with a digit has no leading `\s` and no sign. */
  lemma {:induction false} UnsignedOfDigits(s: string)
    requires |s| > 0 && IsDigit(s[0])
    ensures Unsigned(s) == s && !Negative(s)
  {
    assert TrimStart(s) == s;
  }

  /** A `-` followed by a digit is a sign. */
  lemma {:induction false} UnsignedOfMinus(s: string)
    requires |s| > 1 && s[0] == '-' && IsDigit(s[1])
    ensures Unsigned(s) == s[1..] && Negative(s)
  {
    assert TrimStart(s) == s;
  }

  /** A `-` directly followed by digits negates them. */
  lemma {:induction false} ParseSigned(s: string, ds: string)
    requires |s| > 1 && s[0] == '-' && |ds| > 0 && LeadingDigits(s[1..]) == ds
    ensures ParseInt(s) == Some(0 - DigitsValue(ds))
  {
    assert IsDigit(s[1]);
    UnsignedOfMinus(s);
  }

  /** Digits followed by a non-digit parse as their value. */
  lemma {:induction false} ParseDigits(ds: string, rest: string)
    requires AllDigits(ds) && |ds| > 0
    requires rest == [] || !IsDigit(rest[0])
    ensures ParseInt(ds + rest) == Some(DigitsValue(ds))
  {
    LeadingDigitsOf(ds, rest);
    UnsignedOfDigits(ds + rest);
  }

  /** A `-` and digits followed by a non-digit parse as the negated value. */
  lemma {:induction false} ParseMinusDigits(s: string, ds: string, rest: string)
    requires AllDigits(ds) && |ds| > 0
    requires rest == [] || !IsDigit(rest[0])
    requires |s| > 1 && s[0] == '-' && s[1..] == ds + rest
    ensures ParseInt(s) == Some(0 - DigitsValue(ds))
  {
    LeadingDigitsOf(ds, rest);
    ParseSigned(s, ds);
  }

  /**
   * `parseInt` reads back any integer written in decimal, whatever non-digit
   * text follows it: `parseInt("25")` is 25 and `parseInt("10abc")` is 10.
   */
  lemma {:induction false} ParseIntDecimal(n: int, rest: string)
    requires rest == [] || !IsDigit(rest[0])
    ensures ParseInt(Decimal(n) + rest) == Some(n)
  {
    if n < 0 {
      ParseNegativeDecimal(n, rest);
    } else {
      var ds := NatDigits(n);
      NatDigitsValue(n);
      ParseDigits(ds, rest);
    }
  }

  lemma {:induction false} ParseNegativeDecimal(n: int, rest: string)
    requires n < 0
    requires rest == [] || !IsDigit(rest[0])
    ensures ParseInt(Decimal(n) + rest) == Some(n)
  {
    var ds := NatDigits(-n);
    NatDigitsValue(-n);
    var s := "-" + (ds + rest);
    assert Decimal(n) + rest == s;
    assert s[1..] == ds + rest;
    ParseMinusDigits(s, ds, rest);
  }

  // ---------------------------------------------------------------- page bounds

  /** `parseInt(req.query[name])`: an absent parameter parses as NaN. */
  function ParseQuery(query: map<string, string>, name: string): (r: Option<int>)
    ensures name !in query ==> r.None?
    ensures name in query ==> r == ParseInt(query[name])
  {
    match Field(query, name)
    case None => None
    case Some(v) => ParseInt(v)
  }

  /**
   * `parsed || default`: NaN and 0 are falsy and give the default; any other
   * value, negative ones included, is kept.
   */
  function OrDefault(parsed: Option<int>, default: int): (r: int)
    ensures parsed.None? || parsed == Some(0) ==> r == default
    ensures parsed.Some? && parsed.value != 0 ==> r == parsed.value
    ensures default != 0 ==> r != 0
  {
    match parsed
    case Some(v) => if v != 0 then v else default
    case None => default
  }

  function PageOf(query: map<string, string>): int {
    OrDefault(ParseQuery(query, "page"), DefaultPage)
  }

  function LimitOf(query: map<string, string>): int {
    OrDefault(ParseQuery(query, "limit"), DefaultLimit)
  }

  /** `(page - 1) * limit`. */
  function Skip(page: int, limit: int): int {
    (page - 1) * limit
  }

  lemma MulAtLeast(d: int, m: int)
    requires d >= 1 && m >= 1
    ensures d * m >= m
  {
  }

  /** Euclidean division is determined by quotient and remainder. */
  lemma DivModUnique(x: int, m: int, q: int, r: int)
    requires m >= 1 && 0 <= r < m && x == q * m + r
    ensures x % m == r && x / m == q
  {
    var q', r' := x / m, x % m;
    assert x == q' * m + r';
    assert (q - q') * m == r' - r;
    if q > q' {
      MulAtLeast(q - q', m);
    } else if q < q' {
      MulAtLeast(q' - q, m);
    }
  }

  /**
   * For page and limit both positive, the skip is a non-negative multiple of
   * the limit (exactly `page - 1` limits) and ends one limit short of `page * limit`.
   */
  lemma SkipBounds(page: int, limit: int)
    requires page >= 1 && limit >= 1
    ensures 0 <= Skip(page, limit)
    ensures Skip(page, limit) % limit == 0 && Skip(page, limit) / limit == page - 1
    ensures Skip(page, limit) + limit == page * limit
  {
    DivModUnique(Skip(page, limit), limit, page - 1, 0);
  }

  /** `page * limit < total_count ? page + 1 : null`. */
  function NextPage(page: int, limit: int, total: int): (r: Option<int>)
    ensures r.Some? <==> page * limit < total
    ensures r.Some? ==> r.value == page + 1
  {
    if page * limit < total then Some(page + 1) else None
  }

  /** `page > 1 ? page - 1 : null`. */
  function PrevPage(page: int): (r: Option<int>)
    ensures r.Some? <==> page > 1
    ensures r.Some? ==> r.value == page - 1
  {
    if page > 1 then Some(page - 1) else None
  }

  /** The documents the filter matches, newest first. */
  function Ordered<T>(collection: seq<T>, filter: T -> bool, createdAt: T -> int): (r: seq<T>)
    ensures |r| == |Select(collection, filter)|
    ensures multiset(r) == multiset(Select(collection, filter))
    ensures SortedDesc(r, createdAt)
    ensures forall i :: 0 <= i < |r| ==> r[i] in collection && filter(r[i])
  {
    var selected := Select(collection, filter);
    var r := SortDesc(selected, createdAt);
    assert |r| == |multiset(r)| == |multiset(selected)| == |selected|;
    forall i | 0 <= i < |r|
      ensures r[i] in collection && filter(r[i])
    {
      assert r[i] in multiset(selected);
      var k :| 0 <= k < |selected| && selected[k] == r[i];
    }
    r
  }

  /** A window of a newest-first sequence is itself newest first. */
  lemma WindowSorted<T>(s: seq<T>, skip: int, limit: int, key: T -> int)
    requires SortedDesc(s, key) && skip >= 0
    ensures SortedDesc(Window(s, skip, limit).value, key)
  {
    var w := Window(s, skip, limit).value;
    forall i, j | 0 <= i < j < |w|
      ensures key(w[i]) >= key(w[j])
    {
      assert w[i] == s[skip + i] && w[j] == s[skip + j];
    }
  }

  /**
   * `pagination(req, model, filter)`. `None` is the rejected storage query
   * (a negative skip, reached with a negative page).
   */
  function Paginate<T>(query: map<string, string>, collection: seq<T>,
                       filter: T -> bool, createdAt: T -> int): (r: Option<PageResult<T>>)
    ensures r.None? <==> Skip(PageOf(query), LimitOf(query)) < 0
    ensures r.Some? ==> r.value.total_count == |Select(collection, filter)|
    ensures r.Some? ==> r.value.data == Window(Ordered(collection, filter, createdAt),
                                               Skip(PageOf(query), LimitOf(query)), LimitOf(query)).value
    ensures r.Some? ==> forall i :: 0 <= i < |r.value.data| ==>
                          r.value.data[i] in collection && filter(r.value.data[i])
    ensures r.Some? ==> SortedDesc(r.value.data, createdAt)
    ensures r.Some? ==> |r.value.data| <= Abs(LimitOf(query))
    ensures r.Some? ==> (r.value.next_page_number == Some(PageOf(query) + 1)
                         <==> PageOf(query) * LimitOf(query) < r.value.total_count)
    ensures r.Some? ==> (r.value.next_page_number.None?
                         <==> PageOf(query) * LimitOf(query) >= r.value.total_count)
    ensures r.Some? ==> (r.value.prev_page_number == Some(PageOf(query) - 1) <==> PageOf(query) > 1)
    ensures r.Some? ==> (r.value.prev_page_number.None? <==> PageOf(query) <= 1)
  {
    var page := PageOf(query);
    var limit := LimitOf(query);
    var skip := Skip(page, limit);
    var total := CountWhere(collection, filter);
    var ordered := Ordered(collection, filter, createdAt);
    match Window(ordered, skip, limit)
    case None => None
    case Some(data) =>
      CountIsSelectLength(collection, filter);
      WindowSorted(ordered, skip, limit, createdAt);
      Some(PageResult(total, NextPage(page, limit, total), PrevPage(page), data))
  }

  // ---------------------------------------------------------------- properties

  /** A query string asking for page `page` of `limit` documents, written in decimal. */
  function PageQuery(page: int, limit: int): map<string, string> {
    map["page" := Decimal(page), "limit" := Decimal(limit)]
  }

  /** A non-zero page and limit written in decimal are read back unchanged. */
  lemma PageQueryRead(page: int, limit: int)
    requires page != 0 && limit != 0
    ensures PageOf(PageQuery(page, limit)) == page && LimitOf(PageQuery(page, limit)) == limit
  {
    ParseIntDecimal(page, "");
    ParseIntDecimal(limit, "");
    assert Decimal(page) + "" == Decimal(page);
    assert Decimal(limit) + "" == Decimal(limit);
  }

  /** Absent, non-numeric and zero values fall back to page 1 and limit 10. */
  lemma DefaultsApply(query: map<string, string>)
    requires "page" !in query || ParseInt(query["page"]).None? || ParseInt(query["page"]) == Some(0)
    requires "limit" !in query || ParseInt(query["limit"]).None? || ParseInt(query["limit"]) == Some(0)
    ensures PageOf(query) == DefaultPage && LimitOf(query) == DefaultLimit
  {
  }

  /**
   * A negative page is not defaulted: it is kept, and with a positive limit the
   * resulting negative skip makes the storage query fail.
   */
  lemma NegativePageKept<T>(query: map<string, string>, collection: seq<T>,
                            filter: T -> bool, createdAt: T -> int)
    requires "page" in query && ParseInt(query["page"]).Some? && ParseInt(query["page"]).value < 0
    requires LimitOf(query) > 0
    ensures PageOf(query) == ParseInt(query["page"]).value
    ensures Paginate(query, collection, filter, createdAt).None?
  {
    var v := ParseInt(query["page"]).value;
    assert ParseQuery(query, "page") == Some(v);
    assert PageOf(query) == v;
    NegativeSkip(v, LimitOf(query));
  }

  lemma NegativeSkip(page: int, limit: int)
    requires page < 1 && limit >= 1
    ensures Skip(page, limit) < 0
  {
  }

  /**
   * Past the last page the window is empty and there is no next page, while
   * the previous page number still follows its formula.
   */
  lemma PastLastPage<T>(query: map<string, string>, collection: seq<T>,
                        filter: T -> bool, createdAt: T -> int)
    requires LimitOf(query) >= 1 && PageOf(query) >= 1
    requires Skip(PageOf(query), LimitOf(query)) >= |Select(collection, filter)|
    ensures Paginate(query, collection, filter, createdAt).Some?
    ensures Paginate(query, collection, filter, createdAt).value.data == []
    ensures Paginate(query, collection, filter, createdAt).value.next_page_number.None?
  {
    SkipBounds(PageOf(query), LimitOf(query));
  }

  /**
   * Twenty-five matching documents, page 1 of 10: total 25, next page 2, no
   * previous page, ten documents.
   */
  lemma TwentyFiveRows<T>(collection: seq<T>, filter: T -> bool, createdAt: T -> int)
    requires |Select(collection, filter)| == 25
    ensures var r := Paginate(PageQuery(1, 10), collection, filter, createdAt);
            r.Some? && r.value.total_count == 25 && r.value.next_page_number == Some(2)
            && r.value.prev_page_number.None? && |r.value.data| == 10
  {
    PageQueryRead(1, 10);
  }

  /**
   * Page `page` of `limit`, asked for in decimal, is the window of the
   * newest-first matches that starts `page - 1` limits in.
   */
  lemma PageIsWindow<T>(collection: seq<T>, filter: T -> bool, createdAt: T -> int, page: int, limit: int)
    requires page >= 1 && limit >= 1
    ensures Skip(page, limit) >= 0
    ensures Paginate(PageQuery(page, limit), collection, filter, createdAt).Some?
    ensures Paginate(PageQuery(page, limit), collection, filter, createdAt).value.data
            == Window(Ordered(collection, filter, createdAt), Skip(page, limit), limit).value
  {
    PageQueryRead(page, limit);
    SkipBounds(page, limit);
  }

  /** The prefix up to `skip` followed by the window from `skip` is the prefix up to `skip + limit`. */
  lemma WindowExtendsPrefix<T>(s: seq<T>, skip: int, limit: int)
    requires skip >= 0 && limit >= 1
    ensures s[..Min(skip, |s|)] + Window(s, skip, limit).value == s[..Min(skip + limit, |s|)]
  {
    var w := Window(s, skip, limit).value;
    if skip <= |s| {
      assert w == s[skip..Min(skip + limit, |s|)];
    } else {
      assert w == [];
    }
  }

  /** `order` is one arrangement storage may return for `.sort({ createdAt: -1 })`. */
  ghost predicate NewestFirst<T>(collection: seq<T>, filter: T -> bool, createdAt: T -> int, order: seq<T>) {
    multiset(order) == multiset(Select(collection, filter)) && SortedDesc(order, createdAt)
  }

  /**
   * When no two matches share a `createdAt`, every newest-first arrangement
   * of the matches is the one `Ordered` picks: each page query, whatever
   * order storage breaks ties in, sees the same sequence.
   */
  lemma NewestFirstIsCanonical<T>(collection: seq<T>, filter: T -> bool, createdAt: T -> int, r: seq<T>)
    requires DistinctKeys(Select(collection, filter), createdAt)
    requires NewestFirst(collection, filter, createdAt, r)
    ensures r == Ordered(collection, filter, createdAt)
  {
    var ordered := Ordered(collection, filter, createdAt);
    DistinctKeysPermutation(Select(collection, filter), ordered, createdAt);
    SortedUnique(r, ordered, createdAt);
  }

  /**
   * Pages 1 to `count` read as separate queries, page `k` cut from
   * `orders[k - 1]`, the arrangement storage chose for that query.
   */
  function Browse<T>(orders: seq<seq<T>>, limit: int, count: nat): seq<T>
    requires limit >= 1 && count <= |orders|
  {
    if count == 0 then []
    else
      SkipBounds(count, limit);
      Browse(orders, limit, count - 1) + Window(orders[count - 1], Skip(count, limit), limit).value
  }

  /**
   * Consecutive pages tile the newest-first matches: reading pages 1 to
   * `count` yields exactly the first `count * limit` of them, none skipped or
   * repeated, whichever newest-first arrangement storage picks for each page
   * query, provided no two matches share a `createdAt` (then that arrangement
   * is unique, `NewestFirstIsCanonical`, and each page is the one `Paginate`
   * returns, `PageIsWindow`).
   */
  lemma {:induction false} PagesTile<T>(collection: seq<T>, filter: T -> bool, createdAt: T -> int,
                                        orders: seq<seq<T>>, limit: int, count: nat)
    requires limit >= 1 && count <= |orders|
    requires DistinctKeys(Select(collection, filter), createdAt)
    requires forall k :: 0 <= k < |orders| ==> NewestFirst(collection, filter, createdAt, orders[k])
    ensures var ordered := Ordered(collection, filter, createdAt);
            Browse(orders, limit, count) == ordered[..Min(count * limit, |ordered|)]
  {
    if count == 0 {
      assert count * limit == 0;
    } else {
      PagesTile(collection, filter, createdAt, orders, limit, count - 1);
      NewestFirstIsCanonical(collection, filter, createdAt, orders[count - 1]);
      BrowseStep(Ordered(collection, filter, createdAt), orders, limit, count);
    }
  }

  /** Reading one more page from the canonical order extends the prefix read so far by one limit. */
  lemma BrowseStep<T>(ordered: seq<T>, orders: seq<seq<T>>, limit: int, count: nat)
    requires limit >= 1 && 0 < count <= |orders| && orders[count - 1] == ordered
    requires Browse(orders, limit, count - 1) == ordered[..Min((count - 1) * limit, |ordered|)]
    ensures Browse(orders, limit, count) == ordered[..Min(count * limit, |ordered|)]
  {
    SkipBounds(count, limit);
    WindowExtendsPrefix(ordered, Skip(count, limit), limit);
  }

  lemma TwoMatches<T>(x: T, y: T, filter: T -> bool)
    requires filter(x) && filter(y)
    ensures Select([x, y], filter) == [x, y]
  {
    assert [x, y][1..] == [y];
    assert Select([y], filter) == [y];
  }

  /**
   * With ties the tiling can fail: when two matches share a `createdAt`,
   * storage may return them in one order for page 1 and in the other for
   * page 2, and two pages of one document each show the same document twice
   * and never the other.
   */
  lemma TiesMayRepeat<T>(x: T, y: T, filter: T -> bool, createdAt: T -> int)
    requires x != y && filter(x) && filter(y) && createdAt(x) == createdAt(y)
    ensures NewestFirst([x, y], filter, createdAt, [x, y]) && NewestFirst([x, y], filter, createdAt, [y, x])
    ensures Browse([[x, y], [y, x]], 1, 2) == [x, x] && y !in Browse([[x, y], [y, x]], 1, 2)
  {
    TwoMatches(x, y, filter);
    assert multiset([x, y]) == multiset([y, x]);
    var orders := [[x, y], [y, x]];
    SkipBounds(1, 1);
    SkipBounds(2, 1);
    assert Browse(orders, 1, 1) == [x] by {
      assert Browse(orders, 1, 0) == [];
      assert Window(orders[0], Skip(1, 1), 1).value == [x];
    }
    assert Window(orders[1], Skip(2, 1), 1).value == [x];
  }
}

/** `GET /api/all-skills`: the `page` and `limit` query parameters with
    their defaults, the WHERE clause built from `category` and `search`, the
    two queries and their parameter lists, and the `hasMore` flag. */
module SkillListing {
  import opened Common
  import opened Text
  import opened Sorting

  // ---------------------------------------------------------------------
  // parseInt

  predicate IsDigit(c: char)
  {
    '0' <= c <= '9'
  }

  /** A digit of base 16 when `hex`, of base 10 otherwise. */
  predicate IsRadixDigit(c: char, hex: bool)
  {
    IsDigit(c) || (hex && ('a' <= c <= 'f' || 'A' <= c <= 'F'))
  }

  function DigitValue(c: char): (d: nat)
    requires IsRadixDigit(c, true)
    ensures d < 16
    ensures IsDigit(c) ==> d < 10
  {
    if IsDigit(c) then c as int - '0' as int
    else if 'a' <= c <= 'f' then c as int - 'a' as int + 10
    else c as int - 'A' as int + 10
  }

  /** Length of the run of digits that starts the text. */
  function DigitRun(s: string, hex: bool): (n: nat)
    ensures n <= |s|
    ensures forall i :: 0 <= i < n ==> IsRadixDigit(s[i], hex)
    ensures n < |s| ==> !IsRadixDigit(s[n], hex)
  {
    if s == [] || !IsRadixDigit(s[0], hex) then 0 else 1 + DigitRun(s[1..], hex)
  }

  /** The number a run of digits denotes. */
  function DigitsValue(s: string, hex: bool): nat
    requires forall i :: 0 <= i < |s| ==> IsRadixDigit(s[i], hex)
  {
    if s == [] then 0
    else
      var last := s[|s| - 1];
      assert IsRadixDigit(last, hex);
      DigitsValue(s[..|s| - 1], hex) * (if hex then 16 else 10) + DigitValue(last)
  }

  /** The text after an optional sign, and whether the sign was `-`. */
  function Unsigned(t: string): (string, bool)
  {
    if t != [] && t[0] == '-' then (t[1..], true)
    else if t != [] && t[0] == '+' then (t[1..], false)
    else (t, false)
  }

  predicate HexPrefixed(u: string)
  {
    |u| >= 2 && u[0] == '0' && (u[1] == 'x' || u[1] == 'X')
  }

  /** The magnitude read after the sign: a `0x`/`0X` prefix selects base 16,
      and the longest run of digits that follows is the value; no digit at
      all is `NaN` (`None`). */
  function Magnitude(u: string): Option<nat>
  {
    var hex := HexPrefixed(u);
    var body := if hex then u[2..] else u;
    var n := DigitRun(body, hex);
    if n == 0 then None else Some(DigitsValue(body[..n], hex))
  }

  /** `parseInt(text)` with no radix: leading white space is skipped and one
      sign is read before the magnitude. A query parameter that was not sent
      is `undefined`, whose text `"undefined"` has no digit. */
  function ParseInt(text: Option<string>): (r: Option<int>)
  {
    if text.None? then None
    else
      var (u, negative) := Unsigned(TrimStart(text.value));
      match Magnitude(u)
      case None => None
      case Some(v) =>
        var value: int := if negative then -(v as int) else v;
        Some(value)
  }

  /** `parseInt(text) || fallback`: `NaN` and zero are falsy. */
  function OrDefault(v: Option<int>, fallback: int): (r: int)
    ensures (v.None? || v == Some(0)) ==> r == fallback
    ensures v.Some? && v.value != 0 ==> r == v.value
    ensures fallback != 0 ==> r != 0
  {
    if v.None? || v.value == 0 then fallback else v.value
  }

  const DefaultPage: int := 1
  const DefaultLimit: int := 6

  function PageOf(text: Option<string>): int
  {
    OrDefault(ParseInt(text), DefaultPage)
  }

  function LimitOf(text: Option<string>): int
  {
    OrDefault(ParseInt(text), DefaultLimit)
  }

  /** `(page - 1) * limit`. */
  function Offset(page: int, limit: int): int
  {
    (page - 1) * limit
  }

  /** With a positive limit the offset is a non-negative multiple of it
      exactly from page 1 on, and page `p` ends at row `p * limit`. */
  lemma OffsetSign(page: int, limit: int)
    requires limit >= 1
    ensures Offset(page, limit) >= 0 <==> page >= 1
    ensures Offset(page, limit) + limit == page * limit
  {
    if page >= 1 {
      assert (page - 1) * limit >= 0;
    } else {
      assert (page - 1) * limit <= -limit by {
        assert (page - 1) * limit == -((1 - page) * limit);
        assert (1 - page) * limit >= limit;
      }
    }
  }

  /** The decimal text of a natural number, without leading zeros. */
  function Decimal(n: nat): (s: string)
    ensures |s| >= 1 && forall i :: 0 <= i < |s| ==> IsDigit(s[i])
    ensures s[0] == '0' ==> n == 0 && s == "0"
  {
    if n < 10 then [('0' as int + n) as char]
    else Decimal(n / 10) + [('0' as int + n % 10) as char]
  }

  /** The text `String(n)` of an integer. */
  function IntText(n: int): string
  {
    if n < 0 then "-" + Decimal(-n) else Decimal(n)
  }

  lemma {:induction false} DecimalValue(n: nat)
    ensures DigitsValue(Decimal(n), false) == n
  {
    if n >= 10 {
      DecimalValue(n / 10);
      var s := Decimal(n);
      assert s[..|s| - 1] == Decimal(n / 10);
    }
  }

  lemma {:induction false} DigitRunOver(d: string, rest: string, hex: bool)
    requires forall i :: 0 <= i < |d| ==> IsRadixDigit(d[i], hex)
    requires rest == [] || !IsRadixDigit(rest[0], hex)
    ensures DigitRun(d + rest, hex) == |d|
  {
    if d != [] {
      assert (d + rest)[1..] == d[1..] + rest;
      DigitRunOver(d[1..], rest, hex);
    } else {
      assert d + rest == rest;
    }
  }

  /** The digits of a number read back as that number, whatever non-digit
      follows them. */
  lemma DecimalMagnitude(m: nat, rest: string)
    requires rest == [] || (!IsDigit(rest[0]) && rest[0] != 'x' && rest[0] != 'X')
    ensures Magnitude(Decimal(m) + rest) == Some(m)
  {
    var d := Decimal(m);
    var u := d + rest;
    assert u[0] == d[0];
    assert !HexPrefixed(u) by {
      if |u| >= 2 && u[0] == '0' {
        assert d == "0";
        assert u[1] == rest[0];
      }
    }
    DigitRunOver(d, rest, false);
    assert u[..|d|] == d;
    DecimalValue(m);
  }

  lemma {:induction false} TrimStartPast(ws: string, t: string)
    requires forall i :: 0 <= i < |ws| ==> IsWhitespace(ws[i])
    requires t != [] && !IsWhitespace(t[0])
    ensures TrimStart(ws + t) == t
  {
    if ws != [] {
      assert (ws + t)[1..] == ws[1..] + t;
      TrimStartPast(ws[1..], t);
    } else {
      assert ws + t == t;
    }
  }

  /** `parseInt` reads back the text of any integer, after any leading
      white space and before anything that is not a digit (`" 12abc"` and
      `"12.5"` are 12). */
  lemma ParseIntText(ws: string, n: int, rest: string)
    requires forall i :: 0 <= i < |ws| ==> IsWhitespace(ws[i])
    requires rest == [] || (!IsDigit(rest[0]) && rest[0] != 'x' && rest[0] != 'X')
    ensures ParseInt(Some(ws + (IntText(n) + rest))) == Some(n)
  {
    var m: nat := if n < 0 then -n else n;
    var t := IntText(n) + rest;
    SignedText(n, rest);
    TrimStartPast(ws, t);
    DecimalMagnitude(m, rest);
    ParseIntOf(ws + t, t, Decimal(m) + rest, n < 0, m);
  }

  /** `parseInt` as the three steps: trim, sign, magnitude. */
  lemma ParseIntOf(text: string, t: string, u: string, negative: bool, v: nat)
    requires TrimStart(text) == t && Unsigned(t) == (u, negative) && Magnitude(u) == Some(v)
    ensures ParseInt(Some(text)) == Some(if negative then -(v as int) else v)
  {
  }

  /** The sign and the digits of an integer's text. */
  lemma SignedText(n: int, rest: string)
    ensures var m: nat := if n < 0 then -n else n;
      var t := IntText(n) + rest;
      t != [] && (t[0] == '-' || IsDigit(t[0])) && Unsigned(t) == (Decimal(m) + rest, n < 0)
  {
    var m: nat := if n < 0 then -n else n;
    var d := Decimal(m);
    var t := IntText(n) + rest;
    if n < 0 {
      assert t == "-" + (d + rest);
    } else {
      assert t == d + rest;
      assert t[0] == d[0];
    }
  }

  /** A text whose first non-blank character is neither a sign nor a digit
      is `NaN`, so the defaults apply. */
  lemma NotNumeric(text: string)
    requires var t := TrimStart(text); t == [] || (!IsDigit(t[0]) && t[0] != '-' && t[0] != '+')
    ensures ParseInt(Some(text)) == None
    ensures PageOf(Some(text)) == DefaultPage && LimitOf(Some(text)) == DefaultLimit
  {
  }

  /** The page and limit the route uses for the text of a number: the
      defaults for zero, any other number, negative ones included, as
      given. A parameter that was not sent gives the defaults. */
  lemma PageAndLimit(n: int)
    ensures PageOf(Some(IntText(n))) == if n == 0 then DefaultPage else n
    ensures LimitOf(Some(IntText(n))) == if n == 0 then DefaultLimit else n
    ensures PageOf(None) == DefaultPage && LimitOf(None) == DefaultLimit
  {
    ParseIntText("", n, "");
    assert "" + (IntText(n) + "") == IntText(n);
  }

  // ---------------------------------------------------------------------
  // The WHERE clause and the parameter lists

  /** A statement is its fixed text and its `?` placeholders, in order. */
  datatype Piece = Fixed(text: string) | Hole
  type Sql = seq<Piece>

  /** The number of placeholders. */
  function Holes(s: Sql): nat
  {
    if s == [] then 0 else (if s[0] == Hole then 1 else 0) + Holes(s[1..])
  }

  lemma {:induction false} HolesAppend(a: Sql, b: Sql)
    ensures Holes(a + b) == Holes(a) + Holes(b)
  {
    if a == [] {
      assert a + b == b;
    } else {
      assert (a + b)[1..] == a[1..] + b;
      HolesAppend(a[1..], b);
    }
  }

  /** `parts.join(sep)` on statements. */
  function JoinSql(parts: seq<Sql>, sep: Sql): Sql
  {
    if |parts| == 0 then []
    else if |parts| == 1 then parts[0]
    else parts[0] + sep + JoinSql(parts[1..], sep)
  }

  /** A value bound to a placeholder. */
  datatype Param = TextParam(text: string) | NumberParam(number: int)

  const CategoryCondition: Sql := [Fixed("s.category = "), Hole]
  const SearchCondition: Sql := [Fixed("(s.name LIKE "), Hole, Fixed(" OR s.description LIKE "), Hole, Fixed(")")]
  const And: Sql := [Fixed(" AND ")]

  /** `%search%`: the search text anywhere in the column. */
  function LikePattern(search: string): string
  {
    "%" + search + "%"
  }

  /** `category && category !== 'All'`. */
  predicate FiltersCategory(category: Option<string>)
  {
    Truthy(category) && category.value != "All"
  }

  /** The conditions, in the order they are pushed. */
  function Conditions(category: Option<string>, search: Option<string>): seq<Sql>
  {
    (if FiltersCategory(category) then [CategoryCondition] else []) +
    (if Truthy(search) then [SearchCondition] else [])
  }

  /** The filter parameters, in the order they are pushed. */
  function FilterParams(category: Option<string>, search: Option<string>): seq<Param>
  {
    (if FiltersCategory(category) then [TextParam(category.value)] else []) +
    (if Truthy(search) then [TextParam(LikePattern(search.value)), TextParam(LikePattern(search.value))] else [])
  }

  /** Which conditions are present, and in which order. */
  lemma ConditionsShape(category: Option<string>, search: Option<string>)
    ensures var c := Conditions(category, search);
      (CategoryCondition in c <==> FiltersCategory(category)) &&
      (SearchCondition in c <==> Truthy(search)) &&
      |c| <= 2 && (|c| == 2 ==> c == [CategoryCondition, SearchCondition]) &&
      (c == [] <==> !FiltersCategory(category) && !Truthy(search))
  {
    assert CategoryCondition != SearchCondition by {
      assert |CategoryCondition| != |SearchCondition|;
    }
  }

  /** The parameters follow the placeholders: the category first when it
      filters, then the two patterns when a search is given. */
  lemma ParamsShape(category: Option<string>, search: Option<string>)
    ensures var p := FilterParams(category, search);
      (FiltersCategory(category) ==> p[0] == TextParam(category.value)) &&
      (Truthy(search) ==> |p| >= 2 && p[|p| - 2] == p[|p| - 1] == TextParam(LikePattern(search.value))) &&
      |p| == (if FiltersCategory(category) then 1 else 0) + (if Truthy(search) then 2 else 0)
  {
  }

  /** `whereConditions.join(' AND ')` carries one placeholder per filter
      parameter. */
  lemma FilterPlaceholders(category: Option<string>, search: Option<string>)
    ensures Holes(JoinSql(Conditions(category, search), And)) == |FilterParams(category, search)|
  {
    assert Holes(CategoryCondition) == 1;
    assert Holes(SearchCondition) == 2;
    assert Holes(And) == 0;
    if FiltersCategory(category) && Truthy(search) {
      assert JoinSql(Conditions(category, search), And) == CategoryCondition + And + SearchCondition;
      HolesAppend(CategoryCondition + And, SearchCondition);
      HolesAppend(CategoryCondition, And);
    }
  }

  const ListHead: Sql := [Fixed("SELECT s.id, s.name, s.category, s.description, s.difficulty, " +
    "COUNT(DISTINCT a.id) as assessment_count FROM all_skills s LEFT JOIN assessments a ON s.id = a.assessment_id")]
  const ListTail: Sql := [Fixed(" GROUP BY s.id ORDER BY s.name LIMIT "), Hole, Fixed(" OFFSET "), Hole]
  const CountHead: Sql := [Fixed("SELECT COUNT(DISTINCT s.id) as total FROM all_skills s ")]

  /** `keyword + whereConditions.join(' AND ')` when there is a condition. */
  function WhereClause(conditions: seq<Sql>, keyword: string): Sql
  {
    if conditions == [] then [] else [Fixed(keyword)] + JoinSql(conditions, And)
  }

  /** `queryParams.slice(0, -2)`: all but the last two, or nothing. */
  function DropLastTwo<T>(xs: seq<T>): (r: seq<T>)
    ensures |xs| >= 2 ==> xs == r + xs[|xs| - 2..]
    ensures |xs| < 2 ==> r == []
  {
    xs[..if |xs| >= 2 then |xs| - 2 else 0]
  }

  /** The two statements of the route and their parameters. */
  datatype Queries = Queries(list: Sql, listParams: seq<Param>, count: Sql, countParams: seq<Param>)

  /** Push the conditions and their parameters, then the
      window, and build both statements. */
  method BuildQueries(category: Option<string>, search: Option<string>, limit: int, offset: int)
    returns (q: Queries)
    ensures q.listParams == FilterParams(category, search) + [NumberParam(limit), NumberParam(offset)]
    ensures q.countParams == FilterParams(category, search)
    ensures Holes(q.list) == |q.listParams| && Holes(q.count) == |q.countParams|
    ensures var c := Conditions(category, search);
      q.list == ListHead + WhereClause(c, " WHERE ") + ListTail && q.count == CountHead + WhereClause(c, "WHERE ")
  {
    var conditions: seq<Sql> := [];
    var params: seq<Param> := [];
    if Truthy(category) && category.value != "All" {
      conditions := conditions + [CategoryCondition];
      params := params + [TextParam(category.value)];
    }
    if Truthy(search) {
      conditions := conditions + [SearchCondition];
      params := params + [TextParam(LikePattern(search.value)), TextParam(LikePattern(search.value))];
    }
    assert conditions == Conditions(category, search);
    assert params == FilterParams(category, search);
    var query := ListHead;
    var filter: Sql := [];
    if |conditions| > 0 {
      query := query + ([Fixed(" WHERE ")] + JoinSql(conditions, And));
      filter := [Fixed("WHERE ")] + JoinSql(conditions, And);
    }
    query := query + ListTail;
    var filterParams := params;
    params := params + [NumberParam(limit), NumberParam(offset)];
    q := Queries(query, params, CountHead + filter, DropLastTwo(params));
    assert q.countParams == filterParams by {
      assert params[..|params| - 2] == filterParams;
    }
    QueryPlaceholders(conditions, q.list, q.count);
    FilterPlaceholders(category, search);
  }

  /** Both statements carry the condition's placeholders; the listing adds
      the two of `LIMIT ? OFFSET ?`. */
  lemma QueryPlaceholders(conditions: seq<Sql>, list: Sql, count: Sql)
    requires list == ListHead + WhereClause(conditions, " WHERE ") + ListTail
    requires count == CountHead + WhereClause(conditions, "WHERE ")
    ensures Holes(list) == Holes(JoinSql(conditions, And)) + 2
    ensures Holes(count) == Holes(JoinSql(conditions, And))
  {
    var w := WhereClause(conditions, " WHERE ");
    var cw := WhereClause(conditions, "WHERE ");
    WherePlaceholders(conditions, " WHERE ");
    WherePlaceholders(conditions, "WHERE ");
    FixedPlaceholders();
    HolesAppend(ListHead + w, ListTail);
    HolesAppend(ListHead, w);
    HolesAppend(CountHead, cw);
  }

  lemma WherePlaceholders(conditions: seq<Sql>, keyword: string)
    ensures Holes(WhereClause(conditions, keyword)) == Holes(JoinSql(conditions, And))
  {
    if conditions != [] {
      HolesAppend([Fixed(keyword)], JoinSql(conditions, And));
    }
  }

  lemma FixedPlaceholders()
    ensures Holes(ListHead) == 0 && Holes(CountHead) == 0 && Holes(ListTail) == 2
  {
  }

  // ---------------------------------------------------------------------
  // The response

  /** `offset + skills.length < total`. */
  function HasMore(offset: int, returned: nat, total: int): bool
  {
    offset + returned < total
  }

  /** When the page holds what the database has in that window, `hasMore`
      says exactly that rows remain after the page. */
  lemma HasMoreMeansRowsRemain<T>(rows: seq<T>, offset: nat, limit: nat)
    requires limit > 0
    ensures HasMore(offset, |Window(rows, offset, limit)|, |rows|) <==> offset + limit < |rows|
  {
  }

  /** The JSON body of a page of skills. */
  datatype Listing<T> = Listing(status: int, skills: seq<T>, total: int, hasMore: bool, currentPage: int)

  /** MySQL refuses a negative `LIMIT` or `OFFSET`. */
  predicate WindowAccepted(limit: int, offset: int)
  {
    limit >= 0 && offset >= 0
  }

  /** One page of the rows a filter selects: `matching` stands for those
      rows in the statement's order, `dbError` for a failing query. */
  function Paginate<T>(page: int, limit: int, matching: seq<T>, dbError: bool): Listing<T>
  {
    var offset := Offset(page, limit);
    if dbError || !WindowAccepted(limit, offset) then Listing(ServerError, [], 0, false, page)
    else
      var skills := Window(matching, offset, limit);
      Listing(OK, skills, |matching|, HasMore(offset, |skills|, |matching|), page)
  }

  /** A page answers 500 for a failing query or a page or limit below 1;
      otherwise it returns the page's window of the matching rows, their
      number, and whether rows remain after the page. */
  lemma PaginateSpec<T>(page: int, limit: int, matching: seq<T>, dbError: bool)
    requires limit != 0
    ensures var r := Paginate(page, limit, matching, dbError);
      (r.status == OK <==> !dbError && page >= 1 && limit >= 1) &&
      (r.status != OK ==> r.status == ServerError) &&
      r.currentPage == page
    ensures var r := Paginate(page, limit, matching, dbError);
      r.status == OK ==>
        r.skills == Window(matching, Offset(page, limit), limit) && r.total == |matching| &&
        (r.hasMore <==> page * limit < |matching|)
  {
    if limit >= 1 {
      OffsetSign(page, limit);
      if page >= 1 {
        HasMoreMeansRowsRemain(matching, Offset(page, limit), limit);
      }
    }
  }

  /** `GET /api/all-skills`. `matching` stands for the rows the filter
      selects, in name order (LIKE and collation are not modelled). */
  function ListSkills<T>(pageText: Option<string>, limitText: Option<string>, matching: seq<T>, dbError: bool)
    : Listing<T>
  {
    Paginate(PageOf(pageText), LimitOf(limitText), matching, dbError)
  }
}

/** Normalisation of request values: the controller's `toNum` and
    `parseStringArray` helpers, and the paging and search arithmetic of the
    listing handler (src/controllers/property.controller.ts). */
module Form {
  import opened Wrappers
  import opened Text

  /** A body value as the multipart parser delivers it: missing, one string,
      or several strings (a repeated field). */
  datatype Field = Absent | Str(s: string) | Many(items: seq<string>)

  // ---------------------------------------------------------------------
  // toNum
  // ---------------------------------------------------------------------

  /** `Number(s)` for the integer literals the model covers: surrounding
      white space ignored, the empty string reads as 0, an optional sign and
      decimal digits otherwise; anything else is NaN (`None`). */
  function NumberValue(s: string): Option<int> {
    var t := Trim(s);
    if t == "" then Some(0)
    else if t[0] == '-' || t[0] == '+' then
      var ds := t[1..];
      if ds != "" && AllDigits(ds)
      then var v: int := DigitsValue(ds); Some(if t[0] == '-' then -v else v)
      else None
    else if AllDigits(t) then Some(DigitsValue(t))
    else None
  }

  /** Decimal integer text: digits, optionally after one sign. */
  predicate IsIntegerText(t: string) {
    (t != "" && AllDigits(t)) || (|t| >= 2 && (t[0] == '-' || t[0] == '+') && AllDigits(t[1..]))
  }

  /** `toNum`: an absent value or the empty string is `undefined`, and so is
      a value `Number` cannot read. */
  function ToNum(v: Option<string>): (r: Option<int>)
    ensures v.None? || v == Some("") ==> r.None?
    ensures r.Some? <==> v.Some? && v.value != "" && (Trim(v.value) == "" || IsIntegerText(Trim(v.value)))
    ensures r.Some? && Trim(v.value) == "" ==> r.value == 0
    ensures r.Some? && Trim(v.value) != "" && AllDigits(Trim(v.value)) ==> r.value == DigitsValue(Trim(v.value))
  {
    match v
    case None => None
    case Some(s) => if s == "" then None else NumberValue(s)
  }

  /** `Number` reads a run of digits as its value. */
  lemma NumberValueOfDigits(ds: string)
    requires ds != "" && AllDigits(ds)
    ensures NumberValue(ds) == Some(DigitsValue(ds) as int)
  {
    TrimOfTrimmed(ds);
  }

  /** `Number` reads a minus sign followed by digits as the negated value. */
  lemma NumberValueOfNegative(t: string)
    requires |t| >= 2 && t[0] == '-' && AllDigits(t[1..])
    ensures NumberValue(t) == Some(-(DigitsValue(t[1..]) as int))
  {
    assert IsDigit(t[1..][|t| - 2]);
    TrimOfTrimmed(t);
  }

  /** Every integer written in decimal is read back by `toNum`. */
  lemma ToNumOfRendered(i: int)
    ensures ToNum(Some(IntToString(i))) == Some(i)
  {
    var n: nat := if i < 0 then -i else i;
    var digits := NatToString(n);
    DigitsValueOfNatToString(n);
    if i < 0 {
      var t := IntToString(i);
      assert t[1..] == digits;
      NumberValueOfNegative(t);
    } else {
      NumberValueOfDigits(digits);
    }
  }

  // ---------------------------------------------------------------------
  // parseStringArray
  // ---------------------------------------------------------------------

  /** The pieces of `s` between commas, trimmed, empty ones dropped. */
  function CommaItems(s: string): seq<string> {
    NonEmptyTrimmed(Split(s, {','}))
  }

  /** `parseStringArray`. `decodeJsonArray` stands for `JSON.parse`: it gives
      the elements (as strings) when the text is a JSON array and `None`
      otherwise, including when parsing throws. */
  function ParseStringArray(val: Field, decodeJsonArray: string -> Option<seq<string>>): (r: seq<string>)
    ensures val.Absent? ==> r == []
    ensures val.Many? ==> r == val.items
    ensures val.Str? && decodeJsonArray(val.s).Some? ==> r == decodeJsonArray(val.s).value
    ensures val.Str? && decodeJsonArray(val.s).None? ==> r == CommaItems(val.s)
  {
    match val
    case Many(items) => items
    case Str(s) =>
      (match decodeJsonArray(s)
       case Some(items) => items
       case None => CommaItems(s))
    case Absent => []
  }

  /** Round trip: a list of trimmed, non-empty, comma-free strings sent as
      one comma-separated string (that is not JSON array text) is parsed back
      to the same list. */
  lemma CommaListRoundTrip(items: seq<string>, decodeJsonArray: string -> Option<seq<string>>)
    requires forall k :: 0 <= k < |items| ==> items[k] != "" && Trimmed(items[k]) && NoneIn(items[k], {','})
    requires decodeJsonArray(Join(items, ",")) == None
    ensures ParseStringArray(Str(Join(items, ",")), decodeJsonArray) == items
  {
    if items == [] {
      assert Split("", {','}) == [""];
    } else {
      SplitOfJoin(items, ',', {','});
      NonEmptyTrimmedOfClean(items);
    }
  }

  // ---------------------------------------------------------------------
  // Listing: paging
  // ---------------------------------------------------------------------

  /** `parseInt(s, 10)`: leading white space, an optional sign, then the
      longest run of digits; `None` (NaN) when there is no digit. */
  function ParseIntPrefix(s: string): Option<int> {
    var t := TrimStart(s);
    var neg := t != [] && t[0] == '-';
    var body := if t != [] && (t[0] == '-' || t[0] == '+') then t[1..] else t;
    var ds := DigitPrefix(body);
    if ds == "" then None
    else var v: int := DigitsValue(ds); Some(if neg then -v else v)
  }

  /** `parseInt` reads back every rendered number. */
  lemma ParseIntOfRendered(n: nat)
    ensures ParseIntPrefix(NatToString(n)) == Some(n)
  {
    DigitPrefixOfDigits(NatToString(n));
    DigitsValueOfNatToString(n);
  }

  /** The page number exactly as written: `Math.max(parseInt(String(page ?? 1)), 1)`.
      The default renders as "1" and reads back as 1; `Math.max` of NaN is
      NaN (`None`). */
  function PageAsWritten(raw: Option<string>): (r: Option<int>)
    ensures r.Some? ==> r.value >= 1
    ensures raw.None? ==> r == Some(1)
    ensures raw.Some? ==> (r.None? <==> ParseIntPrefix(raw.value).None?)
    ensures raw.Some? && r.Some? ==> r.value == Max(ParseIntPrefix(raw.value).value, 1)
  {
    match raw
    case None => Some(1)
    case Some(s) =>
      (match ParseIntPrefix(s)
       case None => None
       case Some(p) => Some(Max(p, 1)))
  }

  /** A page value with no digits makes the page NaN instead of 1. */
  lemma PageAsWrittenIsNaN()
    ensures PageAsWritten(Some("abc")) == None
  {
  }

  /** The page number as evidently intended: at least 1, the parsed value
      when it is a positive number, and 1 otherwise. */
  function Page(raw: Option<string>): (r: int)
    ensures r >= 1
    ensures PageAsWritten(raw).Some? ==> r == PageAsWritten(raw).value
    ensures PageAsWritten(raw).None? ==> r == 1
  {
    match raw
    case None => 1
    case Some(s) =>
      (match ParseIntPrefix(s)
       case None => 1
       case Some(p) => Max(p, 1))
  }

  /** The raw page size: `pageSize ?? limit`, `None` when both are missing. */
  function RawPageSize(pageSize: Option<string>, limit: Option<string>): Option<string> {
    if pageSize.Some? then pageSize else limit
  }

  /** `Math.min(Math.max(parseInt(String(pageSize ?? limit ?? 10)) || 10, 1), 50)`:
      NaN and 0 fall back to 10 (the default renders as "10"). */
  function PageSize(pageSize: Option<string>, limit: Option<string>): (r: int)
    ensures 1 <= r <= 50
    ensures RawPageSize(pageSize, limit).None? ==> r == 10
    ensures RawPageSize(pageSize, limit).Some? && ParseIntPrefix(RawPageSize(pageSize, limit).value) in {None, Some(0)}
            ==> r == 10
    ensures RawPageSize(pageSize, limit).Some? && ParseIntPrefix(RawPageSize(pageSize, limit).value).Some?
            ==> var v := ParseIntPrefix(RawPageSize(pageSize, limit).value).value;
                (v > 50 ==> r == 50) && (v < 0 ==> r == 1) && (1 <= v <= 50 ==> r == v)
  {
    match RawPageSize(pageSize, limit)
    case None => 10
    case Some(s) =>
      var parsed := match ParseIntPrefix(s) case None => 0 case Some(v) => v;
      var v := if parsed == 0 then 10 else parsed;
      Min(Max(v, 1), 50)
  }

  /** A requested size between 1 and 50 is honoured as it is. */
  lemma PageSizeHonoured(n: nat)
    requires 1 <= n <= 50
    ensures PageSize(Some(NatToString(n)), None) == n
  {
    ParseIntOfRendered(n);
  }

  // ---------------------------------------------------------------------
  // Listing: search pattern
  // ---------------------------------------------------------------------

  /** The characters the search escape protects: `. * + ? ^ $ { } ( ) | [ ] \`. */
  const RegexSpecials: set<char> := {'.', '*', '+', '?', '^', '$', '{', '}', '(', ')', '|', '[', ']', '\\'}

  /** Every special character is preceded by an escaping backslash. */
  predicate AllEscaped(t: string) {
    if t == [] then true
    else if t[0] == '\\' then |t| >= 2 && AllEscaped(t[2..])
    else t[0] !in RegexSpecials && AllEscaped(t[1..])
  }

  /** `search.replace(/[.*+?^${}()|[\]\\]/g, "\\$&")`: the search text as a
      regular expression that matches it literally. */
  function EscapeRegex(s: string): (r: string)
    ensures AllEscaped(r)
  {
    if s == [] then []
    else if s[0] in RegexSpecials then ['\\', s[0]] + EscapeRegex(s[1..])
    else [s[0]] + EscapeRegex(s[1..])
  }

  /** Reading an escaped pattern as literal text. */
  function Unescape(t: string): string {
    if t == [] then []
    else if t[0] == '\\' && |t| >= 2 then [t[1]] + Unescape(t[2..])
    else [t[0]] + Unescape(t[1..])
  }

  /** The pattern stands for exactly the search text. */
  lemma {:induction false} UnescapeEscape(s: string)
    ensures Unescape(EscapeRegex(s)) == s
  {
    if s != [] {
      UnescapeEscape(s[1..]);
      var r := EscapeRegex(s);
      if s[0] in RegexSpecials {
        assert r[2..] == EscapeRegex(s[1..]);
      } else {
        assert r[1..] == EscapeRegex(s[1..]);
      }
    }
  }

  /** The search filter: `None` when the trimmed search text is empty,
      otherwise a pattern that matches exactly that text. */
  function SearchPattern(search: Option<string>): (r: Option<string>)
    ensures r.None? <==> Trim(search.GetOr("")) == ""
    ensures r.Some? ==> AllEscaped(r.value) && Unescape(r.value) == Trim(search.GetOr(""))
  {
    var s := Trim(search.GetOr(""));
    UnescapeEscape(s);
    if s == "" then None else Some(EscapeRegex(s))
  }

  /** The exact-match operation filter: the trimmed value, when not empty. */
  function OperationFilter(operationType: Option<string>): (r: Option<string>)
    ensures r.None? <==> Trim(operationType.GetOr("")) == ""
    ensures r.Some? ==> r.value == Trim(operationType.GetOr("")) && Trimmed(r.value)
  {
    var op := Trim(operationType.GetOr(""));
    if op == "" then None else Some(op)
  }

  /** `(page - 1) * pageSize`, the number of records before the page. */
  function SkipCount(page: int, pageSize: int): (r: int)
    requires page >= 1 && pageSize >= 1
    ensures r >= 0
  {
    (page - 1) * pageSize
  }

  /** The listing query the handler builds. */
  datatype ListQuery = ListQuery(
    page: int, pageSize: int, skip: int,
    operationType: Option<string>, searchPattern: Option<string>)

  /** Filters and window of `getProperties`, built on the corrected `Page`:
      the page and page size are clamped, and `skip` counts the records of
      the earlier pages. Where the handler's page is a number the query has
      that page; where it is NaN the query starts at the first page. */
  function ListQueryOf(page: Option<string>, pageSize: Option<string>, limit: Option<string>,
                       search: Option<string>, operationType: Option<string>): (q: ListQuery)
    ensures q.page >= 1 && 1 <= q.pageSize <= 50 && q.skip >= 0
    ensures q.skip == SkipCount(q.page, q.pageSize)
    ensures PageAsWritten(page).Some? ==> q.page == PageAsWritten(page).value
    ensures PageAsWritten(page).None? ==> q.page == 1 && q.skip == 0
    ensures q.pageSize == PageSize(pageSize, limit)
    ensures q.operationType == OperationFilter(operationType) && q.searchPattern == SearchPattern(search)
  {
    var p := Page(page);
    var size := PageSize(pageSize, limit);
    var skip := SkipCount(p, size);
    ListQuery(p, size, skip, OperationFilter(operationType), SearchPattern(search))
  }
}

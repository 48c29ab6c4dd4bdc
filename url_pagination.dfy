/**
 * The URL-backed pagination hook: the cursor is read from two query
 * parameters of the current history entry, and every change is written back
 * into them by replacing that entry.
 */
module UrlPagination {
  import opened Wrappers
  import opened JsNumber
  import opened SearchParams

  const PageIndexKey: string := "pageIndex"
  const PageSizeKey: string := "pageSize"
  const DefaultPageSize: int := 10

  /** TanStack Table's PaginationState: two JavaScript numbers (None is NaN). */
  datatype Cursor = Cursor(pageIndex: Option<int>, pageSize: Option<int>)

  /** A cursor every component of which is an ordinary in-range number. */
  predicate WellFormed(c: Cursor) {
    c.pageIndex.Some? && c.pageIndex.value >= 0 && c.pageSize.Some? && c.pageSize.value > 0
  }

  /** `Math.max(0, x)`: NaN stays NaN. */
  function MaxZero(x: Option<int>): (r: Option<int>)
    ensures r.None? <==> x.None?
    ensures r.Some? ==> r.value >= 0 && (r.value == x.value || (r.value == 0 && x.value < 0))
  {
    match x
    case None => None
    case Some(v) => Some(if v < 0 then 0 else v)
  }

  /** The normalisation applied to the parsed parameters: clamp the index, default the size. */
  function Normalise(raw: Cursor): (c: Cursor)
    ensures c.pageIndex == MaxZero(raw.pageIndex)
    ensures c.pageSize.Some? && c.pageSize.value > 0
    ensures raw.pageSize.Some? && raw.pageSize.value > 0 ==> c.pageSize == raw.pageSize
    ensures !(raw.pageSize.Some? && raw.pageSize.value > 0) ==> c.pageSize == Some(DefaultPageSize)
  {
    Cursor(
      MaxZero(raw.pageIndex),
      if raw.pageSize.Some? && raw.pageSize.value > 0 then raw.pageSize else Some(DefaultPageSize))
  }

  /**
   * The derived `pagination`: both parameters are parsed with `parseInt(…, 10)`,
   * a missing one reading as "0" and "10" respectively, then normalised.
   */
  function Derive(q: Query): Cursor {
    var pageIndex := ParseInt(GetEntry(q, PageIndexKey).GetOr("0"));
    var pageSize := ParseInt(GetEntry(q, PageSizeKey).GetOr("10"));
    Normalise(Cursor(pageIndex, pageSize))
  }

  /**
   * What every derived cursor satisfies: a positive page size always; a
   * non-negative page index whenever it is a number; 0 and 10 for missing
   * parameters; and a NaN index exactly when the parameter is present but
   * does not start with a (signed) number.
   */
  lemma DeriveBounds(q: Query)
    ensures Derive(q).pageSize.Some? && Derive(q).pageSize.value > 0
    ensures Derive(q).pageIndex.Some? ==> Derive(q).pageIndex.value >= 0
    ensures GetEntry(q, PageIndexKey).None? ==> Derive(q).pageIndex == Some(0)
    ensures GetEntry(q, PageSizeKey).None? ==> Derive(q).pageSize == Some(DefaultPageSize)
    ensures Derive(q).pageIndex.None? <==>
      GetEntry(q, PageIndexKey).Some? && ParseInt(GetEntry(q, PageIndexKey).value).None?
  {
    ParseIntDefaults();
  }

  /** What `onPaginationChange` receives: a new cursor, or a function of the current one. */
  datatype Updater = Value(cursor: Cursor) | Apply(f: Cursor -> Cursor)

  /** `typeof updater === 'function' ? updater(pagination) : updater` */
  function Resolve(u: Updater, current: Cursor): Cursor {
    match u
    case Value(c) => c
    case Apply(f) => f(current)
  }

  /** The query after `set('pageIndex', String(…))` and `set('pageSize', String(…))`. */
  function Write(q: Query, c: Cursor): Query {
    var withIndex := SetEntry(q, PageIndexKey, NumberToString(c.pageIndex));
    SetEntry(withIndex, PageSizeKey, NumberToString(c.pageSize))
  }

  /**
   * After a write each pagination parameter occurs exactly once and holds the
   * decimal string of the new value; every other pair is unchanged and in order.
   */
  lemma WriteShape(q: Query, c: Cursor)
    ensures Count(Write(q, c), PageIndexKey) == 1
    ensures Count(Write(q, c), PageSizeKey) == 1
    ensures GetEntry(Write(q, c), PageIndexKey) == Some(NumberToString(c.pageIndex))
    ensures GetEntry(Write(q, c), PageSizeKey) == Some(NumberToString(c.pageSize))
    ensures Without(Without(Write(q, c), PageIndexKey), PageSizeKey)
         == Without(Without(q, PageIndexKey), PageSizeKey)
  {
    var a := SetEntry(q, PageIndexKey, NumberToString(c.pageIndex));
    var b := SetEntry(a, PageSizeKey, NumberToString(c.pageSize));
    SetEntryDefines(q, PageIndexKey, NumberToString(c.pageIndex));
    SetEntryDefines(a, PageSizeKey, NumberToString(c.pageSize));
    SetEntryCountOther(a, PageSizeKey, NumberToString(c.pageSize), PageIndexKey);
    SetEntryGetOther(a, PageSizeKey, NumberToString(c.pageSize), PageIndexKey);
    // Other pairs: strip pageSize first, then pageIndex, on both sides.
    SetEntryKeepsOthers(a, PageSizeKey, NumberToString(c.pageSize));
    SetEntryKeepsOthers(q, PageIndexKey, NumberToString(c.pageIndex));
    WithoutKeepsOthers(b, PageIndexKey, PageSizeKey);
    WithoutKeepsOthers(a, PageIndexKey, PageSizeKey);
    WithoutKeepsOthers(q, PageIndexKey, PageSizeKey);
  }

  /** Reading back a written cursor gives its normalised form. */
  lemma DeriveAfterWrite(q: Query, c: Cursor)
    ensures Derive(Write(q, c)) == Normalise(c)
  {
    WriteShape(q, c);
    ParseIntNumberToString(c.pageIndex);
    ParseIntNumberToString(c.pageSize);
  }

  /** Round trip: a well-formed cursor written into any query reads back unchanged. */
  lemma WriteThenDerive(q: Query, c: Cursor)
    requires WellFormed(c)
    ensures Derive(Write(q, c)) == c
  {
    DeriveAfterWrite(q, c);
  }

  /** The browser's session history; the current entry is the last one. */
  class SessionHistory {
    var entries: seq<Query>

    ghost predicate Valid()
      reads this
    {
      |entries| > 0
    }

    constructor (initial: Query)
      ensures Valid() && entries == [initial]
    {
      entries := [initial];
    }

    function Current(): Query
      reads this
      requires Valid()
    {
      entries[|entries| - 1]
    }

    /** A history-replacing navigation: only the current entry changes. */
    method ReplaceCurrent(q: Query)
      requires Valid()
      modifies this
      ensures Valid()
      ensures entries == old(entries)[|old(entries)| - 1 := q]
    {
      entries := entries[|entries| - 1 := q];
    }
  }

  /** The hook's `pagination` value while `h` is the history. */
  function Pagination(h: SessionHistory): Cursor
    reads h
    requires h.Valid()
  {
    Derive(h.Current())
  }

  /**
   * `onPaginationChange(updater)`: resolve the updater against the derived
   * cursor, set both parameters on a copy of the current query, and replace
   * the current history entry with it.
   */
  method OnPaginationChange(h: SessionHistory, updater: Updater)
    requires h.Valid()
    modifies h
    ensures h.Valid()
    ensures |h.entries| == |old(h.entries)|
    ensures h.entries[..|h.entries| - 1] == old(h.entries[..|h.entries| - 1])
    ensures h.Current() == Write(old(h.Current()), Resolve(updater, old(Pagination(h))))
  {
    var current := h.Current();
    var pagination := Derive(current);
    var newPagination := Resolve(updater, pagination);
    var newParams := new UrlSearchParams(current);
    newParams.Set(PageIndexKey, NumberToString(newPagination.pageIndex));
    newParams.Set(PageSizeKey, NumberToString(newPagination.pageSize));
    var written := newParams.list;
    assert written == Write(current, newPagination);
    h.ReplaceCurrent(written);
  }

  /**
   * After `onPaginationChange(updater)` the hook derives the normalised form
   * of the cursor the updater produced from the previously derived one.
   */
  lemma PaginationAfterChange(q: Query, updater: Updater)
    ensures Derive(Write(q, Resolve(updater, Derive(q)))) == Normalise(Resolve(updater, Derive(q)))
    ensures WellFormed(Resolve(updater, Derive(q))) ==>
      Derive(Write(q, Resolve(updater, Derive(q)))) == Resolve(updater, Derive(q))
  {
    DeriveAfterWrite(q, Resolve(updater, Derive(q)));
  }

  /** A lone `pageIndex` parameter is parsed, and clamped at 0 when it is a number. */
  lemma DeriveLonePageIndex(s: string)
    ensures Derive([(PageIndexKey, s)]).pageIndex == MaxZero(ParseInt(s))
  {
    assert GetEntry([(PageIndexKey, s)], PageIndexKey) == Some(s);
  }

  /** A lone `pageSize` parameter is parsed, and replaced by 10 unless it is positive. */
  lemma DeriveLonePageSize(s: string)
    ensures Derive([(PageSizeKey, s)]).pageSize ==
      if ParseInt(s).Some? && ParseInt(s).value > 0 then ParseInt(s) else Some(DefaultPageSize)
  {
    assert GetEntry([(PageSizeKey, s)], PageSizeKey) == Some(s);
  }

  /** Without either parameter the cursor is {pageIndex: 0, pageSize: 10}. */
  lemma DeriveEmptyQuery()
    ensures Derive([]) == Cursor(Some(0), Some(10))
  {
    DeriveBounds([]);
  }

  /** `?pageIndex=-5` reads as page 0. */
  lemma DeriveNegativeIndex()
    ensures Derive([(PageIndexKey, "-5")]).pageIndex == Some(0)
  {
    ParseIntReadsNumeral([], -5, []);
    SmallNumerals();
    assert [] + (NumberToString(Some(-5)) + []) == "-5";
    DeriveLonePageIndex("-5");
  }

  /** `?pageSize=0` and `?pageSize=-3` read as the default size 10. */
  lemma DeriveNonPositiveSize()
    ensures Derive([(PageSizeKey, "0")]).pageSize == Some(10)
    ensures Derive([(PageSizeKey, "-3")]).pageSize == Some(10)
  {
    SmallNumerals();
    ParseIntReadsNumeral([], 0, []);
    assert [] + (NumberToString(Some(0)) + []) == "0";
    DeriveLonePageSize("0");
    ParseIntReadsNumeral([], -3, []);
    assert [] + (NumberToString(Some(-3)) + []) == "-3";
    DeriveLonePageSize("-3");
  }

  /**
   * A value with no number in it: the size falls back to 10, but the index
   * stays NaN, because `Math.max(0, NaN)` is NaN.
   */
  lemma DeriveUnparseable()
    ensures Derive([(PageSizeKey, "abc")]).pageSize == Some(10)
    ensures Derive([(PageIndexKey, "abc")]).pageIndex == None
  {
    ParseIntNoDigits("abc");
    DeriveLonePageSize("abc");
    DeriveLonePageIndex("abc");
  }

  /** `?pageSize=15abc` reads as 15: parseInt stops at the first non-digit. */
  lemma DeriveNumericPrefix()
    ensures Derive([(PageSizeKey, "15abc")]).pageSize == Some(15)
  {
    SmallNumerals();
    ParseIntReadsNumeral([], 15, "abc");
    assert [] + (NumberToString(Some(15)) + "abc") == "15abc";
    DeriveLonePageSize("15abc");
  }

  /**
   * Worked example of the write side: on `?pageIndex=2&pageSize=15&foo=bar`,
   * writing {pageIndex: 0, pageSize: 15} updates the two parameters in place
   * and keeps `foo=bar`.
   */
  lemma WriteExample()
    ensures Write([(PageIndexKey, "2"), (PageSizeKey, "15"), ("foo", "bar")], Cursor(Some(0), Some(15)))
         == [(PageIndexKey, "0"), (PageSizeKey, "15"), ("foo", "bar")]
  {
    SmallNumerals();
    var q: Query := [(PageIndexKey, "2"), (PageSizeKey, "15"), ("foo", "bar")];
    var rest: Query := [(PageSizeKey, "15"), ("foo", "bar")];
    assert q[1..] == rest;
    assert Without(rest, PageIndexKey) == rest by {
      assert rest[1..] == [("foo", "bar")];
      assert [("foo", "bar")][1..] == [];
    }
    var a: Query := [(PageIndexKey, "0")] + rest;
    assert SetEntry(q, PageIndexKey, "0") == a;
    assert a[1..] == rest;
    assert SetEntry(rest, PageSizeKey, "15") == [(PageSizeKey, "15")] + Without([("foo", "bar")], PageSizeKey);
    assert [("foo", "bar")][1..] == [];
  }

  /**
   * Worked example of a function updater: while the derived cursor is
   * {pageIndex: 2, pageSize: 10}, `old => ({...old, pageSize: 20})` is applied
   * to it, so the write keeps pageIndex=2 and sets pageSize=20.
   */
  lemma FunctionUpdaterExample(q: Query)
    requires Derive(q) == Cursor(Some(2), Some(10))
    ensures var written := Write(q, Resolve(Apply((prev: Cursor) => Cursor(prev.pageIndex, Some(20))), Derive(q)));
      GetEntry(written, PageIndexKey) == Some("2") && GetEntry(written, PageSizeKey) == Some("20")
  {
    SmallNumerals();
    WriteShape(q, Cursor(Some(2), Some(20)));
  }
}

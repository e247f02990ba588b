/**
 The Filter Data page (app.py:426-447): each shown column is classified by
 its pandas dtype and name, gets a range or membership filter built from
 the column's own values and the widget settings, and the filters are
 applied one after another. Rows map column names to optional values;
 pandas' dtype is an abstract tag, and date parsing (`pd.to_datetime`
 followed by `.date()`) is a parameter that yields a day number or fails.
 */
module Filters {
  import opened Wrappers
  import opened Text
  import opened Dicts

  /** A cell value: a number, text, or a timestamp at day precision. */
  datatype Value = Num(n: real) | Str(s: string) | Stamp(day: int)

  /** One DataFrame row; None is a pandas null. */
  type Row = map<string, Option<Value>>

  /** The pandas dtype of a column, as far as the page looks at it. */
  datatype DType = NumericType | DateTimeType | OtherType

  /** The rows read from the chosen table, with the dtype of each column. */
  datatype Frame = Frame(dtypes: map<string, DType>, rows: seq<Row>)

  datatype Kind = NumericRange | DateRange | Membership

  /** `pd.to_datetime(v).date()` as a day number, or None when it yields NaT. */
  type DayParser = Value -> Option<int>

  /** What the column's widgets return; Untouched means their defaults. */
  datatype Setting =
    | Untouched
    | Slider(lo: real, hi: real)
    | Dates(start: int, end: int)
    | Picked(sel: seq<Value>)

  /** The three per-column filters (the lambdas of app.py:432, 438, 443). */
  datatype Filter =
    | InRange(col: string, lo: real, hi: real)
    | InDays(col: string, first: int, last: int)
    | InSet(col: string, sel: seq<Value>)

  // ---------------------------------------------------------------------------
  // Classification (app.py:428, 433, 439)
  // ---------------------------------------------------------------------------

  predicate NamedLikeDate(name: string) {
    Contains(Lower(name), "date") || Contains(Lower(name), "time")
  }

  function Classify(name: string, dtype: DType): (k: Kind)
    ensures k == NumericRange <==> dtype == NumericType
  {
    if dtype == NumericType then NumericRange
    else if dtype == DateTimeType || NamedLikeDate(name) then DateRange
    else Membership
  }

  /**
   A numeric dtype wins over the name; otherwise a datetime dtype or a name
   containing "date" or "time" gives a date range; everything else is
   categorical.
   */
  lemma ClassifyPrecedence(name: string, dtype: DType)
    ensures dtype == NumericType ==> Classify(name, dtype) == NumericRange
    ensures Classify(name, dtype) == NumericRange ==> dtype == NumericType
    ensures Classify(name, dtype) == DateRange <==>
              dtype != NumericType && (dtype == DateTimeType || NamedLikeDate(name))
    ensures Classify(name, dtype) == Membership <==>
              dtype == OtherType && !NamedLikeDate(name)
  {
  }

  /** The name test ignores letter case. */
  lemma ClassifyIgnoresCase(name: string, dtype: DType)
    ensures Classify(Lower(name), dtype) == Classify(name, dtype)
  {
    LowerIdempotent(name);
  }

  /** The test is a plain substring test: a text column "updated_by" gets a date range. */
  lemma UpdatedByIsDateColumn()
    ensures Classify("updated_by", OtherType) == DateRange
  {
    assert Lower("updated_by") == "updated_by";
    assert OccursAt("updated_by", "date", 2);
    ContainsIffOccurs("updated_by", "date");
  }

  // ---------------------------------------------------------------------------
  // Column statistics used as widget defaults
  // ---------------------------------------------------------------------------

  /** `df[col]` as a sequence of cells, a missing key read as null. */
  function ColumnValues(rows: seq<Row>, c: string): (vals: seq<Option<Value>>)
    ensures |vals| == |rows|
    ensures forall i :: 0 <= i < |rows| && c in rows[i] ==> vals[i] == rows[i][c]
  {
    seq(|rows|, i requires 0 <= i < |rows| => if c in rows[i] then rows[i][c] else None)
  }

  /** The non-null numbers of a column, in row order. */
  function Numbers(vals: seq<Option<Value>>): (xs: seq<real>)
    ensures forall x :: x in xs <==> Some(Num(x)) in vals
    decreases |vals|
  {
    if |vals| == 0 then []
    else
      var rest := Numbers(vals[1..]);
      assert forall v :: v in vals <==> v == vals[0] || v in vals[1..];
      if vals[0].Some? && vals[0].value.Num? then [vals[0].value.n] + rest else rest
  }

  /** The day numbers of a column's cells that parse as dates, in row order. */
  function Days(vals: seq<Option<Value>>, toDay: DayParser): (ds: seq<int>)
    ensures forall d :: d in ds <==> exists i :: 0 <= i < |vals| && vals[i].Some? && toDay(vals[i].value) == Some(d)
    decreases |vals|
  {
    if |vals| == 0 then []
    else
      var rest := Days(vals[1..], toDay);
      assert forall i :: 0 <= i < |vals| - 1 ==> vals[1..][i] == vals[i + 1];
      if vals[0].Some? && toDay(vals[0].value).Some? then [toDay(vals[0].value).value] + rest else rest
  }

  /** `(min, max)` of a list of numbers, None for an empty list. */
  function RealExtremes(xs: seq<real>): (r: Option<(real, real)>)
    ensures r.None? <==> |xs| == 0
    ensures r.Some? ==> r.value.0 in xs && r.value.1 in xs
    ensures r.Some? ==> forall x :: x in xs ==> r.value.0 <= x <= r.value.1
    decreases |xs|
  {
    if |xs| == 0 then None
    else match RealExtremes(xs[1..]) {
      case None => Some((xs[0], xs[0]))
      case Some((lo, hi)) =>
        assert forall x :: x in xs ==> x == xs[0] || x in xs[1..];
        Some((if xs[0] < lo then xs[0] else lo, if xs[0] > hi then xs[0] else hi))
    }
  }

  /** `(min, max)` of a list of day numbers, None for an empty list. */
  function DayExtremes(ds: seq<int>): (r: Option<(int, int)>)
    ensures r.None? <==> |ds| == 0
    ensures r.Some? ==> r.value.0 in ds && r.value.1 in ds
    ensures r.Some? ==> forall d :: d in ds ==> r.value.0 <= d <= r.value.1
    decreases |ds|
  {
    if |ds| == 0 then None
    else match DayExtremes(ds[1..]) {
      case None => Some((ds[0], ds[0]))
      case Some((lo, hi)) =>
        assert forall d :: d in ds ==> d == ds[0] || d in ds[1..];
        Some((if ds[0] < lo then ds[0] else lo, if ds[0] > hi then ds[0] else hi))
    }
  }

  /** The slider's default range: the column's min and max, 0.0 for an all-null column. */
  function SliderDefault(vals: seq<Option<Value>>): (range: (real, real))
    ensures range.0 <= range.1
    ensures forall x :: Some(Num(x)) in vals ==> range.0 <= x <= range.1
    ensures (forall x :: Some(Num(x)) !in vals) ==> range == (0.0, 0.0)
    ensures (exists x :: Some(Num(x)) in vals) ==> Some(Num(range.0)) in vals && Some(Num(range.1)) in vals
  {
    match RealExtremes(Numbers(vals))
    case Some(b) => b
    case None => (0.0, 0.0)
  }

  /** The date inputs' defaults: the earliest and latest parsable day, `today` when none parses. */
  function DatesDefault(vals: seq<Option<Value>>, toDay: DayParser, today: int): (range: (int, int))
    ensures range.0 <= range.1
    ensures forall i :: 0 <= i < |vals| && vals[i].Some? && toDay(vals[i].value).Some? ==>
              range.0 <= toDay(vals[i].value).value <= range.1
    ensures (forall i :: 0 <= i < |vals| && vals[i].Some? ==> toDay(vals[i].value).None?) ==> range == (today, today)
    ensures (exists i :: 0 <= i < |vals| && vals[i].Some? && toDay(vals[i].value).Some?) ==>
              (exists i :: 0 <= i < |vals| && vals[i].Some? && toDay(vals[i].value) == Some(range.0))
              && (exists j :: 0 <= j < |vals| && vals[j].Some? && toDay(vals[j].value) == Some(range.1))
  {
    var ds := Days(vals, toDay);
    match DayExtremes(ds)
    case Some(b) =>
      assert forall i :: 0 <= i < |vals| && vals[i].Some? && toDay(vals[i].value).Some? ==>
        toDay(vals[i].value).value in ds;
      b
    case None => (today, today)
  }

  // ---------------------------------------------------------------------------
  // Categorical candidates (app.py:440-441)
  // ---------------------------------------------------------------------------

  predicate Distinct<T(==)>(xs: seq<T>) {
    forall i, j :: 0 <= i < j < |xs| ==> xs[i] != xs[j]
  }

  /** Past the head, first positions shift by one. */
  lemma FirstIndexTail<T>(xs: seq<T>, y: T)
    requires |xs| > 0 && y in xs[1..] && y != xs[0]
    ensures FirstIndex(xs, y) == 1 + FirstIndex(xs[1..], y)
  {
  }

  /** `.unique()`: first occurrences, in order, of the values not in `seen`. */
  function Unique(xs: seq<Value>, seen: set<Value>): (u: seq<Value>)
    ensures Distinct(u)
    ensures forall x :: x in u <==> x in xs && x !in seen
    decreases |xs|
  {
    if |xs| == 0 then []
    else
      assert forall x :: x in xs <==> x == xs[0] || x in xs[1..];
      if xs[0] in seen then Unique(xs[1..], seen)
      else [xs[0]] + Unique(xs[1..], seen + {xs[0]})
  }

  /** A value later in `.unique()`'s output occurs for the first time later in its input. */
  lemma {:induction false} UniqueOrder(xs: seq<Value>, seen: set<Value>)
    ensures forall i, j :: 0 <= i < j < |Unique(xs, seen)| ==>
              FirstIndex(xs, Unique(xs, seen)[i]) < FirstIndex(xs, Unique(xs, seen)[j])
    decreases |xs|
  {
    if |xs| > 0 {
      var seen' := if xs[0] in seen then seen else seen + {xs[0]};
      UniqueOrder(xs[1..], seen');
      var rest := Unique(xs[1..], seen');
      var u := Unique(xs, seen);
      assert u == if xs[0] in seen then rest else [xs[0]] + rest;
      var off := if xs[0] in seen then 0 else 1;
      forall i, j | 0 <= i < j < |u| ensures FirstIndex(xs, u[i]) < FirstIndex(xs, u[j]) {
        assert u[j] == rest[j - off];
        if i >= off {
          assert u[i] == rest[i - off];
          ShiftedOrder(xs, rest[i - off], rest[j - off]);
        } else {
          FirstIndexTail(xs, rest[j - off]);
        }
      }
    }
  }

  /** Two values past the head keep their relative first positions. */
  lemma ShiftedOrder(xs: seq<Value>, x: Value, y: Value)
    requires |xs| > 0 && x in xs[1..] && y in xs[1..] && x != xs[0] && y != xs[0]
    requires FirstIndex(xs[1..], x) < FirstIndex(xs[1..], y)
    ensures FirstIndex(xs, x) < FirstIndex(xs, y)
  {
    FirstIndexTail(xs, x);
    FirstIndexTail(xs, y);
  }

  /** `.dropna()`: the non-null cells, in order. */
  function Present(vals: seq<Option<Value>>): (xs: seq<Value>)
    ensures |xs| <= |vals|
    ensures forall x :: x in xs <==> Some(x) in vals
    decreases |vals|
  {
    if |vals| == 0 then []
    else
      assert forall v :: v in vals <==> v == vals[0] || v in vals[1..];
      (if vals[0].Some? then [vals[0].value] else []) + Present(vals[1..])
  }

  /** `.dropna()` works cell by cell: the values of a concatenation are the values of its parts, in order. */
  lemma {:induction false} PresentConcat(a: seq<Option<Value>>, b: seq<Option<Value>>)
    ensures Present(a + b) == Present(a) + Present(b)
    decreases |a|
  {
    if |a| > 0 {
      assert (a + b)[0] == a[0];
      assert (a + b)[1..] == a[1..] + b;
      PresentConcat(a[1..], b);
    } else {
      assert a + b == b;
    }
  }

  /** At most this many distinct values are offered (app.py:440). */
  const MaxCandidates: nat := 200

  /** At most this many candidates are selected by default (app.py:441). */
  const DefaultPicks: nat := 5

  function Prefix<T>(xs: seq<T>, n: nat): (p: seq<T>)
    ensures |p| == if |xs| < n then |xs| else n
    ensures p == xs[..|p|]
  {
    if |xs| < n then xs else xs[..n]
  }

  /**
   The values offered by the multiselect: the first 200 distinct non-null
   values in order of first appearance, or all of them when there are fewer.
   */
  function Candidates(vals: seq<Option<Value>>): (cands: seq<Value>)
    ensures |cands| <= MaxCandidates
    ensures Distinct(cands)
    ensures forall x :: x in cands ==> Some(x) in vals && x in Present(vals)
    ensures forall i, j :: 0 <= i < j < |cands| ==>
              FirstIndex(Present(vals), cands[i]) < FirstIndex(Present(vals), cands[j])
    ensures forall x, y :: x in Present(vals) && y in cands && FirstIndex(Present(vals), x) < FirstIndex(Present(vals), y) ==>
              x in cands
    ensures |cands| == MaxCandidates || forall x :: Some(x) in vals ==> x in cands
  {
    var ps := Present(vals);
    var cands := Prefix(Unique(ps, {}), MaxCandidates);
    UniqueOrder(ps, {});
    UniquePrefixClosed(ps, MaxCandidates);
    cands
  }

  /** A prefix of `.unique()`'s output holds every value that first appears before one of its members. */
  lemma UniquePrefixClosed(ps: seq<Value>, m: nat)
    ensures var p := Prefix(Unique(ps, {}), m);
            forall x, y :: x in ps && y in p && FirstIndex(ps, x) < FirstIndex(ps, y) ==> x in p
  {
    var u := Unique(ps, {});
    var p := Prefix(u, m);
    UniqueOrder(ps, {});
    forall x, y | x in ps && y in p && FirstIndex(ps, x) < FirstIndex(ps, y) ensures x in p {
      var i :| 0 <= i < |u| && u[i] == x;
      var j :| 0 <= j < |p| && p[j] == y;
      assert u[j] == y;
      assert i < |p|;
      assert p[i] == x;
    }
  }

  // ---------------------------------------------------------------------------
  // Building the filters (app.py:426-443)
  // ---------------------------------------------------------------------------

  /** The filter one column contributes, if any. */
  function FilterFor(c: string, kind: Kind, vals: seq<Option<Value>>, setting: Setting,
                     today: int, toDay: DayParser): (f: Option<Filter>)
    ensures f.Some? ==> f.value.col == c
    ensures kind != Membership ==> f.Some?
    ensures kind == NumericRange ==> f.value.InRange?
    ensures kind == DateRange ==> f.value.InDays?
    ensures kind == Membership && setting.Picked? ==> (f.None? <==> setting.sel == [])
    ensures kind == NumericRange && setting.Slider? ==> f == Some(InRange(c, setting.lo, setting.hi))
    ensures kind == NumericRange && !setting.Slider? ==>
              f == Some(InRange(c, SliderDefault(vals).0, SliderDefault(vals).1))
    ensures kind == DateRange && setting.Dates? ==> f == Some(InDays(c, setting.start, setting.end))
    ensures kind == DateRange && !setting.Dates? ==>
              f == Some(InDays(c, DatesDefault(vals, toDay, today).0, DatesDefault(vals, toDay, today).1))
    ensures kind == Membership && setting.Picked? && setting.sel != [] ==> f == Some(InSet(c, setting.sel))
    ensures kind == Membership && !setting.Picked? ==>
              f == (if Candidates(vals) == [] then None else Some(InSet(c, Prefix(Candidates(vals), DefaultPicks))))
  {
    match kind
    case NumericRange =>
      var range := if setting.Slider? then (setting.lo, setting.hi) else SliderDefault(vals);
      Some(InRange(c, range.0, range.1))
    case DateRange =>
      var range := if setting.Dates? then (setting.start, setting.end) else DatesDefault(vals, toDay, today);
      Some(InDays(c, range.0, range.1))
    case Membership =>
      var sel := if setting.Picked? then setting.sel else Prefix(Candidates(vals), DefaultPicks);
      if sel == [] then None else Some(InSet(c, sel))
  }

  /** Every shown column has a dtype: the columns to show are picked from the frame's own. */
  predicate Shown(frame: Frame, showCols: seq<string>) {
    forall c :: c in showCols ==> c in frame.dtypes
  }

  /** The filter of one column of the frame under its widgets' setting. */
  function ColumnFilter(frame: Frame, c: string, setting: Setting, today: int, toDay: DayParser): Option<Filter>
    requires c in frame.dtypes
  {
    FilterFor(c, Classify(c, frame.dtypes[c]), ColumnValues(frame.rows, c), setting, today, toDay)
  }

  /** The `filters` dict after the loop over the shown columns, keyed by column, in insertion order. */
  function BuildFilters(frame: Frame, showCols: seq<string>, settings: string -> Setting,
                        today: int, toDay: DayParser): (fs: Dict<string, Filter>)
    requires Shown(frame, showCols)
    ensures forall i :: 0 <= i < |fs| ==> fs[i].1.col == fs[i].0
    ensures forall k :: k in Keys(fs) ==> k in showCols
    ensures DistinctKeys(fs)
    ensures forall k :: Get(fs, k) == if k in showCols then ColumnFilter(frame, k, settings(k), today, toDay) else None
    decreases |showCols|
  {
    if |showCols| == 0 then []
    else
      var n := |showCols| - 1;
      assert forall k :: k in showCols <==> k in showCols[..n] || k == showCols[n] by {
        assert showCols == showCols[..n] + [showCols[n]];
      }
      var prev := BuildFilters(frame, showCols[..n], settings, today, toDay);
      var c := showCols[n];
      match ColumnFilter(frame, c, settings(c), today, toDay) {
        case None => prev
        case Some(g) =>
          PutShape(prev, c, g);
          PutDistinct(prev, c, g);
          forall k | k != c ensures Get(Put(prev, c, g), k) == Get(prev, k) {
            PutOthers(prev, c, g, k);
          }
          Put(prev, c, g)
      }
  }

  /** Writing a filter under its own column keeps every entry keyed by its filter's column. */
  lemma {:induction false} PutShape(d: Dict<string, Filter>, c: string, f: Filter)
    requires f.col == c
    requires forall i :: 0 <= i < |d| ==> d[i].1.col == d[i].0
    ensures forall i :: 0 <= i < |Put(d, c, f)| ==> Put(d, c, f)[i].1.col == Put(d, c, f)[i].0
    decreases |d|
  {
    if |d| > 0 && d[0].0 != c {
      PutShape(d[1..], c, f);
    }
  }

  // ---------------------------------------------------------------------------
  // Applying the filters (app.py:445-447)
  // ---------------------------------------------------------------------------

  /** The per-row test of one filter. A null, missing or unparsable cell fails every test. */
  predicate Holds(f: Filter, row: Row, toDay: DayParser)
    ensures (f.col !in row || row[f.col].None?) ==> !Holds(f, row, toDay)
    ensures f.InRange? && f.col in row && row[f.col].Some? && row[f.col].value.Str? ==> !Holds(f, row, toDay)
  {
    f.col in row && row[f.col].Some? &&
    match f
    case InRange(_, lo, hi) => row[f.col].value.Num? && lo <= row[f.col].value.n <= hi
    case InDays(_, first, last) =>
      toDay(row[f.col].value).Some? && first <= toDay(row[f.col].value).value <= last
    case InSet(_, sel) => row[f.col].value in sel
  }

  predicate AllHold(fs: seq<Filter>, row: Row, toDay: DayParser) {
    forall i :: 0 <= i < |fs| ==> Holds(fs[i], row, toDay)
  }

  /** `d[mask]` for one filter: the rows that pass, in order. */
  function Keep(rows: seq<Row>, f: Filter, toDay: DayParser): (out: seq<Row>)
    ensures |out| <= |rows|
    ensures forall r :: r in out ==> r in rows && Holds(f, r, toDay)
    decreases |rows|
  {
    if |rows| == 0 then []
    else (if Holds(f, rows[0], toDay) then [rows[0]] else []) + Keep(rows[1..], f, toDay)
  }

  /** `a` can be obtained from `b` by deleting elements. */
  predicate SubsequenceOf<T(==)>(a: seq<T>, b: seq<T>)
    decreases |b|
  {
    if |a| == 0 then true
    else if |b| == 0 then false
    else if a[0] == b[0] then SubsequenceOf(a[1..], b[1..])
    else SubsequenceOf(a, b[1..])
  }

  /** The reference meaning of a set of filters: the rows that pass all of them, in order. */
  function Conjunction(rows: seq<Row>, fs: seq<Filter>, toDay: DayParser): (out: seq<Row>)
    ensures |out| <= |rows|
    ensures forall r :: r in out <==> r in rows && AllHold(fs, r, toDay)
    ensures SubsequenceOf(out, rows)
    ensures forall r :: multiset(out)[r] == if AllHold(fs, r, toDay) then multiset(rows)[r] else 0
    decreases |rows|
  {
    if |rows| == 0 then []
    else
      var rest := Conjunction(rows[1..], fs, toDay);
      assert forall r :: r in rows <==> r == rows[0] || r in rows[1..];
      assert rows == [rows[0]] + rows[1..];
      if AllHold(fs, rows[0], toDay) then [rows[0]] + rest
      else
        SkipHead(rest, rows);
        rest
  }

  /** Dropping the head of `b` keeps `a` a subsequence of `b`. */
  lemma {:induction false} SkipHead<T>(a: seq<T>, b: seq<T>)
    requires |b| > 0 && SubsequenceOf(a, b[1..])
    ensures SubsequenceOf(a, b)
    decreases |b|, 0
  {
    if |a| > 0 && a[0] == b[0] {
      DropFirst(a, b[1..]);
    }
  }

  /** Dropping the head of `a` keeps it a subsequence of `c`. */
  lemma {:induction false} DropFirst<T>(a: seq<T>, c: seq<T>)
    requires |a| > 0 && SubsequenceOf(a, c)
    ensures SubsequenceOf(a[1..], c)
    decreases |c|, 1
  {
    if a[0] == c[0] {
      SkipHead(a[1..], c);
    } else {
      DropFirst(a, c[1..]);
      SkipHead(a[1..], c);
    }
  }

  /** The loop `for f in filters.values(): result = f(result)`. */
  function Apply(rows: seq<Row>, fs: seq<Filter>, toDay: DayParser): (out: seq<Row>)
    ensures |out| <= |rows|
    ensures forall r :: r in out ==> r in rows
    decreases |fs|
  {
    if |fs| == 0 then rows else Apply(Keep(rows, fs[0], toDay), fs[1..], toDay)
  }

  /** Keeping by one filter and then by the rest is keeping by all of them. */
  lemma {:induction false} KeepThenConjunction(rows: seq<Row>, f: Filter, fs: seq<Filter>, toDay: DayParser)
    ensures Conjunction(Keep(rows, f, toDay), fs, toDay) == Conjunction(rows, [f] + fs, toDay)
    decreases |rows|
  {
    if |rows| > 0 {
      KeepThenConjunction(rows[1..], f, fs, toDay);
      var r := rows[0];
      assert AllHold([f] + fs, r, toDay) <==> Holds(f, r, toDay) && AllHold(fs, r, toDay) by {
        var gs := [f] + fs;
        assert gs[0] == f;
        assert forall i :: 0 <= i < |fs| ==> gs[i + 1] == fs[i];
        if Holds(f, r, toDay) && AllHold(fs, r, toDay) {
          forall i | 0 <= i < |gs| ensures Holds(gs[i], r, toDay) {
            if i > 0 {
              assert gs[i] == fs[i - 1];
            }
          }
        }
      }
      if Holds(f, r, toDay) {
        assert Keep(rows, f, toDay) == [r] + Keep(rows[1..], f, toDay);
        assert Keep(rows, f, toDay)[1..] == Keep(rows[1..], f, toDay);
      } else {
        assert Keep(rows, f, toDay) == Keep(rows[1..], f, toDay);
      }
    }
  }

  /**
   Applying the filters one after another keeps exactly the rows that pass
   every filter, in their original order.
   */
  lemma {:induction false} ApplyIsConjunction(rows: seq<Row>, fs: seq<Filter>, toDay: DayParser)
    ensures Apply(rows, fs, toDay) == Conjunction(rows, fs, toDay)
    decreases |fs|
  {
    if |fs| == 0 {
      ConjunctionOfNothing(rows, toDay);
    } else {
      ApplyIsConjunction(Keep(rows, fs[0], toDay), fs[1..], toDay);
      KeepThenConjunction(rows, fs[0], fs[1..], toDay);
      assert [fs[0]] + fs[1..] == fs;
    }
  }

  /** With no filters every row is kept. */
  lemma {:induction false} ConjunctionOfNothing(rows: seq<Row>, toDay: DayParser)
    ensures Conjunction(rows, [], toDay) == rows
    decreases |rows|
  {
    if |rows| > 0 {
      ConjunctionOfNothing(rows[1..], toDay);
    }
  }

  /** The rows the page shows as "Filtered rows". */
  function FilterPage(frame: Frame, showCols: seq<string>, settings: string -> Setting,
                      today: int, toDay: DayParser): seq<Row>
    requires Shown(frame, showCols)
  {
    Apply(frame.rows, Values(BuildFilters(frame, showCols, settings, today, toDay)), toDay)
  }

  /** A row passes the filter of every shown column that has one. */
  predicate PassesShown(frame: Frame, showCols: seq<string>, settings: string -> Setting,
                        today: int, toDay: DayParser, r: Row)
    requires Shown(frame, showCols)
  {
    forall c :: c in showCols && ColumnFilter(frame, c, settings(c), today, toDay).Some? ==>
      Holds(ColumnFilter(frame, c, settings(c), today, toDay).value, r, toDay)
  }

  /**
   The page keeps a row exactly when it passes the filter each shown column
   gets from its widgets; the result is an order-preserving subsequence of
   the rows, and with no column shown it is all of them.
   */
  lemma FilterPageMeaning(frame: Frame, showCols: seq<string>, settings: string -> Setting,
                          today: int, toDay: DayParser)
    requires Shown(frame, showCols)
    ensures forall r :: r in FilterPage(frame, showCols, settings, today, toDay) <==>
                          r in frame.rows && PassesShown(frame, showCols, settings, today, toDay, r)
    ensures SubsequenceOf(FilterPage(frame, showCols, settings, today, toDay), frame.rows)
    ensures forall r :: multiset(FilterPage(frame, showCols, settings, today, toDay))[r] ==
                          if PassesShown(frame, showCols, settings, today, toDay, r) then multiset(frame.rows)[r] else 0
    ensures showCols == [] ==> FilterPage(frame, showCols, settings, today, toDay) == frame.rows
  {
    var fs := BuildFilters(frame, showCols, settings, today, toDay);
    ApplyIsConjunction(frame.rows, Values(fs), toDay);
    forall r ensures AllHold(Values(fs), r, toDay) <==> PassesShown(frame, showCols, settings, today, toDay, r) {
      BuiltFiltersPerColumn(frame, showCols, settings, today, toDay, r);
    }
  }

  /** Passing every filter in the dict is passing the filter of every shown column that has one. */
  lemma BuiltFiltersPerColumn(frame: Frame, showCols: seq<string>, settings: string -> Setting,
                              today: int, toDay: DayParser, r: Row)
    requires Shown(frame, showCols)
    ensures AllHold(Values(BuildFilters(frame, showCols, settings, today, toDay)), r, toDay)
            <==> PassesShown(frame, showCols, settings, today, toDay, r)
  {
    var fs := BuildFilters(frame, showCols, settings, today, toDay);
    var vs := Values(fs);
    if AllHold(vs, r, toDay) {
      forall c | c in showCols && ColumnFilter(frame, c, settings(c), today, toDay).Some?
        ensures Holds(ColumnFilter(frame, c, settings(c), today, toDay).value, r, toDay)
      {
        assert c in Keys(fs);
        var i :| 0 <= i < |fs| && Keys(fs)[i] == c;
        GetAt(fs, i);
        assert vs[i] == fs[i].1;
      }
    }
    if PassesShown(frame, showCols, settings, today, toDay, r) {
      forall i | 0 <= i < |vs| ensures Holds(vs[i], r, toDay) {
        GetAt(fs, i);
        assert fs[i].0 in showCols;
      }
    }
  }

  /** The slider's default range keeps every row whose cell in that column is a number. */
  lemma DefaultRangeKeepsNumbers(frame: Frame, c: string, row: Row, toDay: DayParser, today: int)
    requires row in frame.rows && c in row && row[c].Some? && row[c].value.Num?
    ensures var f := FilterFor(c, NumericRange, ColumnValues(frame.rows, c), Untouched, today, toDay);
            f.Some? && Holds(f.value, row, toDay)
  {
  }

  /** The date inputs' defaults keep every row whose cell in that column parses as a date. */
  lemma DefaultDatesKeepParsable(frame: Frame, c: string, row: Row, toDay: DayParser, today: int)
    requires row in frame.rows && c in row && row[c].Some? && toDay(row[c].value).Some?
    ensures var f := FilterFor(c, DateRange, ColumnValues(frame.rows, c), Untouched, today, toDay);
            f.Some? && Holds(f.value, row, toDay)
  {
  }

  /** Values 10, 20, 30: the default slider range is [10, 30]. */
  lemma DefaultRangeExample(toDay: DayParser, today: int)
    ensures var rows: seq<Row> := [map["amount" := Some(Num(10.0))], map["amount" := Some(Num(20.0))],
                                   map["amount" := Some(Num(30.0))]];
            FilterFor("amount", NumericRange, ColumnValues(rows, "amount"), Untouched, today, toDay)
              == Some(InRange("amount", 10.0, 30.0))
  {
    var r1: Row, r2: Row, r3: Row := map["amount" := Some(Num(10.0))], map["amount" := Some(Num(20.0))],
                                     map["amount" := Some(Num(30.0))];
    ExampleColumn(r1, r2, r3);
    ExampleBounds();
  }

  /** Values 10, 20, 30: the range [10, 30] keeps all three, and [15, 25] keeps only 20. */
  lemma RangeKeepExample(toDay: DayParser)
    ensures var rows: seq<Row> := [map["amount" := Some(Num(10.0))], map["amount" := Some(Num(20.0))],
                                   map["amount" := Some(Num(30.0))]];
            && Keep(rows, InRange("amount", 10.0, 30.0), toDay) == rows
            && Keep(rows, InRange("amount", 15.0, 25.0), toDay) == [rows[1]]
  {
    var r1: Row, r2: Row, r3: Row := map["amount" := Some(Num(10.0))], map["amount" := Some(Num(20.0))],
                                     map["amount" := Some(Num(30.0))];
    KeepThree(r1, r2, r3, InRange("amount", 10.0, 30.0), toDay);
    KeepThree(r1, r2, r3, InRange("amount", 15.0, 25.0), toDay);
  }

  /** Keeping from three rows, spelled out. */
  lemma KeepThree(r1: Row, r2: Row, r3: Row, f: Filter, toDay: DayParser)
    ensures Keep([r1, r2, r3], f, toDay) ==
              (if Holds(f, r1, toDay) then [r1] else []) + (if Holds(f, r2, toDay) then [r2] else [])
              + (if Holds(f, r3, toDay) then [r3] else [])
  {
    var k1 := if Holds(f, r1, toDay) then [r1] else [];
    var k2 := if Holds(f, r2, toDay) then [r2] else [];
    var k3 := if Holds(f, r3, toDay) then [r3] else [];
    var t3: seq<Row> := [r3];
    var t2: seq<Row> := [r2] + t3;
    var t1: seq<Row> := [r1] + t2;
    KeepCons(r3, [], f, toDay);
    assert [r3] + [] == t3;
    assert Keep(t3, f, toDay) == k3;
    KeepCons(r2, t3, f, toDay);
    assert Keep(t2, f, toDay) == k2 + k3;
    KeepCons(r1, t2, f, toDay);
    assert Keep(t1, f, toDay) == k1 + (k2 + k3);
    ThreeElements(r1, r2, r3);
    Associate(k1, k2, k3);
  }

  /** Stated for any element type, where the solver needs no facts about rows. */
  lemma ThreeElements<T>(x: T, y: T, z: T)
    ensures [x] + ([y] + [z]) == [x, y, z]
  {
  }

  lemma Associate<T>(a: seq<T>, b: seq<T>, c: seq<T>)
    ensures a + (b + c) == a + b + c
  {
  }

  lemma KeepCons(r: Row, rows: seq<Row>, f: Filter, toDay: DayParser)
    ensures Keep([r] + rows, f, toDay) == (if Holds(f, r, toDay) then [r] else []) + Keep(rows, f, toDay)
  {
    assert ([r] + rows)[1..] == rows;
  }

  lemma ExampleColumn(r1: Row, r2: Row, r3: Row)
    requires r1 == map["amount" := Some(Num(10.0))]
    requires r2 == map["amount" := Some(Num(20.0))]
    requires r3 == map["amount" := Some(Num(30.0))]
    ensures ColumnValues([r1, r2, r3], "amount") == [Some(Num(10.0)), Some(Num(20.0)), Some(Num(30.0))]
  {
  }

  lemma ExampleBounds()
    ensures SliderDefault([Some(Num(10.0)), Some(Num(20.0)), Some(Num(30.0))]) == (10.0, 30.0)
  {
    var vals := [Some(Num(10.0)), Some(Num(20.0)), Some(Num(30.0))];
    assert vals[1..] == [Some(Num(20.0)), Some(Num(30.0))];
    assert vals[1..][1..] == [Some(Num(30.0))];
    assert vals[1..][1..][1..] == [];
    assert Numbers(vals[1..][1..]) == [30.0];
    assert Numbers(vals[1..]) == [20.0, 30.0];
    var xs := [10.0, 20.0, 30.0];
    assert Numbers(vals) == xs;
    assert xs[1..] == [20.0, 30.0] && xs[1..][1..] == [30.0];
  }
}

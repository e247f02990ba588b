/**
 The primary-key heuristic of the CRUD page (app.py:489-496 for Update,
 app.py:516-523 for Delete). The input is the table's `PRAGMA table_info`
 rows in declared order; one pass picks the first row that is flagged as a
 key or whose lower-cased name contains "id", and `cols[0]` is the fallback.
 */
module PrimaryKey {
  import opened Wrappers
  import opened Text

  /** The `pk` cell of a table_info row, as pandas hands it back. */
  datatype PkCell = IntCell(n: int) | TextCell(s: string)

  /** One table_info row: the column name and its `pk` cell. */
  datatype ColumnInfo = ColumnInfo(name: string, pk: PkCell)

  /** The Update page also accepts the text '1' as a key flag; Delete does not. */
  datatype Page = UpdatePage | DeletePage

  predicate Flagged(page: Page, c: ColumnInfo) {
    c.pk == IntCell(1) || (page == UpdatePage && c.pk == TextCell("1"))
  }

  predicate NamedLikeId(c: ColumnInfo) {
    Contains(Lower(c.name), "id")
  }

  /** The test inside the loop body. */
  predicate Qualifies(page: Page, c: ColumnInfo) {
    Flagged(page, c) || NamedLikeId(c)
  }

  /** The position at which the loop breaks, if it breaks at all. */
  function FirstQualifying(page: Page, cols: seq<ColumnInfo>): (r: Option<nat>)
    ensures r.Some? ==> r.value < |cols| && Qualifies(page, cols[r.value])
    ensures r.Some? ==> forall j :: 0 <= j < r.value ==> !Qualifies(page, cols[j])
    ensures r.None? <==> forall j :: 0 <= j < |cols| ==> !Qualifies(page, cols[j])
  {
    if |cols| == 0 then None
    else if Qualifies(page, cols[0]) then Some(0)
    else match FirstQualifying(page, cols[1..]) {
      case None => None
      case Some(i) => Some(i + 1)
    }
  }

  /**
   The key column the page uses. Python's `not pk_col` is also true for an
   empty column name, so a matching column named "" falls back to `cols[0]`.
   The result is None exactly when there are no columns.
   */
  function Resolve(page: Page, cols: seq<ColumnInfo>): (r: Option<string>)
    ensures r.None? <==> |cols| == 0
    ensures r.Some? ==> exists i :: 0 <= i < |cols| && cols[i].name == r.value
  {
    var hit := FirstQualifying(page, cols);
    if hit.Some? && cols[hit.value].name != "" then Some(cols[hit.value].name)
    else if |cols| > 0 then Some(cols[0].name)
    else None
  }

  /** The first qualifying column in declared order wins. */
  lemma ResolvePicksFirst(page: Page, cols: seq<ColumnInfo>, i: nat)
    requires i < |cols| && Qualifies(page, cols[i]) && cols[i].name != ""
    requires forall j :: 0 <= j < i ==> !Qualifies(page, cols[j])
    ensures Resolve(page, cols) == Some(cols[i].name)
  {
  }

  /**
   When no column qualifies, or the first one that does has an empty name
   (whatever qualifies after it), the first column is used.
   */
  lemma ResolveFallsBack(page: Page, cols: seq<ColumnInfo>)
    requires |cols| > 0
    requires forall i :: 0 <= i < |cols| && Qualifies(page, cols[i]) && (forall j :: 0 <= j < i ==> !Qualifies(page, cols[j])) ==>
               cols[i].name == ""
    ensures Resolve(page, cols) == Some(cols[0].name)
  {
  }

  /** An empty-named key column stops the scan, and the later `b_id` is never reached. */
  lemma EmptyNameStopsScan()
    ensures Resolve(UpdatePage, [ColumnInfo("a", IntCell(0)), ColumnInfo("", IntCell(1)), ColumnInfo("b_id", IntCell(0))])
              == Some("a")
  {
  }

  /**
   The loop of the page, statement for statement: scan, break at the first
   qualifying row, then apply the fallback.
   */
  method ScanForKey(page: Page, cols: seq<ColumnInfo>) returns (pkCol: Option<string>)
    ensures pkCol == Resolve(page, cols)
  {
    pkCol := None;
    var i := 0;
    while i < |cols|
      invariant 0 <= i <= |cols|
      invariant forall j :: 0 <= j < i ==> !Qualifies(page, cols[j])
      invariant pkCol == None
    {
      if Qualifies(page, cols[i]) {
        pkCol := Some(cols[i].name);
        assert FirstQualifying(page, cols) == Some(i);
        break;
      }
      i := i + 1;
    }
    if (pkCol.None? || pkCol.value == "") && |cols| > 0 {
      pkCol := Some(cols[0].name);
    }
  }

  /**
   A column the Delete page accepts is accepted by the Update page too, so
   the Update scan stops no later than the Delete scan.
   */
  lemma UpdateStopsNoLater(cols: seq<ColumnInfo>)
    requires FirstQualifying(DeletePage, cols).Some?
    ensures FirstQualifying(UpdatePage, cols).Some?
    ensures FirstQualifying(UpdatePage, cols).value <= FirstQualifying(DeletePage, cols).value
  {
  }

  /** The two pages pick the same column unless some `pk` cell is the text '1'. */
  lemma PagesAgreeWithoutTextFlag(cols: seq<ColumnInfo>)
    requires forall i :: 0 <= i < |cols| ==> cols[i].pk != TextCell("1")
    ensures Resolve(UpdatePage, cols) == Resolve(DeletePage, cols)
  {
  }

  /** The name test ignores letter case. */
  lemma IdTestIgnoresCase(c: ColumnInfo)
    ensures NamedLikeId(c) <==> NamedLikeId(ColumnInfo(Lower(c.name), c.pk))
  {
    LowerIdempotent(c.name);
  }

  /** "uuid" contains "id", so it beats a later "customer_id". */
  lemma UuidIsPicked()
    ensures Resolve(UpdatePage, [ColumnInfo("uuid", IntCell(0)),
                                 ColumnInfo("customer_id", IntCell(0)),
                                 ColumnInfo("name", IntCell(0))]) == Some("uuid")
  {
    var cols := [ColumnInfo("uuid", IntCell(0)), ColumnInfo("customer_id", IntCell(0)), ColumnInfo("name", IntCell(0))];
    assert Lower("uuid") == "uuid";
    assert OccursAt("uuid", "id", 2);
    ContainsIffOccurs("uuid", "id");
    ResolvePicksFirst(UpdatePage, cols, 0);
  }

  /** One pass, not a priority order: an earlier id-named column beats a later flagged key. */
  lemma IdNameBeatsLaterFlag()
    ensures Resolve(DeletePage, [ColumnInfo("user_id", IntCell(0)),
                                 ColumnInfo("code", IntCell(1))]) == Some("user_id")
  {
    var cols := [ColumnInfo("user_id", IntCell(0)), ColumnInfo("code", IntCell(1))];
    assert Lower("user_id") == "user_id";
    assert OccursAt("user_id", "id", 5);
    ContainsIffOccurs("user_id", "id");
    ResolvePicksFirst(DeletePage, cols, 0);
  }
}

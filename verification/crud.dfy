/**
 The form-to-statement path of the CRUD page: the Create and Update forms
 (app.py:468-473, app.py:499-506) and the statement builders
 `insert_record`, `update_record` and `delete_record` (app.py:165-193).
 Every form field is a text input, so every value is a string.
 */
module Crud {
  import opened Wrappers
  import opened Text
  import opened Dicts

  /** Text typed into the form, keyed by column name. */
  type Inputs = string -> string

  predicate NonEmpty(v: string) {
    v != ""
  }

  /** `{k: v for k, v in form.items() if v != ""}`. */
  function DropEmpty(form: Dict<string, string>): (payload: Dict<string, string>)
    ensures forall i :: 0 <= i < |payload| ==> payload[i] in form && payload[i].1 != ""
    ensures DistinctKeys(form) ==> DistinctKeys(payload)
    ensures DistinctKeys(form) ==>
              forall k :: Get(payload, k) == (if Get(form, k).Some? && Get(form, k).value != "" then Get(form, k) else None)
  {
    var payload := Where(form, NonEmpty);
    if DistinctKeys(form) then
      forall k ensures Get(payload, k) == (if Get(form, k).Some? && Get(form, k).value != "" then Get(form, k) else None) {
        GetWhere(form, NonEmpty, k);
      }
      payload
    else payload
  }

  /** A form with one field per column, filled in column order (the loop `new[c] = ...`). */
  function FillForm(cols: seq<string>, skip: Option<string>, input: Inputs): (form: Dict<string, string>)
    ensures DistinctKeys(form)
    ensures forall c :: c in Keys(form) <==> c in cols && Some(c) != skip
    ensures forall c :: c in Keys(form) ==> Get(form, c) == Some(input(c))
    decreases |cols|
  {
    if |cols| == 0 then []
    else
      var prev := FillForm(cols[..|cols| - 1], skip, input);
      var c := cols[|cols| - 1];
      assert cols == cols[..|cols| - 1] + [c];
      if Some(c) == skip then prev
      else
        PutDistinct(prev, c, input(c));
        forall c' | c' != c ensures Get(Put(prev, c, input(c)), c') == Get(prev, c') {
          PutOthers(prev, c, input(c), c');
        }
        Put(prev, c, input(c))
  }

  /** The Create payload: every column whose field is not empty (app.py:469-473). */
  function CreatePayload(cols: seq<string>, input: Inputs): (payload: Dict<string, string>)
    ensures DistinctKeys(payload)
    ensures forall c :: c in Keys(payload) <==> c in cols && input(c) != ""
    ensures forall c :: c in Keys(payload) ==> Get(payload, c) == Some(input(c))
  {
    var form := FillForm(cols, None, input);
    DropEmpty(form)
  }

  /**
   The Update payload: every column other than the resolved key column
   whose field is not empty (app.py:500-506).
   */
  function UpdatePayload(cols: seq<string>, pkCol: Option<string>, input: Inputs): (payload: Dict<string, string>)
    ensures DistinctKeys(payload)
    ensures forall c :: c in Keys(payload) <==> c in cols && Some(c) != pkCol && input(c) != ""
    ensures forall c :: c in Keys(payload) ==> Get(payload, c) == Some(input(c))
    ensures pkCol.Some? ==> pkCol.value !in Keys(payload)
  {
    var form := FillForm(cols, pkCol, input);
    DropEmpty(form)
  }

  // ---------------------------------------------------------------------------
  // Statements (app.py:165-193)
  // ---------------------------------------------------------------------------

  /** A `:name` placeholder in SQL text. */
  datatype Slot = Slot(name: string)

  /** The three statement shapes the helpers build, before they are rendered as text. */
  datatype Sql =
    | Insert(table: string, columns: seq<string>, values: seq<Slot>)
    | Update(table: string, sets: seq<(string, Slot)>, keyCol: string, keyVal: Slot)
    | Delete(table: string, keyCol: string, keyVal: Slot)

  /** A statement and the parameter dict passed with it to `conn.execute`. */
  datatype Statement = Statement(sql: Sql, params: Dict<string, string>)

  function SlotText(p: Slot): string {
    ":" + p.name
  }

  function SetText(a: (string, Slot)): string {
    a.0 + " = " + SlotText(a.1)
  }

  /** The text the f-strings give to `text(...)`. */
  function SqlText(q: Sql): string {
    match q
    case Insert(t, cs, vs) =>
      "INSERT INTO " + t + " (" + Join(cs, ", ") + ") VALUES ("
      + Join(seq(|vs|, i requires 0 <= i < |vs| => SlotText(vs[i])), ", ") + ")"
    case Update(t, sets, kc, kv) =>
      "UPDATE " + t + " SET " + Join(seq(|sets|, i requires 0 <= i < |sets| => SetText(sets[i])), ", ")
      + " WHERE " + kc + " = " + SlotText(kv)
    case Delete(t, kc, kv) => "DELETE FROM " + t + " WHERE " + kc + " = " + SlotText(kv)
  }

  /** Python's f-string rendering of an optional column name. */
  function Render(name: Option<string>): string {
    match name
    case Some(n) => n
    case None => "None"
  }

  /** The value bound to a placeholder: the parameter of that name, if there is one. */
  function Bind(p: Slot, params: Dict<string, string>): Option<string> {
    Get(params, p.name)
  }

  /**
   Binding column/placeholder pairs: each column with the value of its
   placeholder, or None when some placeholder has no parameter (the
   driver rejects the statement).
   */
  function BindAll(pairs: seq<(string, Slot)>, params: Dict<string, string>): (row: Option<Dict<string, string>>)
    ensures row.None? <==> exists i :: 0 <= i < |pairs| && Bind(pairs[i].1, params).None?
    ensures row.Some? ==> |row.value| == |pairs|
    ensures row.Some? ==> forall i :: 0 <= i < |pairs| ==>
              row.value[i].0 == pairs[i].0 && Some(row.value[i].1) == Bind(pairs[i].1, params)
    decreases |pairs|
  {
    if |pairs| == 0 then Some([])
    else
      assert forall i :: 0 < i < |pairs| ==> pairs[1..][i - 1] == pairs[i];
      match (Bind(pairs[0].1, params), BindAll(pairs[1..], params))
      case (Some(v), Some(rest)) => Some([(pairs[0].0, v)] + rest)
      case _ => None
  }

  /** The row an INSERT writes: its columns with the values bound to its VALUES placeholders. */
  function Inserted(st: Statement): Option<Dict<string, string>> {
    match st.sql
    case Insert(_, cs, vs) =>
      if |cs| != |vs| then None
      else BindAll(seq(|cs|, i requires 0 <= i < |cs| => (cs[i], vs[i])), st.params)
    case _ => None
  }

  /** The assignments an UPDATE makes: its SET columns with their bound values. */
  function Assigned(st: Statement): Option<Dict<string, string>> {
    match st.sql
    case Update(_, sets, _, _) => BindAll(sets, st.params)
    case _ => None
  }

  /** The WHERE condition of an UPDATE or DELETE: the key column and the value bound for it. */
  function KeyCondition(st: Statement): Option<(string, string)> {
    match st.sql
    case Insert(_, _, _) => None
    case Update(_, _, kc, kv) => if Bind(kv, st.params).Some? then Some((kc, Bind(kv, st.params).value)) else None
    case Delete(_, kc, kv) => if Bind(kv, st.params).Some? then Some((kc, Bind(kv, st.params).value)) else None
  }

  /**
   `insert_record`: the column list and the `:k` placeholders both follow
   the record's key order, and the record is the parameter dict, so the
   row written is the record itself.
   */
  function InsertStatement(table: string, record: Dict<string, string>): (st: Statement)
    ensures st.sql.Insert? && st.sql.table == table
    ensures DistinctKeys(record) ==> Inserted(st) == Some(record)
  {
    var ks := Keys(record);
    var vs := seq(|ks|, i requires 0 <= i < |ks| => Slot(ks[i]));
    var st := Statement(Insert(table, ks, vs), record);
    if DistinctKeys(record) then
      InsertBindsRecord(record);
      assert seq(|ks|, i requires 0 <= i < |ks| => (ks[i], vs[i]))
          == seq(|ks|, i requires 0 <= i < |ks| => (ks[i], Slot(ks[i])));
      st
    else st
  }

  /** When every placeholder is bound, binding yields each column with its placeholder's value. */
  lemma {:induction false} BindAllExact(pairs: seq<(string, Slot)>, params: Dict<string, string>,
                                        row: Dict<string, string>)
    requires |row| == |pairs|
    requires forall i :: 0 <= i < |pairs| ==> row[i].0 == pairs[i].0 && Bind(pairs[i].1, params) == Some(row[i].1)
    ensures BindAll(pairs, params) == Some(row)
    decreases |pairs|
  {
    if |pairs| > 0 {
      assert forall i :: 0 <= i < |pairs| - 1 ==> pairs[1..][i] == pairs[i + 1] && row[1..][i] == row[i + 1];
      BindAllExact(pairs[1..], params, row[1..]);
      assert row == [(pairs[0].0, row[0].1)] + row[1..];
    }
  }

  lemma InsertBindsRecord(record: Dict<string, string>)
    requires DistinctKeys(record)
    ensures var ks := Keys(record);
            BindAll(seq(|ks|, i requires 0 <= i < |ks| => (ks[i], Slot(ks[i]))), record) == Some(record)
  {
    var ks := Keys(record);
    var pairs := seq(|ks|, i requires 0 <= i < |ks| => (ks[i], Slot(ks[i])));
    forall i | 0 <= i < |pairs| ensures Bind(pairs[i].1, record) == Some(record[i].1) {
      GetAt(record, i);
    }
    BindAllExact(pairs, record, record);
  }

  /** The value each column of `updates` ends up assigned: its own, or pk_val for a column named "pk_val". */
  function Shadowed(updates: Dict<string, string>, pkVal: string): Dict<string, string> {
    seq(|updates|, i requires 0 <= i < |updates| =>
      (updates[i].0, if updates[i].0 == "pk_val" then pkVal else updates[i].1))
  }

  /**
   `update_record`: the parameters are the updates plus `pk_val`, written
   last, so it overrides an update of a column that is itself named
   "pk_val". Each column of the dict is assigned in key order, and the
   WHERE clause compares the rendered key column with `pk_val`.
   */
  function UpdateStatement(table: string, pkCol: Option<string>, pkVal: string,
                           updates: Dict<string, string>): (st: Statement)
    ensures st.sql.Update? && st.sql.table == table
    ensures Get(st.params, "pk_val") == Some(pkVal)
    ensures forall k :: k != "pk_val" ==> Get(st.params, k) == Get(updates, k)
    ensures KeyCondition(st) == Some((Render(pkCol), pkVal))
    ensures DistinctKeys(updates) ==> Assigned(st) == Some(Shadowed(updates, pkVal))
  {
    var params := Put(updates, "pk_val", pkVal);
    forall k | k != "pk_val" ensures Get(params, k) == Get(updates, k) {
      PutOthers(updates, "pk_val", pkVal, k);
    }
    var ks := Keys(updates);
    var sets := seq(|ks|, i requires 0 <= i < |ks| => (ks[i], Slot(ks[i])));
    var st := Statement(Update(table, sets, Render(pkCol), Slot("pk_val")), params);
    if DistinctKeys(updates) then
      UpdateBindsShadowed(updates, pkVal, params, sets);
      st
    else st
  }

  lemma UpdateBindsShadowed(updates: Dict<string, string>, pkVal: string, params: Dict<string, string>,
                            sets: seq<(string, Slot)>)
    requires DistinctKeys(updates)
    requires Get(params, "pk_val") == Some(pkVal)
    requires forall k :: k != "pk_val" ==> Get(params, k) == Get(updates, k)
    requires |sets| == |updates| && forall i :: 0 <= i < |sets| ==> sets[i] == (updates[i].0, Slot(updates[i].0))
    ensures BindAll(sets, params) == Some(Shadowed(updates, pkVal))
  {
    var want := Shadowed(updates, pkVal);
    forall i | 0 <= i < |sets| ensures Bind(sets[i].1, params) == Some(want[i].1) {
      if updates[i].0 != "pk_val" {
        GetAt(updates, i);
      }
    }
    BindAllExact(sets, params, want);
  }

  /** `delete_record`: the key value is the only parameter, bound as `:v`. */
  function DeleteStatement(table: string, pkCol: Option<string>, pkVal: string): (st: Statement)
    ensures st.sql.Delete? && st.sql.table == table
    ensures KeyCondition(st) == Some((Render(pkCol), pkVal)) && |st.params| == 1
  {
    Statement(Delete(table, Render(pkCol), Slot("v")), [("v", pkVal)])
  }

  /** The text sent for a two-field record: columns and placeholders in key order. */
  lemma InsertTextExample()
    ensures SqlText(InsertStatement("t", [("a", "1"), ("b", "2")]).sql) == "INSERT INTO t (a, b) VALUES (:a, :b)"
  {
    InsertShapeExample();
    InsertTextOf();
  }

  lemma InsertShapeExample()
    ensures InsertStatement("t", [("a", "1"), ("b", "2")]).sql == Insert("t", ["a", "b"], [Slot("a"), Slot("b")])
  {
    var record := [("a", "1"), ("b", "2")];
    assert record[1..] == [("b", "2")];
    assert Keys(record) == ["a", "b"];
  }

  lemma InsertTextOf()
    ensures SqlText(Insert("t", ["a", "b"], [Slot("a"), Slot("b")])) == "INSERT INTO t (a, b) VALUES (:a, :b)"
  {
    var vs := [Slot("a"), Slot("b")];
    var ps := seq(|vs|, i requires 0 <= i < |vs| => SlotText(vs[i]));
    assert |ps| == 2 && ps[0] == ":a" && ps[1] == ":b";
    assert Join(["a", "b"], ", ") == "a, b" by {
      assert ["a", "b"][1..] == ["b"];
    }
    assert Join(ps, ", ") == ":a, :b" by {
      assert ps[1..] == [":b"];
    }
    assert "INSERT INTO " + "t" + " (" == "INSERT INTO t (";
    assert "INSERT INTO t (" + "a, b" == "INSERT INTO t (a, b";
    assert "INSERT INTO t (a, b" + ") VALUES (" == "INSERT INTO t (a, b) VALUES (";
    assert "INSERT INTO t (a, b) VALUES (" + ":a, :b" == "INSERT INTO t (a, b) VALUES (:a, :b";
    assert "INSERT INTO t (a, b) VALUES (:a, :b" + ")" == "INSERT INTO t (a, b) VALUES (:a, :b)";
  }

  /** The text sent for an update of one column `c`, keyed by `k`. */
  lemma UpdateTextExample()
    ensures SqlText(UpdateStatement("t", Some("k"), "7", [("c", "10")]).sql) == "UPDATE t SET c = :c WHERE k = :pk_val"
  {
    UpdateShapeExample();
    UpdateTextOf();
  }

  lemma UpdateShapeExample()
    ensures UpdateStatement("t", Some("k"), "7", [("c", "10")]).sql == Update("t", [("c", Slot("c"))], "k", Slot("pk_val"))
  {
    assert Keys([("c", "10")]) == ["c"];
  }

  lemma UpdateTextOf()
    ensures SqlText(Update("t", [("c", Slot("c"))], "k", Slot("pk_val"))) == "UPDATE t SET c = :c WHERE k = :pk_val"
  {
    var sets := [("c", Slot("c"))];
    var texts := seq(|sets|, i requires 0 <= i < |sets| => SetText(sets[i]));
    assert |texts| == 1 && texts[0] == "c = :c";
    assert Join(texts, ", ") == "c = :c";
    assert SlotText(Slot("pk_val")) == ":pk_val";
    assert "UPDATE " + "t" + " SET " == "UPDATE t SET ";
    assert "UPDATE t SET " + "c = :c" == "UPDATE t SET c = :c";
    assert "UPDATE t SET c = :c" + " WHERE " == "UPDATE t SET c = :c WHERE ";
    assert "UPDATE t SET c = :c WHERE " + "k" + " = " == "UPDATE t SET c = :c WHERE k = ";
    assert "UPDATE t SET c = :c WHERE k = " + ":pk_val" == "UPDATE t SET c = :c WHERE k = :pk_val";
  }

  /** The text sent for a delete, and the text Python renders when no key column was found. */
  lemma DeleteTextExample()
    ensures SqlText(DeleteStatement("t", Some("k"), "7").sql) == "DELETE FROM t WHERE k = :v"
    ensures SqlText(DeleteStatement("t", None, "7").sql) == "DELETE FROM t WHERE None = :v"
  {
  }

  /** A column named "pk_val" is assigned the key value, not the value typed for it. */
  lemma PkValShadowsUpdate(table: string, pkCol: Option<string>)
    ensures Assigned(UpdateStatement(table, pkCol, "7", [("pk_val", "x"), ("name", "Ann")]))
              == Some([("pk_val", "7"), ("name", "Ann")])
  {
    var updates := [("pk_val", "x"), ("name", "Ann")];
    assert DistinctKeys(updates);
    assert Shadowed(updates, "7") == [("pk_val", "7"), ("name", "Ann")];
  }
}

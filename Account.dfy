/**
 * The paired-emphasis extraction of `attachAccountData`: every table row
 * nested in the Account page's detail row gives at most one field of the
 * record, labelled by a plain cell and valued by a cell holding `<b>`.
 */
module Account {
  import opened Wrappers
  import opened Text
  import opened Document
  import opened Sentinel
  import opened Stores
  import opened Fixed

  /** Python truthiness of the locals `field` and `value`: neither None nor "". */
  predicate Truthy(o: Option<string>) {
    o.Some? && o.value != ""
  }

  /** A cell that sets `value`: it contains a `<b>`. */
  predicate IsValueCell(c: Cell) {
    c.hasBold
  }

  /** A cell that sets `field`: no `<b>`, and its raw text is not empty. */
  predicate IsLabelCell(c: Cell) {
    !c.hasBold && c.text != ""
  }

  /** `value` after scanning `cells`: the cleaned text of the last cell holding `<b>`. */
  function RowValue(cells: Row): Option<string> {
    if cells == [] then None
    else if IsValueCell(cells[|cells| - 1]) then Some(CleanString(cells[|cells| - 1].text, true))
    else RowValue(cells[..|cells| - 1])
  }

  /** `field` after scanning `cells`: the cleaned text of the last label cell. */
  function RowField(cells: Row): Option<string> {
    if cells == [] then None
    else if IsLabelCell(cells[|cells| - 1]) then Some(CleanString(cells[|cells| - 1].text, true))
    else RowField(cells[..|cells| - 1])
  }

  /** The cell holding `<b>` that comes last decides the row's value. */
  lemma {:induction false} RowValueIsLastBold(cells: Row, i: nat)
    requires i < |cells| && IsValueCell(cells[i])
    requires forall j :: i < j < |cells| ==> !IsValueCell(cells[j])
    ensures RowValue(cells) == Some(CleanString(cells[i].text, true))
  {
    if i < |cells| - 1 {
      RowValueIsLastBold(cells[..|cells| - 1], i);
    }
  }

  /** A row has no value exactly when none of its cells holds `<b>`. */
  lemma {:induction false} RowValueNone(cells: Row)
    ensures RowValue(cells) == None <==> forall j :: 0 <= j < |cells| ==> !IsValueCell(cells[j])
  {
    if cells != [] {
      RowValueNone(cells[..|cells| - 1]);
    }
  }

  /** The label cell that comes last decides the row's field name. */
  lemma {:induction false} RowFieldIsLastLabel(cells: Row, i: nat)
    requires i < |cells| && IsLabelCell(cells[i])
    requires forall j :: i < j < |cells| ==> !IsLabelCell(cells[j])
    ensures RowField(cells) == Some(CleanString(cells[i].text, true))
  {
    if i < |cells| - 1 {
      RowFieldIsLastLabel(cells[..|cells| - 1], i);
    }
  }

  /** A row has no field name exactly when it has no label cell. */
  lemma {:induction false} RowFieldNone(cells: Row)
    ensures RowField(cells) == None <==> forall j :: 0 <= j < |cells| ==> !IsLabelCell(cells[j])
  {
    if cells != [] {
      RowFieldNone(cells[..|cells| - 1]);
    }
  }

  /** The inner loop over one row's cells. */
  method ScanRow(cells: Row) returns (field: Option<string>, value: Option<string>)
    ensures field == RowField(cells) && value == RowValue(cells)
  {
    field, value := None, None;
    for i := 0 to |cells|
      invariant field == RowField(cells[..i]) && value == RowValue(cells[..i])
    {
      assert cells[..i + 1][..i] == cells[..i];
      var cell := cells[i];
      if cell.hasBold {
        value := Some(CleanString(cell.text, true));
      } else if cell.text != "" {
        field := Some(CleanString(cell.text, true));
      }
    }
    assert cells[..|cells|] == cells;
  }

  /** Whether a row stores key `k`: both its field and its value are truthy and the field is `k`. */
  predicate Writes(cells: Row, k: string) {
    Truthy(RowField(cells)) && Truthy(RowValue(cells)) && RowField(cells).value == k
  }

  /** `if field and value: data[field] = value` for one row. */
  function ApplyRow(data: map<string, string>, cells: Row): map<string, string> {
    var field, value := RowField(cells), RowValue(cells);
    if Truthy(field) && Truthy(value) then data[field.value := value.value] else data
  }

  /** The record after the outer loop has handled every row of `rows`, in order. */
  function ApplyRows(data: map<string, string>, rows: seq<Row>): map<string, string> {
    if rows == [] then data else ApplyRow(ApplyRows(data, rows[..|rows| - 1]), rows[|rows| - 1])
  }

  /** A row changes only the key it writes, and a row that writes nothing changes nothing. */
  lemma ApplyRowFrame(data: map<string, string>, cells: Row, k: string)
    ensures !Writes(cells, k) ==> (k in ApplyRow(data, cells) <==> k in data)
    ensures !Writes(cells, k) && k in data ==> ApplyRow(data, cells)[k] == data[k]
    ensures Writes(cells, k) ==> k in ApplyRow(data, cells) && ApplyRow(data, cells)[k] == RowValue(cells).value
  {
  }

  /** Keys that no row writes keep their presence and their value. */
  lemma {:induction false} ApplyRowsFrame(data: map<string, string>, rows: seq<Row>, k: string)
    requires forall i :: 0 <= i < |rows| ==> !Writes(rows[i], k)
    ensures k in ApplyRows(data, rows) <==> k in data
    ensures k in data ==> ApplyRows(data, rows)[k] == data[k]
  {
    if rows != [] {
      ApplyRowsFrame(data, rows[..|rows| - 1], k);
      ApplyRowFrame(ApplyRows(data, rows[..|rows| - 1]), rows[|rows| - 1], k);
    }
  }

  /** A key already in the record stays in it: rows only add or overwrite. */
  lemma {:induction false} ApplyRowsKeep(data: map<string, string>, rows: seq<Row>, k: string)
    requires k in data
    ensures k in ApplyRows(data, rows)
  {
    if rows != [] {
      ApplyRowsKeep(data, rows[..|rows| - 1], k);
    }
  }

  /** Among rows with the same field name, the last one wins. */
  lemma {:induction false} ApplyRowsLastWins(data: map<string, string>, rows: seq<Row>, i: nat, k: string)
    requires i < |rows| && Writes(rows[i], k)
    requires forall j :: i < j < |rows| ==> !Writes(rows[j], k)
    ensures k in ApplyRows(data, rows) && ApplyRows(data, rows)[k] == RowValue(rows[i]).value
  {
    var prefix := rows[..|rows| - 1];
    if i == |rows| - 1 {
      ApplyRowFrame(ApplyRows(data, prefix), rows[i], k);
    } else {
      ApplyRowsLastWins(data, prefix, i, k);
      ApplyRowFrame(ApplyRows(data, prefix), rows[|rows| - 1], k);
    }
  }

  /** No key outside `exempt`, and no value stored under one, is empty. */
  predicate NoEmpties(data: map<string, string>, exempt: seq<string>) {
    forall k :: k in data && k !in exempt ==> k != "" && data[k] != ""
  }

  /** The rows never store an empty name or value, so they keep such a record free of them. */
  lemma {:induction false} ApplyRowsNoEmpties(data: map<string, string>, rows: seq<Row>, exempt: seq<string>)
    requires NoEmpties(data, exempt)
    ensures NoEmpties(ApplyRows(data, rows), exempt)
  {
    if rows != [] {
      ApplyRowsNoEmpties(data, rows[..|rows| - 1], exempt);
    }
  }

  /** Every key of the result was already there or is written by some row. */
  lemma {:induction false} ApplyRowsKeys(data: map<string, string>, rows: seq<Row>, k: string)
    requires k in ApplyRows(data, rows)
    ensures k in data || exists i :: 0 <= i < |rows| && Writes(rows[i], k)
  {
    if rows != [] && k !in data {
      var prefix := rows[..|rows| - 1];
      if Writes(rows[|rows| - 1], k) {
        assert Writes(rows[|rows| - 1], k);
      } else {
        ApplyRowFrame(ApplyRows(data, prefix), rows[|rows| - 1], k);
        ApplyRowsKeys(data, prefix, k);
        var i :| 0 <= i < |prefix| && Writes(prefix[i], k);
        assert rows[i] == prefix[i];
      }
    }
  }

  /** The `data` dictionary that `getData` creates and `attachAccountData` fills in place. */
  class AccountData {
    var fields: map<string, string>

    constructor ()
      ensures fields == map[]
    {
      fields := map[];
    }

    /** The outer loop over the detail rows. */
    method AttachRowPairs(rows: seq<Row>)
      modifies this
      ensures fields == ApplyRows(old(fields), rows)
    {
      for r := 0 to |rows|
        invariant fields == ApplyRows(old(fields), rows[..r])
      {
        assert rows[..r + 1][..r] == rows[..r];
        var field, value := ScanRow(rows[r]);
        if field.Some? && field.value != "" && value.Some? && value.value != "" {
          fields := fields[field.value := value.value];
        }
      }
      assert rows[..|rows|] == rows;
    }

    /**
     * The fixed-offset reads of scraper.py:55-68, in their order: each `tr` and
     * `<b>` is looked up just before its write, and a missing one stops the
     * method with the earlier writes kept.
     */
    method AttachFixedFields(bolds: seq<seq<string>>) returns (ok: bool)
      modifies this
      ensures (fields, ok) == Store(old(fields), FixedWrites(bolds))
    {
      ghost var w := FixedWrites(bolds);
      if !(3 < |bolds| && 0 < |bolds[3]|) {
        FixedStop(fields, bolds, 0);
        return false;
      }
      FixedStep(fields, bolds, 0);
      fields := fields[RealEstateId := CleanString(bolds[3][0], true)];
      assert Store(old(fields), w) == Store(fields, WritesFrom(bolds, 1));
      if !(1 < |bolds[3]|) {
        FixedStop(fields, bolds, 1);
        return false;
      }
      FixedStep(fields, bolds, 1);
      fields := fields[Pin := CleanString(bolds[3][1], true)];
      assert Store(old(fields), w) == Store(fields, WritesFrom(bolds, 2));
      if !(7 < |bolds| && 0 < |bolds[7]|) {
        FixedStop(fields, bolds, 2);
        return false;
      }
      FixedStep(fields, bolds, 2);
      fields := fields[LocationAddress := CleanString(bolds[7][0], true)];
      assert Store(old(fields), w) == Store(fields, WritesFrom(bolds, 3));
      if !(1 < |bolds[7]|) {
        FixedStop(fields, bolds, 3);
        return false;
      }
      FixedStep(fields, bolds, 3);
      fields := fields[PropertyDescription := CleanString(bolds[7][1], true)];
      assert Store(old(fields), w) == Store(fields, WritesFrom(bolds, 4));
      if !(11 < |bolds| && 0 < |bolds[11]|) {
        FixedStop(fields, bolds, 4);
        return false;
      }
      FixedStep(fields, bolds, 4);
      fields := fields[PropertyOwner := CleanString(bolds[11][0], true)];
      assert Store(old(fields), w) == Store(fields, WritesFrom(bolds, 5));
      var temp := bolds[9];
      if !(3 < |temp|) {
        FixedStop(fields, bolds, 5);
        return false;
      }
      FixedStep(fields, bolds, 5);
      fields := fields[MailingAddress := CleanString(Strip(temp[2]) + " " + Strip(temp[3]), false)];
      assert Store(old(fields), w) == Store(fields, WritesFrom(bolds, 6));
      if !(6 < |temp|) {
        FixedStop(fields, bolds, 6);
        return false;
      }
      FixedStep(fields, bolds, 6);
      fields := fields[PropertyLocationAddress := CleanString(Strip(temp[5]) + " " + Strip(temp[6]), false)];
      assert Store(old(fields), w) == Store(fields, WritesFrom(bolds, 7));
      return true;
    }

    /**
     * `attachAccountData`: the sentinel check, the fixed-offset reads, the
     * lookup of `tr` 22, then its detail rows. A placeholder page fails before
     * anything is stored; a missing cell fails with the earlier writes kept.
     */
    method AttachAccountData(page: Page) returns (outcome: Result<(), string>)
      modifies this
      ensures outcome.Failure? <==> page.heading == Some(MovedTitle) || !Readable(page.bolds) || |page.bolds| <= DetailTr
      ensures page.heading == Some(MovedTitle) ==> fields == old(fields)
      ensures page.heading != Some(MovedTitle) && outcome.Failure? ==> fields == Store(old(fields), FixedWrites(page.bolds)).0
      ensures outcome.Success? ==> fields == ApplyRows(Store(old(fields), FixedWrites(page.bolds)).0, page.detailRows)
    {
      var checked := Goldilocks(page);
      if checked.Failure? {
        return Failure(checked.error);
      }
      FixedReadsSucceed(fields, page.bolds);
      var ok := AttachFixedFields(page.bolds);
      if !ok {
        return Failure(MissingCell);
      }
      if |page.bolds| <= DetailTr {
        return Failure(MissingCell);
      }
      AttachRowPairs(page.detailRows);
      return Success(());
    }
  }

  /**
   * `getData`: a fresh record filled from one page, or the failure that ends
   * it. The seven fixed keys are always present; every other key and its
   * value are non-empty.
   */
  method GetData(page: Page) returns (r: Result<map<string, string>, string>)
    ensures r.Failure? <==> page.heading == Some(MovedTitle) || !Readable(page.bolds) || |page.bolds| <= DetailTr
    ensures r.Success? ==> r.value == ApplyRows(Store(map[], FixedWrites(page.bolds)).0, page.detailRows)
    ensures r.Success? ==> forall i :: 0 <= i < |FixedKeys| ==> FixedKeys[i] in r.value
    ensures r.Success? ==> NoEmpties(r.value, FixedKeys)
  {
    var data := new AccountData();
    var outcome := data.AttachAccountData(page);
    if outcome.Failure? {
      return Failure(outcome.error);
    }
    var record := Store(map[], FixedWrites(page.bolds)).0;
    forall k | k in record
      ensures k in FixedKeys
    {
      FixedKeysOnly(map[], page.bolds, k);
    }
    ApplyRowsNoEmpties(record, page.detailRows, FixedKeys);
    forall i | 0 <= i < |FixedKeys|
      ensures FixedKeys[i] in data.fields
    {
      FixedStored(map[], page.bolds, i);
      ApplyRowsKeep(record, page.detailRows, FixedKeys[i]);
    }
    return Success(data.fields);
  }
}

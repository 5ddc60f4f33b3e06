/** The export: keep the rows of the workbook's "Upload" sheet whose email is selected, and
    write each kept row's assigned ID into its first column. */
module Export {
  import opened Tables

  /** The "Upload" sheet as read back from the workbook: its header row and its data rows. */
  datatype UploadSheet = UploadSheet(header: seq<string>, rows: seq<seq<Cell>>)

  /** Name of the column the filter reads. */
  const EmailHeader: string := "email"

  /** Position of the first column called `name`. */
  function IndexOf(header: seq<string>, name: string): (r: Option<nat>)
    ensures r.Some? ==> r.value < |header| && header[r.value] == name
    ensures r.Some? ==> forall j | 0 <= j < r.value :: header[j] != name
    ensures r.None? <==> name !in header
    decreases |header|
  {
    if header == [] then None
    else if header[0] == name then Some(0)
    else match IndexOf(header[1..], name)
      case None => None
      case Some(j) => Some(j + 1)
  }

  /** `str()` of the email cell of a row. */
  function EmailAt(row: seq<Cell>, col: nat): string
  {
    Str(if col < |row| then row[col] else None)
  }

  /** The positions of the rows whose email is selected, in sheet order. */
  function KeptIndices(rows: seq<seq<Cell>>, col: nat, selected: set<string>): (idx: seq<nat>)
    ensures forall k | 0 <= k < |idx| :: idx[k] < |rows|
    ensures forall k, l | 0 <= k < l < |idx| :: idx[k] < idx[l]
    ensures forall i | 0 <= i < |rows| :: i in idx <==> EmailAt(rows[i], col) in selected
    decreases |rows|
  {
    if rows == [] then []
    else
      var prev := KeptIndices(rows[..|rows| - 1], col, selected);
      if EmailAt(rows[|rows| - 1], col) in selected then prev + [|rows| - 1] else prev
  }

  /** `Series.map(email_to_assigned_id)`: the ID for an email, missing when it has none. */
  function IdCell(ids: map<string, string>, e: string): Cell
  {
    if e in ids then Some(ids[e]) else None
  }

  /** The kept row with its first cell replaced. */
  function StampRow(row: seq<Cell>, id: Cell): seq<Cell>
  {
    if |row| == 0 then row else row[0 := id]
  }

  /** `out` is `row` with `id` in column 0 and every other column unchanged. */
  predicate StampedFrom(out: seq<Cell>, row: seq<Cell>, id: Cell)
  {
    && |out| == |row|
    && (|row| > 0 ==> out[0] == id)
    && forall j | 0 < j < |row| :: out[j] == row[j]
  }

  /** The rows written: the selected rows in sheet order, each stamped with its assigned ID. */
  function ExportRows(sheet: UploadSheet, col: nat, selected: set<string>, ids: map<string, string>): (out: seq<seq<Cell>>)
    ensures var idx := KeptIndices(sheet.rows, col, selected);
            && |out| == |idx|
            && forall k | 0 <= k < |out| ::
                 StampedFrom(out[k], sheet.rows[idx[k]], IdCell(ids, EmailAt(sheet.rows[idx[k]], col)))
  {
    var idx := KeptIndices(sheet.rows, col, selected);
    seq(|idx|, k requires 0 <= k < |idx| =>
      var row := sheet.rows[idx[k]];
      StampRow(row, IdCell(ids, EmailAt(row, col))))
  }

  /** What one press of the download button does. */
  datatype ExportOutcome =
    | NoWorkbook          // no application-form workbook has been loaded
    | NothingToExport     // no email has been given a new ID
    | Cancelled           // the save dialog returned no path
    | ExportFailed        // the Upload sheet could not be read or has no "email" column
    | Written(path: string, header: seq<string>, rows: seq<seq<Cell>>, count: nat)

  /** The download handler, given the workbook path, the emails to export, the assigned IDs,
      the path chosen in the save dialog and the Upload sheet as read (`None` if reading failed). */
  function ExportUpload(workbook: Option<string>, newIdEmails: set<string>, ids: map<string, string>,
                    path: Option<string>, upload: Option<UploadSheet>): (o: ExportOutcome)
    ensures workbook.None? ==> o == NoWorkbook
    ensures workbook.Some? && newIdEmails == {} ==> o == NothingToExport
    ensures o.Written? <==>
              && workbook.Some? && newIdEmails != {}
              && path.Some? && path.value != ""
              && upload.Some? && EmailHeader in upload.value.header
    ensures o.Written? ==>
              && o.path == path.value
              && o.header == upload.value.header
              && o.count == |o.rows|
              && o.rows == ExportRows(upload.value, IndexOf(upload.value.header, EmailHeader).value, newIdEmails, ids)
  {
    if workbook.None? then NoWorkbook
    else if newIdEmails == {} then NothingToExport
    else if path.None? || path.value == "" then Cancelled
    else if upload.None? then ExportFailed
    else match IndexOf(upload.value.header, EmailHeader)
      case None => ExportFailed
      case Some(col) =>
        var out := ExportRows(upload.value, col, newIdEmails, ids);
        Written(path.value, upload.value.header, out, |out|)
  }

  lemma KeptExample(rows: seq<seq<Cell>>, sel: set<string>)
    requires rows == [[None, Some("a@x.com")], [None, Some("b@x.com")], [None, Some("c@x.com")]]
    requires sel == {"a@x.com", "b@x.com"}
    ensures KeptIndices(rows, 1, sel) == [0, 1]
  {
    assert rows[..1][..0] == [];
    assert KeptIndices(rows[..1], 1, sel) == [0];
    assert rows[..2][..1] == rows[..1];
    assert KeptIndices(rows[..2], 1, sel) == [0, 1];
    assert rows[..3][..2] == rows[..2] && rows[..3] == rows;
    assert EmailAt(rows[2], 1) == "c@x.com" && "c@x.com" !in sel;
  }

  /** Worked example: of three Upload rows only the two selected ones are written, in order,
      with their assigned IDs in column 0. */
  lemma ExportExample()
    ensures var sheet := UploadSheet(["ID", "email"], [[None, Some("a@x.com")], [None, Some("b@x.com")], [None, Some("c@x.com")]]);
            var ids := map["a@x.com" := "8", "b@x.com" := "20"];
            ExportUpload(Some("form.xlsx"), {"a@x.com", "b@x.com"}, ids, Some("out.csv"), Some(sheet)) ==
              Written("out.csv", ["ID", "email"], [[Some("8"), Some("a@x.com")], [Some("20"), Some("b@x.com")]], 2)
  {
    var sheet := UploadSheet(["ID", "email"], [[None, Some("a@x.com")], [None, Some("b@x.com")], [None, Some("c@x.com")]]);
    var sel := {"a@x.com", "b@x.com"};
    var ids := map["a@x.com" := "8", "b@x.com" := "20"];
    assert IndexOf(sheet.header, EmailHeader) == Some(1);
    KeptExample(sheet.rows, sel);
    var out := ExportRows(sheet, 1, sel, ids);
    assert |out| == 2;
    assert out[0] == StampRow(sheet.rows[0], Some("8")) == [Some("8"), Some("a@x.com")];
    assert out[1] == StampRow(sheet.rows[1], Some("20")) == [Some("20"), Some("b@x.com")];
    assert out == [[Some("8"), Some("a@x.com")], [Some("20"), Some("b@x.com")]];
    assert ExportUpload(Some("form.xlsx"), sel, ids, Some("out.csv"), Some(sheet)) == Written("out.csv", sheet.header, out, 2);
  }

}

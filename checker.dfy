/** The application's shared state and its two handlers with real logic: the compare pass,
    which resets and refills the per-run state, and the download, which only reads it. */
module Checker {
  import opened Tables
  import opened Numeric
  import opened AccountExport
  import opened Matching
  import opened Export

  /** What one press of the compare button produces: an error when an input is missing, or
      the rows of the result table and the number of target emails. */
  datatype CompareOutcome = MissingInput | Compared(records: seq<MatchRecord>, targetCount: nat)

  class Checker {
    /** The loaded inputs: the account export, the unregistered table, the application form
        (reduced to its email column) and the path of the form's workbook. */
    var accounts: Option<Table>
    var unregistered: Option<Table>
    var formEmails: Option<seq<Cell>>
    var workbook: Option<string>
    /** The state the compare pass computes. */
    var targetEmails: set<string>
    var assignedIds: map<string, string>
    var newIdEmails: set<string>

    constructor ()
      ensures accounts == None && unregistered == None && formEmails == None && workbook == None
      ensures targetEmails == {} && assignedIds == map[] && newIdEmails == {}
    {
      accounts, unregistered, formEmails, workbook := None, None, None, None;
      targetEmails, assignedIds, newIdEmails := {}, map[], {};
    }

    method LoadAccountExport(t: Table)
      modifies this`accounts
      ensures accounts == Some(t)
    {
      accounts := Some(t);
    }

    method LoadUnregistered(t: Table)
      modifies this`unregistered
      ensures unregistered == Some(t)
    {
      unregistered := Some(t);
    }

    method LoadApplicationForm(path: string, emails: seq<Cell>)
      modifies this`workbook, this`formEmails
      ensures workbook == Some(path) && formEmails == Some(emails)
    {
      workbook := Some(path);
      formEmails := Some(emails);
    }

    /** The compare pass. Without the account export or the form nothing changes; otherwise
        `target_emails` and `email_to_assigned_id` are replaced by what the pass computes and
        `new_id_emails` gains the emails minted in this run. */
    method RunCompare() returns (o: CompareOutcome)
      modifies this`targetEmails, this`assignedIds, this`newIdEmails
      ensures accounts.None? || formEmails.None? ==>
                && o == MissingInput
                && targetEmails == old(targetEmails)
                && assignedIds == old(assignedIds)
                && newIdEmails == old(newIdEmails)
      ensures accounts.Some? && formEmails.Some? ==>
                var r := Pass(ContextOf(accounts.value, unregistered), Seed(accounts.value), formEmails.value);
                && o == Compared(r.records, |r.targets|)
                && targetEmails == r.targets
                && assignedIds == r.assignedIds
                && newIdEmails == old(newIdEmails) + r.minted
    {
      if accounts.None? || formEmails.None? {
        o := MissingInput;
        return;
      }
      targetEmails := {};
      assignedIds := map[];
      var csv := accounts.value;
      var seed := Seed(csv);
      var existing := BuildExistingIds(csv);
      var unreg := BuildUnregisteredLookup(unregistered);
      var ctx := Context(existing, SlotSet(csv, 0), SlotSet(csv, 1), SlotSet(csv, 2), SlotSet(csv, 3), unreg);
      var records := MatchRows(ctx, seed, formEmails.value);
      o := Compared(records, |targetEmails|);
    }

    /** The row loop: every form row gets its ID, its flags and its colour, and its email is
        recorded in `email_to_assigned_id`, `target_emails` and `new_id_emails` as it applies. */
    method MatchRows(ctx: Context, seed: int, emails: seq<Cell>) returns (records: seq<MatchRecord>)
      requires targetEmails == {} && assignedIds == map[]
      modifies this`targetEmails, this`assignedIds, this`newIdEmails
      ensures var r := Pass(ctx, seed, emails);
              && records == r.records
              && targetEmails == r.targets
              && assignedIds == r.assignedIds
              && newIdEmails == old(newIdEmails) + r.minted
    {
      ghost var r := Pass(ctx, seed, []);
      var nextNewId := seed;
      records := [];
      var i := 0;
      while i < |emails|
        invariant 0 <= i <= |emails|
        invariant r == Pass(ctx, seed, emails[..i])
        invariant records == r.records && nextNewId == r.nextId
        invariant assignedIds == r.assignedIds && targetEmails == r.targets
        invariant newIdEmails == old(newIdEmails) + r.minted
      {
        records, nextNewId := MatchRow(ctx, r, old(newIdEmails), emails[i], records, nextNewId);
        PassSnoc(ctx, seed, emails, i);
        r := Step(ctx, r, emails[i]);
        i := i + 1;
      }
      assert emails[..i] == emails;
    }

    /** One iteration of the row loop, taking the per-run state from `r` to the state
        `Step` gives for the next form row. */
    method MatchRow(ctx: Context, ghost r: RunResult, ghost earlier: set<string>, cell: Cell,
                    records: seq<MatchRecord>, nextNewId: int)
      returns (records': seq<MatchRecord>, nextNewId': int)
      requires records == r.records && nextNewId == r.nextId
      requires assignedIds == r.assignedIds && targetEmails == r.targets
      requires newIdEmails == earlier + r.minted
      modifies this`targetEmails, this`assignedIds, this`newIdEmails
      ensures var s := Step(ctx, r, cell);
              && records' == s.records && nextNewId' == s.nextId
              && assignedIds == s.assignedIds && targetEmails == s.targets
              && newIdEmails == earlier + s.minted
    {
      var e := Str(cell);
      var id, origin;
      id, origin, nextNewId' := AssignId(ctx, e, nextNewId);
      var flags, pid, highlight := ClassifyRow(ctx, e);
      records' := records + [MatchRecord(e, id, origin, flags, pid, highlight)];
    }

    /** The ID of one row: the existing ID when it is non-empty, otherwise the counter's next
        value, in which case the email joins `new_id_emails`; the ID is recorded either way. */
    method AssignId(ctx: Context, e: string, nextNewId: int) returns (id: string, origin: Origin, next: int)
      modifies this`assignedIds, this`newIdEmails
      ensures id == RowRecord(ctx, e, nextNewId).id && origin == RowRecord(ctx, e, nextNewId).origin
      ensures next == if NeedsNewId(ctx, e) then nextNewId + 1 else nextNewId
      ensures newIdEmails == if NeedsNewId(ctx, e) then old(newIdEmails) + {e} else old(newIdEmails)
      ensures assignedIds == old(assignedIds)[e := id]
    {
      var csvId := if e in ctx.existing then ctx.existing[e] else "";
      next := nextNewId;
      if csvId != "" {
        id := csvId;
        origin := FromExport;
      } else {
        id := IntToDecimal(next);
        origin := Minted(next);
        next := next + 1;
        newIdEmails := newIdEmails + {e};
      }
      assignedIds := assignedIds[e := id];
    }

    /** The slot flags, the PID and the colour of one row; a coloured row's email joins
        `target_emails`. */
    method ClassifyRow(ctx: Context, e: string) returns (flags: seq<bool>, pid: Option<string>, highlight: Highlight)
      modifies this`targetEmails
      ensures flags == Flags(ctx, e) && pid == Pid(ctx, e) && highlight == HighlightOf(ctx, e)
      ensures targetEmails == if highlight != PlainRow then old(targetEmails) + {e} else old(targetEmails)
    {
      flags := [e in ctx.preIndividual, e in ctx.individual, e in ctx.importing, e in ctx.bulk];
      var inUnreg := e in ctx.unregistered;
      pid := if inUnreg then Some(ctx.unregistered[e]) else None;
      if inUnreg {
        highlight := UnregisteredRow;
        targetEmails := targetEmails + {e};
      } else if !flags[1] && !flags[3] {
        highlight := NoRoleRow;
        targetEmails := targetEmails + {e};
      } else {
        highlight := PlainRow;
      }
    }

    /** A download right after a compare pass exports by what that pass left in the state:
        `new_id_emails` grown by the emails it minted and the IDs it assigned, or the state as
        it was when an input was missing. */
    method CompareThenDownload(path: Option<string>, upload: Option<UploadSheet>)
      returns (o: CompareOutcome, d: ExportOutcome)
      modifies this`targetEmails, this`assignedIds, this`newIdEmails
      ensures accounts.None? || formEmails.None? ==>
                d == ExportUpload(workbook, old(newIdEmails), old(assignedIds), path, upload)
      ensures accounts.Some? && formEmails.Some? ==>
                var r := Pass(ContextOf(accounts.value, unregistered), Seed(accounts.value), formEmails.value);
                d == ExportUpload(workbook, old(newIdEmails) + r.minted, r.assignedIds, path, upload)
    {
      o := RunCompare();
      d := Download(path, upload);
    }

    /** The download handler reads the workbook path, `new_id_emails` and
        `email_to_assigned_id`; it changes nothing. */
    function Download(path: Option<string>, upload: Option<UploadSheet>): (o: ExportOutcome)
      reads this
      ensures workbook.None? ==> o == NoWorkbook
      ensures workbook.Some? && newIdEmails == {} ==> o == NothingToExport
      ensures o.Written? <==>
                && workbook.Some? && newIdEmails != {}
                && path.Some? && path.value != ""
                && upload.Some? && EmailHeader in upload.value.header
      ensures o.Written? ==>
                && upload.Some? && IndexOf(upload.value.header, EmailHeader).Some?
                && o.rows == ExportRows(upload.value, IndexOf(upload.value.header, EmailHeader).value, newIdEmails, assignedIds)
                && o.count == |o.rows|
    {
      ExportUpload(workbook, newIdEmails, assignedIds, path, upload)
    }
  }

  /** Running the compare pass twice on the same inputs shows the same rows and leaves
      `new_id_emails` as the first run left it. */
  method CompareTwice(accounts: Table, unregistered: Option<Table>, workbook: string, emails: seq<Cell>)
    returns (first: CompareOutcome, second: CompareOutcome, idsAfterFirst: set<string>, idsAfterSecond: set<string>)
    ensures first.Compared? && first == second
    ensures idsAfterFirst == idsAfterSecond
  {
    var c := new Checker();
    c.LoadAccountExport(accounts);
    if unregistered.Some? {
      c.LoadUnregistered(unregistered.value);
    }
    c.LoadApplicationForm(workbook, emails);
    first := c.RunCompare();
    idsAfterFirst := c.newIdEmails;
    second := c.RunCompare();
    idsAfterSecond := c.newIdEmails;
  }

  /** After a run, an exported row whose email was minted in this run carries a minted ID in
      column 0, while a row selected only by an email minted in an earlier run and absent from
      this run's form gets a missing column 0, since `new_id_emails` is not reset. */
  lemma ExportAfterRun(ctx: Context, seed: int, emails: seq<Cell>, earlier: set<string>,
                       sheet: UploadSheet, col: nat, k: nat)
    requires k < |ExportRows(sheet, col, earlier + Pass(ctx, seed, emails).minted, Pass(ctx, seed, emails).assignedIds)|
    ensures var r := Pass(ctx, seed, emails);
            var out := ExportRows(sheet, col, earlier + r.minted, r.assignedIds);
            var row := sheet.rows[KeptIndices(sheet.rows, col, earlier + r.minted)[k]];
            var e := EmailAt(row, col);
            && (e in r.minted && |row| > 0 ==>
                  out[k][0].Some? && ParseInt(out[k][0].value).Some? &&
                  seed <= ParseInt(out[k][0].value).value < r.nextId)
            && (e !in EmailsOf(emails) && |row| > 0 ==> out[k][0] == None)
  {
    var r := Pass(ctx, seed, emails);
    var row := sheet.rows[KeptIndices(sheet.rows, col, earlier + r.minted)[k]];
    var e := EmailAt(row, col);
    AssignedKeys(ctx, seed, emails);
    if e in r.minted {
      MintedEmailsHaveMintedIds(ctx, seed, emails, e);
    }
  }
}

/** The row-by-row pass over the application form, as a pure specification: for every form
    email, the ID it is given (existing or freshly minted), its four slot flags, its PID,
    its row classification, and what the pass adds to the run's maps and sets. */
module Matching {
  import opened Tables
  import opened Numeric
  import opened AccountExport

  /** What the pass consults: the existing-ID map, the four slot sets and the PID lookup. */
  datatype Context = Context(
    existing: map<string, string>,
    preIndividual: set<string>,  // slot column 8
    individual: set<string>,     // slot column 16
    importing: set<string>,      // slot column 25
    bulk: set<string>,           // slot column 42
    unregistered: map<string, string>)

  function ContextOf(accounts: Table, unregistered: Option<Table>): Context
  {
    Context(ExistingIds(accounts), SlotSet(accounts, 0), SlotSet(accounts, 1),
            SlotSet(accounts, 2), SlotSet(accounts, 3), UnregisteredLookup(unregistered))
  }

  /** Where a row's ID came from: the account export, or the counter (with the number minted). */
  datatype Origin = FromExport | Minted(n: int)

  /** The row colour: matched in the unregistered table, holding neither of the two roles, or neither. */
  datatype Highlight = UnregisteredRow | NoRoleRow | PlainRow

  /** What the result table shows for one form row. */
  datatype MatchRecord = MatchRecord(email: string, id: string, origin: Origin, flags: seq<bool>,
                                     pid: Option<string>, highlight: Highlight)

  /** The state of the pass after some rows: the rows shown so far, `email_to_assigned_id`,
      `target_emails`, the emails minted so far, and `next_new_id`. */
  datatype RunResult = RunResult(records: seq<MatchRecord>, assignedIds: map<string, string>,
                                 targets: set<string>, minted: set<string>, nextId: int)

  /** `email_to_id_map.get(email, "")`. */
  function ExistingIdFor(ctx: Context, e: string): string
  {
    if e in ctx.existing then ctx.existing[e] else ""
  }

  /** A row gets a new ID when its email has no non-empty existing ID. */
  predicate NeedsNewId(ctx: Context, e: string)
  {
    ExistingIdFor(ctx, e) == ""
  }

  /** The four slot flags, in the order of the slot columns. */
  function Flags(ctx: Context, e: string): seq<bool>
  {
    [e in ctx.preIndividual, e in ctx.individual, e in ctx.importing, e in ctx.bulk]
  }

  function Pid(ctx: Context, e: string): Option<string>
  {
    if e in ctx.unregistered then Some(ctx.unregistered[e]) else None
  }

  /** The target rule: listed as unregistered, or holding neither the individual nor the bulk role. */
  predicate IsTarget(ctx: Context, e: string)
  {
    e in ctx.unregistered || (e !in ctx.individual && e !in ctx.bulk)
  }

  /** The row classification; an unregistered match takes priority over the no-role colour. */
  function HighlightOf(ctx: Context, e: string): (h: Highlight)
    ensures h == UnregisteredRow <==> e in ctx.unregistered
    ensures h != PlainRow <==> IsTarget(ctx, e)
  {
    var flags := Flags(ctx, e);
    if e in ctx.unregistered then UnregisteredRow
    else if !flags[1] && !flags[3] then NoRoleRow
    else PlainRow
  }

  /** The record shown for a row with email `e` when the counter stands at `nextId`. */
  function RowRecord(ctx: Context, e: string, nextId: int): MatchRecord
  {
    var existing := ExistingIdFor(ctx, e);
    var id := if existing != "" then existing else IntToDecimal(nextId);
    var origin := if existing != "" then FromExport else Minted(nextId);
    MatchRecord(e, id, origin, Flags(ctx, e), Pid(ctx, e), HighlightOf(ctx, e))
  }

  /** Slot flag `k` of an email is set iff some cell of slot column `k` stringifies to it,
      and is never set when the export does not have that column. */
  lemma SlotFlagsOfRow(accounts: Table, unregistered: Option<Table>, e: string, k: nat)
    requires k < |SlotColumns|
    ensures |Flags(ContextOf(accounts, unregistered), e)| == |SlotColumns|
    ensures Flags(ContextOf(accounts, unregistered), e)[k] <==>
              SlotColumns[k] < accounts.width &&
              exists i | 0 <= i < |accounts.rows| :: Str(CellAt(accounts, i, SlotColumns[k])) == e
  {
  }

  /** One iteration of the row loop. */
  function Step(ctx: Context, r: RunResult, cell: Cell): RunResult
  {
    var e := Str(cell);
    var rec := RowRecord(ctx, e, r.nextId);
    RunResult(
      r.records + [rec],
      r.assignedIds[e := rec.id],
      if rec.highlight != PlainRow then r.targets + {e} else r.targets,
      if NeedsNewId(ctx, e) then r.minted + {e} else r.minted,
      if NeedsNewId(ctx, e) then r.nextId + 1 else r.nextId)
  }

  /** The record and the ID map after one step. */
  lemma StepShape(ctx: Context, r: RunResult, cell: Cell)
    ensures var rec := RowRecord(ctx, Str(cell), r.nextId);
            && Step(ctx, r, cell).records == r.records + [rec]
            && Step(ctx, r, cell).assignedIds == r.assignedIds[Str(cell) := rec.id]
  {
  }

  /** A step leaves earlier records alone, and the ID of an earlier row's email when the new
      row has another email. */
  lemma StepKeepsEarlier(ctx: Context, r: RunResult, cell: Cell, i: nat, e: string)
    requires i < |r.records| && e in r.assignedIds && e != Str(cell)
    ensures var s := Step(ctx, r, cell);
            && |s.records| == |r.records| + 1
            && s.records[i] == r.records[i]
            && e in s.assignedIds && s.assignedIds[e] == r.assignedIds[e]
  {
  }

  /** A step appends the counter's value to the minted numbers exactly when the row needs a
      new ID. */
  lemma StepMinted(ctx: Context, r: RunResult, cell: Cell)
    ensures MintedNumbers(Step(ctx, r, cell).records) ==
            MintedNumbers(r.records) + (if NeedsNewId(ctx, Str(cell)) then [r.nextId] else [])
  {
    var records := Step(ctx, r, cell).records;
    assert records[..|records| - 1] == r.records;
  }

  /** The whole pass over the form emails, from empty per-run state and a counter at `seed`. */
  function Pass(ctx: Context, seed: int, emails: seq<Cell>): RunResult
    decreases |emails|
  {
    if emails == [] then RunResult([], map[], {}, {}, seed)
    else Step(ctx, Pass(ctx, seed, emails[..|emails| - 1]), emails[|emails| - 1])
  }

  // ---------------------------------------------------------------------------------------
  // Reference definitions, independent of the loop

  /** How many of the given rows need a new ID. */
  function MintCount(ctx: Context, emails: seq<Cell>): nat
    decreases |emails|
  {
    if emails == [] then 0
    else MintCount(ctx, emails[..|emails| - 1]) + (if NeedsNewId(ctx, Str(emails[|emails| - 1])) then 1 else 0)
  }

  /** The emails of the given rows, stringified. */
  function EmailsOf(emails: seq<Cell>): set<string>
  {
    set i | 0 <= i < |emails| :: Str(emails[i])
  }

  /** No later row carries the email of row `i`. */
  predicate IsLastOccurrence(emails: seq<Cell>, i: nat)
    requires i < |emails|
  {
    forall j | i < j < |emails| :: Str(emails[j]) != Str(emails[i])
  }

  /** The index of the last row carrying `e`, or -1. */
  function LastIndex(emails: seq<Cell>, e: string): (i: int)
    ensures -1 <= i < |emails|
    ensures i >= 0 ==> Str(emails[i]) == e && IsLastOccurrence(emails, i)
    ensures i < 0 <==> e !in EmailsOf(emails)
    decreases |emails|
  {
    if emails == [] then -1
    else if Str(emails[|emails| - 1]) == e then |emails| - 1
    else LastIndex(emails[..|emails| - 1], e)
  }

  /** The numbers minted, in the order of the rows that received them. */
  function MintedNumbers(records: seq<MatchRecord>): seq<int>
    decreases |records|
  {
    if records == [] then []
    else
      MintedNumbers(records[..|records| - 1]) +
      (match records[|records| - 1].origin case Minted(n) => [n] case FromExport => [])
  }

  /** What row `i` must show: the existing ID when there is a non-empty one, otherwise the
      seed plus the number of earlier rows that needed a new ID. */
  ghost predicate RowAssignment(ctx: Context, seed: int, emails: seq<Cell>, i: nat, rec: MatchRecord)
    requires i < |emails|
  {
    var e := Str(emails[i]);
    var n := seed + MintCount(ctx, emails[..i]);
    && rec.email == e
    && rec.flags == Flags(ctx, e)
    && rec.pid == Pid(ctx, e)
    && rec.highlight == HighlightOf(ctx, e)
    && (if NeedsNewId(ctx, e) then rec.origin == Minted(n) && rec.id == IntToDecimal(n)
        else rec.origin == FromExport && rec.id == ctx.existing[e])
  }

  // ---------------------------------------------------------------------------------------
  // Properties of the pass

  lemma EmailsOfSnoc(emails: seq<Cell>)
    requires emails != []
    ensures EmailsOf(emails) == EmailsOf(emails[..|emails| - 1]) + {Str(emails[|emails| - 1])}
  {
    var pre := emails[..|emails| - 1];
    forall e | e in EmailsOf(emails) ensures e in EmailsOf(pre) + {Str(emails[|emails| - 1])} {
      var i :| 0 <= i < |emails| && Str(emails[i]) == e;
      if i < |pre| { assert Str(pre[i]) == e; }
    }
    forall e | e in EmailsOf(pre) ensures e in EmailsOf(emails) {
      var i :| 0 <= i < |pre| && Str(pre[i]) == e;
      assert Str(emails[i]) == e;
    }
  }

  /** The pass over one more row is one more step. */
  lemma PassSnoc(ctx: Context, seed: int, emails: seq<Cell>, i: nat)
    requires i < |emails|
    ensures Pass(ctx, seed, emails[..i + 1]) == Step(ctx, Pass(ctx, seed, emails[..i]), emails[i])
  {
    assert emails[..i + 1][..i] == emails[..i];
  }

  /** The pass has one record per form row and the counter ends at the seed plus the
      number of rows that needed a new ID. */
  lemma {:induction false} PassCounter(ctx: Context, seed: int, emails: seq<Cell>)
    ensures |Pass(ctx, seed, emails).records| == |emails|
    ensures Pass(ctx, seed, emails).nextId == seed + MintCount(ctx, emails)
    decreases |emails|
  {
    if emails != [] {
      PassCounter(ctx, seed, emails[..|emails| - 1]);
    }
  }

  lemma RowRecordAssigns(ctx: Context, seed: int, emails: seq<Cell>, i: nat)
    requires i < |emails|
    ensures RowAssignment(ctx, seed, emails, i, RowRecord(ctx, Str(emails[i]), seed + MintCount(ctx, emails[..i])))
  {
  }

  lemma RowAssignmentPrefix(ctx: Context, seed: int, emails: seq<Cell>, n: nat, i: nat, rec: MatchRecord)
    requires i < n <= |emails|
    requires RowAssignment(ctx, seed, emails[..n], i, rec)
    ensures RowAssignment(ctx, seed, emails, i, rec)
  {
    assert emails[..n][..i] == emails[..i];
    assert emails[..n][i] == emails[i];
  }

  /** Row `i` of the pass shows what `RowAssignment` says. */
  lemma {:induction false} PassRecordAt(ctx: Context, seed: int, emails: seq<Cell>, i: nat)
    requires i < |emails|
    ensures |Pass(ctx, seed, emails).records| == |emails|
    ensures RowAssignment(ctx, seed, emails, i, Pass(ctx, seed, emails).records[i])
    decreases |emails|
  {
    var n := |emails| - 1;
    var pre := emails[..n];
    PassCounter(ctx, seed, emails);
    PassCounter(ctx, seed, pre);
    var p := Pass(ctx, seed, pre);
    assert Pass(ctx, seed, emails).records == p.records + [RowRecord(ctx, Str(emails[n]), p.nextId)];
    if i < n {
      PassRecordAt(ctx, seed, pre, i);
      RowAssignmentPrefix(ctx, seed, emails, n, i, p.records[i]);
    } else {
      assert emails[..i] == pre;
      RowRecordAssigns(ctx, seed, emails, n);
    }
  }

  /** Every row shows what `RowAssignment` says, one row per form row, and the counter ends
      at the seed plus the number of rows that needed a new ID. */
  lemma PassRecords(ctx: Context, seed: int, emails: seq<Cell>)
    ensures |Pass(ctx, seed, emails).records| == |emails|
    ensures Pass(ctx, seed, emails).nextId == seed + MintCount(ctx, emails)
    ensures forall i | 0 <= i < |emails| :: RowAssignment(ctx, seed, emails, i, Pass(ctx, seed, emails).records[i])
  {
    PassCounter(ctx, seed, emails);
    forall i | 0 <= i < |emails| ensures RowAssignment(ctx, seed, emails, i, Pass(ctx, seed, emails).records[i]) {
      PassRecordAt(ctx, seed, emails, i);
    }
  }

  /** The numbers from `seed` on, one more of them. */
  lemma RangeSnoc(seed: int, c: nat)
    ensures seq(c + 1, k => seed + k) == seq(c, k => seed + k) + [seed + c]
  {
  }

  /** Gap-free minting: the minted numbers, read in row order, are exactly
      seed, seed + 1, ..., one per row that needed a new ID. */
  lemma {:induction false} MintedGapFree(ctx: Context, seed: int, emails: seq<Cell>)
    ensures MintedNumbers(Pass(ctx, seed, emails).records) == seq(MintCount(ctx, emails), k => seed + k)
    decreases |emails|
  {
    if emails != [] {
      var pre := emails[..|emails| - 1];
      var cell := emails[|emails| - 1];
      MintedGapFree(ctx, seed, pre);
      PassCounter(ctx, seed, pre);
      var p := Pass(ctx, seed, pre);
      assert Pass(ctx, seed, emails) == Step(ctx, p, cell);
      StepMinted(ctx, p, cell);
      var c := MintCount(ctx, pre);
      if NeedsNewId(ctx, Str(cell)) {
        RangeSnoc(seed, c);
      }
    }
  }


  /** Minted numbers are strictly increasing along the rows. */
  lemma MintedIncreasing(ctx: Context, seed: int, emails: seq<Cell>)
    ensures var ns := MintedNumbers(Pass(ctx, seed, emails).records);
            forall a, b | 0 <= a < b < |ns| :: ns[a] < ns[b]
  {
    MintedGapFree(ctx, seed, emails);
  }

  /** `email_to_assigned_id` has an entry for exactly the form emails. */
  lemma {:induction false} AssignedKeys(ctx: Context, seed: int, emails: seq<Cell>)
    ensures Pass(ctx, seed, emails).assignedIds.Keys == EmailsOf(emails)
    decreases |emails|
  {
    if emails != [] {
      AssignedKeys(ctx, seed, emails[..|emails| - 1]);
      EmailsOfSnoc(emails);
    }
  }

  /** A row that is the last with its email stays so in any prefix that contains it. */
  lemma LastOccurrencePrefix(emails: seq<Cell>, n: nat, i: nat)
    requires i < n <= |emails| && IsLastOccurrence(emails, i)
    ensures IsLastOccurrence(emails[..n], i)
  {
    var pre := emails[..n];
    forall j | i < j < |pre| ensures Str(pre[j]) != Str(pre[i]) {
      assert pre[j] == emails[j];
    }
  }

  /** The entry for the email of row `i`, when no later row has it, is the ID row `i` shows. */
  lemma {:induction false} AssignedAt(ctx: Context, seed: int, emails: seq<Cell>, i: nat)
    requires i < |emails| && IsLastOccurrence(emails, i)
    ensures var r := Pass(ctx, seed, emails);
            && |r.records| == |emails|
            && Str(emails[i]) in r.assignedIds
            && r.assignedIds[Str(emails[i])] == r.records[i].id
    decreases |emails|
  {
    var n := |emails| - 1;
    var pre := emails[..n];
    PassCounter(ctx, seed, pre);
    var p := Pass(ctx, seed, pre);
    var r := Step(ctx, p, emails[n]);
    assert Pass(ctx, seed, emails) == r;
    var e := Str(emails[i]);
    if i < n {
      assert pre[i] == emails[i];
      LastOccurrencePrefix(emails, n, i);
      AssignedAt(ctx, seed, pre, i);
      StepKeepsEarlier(ctx, p, emails[n], i, e);
      assert e in r.assignedIds && r.assignedIds[e] == p.records[i].id == r.records[i].id;
    } else {
      StepShape(ctx, p, emails[n]);
      assert e in r.assignedIds && r.assignedIds[e] == r.records[i].id;
    }
  }


  /** The entry for an email holds the ID shown on the last row carrying that email. */
  lemma AssignedIsLastOccurrence(ctx: Context, seed: int, emails: seq<Cell>)
    ensures |Pass(ctx, seed, emails).records| == |emails|
    ensures forall i | 0 <= i < |emails| && IsLastOccurrence(emails, i) ::
              Str(emails[i]) in Pass(ctx, seed, emails).assignedIds &&
              Pass(ctx, seed, emails).assignedIds[Str(emails[i])] == Pass(ctx, seed, emails).records[i].id
  {
    PassCounter(ctx, seed, emails);
    forall i | 0 <= i < |emails| && IsLastOccurrence(emails, i)
      ensures Str(emails[i]) in Pass(ctx, seed, emails).assignedIds &&
              Pass(ctx, seed, emails).assignedIds[Str(emails[i])] == Pass(ctx, seed, emails).records[i].id
    {
      AssignedAt(ctx, seed, emails, i);
    }
  }

  /** `target_emails` is exactly the form emails meeting the target rule, and the minted set
      is exactly the form emails without a non-empty existing ID. */
  lemma {:induction false} PassSets(ctx: Context, seed: int, emails: seq<Cell>)
    ensures forall e :: e in Pass(ctx, seed, emails).targets <==> e in EmailsOf(emails) && IsTarget(ctx, e)
    ensures forall e :: e in Pass(ctx, seed, emails).minted <==> e in EmailsOf(emails) && NeedsNewId(ctx, e)
    decreases |emails|
  {
    if emails != [] {
      PassSets(ctx, seed, emails[..|emails| - 1]);
      EmailsOfSnoc(emails);
    }
  }

  lemma {:induction false} MintCountPrefix(ctx: Context, emails: seq<Cell>, i: nat, j: nat)
    requires i <= j <= |emails|
    ensures MintCount(ctx, emails[..i]) <= MintCount(ctx, emails[..j])
    ensures i < |emails| ==>
              MintCount(ctx, emails[..i + 1]) == MintCount(ctx, emails[..i]) + (if NeedsNewId(ctx, Str(emails[i])) then 1 else 0)
    decreases j
  {
    if i < |emails| {
      assert emails[..i + 1][..i] == emails[..i];
    }
    if i < j {
      MintCountPrefix(ctx, emails, i, j - 1);
      assert emails[..j][..j - 1] == emails[..j - 1];
    }
  }

  /** Every email minted in the run is exported with a minted ID: its entry in
      `email_to_assigned_id` reads back as a number in [seed, next_new_id). */
  lemma MintedEmailsHaveMintedIds(ctx: Context, seed: int, emails: seq<Cell>, e: string)
    requires e in Pass(ctx, seed, emails).minted
    ensures e in Pass(ctx, seed, emails).assignedIds
    ensures var n := ParseInt(Pass(ctx, seed, emails).assignedIds[e]);
            n.Some? && seed <= n.value < Pass(ctx, seed, emails).nextId
  {
    var r := Pass(ctx, seed, emails);
    var i := LastIndex(emails, e);
    assert i >= 0 && NeedsNewId(ctx, e) by {
      PassSets(ctx, seed, emails);
    }
    assert |r.records| == |emails| && e in r.assignedIds && r.assignedIds[e] == r.records[i].id by {
      AssignedIsLastOccurrence(ctx, seed, emails);
    }
    var m := seed + MintCount(ctx, emails[..i]);
    assert r.records[i].id == IntToDecimal(m) by {
      PassRecordAt(ctx, seed, emails, i);
    }
    DecimalRoundTrip(m);
    assert m < r.nextId by {
      PassCounter(ctx, seed, emails);
      MintCountPrefix(ctx, emails, i, i + 1);
      MintCountPrefix(ctx, emails, i + 1, |emails|);
      assert emails[..|emails|] == emails;
    }
  }


  /** Worked example: an email that appears twice with no existing ID is minted an ID on each
      row, and `email_to_assigned_id` keeps the second. */
  lemma DuplicateEmailMintedTwice()
    ensures var ctx := Context(map[], {}, {}, {}, {}, map[]);
            var r := Pass(ctx, 5, [Some("a@x.com"), Some("a@x.com")]);
            && r.records[0].id == "5" && r.records[1].id == "6"
            && r.assignedIds == map["a@x.com" := "6"]
            && r.minted == {"a@x.com"} && r.nextId == 7
  {
    var ctx := Context(map[], {}, {}, {}, {}, map[]);
    var emails := [Some("a@x.com"), Some("a@x.com")];
    assert emails[..1] == [Some("a@x.com")];
    assert IntToDecimal(5) == "5" && IntToDecimal(6) == "6";
    assert emails[..0] == [];
    assert NeedsNewId(ctx, "a@x.com");
    PassSnoc(ctx, 5, emails, 0);
    PassSnoc(ctx, 5, emails, 1);
    assert emails[..2] == emails;
    var p := Pass(ctx, 5, emails[..1]);
    assert p.nextId == 6 && p.records[0].id == "5";
  }
}

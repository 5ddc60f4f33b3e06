/** Everything the engine derives from the account export before it looks at the form:
    the seed for new IDs, the email -> existing-ID map, the four slot membership sets,
    and the email -> PID lookup of the unregistered table. */
module AccountExport {
  import opened Tables
  import opened Numeric

  /** Column of the account ID in the export. */
  const IdColumn: nat := 0
  /** The four role-slot email columns, in scan order. */
  const SlotColumns: seq<nat> := [8, 16, 25, 42]
  /** Email and PID columns of the unregistered table, and the width it needs. */
  const UnregEmailColumn: nat := 5
  const UnregPidColumn: nat := 7
  const UnregMinWidth: nat := 8

  // ---------------------------------------------------------------------------------------
  // Seed for new IDs

  /** The numeric value of a cell, if it has one; missing and non-numeric cells have none. */
  function ParseCell(c: Cell): Option<int>
  {
    match c
    case None => None
    case Some(s) => ParseInt(s)
  }

  /** The largest numeric ID among the first `n` rows, or `None` if none of them has one. */
  function MaxId(t: Table, n: nat): (r: Option<int>)
    requires n <= |t.rows|
    ensures r.None? <==> forall i | 0 <= i < n :: ParseCell(CellAt(t, i, IdColumn)).None?
    ensures r.Some? ==> exists i | 0 <= i < n :: ParseCell(CellAt(t, i, IdColumn)) == r
    ensures r.Some? ==> forall i | 0 <= i < n ::
              ParseCell(CellAt(t, i, IdColumn)).Some? ==> ParseCell(CellAt(t, i, IdColumn)).value <= r.value
    decreases n
  {
    if n == 0 then None
    else
      var m := MaxId(t, n - 1);
      match ParseCell(CellAt(t, n - 1, IdColumn))
      case None => m
      case Some(v) => if m.Some? && v <= m.value then m else Some(v)
  }

  /** The first ID to mint: one more than the largest numeric ID, or 1 when there is none. */
  function Seed(t: Table): (s: int)
    ensures (forall i | 0 <= i < |t.rows| :: ParseCell(CellAt(t, i, IdColumn)).None?) ==> s == 1
    ensures forall i | 0 <= i < |t.rows| ::
              ParseCell(CellAt(t, i, IdColumn)).Some? ==> ParseCell(CellAt(t, i, IdColumn)).value < s
    ensures (exists i | 0 <= i < |t.rows| :: ParseCell(CellAt(t, i, IdColumn)).Some?) ==>
              exists i | 0 <= i < |t.rows| :: ParseCell(CellAt(t, i, IdColumn)) == Some(s - 1)
  {
    match MaxId(t, |t.rows|)
    case None => 1
    case Some(m) => m + 1
  }

  /** Worked example: IDs "3", "7", "x" and a blank give the seed 8. */
  lemma SeedExample()
    ensures Seed(Table(1, [[Some("3")], [Some("7")], [Some("x")], [None]])) == 8
  {
    var t := Table(1, [[Some("3")], [Some("7")], [Some("x")], [None]]);
    assert ParseInt("3") == Some(3) && ParseInt("7") == Some(7);
    assert !IsDigit('x');
    assert ParseInt("x") == None;
    assert MaxId(t, 4) == Some(7) by {
      assert MaxId(t, 2) == Some(7);
    }
  }

  // ---------------------------------------------------------------------------------------
  // Key -> value maps built from two columns, dropping rows where either is missing

  /** Row `i` carries `key` in `keyCol` and some value in `valCol`. */
  predicate Records(t: Table, keyCol: nat, valCol: nat, i: nat, key: string)
    requires i < |t.rows|
  {
    CellAt(t, i, keyCol) == Some(key) && CellAt(t, i, valCol).Some?
  }

  /** The map after visiting the first `n` rows in order, each kept row overwriting its key. */
  function AddPairs(m: map<string, string>, t: Table, keyCol: nat, valCol: nat, n: nat): map<string, string>
    requires n <= |t.rows|
    decreases n
  {
    if n == 0 then m
    else
      var prev := AddPairs(m, t, keyCol, valCol, n - 1);
      match (CellAt(t, n - 1, keyCol), CellAt(t, n - 1, valCol))
      case (Some(k), Some(v)) => prev[k := v]
      case _ => prev
  }

  /** The last of the first `n` rows that records `key`, if any. */
  function LastRecord(t: Table, keyCol: nat, valCol: nat, key: string, n: nat): (r: Option<nat>)
    requires n <= |t.rows|
    ensures r.Some? ==> r.value < n && Records(t, keyCol, valCol, r.value, key)
    ensures r.Some? ==> forall j | r.value < j < n :: !Records(t, keyCol, valCol, j, key)
    ensures r.None? ==> forall j | 0 <= j < n :: !Records(t, keyCol, valCol, j, key)
    decreases n
  {
    if n == 0 then None
    else if Records(t, keyCol, valCol, n - 1, key) then Some(n - 1)
    else LastRecord(t, keyCol, valCol, key, n - 1)
  }

  /** After the scan, `key` maps to the value of the last row that records it,
      and keeps its earlier value if no row does. */
  lemma {:induction false} AddPairsKeepsLast(m: map<string, string>, t: Table, keyCol: nat, valCol: nat, n: nat, key: string)
    requires n <= |t.rows|
    ensures key in AddPairs(m, t, keyCol, valCol, n) <==> key in m || LastRecord(t, keyCol, valCol, key, n).Some?
    ensures LastRecord(t, keyCol, valCol, key, n).Some? ==>
              AddPairs(m, t, keyCol, valCol, n)[key] == CellAt(t, LastRecord(t, keyCol, valCol, key, n).value, valCol).value
    ensures LastRecord(t, keyCol, valCol, key, n).None? && key in m ==>
              AddPairs(m, t, keyCol, valCol, n)[key] == m[key]
    decreases n
  {
    if n > 0 {
      AddPairsKeepsLast(m, t, keyCol, valCol, n - 1, key);
    }
  }

  /** The loop `for _, r in df.iloc[:, [keyCol, valCol]].dropna().iterrows(): m[str(r[0])] = str(r[1])`. */
  method FillPairs(m0: map<string, string>, t: Table, keyCol: nat, valCol: nat) returns (m: map<string, string>)
    ensures m == AddPairs(m0, t, keyCol, valCol, |t.rows|)
  {
    m := m0;
    var i := 0;
    while i < |t.rows|
      invariant i <= |t.rows|
      invariant m == AddPairs(m0, t, keyCol, valCol, i)
    {
      var k := CellAt(t, i, keyCol);
      var v := CellAt(t, i, valCol);
      if k.Some? && v.Some? {
        m := m[k.value := v.value];
      }
      i := i + 1;
    }
  }

  // ---------------------------------------------------------------------------------------
  // Existing IDs

  /** The email -> ID map after scanning the first `k` slot columns in order; a slot column
      the table does not have is skipped. */
  function ExistingIdsUpTo(t: Table, k: nat): map<string, string>
    requires k <= |SlotColumns|
    decreases k
  {
    if k == 0 then map[]
    else
      var m := ExistingIdsUpTo(t, k - 1);
      if SlotColumns[k - 1] < t.width then AddPairs(m, t, SlotColumns[k - 1], IdColumn, |t.rows|) else m
  }

  function ExistingIds(t: Table): map<string, string>
  {
    ExistingIdsUpTo(t, |SlotColumns|)
  }

  /** Reference lookup for one email: look at the slot columns from the last scanned back to
      the first; the first one holding the email decides, through its last row holding it. */
  function ExistingIdOf(t: Table, e: string, k: nat): (r: Option<string>)
    requires k <= |SlotColumns|
    ensures r.Some? <==> exists j, i | 0 <= j < k && 0 <= i < |t.rows| ::
                           SlotColumns[j] < t.width && Records(t, SlotColumns[j], IdColumn, i, e)
    decreases k
  {
    if k == 0 then None
    else
      var col := SlotColumns[k - 1];
      var last := LastRecord(t, col, IdColumn, e, |t.rows|);
      if col < t.width && last.Some? then CellAt(t, last.value, IdColumn)
      else ExistingIdOf(t, e, k - 1)
  }

  /** The map built by overwriting agrees with the per-email reference lookup. */
  lemma {:induction false} ExistingIdsAgree(t: Table, e: string, k: nat)
    requires k <= |SlotColumns|
    ensures e in ExistingIdsUpTo(t, k) <==> ExistingIdOf(t, e, k).Some?
    ensures e in ExistingIdsUpTo(t, k) ==> ExistingIdsUpTo(t, k)[e] == ExistingIdOf(t, e, k).value
    decreases k
  {
    if k > 0 {
      ExistingIdsAgree(t, e, k - 1);
      var col := SlotColumns[k - 1];
      if col < t.width {
        AddPairsKeepsLast(ExistingIdsUpTo(t, k - 1), t, col, IdColumn, |t.rows|, e);
      }
    }
  }

  /** The scan over the slot columns, `for target_col in [8, 16, 25, 42]`. */
  method BuildExistingIds(t: Table) returns (m: map<string, string>)
    ensures m == ExistingIds(t)
  {
    m := map[];
    var k := 0;
    while k < |SlotColumns|
      invariant k <= |SlotColumns|
      invariant m == ExistingIdsUpTo(t, k)
    {
      var col := SlotColumns[k];
      if t.width > col {
        m := FillPairs(m, t, col, IdColumn);
      }
      k := k + 1;
    }
  }

  /** Worked example: an email under slot column 8 with ID "10" and under slot column 42
      with ID "20" resolves to "20". */
  lemma LaterSlotColumnWins()
    ensures var row1 := seq(43, j => if j == 0 then Some("10") else if j == 8 then Some("a@x.com") else None);
            var row2 := seq(43, j => if j == 0 then Some("20") else if j == 42 then Some("a@x.com") else None);
            var t := Table(43, [row1, row2]);
            "a@x.com" in ExistingIds(t) && ExistingIds(t)["a@x.com"] == "20"
  {
    var row1 := seq(43, j => if j == 0 then Some("10") else if j == 8 then Some("a@x.com") else None);
    var row2 := seq(43, j => if j == 0 then Some("20") else if j == 42 then Some("a@x.com") else None);
    var t := Table(43, [row1, row2]);
    ExistingIdsAgree(t, "a@x.com", |SlotColumns|);
    assert Records(t, 42, IdColumn, 1, "a@x.com");
    assert LastRecord(t, 42, IdColumn, "a@x.com", 2) == Some(1);
  }

  // ---------------------------------------------------------------------------------------
  // Slot membership sets

  /** The set of `str()` of every cell of slot column `k`, missing cells included as "nan";
      empty when the table does not have that column. */
  function SlotSet(t: Table, k: nat): (s: set<string>)
    requires k < |SlotColumns|
    ensures t.width <= SlotColumns[k] ==> s == {}
    ensures SlotColumns[k] < t.width ==>
              forall i | 0 <= i < |t.rows| :: Str(CellAt(t, i, SlotColumns[k])) in s
    ensures forall e | e in s :: exists i | 0 <= i < |t.rows| :: Str(CellAt(t, i, SlotColumns[k])) == e
    ensures SlotColumns[k] < t.width && (exists i | 0 <= i < |t.rows| :: CellAt(t, i, SlotColumns[k]).None?) ==>
              "nan" in s
  {
    if SlotColumns[k] < t.width then set i | 0 <= i < |t.rows| :: Str(CellAt(t, i, SlotColumns[k])) else {}
  }

  // ---------------------------------------------------------------------------------------
  // Unregistered lookup

  /** The email -> PID map: empty unless the table is loaded and has at least 8 columns. */
  function UnregisteredLookup(u: Option<Table>): (m: map<string, string>)
    ensures u.None? || u.value.width < UnregMinWidth ==> m == map[]
  {
    if u.Some? && u.value.width >= UnregMinWidth
    then AddPairs(map[], u.value, UnregEmailColumn, UnregPidColumn, |u.value.rows|)
    else map[]
  }

  /** An email is in the lookup iff some row has it in column 5 with a PID in column 7;
      the PID is that of the last such row. */
  lemma UnregisteredLookupLast(u: Option<Table>, e: string)
    requires u.Some? && u.value.width >= UnregMinWidth
    ensures e in UnregisteredLookup(u) <==>
              LastRecord(u.value, UnregEmailColumn, UnregPidColumn, e, |u.value.rows|).Some?
    ensures e in UnregisteredLookup(u) ==>
              var i := LastRecord(u.value, UnregEmailColumn, UnregPidColumn, e, |u.value.rows|).value;
              UnregisteredLookup(u)[e] == CellAt(u.value, i, UnregPidColumn).value
  {
    AddPairsKeepsLast(map[], u.value, UnregEmailColumn, UnregPidColumn, |u.value.rows|, e);
  }

  /** Building the lookup: the guard and the loop over the non-missing (email, PID) rows. */
  method BuildUnregisteredLookup(u: Option<Table>) returns (m: map<string, string>)
    ensures m == UnregisteredLookup(u)
  {
    m := map[];
    if u.Some? && u.value.width >= UnregMinWidth {
      m := FillPairs(m, u.value, UnregEmailColumn, UnregPidColumn);
    }
  }
}

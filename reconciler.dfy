/**
 * `POST /save`: the edit-log sheet is read once; every request entry
 * `weekly_<id>` whose value is the string "on" selects `<id>`; the first data
 * row whose column A is exactly `<id>` gets the operator's name written into
 * the five week columns F, H, J, L and N. A missing row or a failed cell write
 * is logged and skipped, and the answer is a success.
 *
 * The decisions are the pure function `Plan`; the spreadsheet is the class
 * `EditLog`, whose `Save` issues the writes one by one.
 */
module Reconciler {
  import opened Wrappers
  import opened JsString
  import opened Sheet
  import opened Payload

  const KeyPrefix: string := "weekly_"

  type ColumnLetter = c: char | 'A' <= c <= 'Z' witness 'A'

  /** A 1-based spreadsheet row number. */
  type SheetRow = n: int | n >= 1 witness 1

  /** The week columns, in the order they are written. */
  const WeekColumns: seq<ColumnLetter> := ['F', 'H', 'J', 'L', 'N']

  /** One `values.update` of a single cell, `<column><row>`, with `value`. */
  datatype Write = Write(row: SheetRow, column: ColumnLetter, value: string)

  /** 0-based index of a column letter. */
  function ColumnIndex(c: ColumnLetter): nat {
    c as int - 'A' as int
  }

  lemma WeekColumnIndices()
    ensures |WeekColumns| == 5
    ensures forall j :: 0 <= j < 5 ==> ColumnIndex(WeekColumns[j]) == 5 + 2 * j
  {
  }

  /** `key.startsWith('weekly_') && value === 'on'`. */
  predicate Selected(key: string, value: Json) {
    StartsWith(key, KeyPrefix) && value == JStr("on")
  }

  /** `key.split('_')[1]`: the text between the first and the second underscore. */
  function SymbolId(key: string): (id: string)
    requires StartsWith(key, KeyPrefix)
    ensures '_' !in id
    ensures |KeyPrefix| + |id| <= |key| && key[|KeyPrefix|..|KeyPrefix| + |id|] == id
    ensures |key| == |KeyPrefix| + |id| || key[|KeyPrefix| + |id|] == '_'
  {
    var rest := key[|KeyPrefix|..];
    assert key == "weekly" + ['_'] + rest;
    SplitPiece("weekly", rest, '_');
    SplitHead(rest, '_');
    SplitPiecesFree(key, '_');
    Split(key, '_')[1]
  }

  /** A key built from an underscore-free id selects exactly that id. */
  lemma SymbolIdOfKey(id: string)
    requires '_' !in id
    ensures StartsWith(KeyPrefix + id, KeyPrefix) && SymbolId(KeyPrefix + id) == id
  {
    var key := KeyPrefix + id;
    assert key[..|KeyPrefix|] == KeyPrefix;
    var r := SymbolId(key);
    assert key[|KeyPrefix|..] == id;
  }

  /** A key whose id contains `_` is cut at the first one: `weekly_<id>_<rest>` selects `id`. */
  lemma SymbolIdCutsAtUnderscore(id: string, rest: string)
    requires '_' !in id
    ensures StartsWith(KeyPrefix + id + "_" + rest, KeyPrefix)
    ensures SymbolId(KeyPrefix + id + "_" + rest) == id
  {
    var key := KeyPrefix + id + "_" + rest;
    assert key[..|KeyPrefix|] == KeyPrefix;
    var r := SymbolId(key);
    var n := |KeyPrefix|;
    assert key[n..n + |id|] == id;
    assert key[n + |id|] == '_';
  }

  /** Column A of a row: `row[0]`, undefined for an empty row. */
  function KeyOf(row: Row): Option<string> {
    if row == [] then None else Some(row[0])
  }

  function Keys(g: Grid): seq<Option<string>> {
    seq(|g|, i requires 0 <= i < |g| => KeyOf(g[i]))
  }

  /** Column A of `rows.slice(1)`: the header row is dropped. */
  function DataKeys(g: Grid): seq<Option<string>> {
    if |g| == 0 then [] else Keys(g)[1..]
  }

  /** `dataRows.find(row => row[0] === symbolId)`, as the index that `indexOf` then finds. */
  function FindRow(keys: seq<Option<string>>, id: string): (r: Option<nat>)
    ensures r.Some? ==> r.value < |keys| && keys[r.value] == Some(id)
    ensures r.Some? ==> forall k :: 0 <= k < r.value ==> keys[k] != Some(id)
    ensures r.None? ==> forall k :: 0 <= k < |keys| ==> keys[k] != Some(id)
  {
    if |keys| == 0 then None
    else if keys[0] == Some(id) then Some(0)
    else match FindRow(keys[1..], id)
      case None => None
      case Some(k) => Some(k + 1)
  }

  /** The five writes stamping `name` on sheet row `row`. */
  function StampRow(row: SheetRow, name: string): seq<Write> {
    seq(|WeekColumns|, j requires 0 <= j < |WeekColumns| => Write(row, WeekColumns[j], name))
  }

  /**
   * The writes for one request entry: none unless it is selected and some
   * data row carries its id; otherwise the five week columns of the first
   * such row, whose sheet row is its data index plus 2.
   */
  function PlanEntry(dataKeys: seq<Option<string>>, name: string, key: string, value: Json): (ws: seq<Write>)
    ensures ws == [] || |ws| == |WeekColumns|
    ensures ws != [] <==> (
      && Selected(key, value)
      && exists k :: 0 <= k < |dataKeys| && dataKeys[k] == Some(SymbolId(key)))
    ensures ws != [] ==>
      && 2 <= ws[0].row < |dataKeys| + 2
      && dataKeys[ws[0].row - 2] == Some(SymbolId(key))
      && (forall k :: 0 <= k < ws[0].row - 2 ==> dataKeys[k] != Some(SymbolId(key)))
      && (forall j :: 0 <= j < |ws| ==> ws[j] == Write(ws[0].row, WeekColumns[j], name))
  {
    if !Selected(key, value) then []
    else match FindRow(dataKeys, SymbolId(key))
      case None => []
      case Some(k) => StampRow(k + 2, name)
  }

  /** The writes for a sequence of entries, in order. */
  function PlanOn(dataKeys: seq<Option<string>>, name: string, entries: seq<(string, Json)>): seq<Write> {
    if entries == [] then []
    else
      var last := entries[|entries| - 1];
      PlanOn(dataKeys, name, entries[..|entries| - 1]) + PlanEntry(dataKeys, name, last.0, last.1)
  }

  /** Every write `/save` issues for the sheet `g` and the request entries. */
  function Plan(g: Grid, name: string, entries: seq<(string, Json)>): seq<Write> {
    PlanOn(DataKeys(g), name, entries)
  }

  lemma PlanOnSnoc(dataKeys: seq<Option<string>>, name: string, entries: seq<(string, Json)>, e: (string, Json))
    ensures PlanOn(dataKeys, name, entries + [e]) == PlanOn(dataKeys, name, entries) + PlanEntry(dataKeys, name, e.0, e.1)
  {
    assert (entries + [e])[..|entries|] == entries;
  }

  lemma SeqAssoc<T>(x: seq<T>, y: seq<T>, z: seq<T>)
    ensures x + (y + z) == x + y + z
  {
  }

  /**
   * Entries are planned independently: a later entry is planned the same
   * whatever came before it (a missing row stops nothing).
   */
  lemma {:induction false} PlanAppend(dataKeys: seq<Option<string>>, name: string, a: seq<(string, Json)>, b: seq<(string, Json)>)
    ensures PlanOn(dataKeys, name, a + b) == PlanOn(dataKeys, name, a) + PlanOn(dataKeys, name, b)
    decreases |b|
  {
    if b == [] {
      assert a + b == a;
    } else {
      var init := b[..|b| - 1];
      var last := b[|b| - 1];
      assert b == init + [last];
      assert a + b == (a + init) + [last];
      PlanOnSnoc(dataKeys, name, a + init, last);
      PlanOnSnoc(dataKeys, name, init, last);
      PlanAppend(dataKeys, name, a, init);
      SeqAssoc(PlanOn(dataKeys, name, a), PlanOn(dataKeys, name, init), PlanEntry(dataKeys, name, last.0, last.1));
    }
  }

  /** Entries none of which is selected produce no writes. */
  lemma {:induction false} PlanNothingSelected(dataKeys: seq<Option<string>>, name: string, entries: seq<(string, Json)>)
    requires forall k :: 0 <= k < |entries| ==> !Selected(entries[k].0, entries[k].1)
    ensures PlanOn(dataKeys, name, entries) == []
  {
    if entries != [] {
      PlanNothingSelected(dataKeys, name, entries[..|entries| - 1]);
    }
  }

  /** The writes for one entry go to the week columns of a non-empty data row whose column A is the entry's id. */
  lemma EntryTargets(g: Grid, name: string, e: (string, Json))
    ensures forall w :: w in PlanEntry(DataKeys(g), name, e.0, e.1) ==>
      && w.value == name
      && w.column in WeekColumns
      && 2 <= w.row <= |g|
      && g[w.row - 1] != []
      && Selected(e.0, e.1)
      && g[w.row - 1][0] == SymbolId(e.0)
  {
    var ws := PlanEntry(DataKeys(g), name, e.0, e.1);
    if ws != [] {
      var row := ws[0].row;
      assert DataKeys(g)[row - 2] == Keys(g)[row - 1];
      forall w | w in ws
        ensures w.row == row && w.value == name && w.column in WeekColumns
      {
        var j :| 0 <= j < |ws| && ws[j] == w;
      }
    }
  }

  /**
   * Every planned write carries the operator's name, goes to a week column of
   * an existing data row (never the header), and that row's column A is the
   * id of some selected entry.
   */
  lemma {:induction false} PlanTargets(g: Grid, name: string, entries: seq<(string, Json)>)
    ensures forall w :: w in Plan(g, name, entries) ==>
      && w.value == name
      && w.column in WeekColumns
      && 2 <= w.row <= |g|
      && g[w.row - 1] != []
      && exists e :: e in entries && Selected(e.0, e.1) && g[w.row - 1][0] == SymbolId(e.0)
    decreases |entries|
  {
    if entries != [] {
      var init := entries[..|entries| - 1];
      var last := entries[|entries| - 1];
      PlanTargets(g, name, init);
      EntryTargets(g, name, last);
      assert entries == init + [last];
      PlanOnSnoc(DataKeys(g), name, init, last);
      forall w | w in Plan(g, name, entries)
        ensures && w.value == name
                && w.column in WeekColumns
                && 2 <= w.row <= |g|
                && g[w.row - 1] != []
                && exists e :: e in entries && Selected(e.0, e.1) && g[w.row - 1][0] == SymbolId(e.0)
      {
        if w in Plan(g, name, init) {
          var e :| e in init && Selected(e.0, e.1) && g[w.row - 1][0] == SymbolId(e.0);
          assert e in entries;
        } else {
          assert last in entries;
        }
      }
    }
  }

  /**
   * The edit-log as the server sees it: an absent cell reads as the empty
   * string.
   */
  function Cell(g: Grid, r: nat, c: nat): string {
    if r < |g| && c < |g[r]| then g[r][c] else ""
  }

  /**
   * Writing `v` into the 0-based cell (r, c): rows and cells up to it are
   * created empty.
   */
  function SetCell(g: Grid, r: nat, c: nat, v: string): (h: Grid)
    ensures r < |h| && c < |h[r]| && h[r][c] == v
    ensures |h| == if r < |g| then |g| else r + 1
  {
    if r < |g| && c < |g[r]| && g[r][c] == v then
      g
    else
      var rows := if r < |g| then g else g + seq(r + 1 - |g|, _ => []);
      var row := if c < |rows[r]| then rows[r] else rows[r] + seq(c + 1 - |rows[r]|, _ => "");
      rows[r := row[c := v]]
  }

  /**
   * No other cell's value changes, no row shrinks, and rows other than `r`
   * stay as they were.
   */
  lemma SetCellFrame(g: Grid, r: nat, c: nat, v: string)
    ensures forall i :: 0 <= i < |g| ==> |SetCell(g, r, c, v)[i]| >= |g[i]|
    ensures forall i :: 0 <= i < |g| && i != r ==> SetCell(g, r, c, v)[i] == g[i]
    ensures forall i: nat, j: nat :: i != r || j != c ==> Cell(SetCell(g, r, c, v), i, j) == Cell(g, i, j)
  {
  }

  /** Rewriting the value a cell already holds changes nothing. */
  lemma SetCellHeld(g: Grid, r: nat, c: nat, v: string)
    requires r < |g| && c < |g[r]| && g[r][c] == v
    ensures SetCell(g, r, c, v) == g
  {
  }

  function ApplyWrite(g: Grid, w: Write): Grid {
    SetCell(g, w.row - 1, ColumnIndex(w.column), w.value)
  }

  /** `w` has taken effect in `g`: its cell exists and holds its value. */
  predicate Holds(g: Grid, w: Write) {
    w.row - 1 < |g| && ColumnIndex(w.column) < |g[w.row - 1]| && g[w.row - 1][ColumnIndex(w.column)] == w.value
  }

  /**
   * The sheet after the writes `ws` are attempted in order, where the
   * attempts numbered in `failed` throw and change nothing.
   */
  function ApplyWrites(g: Grid, ws: seq<Write>, failed: set<nat>): (h: Grid)
    ensures |h| >= |g|
    ensures forall i :: 0 <= i < |g| ==> |h[i]| >= |g[i]|
  {
    if ws == [] then g
    else
      var prev := ApplyWrites(g, ws[..|ws| - 1], failed);
      if |ws| - 1 in failed then prev else ApplyWrite(prev, ws[|ws| - 1])
  }

  /** One more attempt: it takes effect unless its number is among the failed ones. */
  lemma ApplyWritesSnoc(g: Grid, ws: seq<Write>, w: Write, failed: set<nat>)
    ensures ApplyWrites(g, ws + [w], failed) ==
      if |ws| in failed then ApplyWrites(g, ws, failed) else ApplyWrite(ApplyWrites(g, ws, failed), w)
  {
    assert (ws + [w])[..|ws|] == ws;
  }

  /** A cell that no write targets keeps its value. */
  lemma {:induction false} ApplyUntouched(g: Grid, ws: seq<Write>, failed: set<nat>, i: nat, j: nat)
    requires forall k :: 0 <= k < |ws| ==> ws[k].row - 1 != i || ColumnIndex(ws[k].column) != j
    ensures Cell(ApplyWrites(g, ws, failed), i, j) == Cell(g, i, j)
  {
    if ws != [] {
      ApplyUntouched(g, ws[..|ws| - 1], failed, i, j);
    }
  }

  /** A row that no write targets stays exactly as it was. */
  lemma {:induction false} ApplyUntouchedRow(g: Grid, ws: seq<Write>, failed: set<nat>, i: nat)
    requires i < |g|
    requires forall k :: 0 <= k < |ws| ==> ws[k].row - 1 != i
    ensures ApplyWrites(g, ws, failed)[i] == g[i]
  {
    if ws != [] {
      ApplyUntouchedRow(g, ws[..|ws| - 1], failed, i);
    }
  }

  /**
   * When all writes carry the same value, every attempt that did not fail
   * has taken effect, whatever failed before or after it.
   */
  lemma {:induction false} ApplyStamped(g: Grid, ws: seq<Write>, failed: set<nat>, v: string)
    requires forall k :: 0 <= k < |ws| ==> ws[k].value == v
    ensures forall k :: 0 <= k < |ws| && k !in failed ==> Holds(ApplyWrites(g, ws, failed), ws[k])
  {
    if ws != [] {
      var init := ws[..|ws| - 1];
      ApplyStamped(g, init, failed, v);
      var prev := ApplyWrites(g, init, failed);
      var h := ApplyWrites(g, ws, failed);
      forall k | 0 <= k < |ws| && k !in failed
        ensures Holds(h, ws[k])
      {
        if k < |ws| - 1 && |ws| - 1 !in failed {
          var w := ws[k];
          assert Holds(prev, init[k]);
          assert Cell(h, w.row - 1, ColumnIndex(w.column)) == v;
        }
      }
    }
  }

  /** Writes that have all taken effect already change nothing when repeated. */
  lemma {:induction false} ApplyAbsorbed(g: Grid, ws: seq<Write>, failed: set<nat>)
    requires forall k :: 0 <= k < |ws| ==> Holds(g, ws[k])
    ensures ApplyWrites(g, ws, failed) == g
  {
    if ws != [] {
      ApplyAbsorbed(g, ws[..|ws| - 1], failed);
    }
  }

  /** One write to a non-empty existing row, in a column after A, keeps every row's column A. */
  lemma WriteKeepsKeys(g: Grid, w: Write)
    requires ColumnIndex(w.column) >= 1 && w.row - 1 < |g| && g[w.row - 1] != []
    ensures Keys(ApplyWrite(g, w)) == Keys(g)
  {
    var h := ApplyWrite(g, w);
    SetCellFrame(g, w.row - 1, ColumnIndex(w.column), w.value);
    forall i | 0 <= i < |g| ensures KeyOf(h[i]) == KeyOf(g[i]) {
      assert Cell(h, i, 0) == Cell(g, i, 0);
    }
  }

  /** Writes to non-empty existing rows, in columns after A, leave column A of every row as it was. */
  lemma {:induction false} ApplyKeepsKeys(g: Grid, ws: seq<Write>, failed: set<nat>)
    requires forall k :: 0 <= k < |ws| ==>
      ColumnIndex(ws[k].column) >= 1 && ws[k].row - 1 < |g| && g[ws[k].row - 1] != []
    ensures Keys(ApplyWrites(g, ws, failed)) == Keys(g)
  {
    if ws != [] {
      var init := ws[..|ws| - 1];
      var w := ws[|ws| - 1];
      ApplyKeepsKeys(g, init, failed);
      var prev := ApplyWrites(g, init, failed);
      if |ws| - 1 !in failed {
        assert |Keys(prev)| == |Keys(g)|;
        assert Keys(prev)[w.row - 1] == Keys(g)[w.row - 1];
        WriteKeepsKeys(prev, w);
      }
    }
  }

  lemma WeekColumnsAfterA(c: ColumnLetter)
    requires c in WeekColumns
    ensures ColumnIndex(c) >= 5
  {
  }

  /**
   * Saving is idempotent: on the sheet a complete save leaves, the same
   * request plans the same writes, and they change nothing, whichever of
   * them fail the second time.
   */
  lemma SaveIdempotent(g: Grid, name: string, entries: seq<(string, Json)>, failedAgain: set<nat>)
    ensures Plan(ApplyWrites(g, Plan(g, name, entries), {}), name, entries) == Plan(g, name, entries)
    ensures ApplyWrites(ApplyWrites(g, Plan(g, name, entries), {}), Plan(g, name, entries), failedAgain)
         == ApplyWrites(g, Plan(g, name, entries), {})
  {
    var p := Plan(g, name, entries);
    var g1 := ApplyWrites(g, p, {});
    PlanTargets(g, name, entries);
    forall k | 0 <= k < |p|
      ensures ColumnIndex(p[k].column) >= 1 && p[k].row - 1 < |g| && g[p[k].row - 1] != []
      ensures p[k].value == name
    {
      assert p[k] in p;
      WeekColumnsAfterA(p[k].column);
    }
    ApplyKeepsKeys(g, p, {});
    assert DataKeys(g1) == DataKeys(g);
    ApplyStamped(g, p, {}, name);
    ApplyAbsorbed(g1, p, failedAgain);
  }

  /** The header row is never written. */
  lemma SaveKeepsHeader(g: Grid, name: string, entries: seq<(string, Json)>, failed: set<nat>)
    requires g != []
    ensures ApplyWrites(g, Plan(g, name, entries), failed)[0] == g[0]
  {
    var p := Plan(g, name, entries);
    PlanTargets(g, name, entries);
    forall k | 0 <= k < |p| ensures p[k].row - 1 != 0 {
      assert p[k] in p;
    }
    ApplyUntouchedRow(g, p, failed, 0);
  }

  /** The spreadsheet's edit-log sheet, updated in place one cell at a time. */
  class EditLog {
    var rows: Grid

    constructor (initial: Grid)
      ensures rows == initial
    {
      rows := initial;
    }

    /**
     * The `/save` handler. `readFails` is the outcome of the initial
     * `values.get`; `failed` numbers the cell updates (0-based, in the order
     * they are attempted) that throw. Returns the status and the writes
     * attempted.
     */
    method Save(operatorName: string, data: Option<Json>, readFails: bool, failed: set<nat>)
      returns (status: nat, attempted: seq<Write>)
      modifies this
      ensures readFails || ObjectEntries(data).None? ==>
        status == 500 && attempted == [] && rows == old(rows)
      ensures !readFails && ObjectEntries(data).Some? ==>
        && status == 200
        && attempted == Plan(old(rows), operatorName, ObjectEntries(data).value)
        && rows == ApplyWrites(old(rows), attempted, failed)
    {
      if readFails {
        return 500, [];
      }
      var snapshot := rows;
      var dataKeys := DataKeys(snapshot);
      var entries := ObjectEntries(data);
      if entries.None? {
        return 500, [];
      }
      var es := entries.value;
      attempted := [];
      for i := 0 to |es|
        invariant attempted == PlanOn(dataKeys, operatorName, es[..i])
        invariant rows == ApplyWrites(snapshot, attempted, failed)
      {
        var (key, value) := es[i];
        assert es[..i + 1] == es[..i] + [(key, value)];
        PlanOnSnoc(dataKeys, operatorName, es[..i], (key, value));
        attempted := SaveEntry(key, value, dataKeys, operatorName, failed, snapshot, attempted);
      }
      status := 200;
      assert es[..|es|] == es;
    }

    /**
     * The body of the outer loop of `/save` for one request entry: when it
     * selects an id that some data row carries, stamp the first such row.
     */
    method SaveEntry(key: string, value: Json, dataKeys: seq<Option<string>>, operatorName: string,
                     failed: set<nat>, ghost base: Grid, before: seq<Write>)
      returns (attempted: seq<Write>)
      requires rows == ApplyWrites(base, before, failed)
      modifies this
      ensures attempted == before + PlanEntry(dataKeys, operatorName, key, value)
      ensures rows == ApplyWrites(base, attempted, failed)
    {
      attempted := before;
      if StartsWith(key, KeyPrefix) && value == JStr("on") {
        var symbolId := SymbolId(key);
        var found := FindRow(dataKeys, symbolId);
        if found.Some? {
          attempted := StampWeekColumns(found.value + 2, operatorName, failed, base, before);
          return;
        }
      }
      assert before + [] == before;
    }

    /**
     * The inner loop of `/save`: one update per week column of `rowIndex`;
     * attempts are numbered on from those already made.
     */
    method StampWeekColumns(rowIndex: SheetRow, operatorName: string, failed: set<nat>, ghost base: Grid, before: seq<Write>)
      returns (attempted: seq<Write>)
      requires rows == ApplyWrites(base, before, failed)
      modifies this
      ensures attempted == before + StampRow(rowIndex, operatorName)
      ensures rows == ApplyWrites(base, attempted, failed)
    {
      attempted := before;
      for j := 0 to |WeekColumns|
        invariant attempted == before + StampRow(rowIndex, operatorName)[..j]
        invariant rows == ApplyWrites(base, attempted, failed)
      {
        var w := Write(rowIndex, WeekColumns[j], operatorName);
        ghost var stamps := StampRow(rowIndex, operatorName);
        assert stamps[..j + 1] == stamps[..j] + [w];
        ApplyWritesSnoc(base, attempted, w, failed);
        if |attempted| !in failed {
          rows := ApplyWrite(rows, w);
        }
        attempted := attempted + [w];
      }
      assert StampRow(rowIndex, operatorName)[..|WeekColumns|] == StampRow(rowIndex, operatorName);
    }
  }

  /**
   * An array body (or a string) has index keys only, so no entry is selected
   * and nothing is written.
   */
  lemma ArrayPayloadPlansNothing(g: Grid, name: string, items: seq<Json>)
    ensures ObjectEntries(Some(JArr(items))).Some?
    ensures Plan(g, name, ObjectEntries(Some(JArr(items))).value) == []
  {
    var es := ObjectEntries(Some(JArr(items))).value;
    forall k | 0 <= k < |es| ensures !Selected(es[k].0, es[k].1) {
      var key := es[k].0;
      assert IsDigits(key);
      if |key| >= |KeyPrefix| {
        assert key[..|KeyPrefix|][0] == key[0] != KeyPrefix[0];
      }
    }
    PlanNothingSelected(DataKeys(g), name, es);
  }
}

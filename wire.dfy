/**
 * What the client sends and how the server reads it. `saveAttendance`
 * posts `{operatorName, data}` with `data` the checked `[id, entry]` pairs,
 * an array; `/save` runs `Object.entries` over `data` and looks for
 * `weekly_<id>` keys with the value "on", the shape the form's checkboxes
 * were named for. The report rows travel to `/generate-pdf` as `data`.
 */
module Wire {
  import opened Wrappers
  import opened JsString
  import opened Sheet
  import opened Labels
  import opened Payload
  import opened Reconciler
  import opened Attendance
  import opened Report

  /** A field value as JSON: a checkbox's boolean, or a selector's string. */
  function ValueJson(v: Value): (j: Json)
    ensures j.JBool? || j.JStr?
  {
    match v
    case Flag(b) => JBool(b)
    case Text(s) => JStr(s)
  }

  /** An entry as a JSON object with the fields the inputs set, `checked` before `day`. */
  function EntryJson(e: Entry): (j: Json)
    ensures j.JObj? && |j.fields| <= 2
  {
    var checked := if "checked" in e then [("checked", ValueJson(e["checked"]))] else [];
    var day := if "day" in e then [("day", ValueJson(e["day"]))] else [];
    JObj(checked + day)
  }

  /** The `data` that `handleSubmit` sends: the array of checked `[id, entry]` pairs. */
  function SubmitBody(form: Form, order: seq<string>): (j: Json)
    requires forall id :: id in order ==> id in form
    ensures j.JArr? && |j.items| == |SubmitData(form, order)|
  {
    var sent := SubmitData(form, order);
    JArr(seq(|sent|, i requires 0 <= i < |sent| => JArr([JStr(sent[i].0), EntryJson(sent[i].1)])))
  }

  /**
   * As written, the server plans no write for the client's payload, whatever
   * is checked and whatever the sheet holds: the array's keys are indices,
   * never `weekly_<id>`.
   */
  lemma SubmitBodyPlansNothing(g: Grid, name: string, form: Form, order: seq<string>)
    requires forall id :: id in order ==> id in form
    ensures ObjectEntries(Some(SubmitBody(form, order))).Some?
    ensures Plan(g, name, ObjectEntries(Some(SubmitBody(form, order))).value) == []
  {
    ArrayPayloadPlansNothing(g, name, SubmitBody(form, order).items);
  }

  /** A concrete instance: one checked symbol "17" whose row is in the sheet is still not stamped. */
  lemma CheckedSymbolNotStamped()
    ensures var form := map["17" := map["checked" := Flag(true)]];
      var g := [["symbol"], ["17"]];
      && "17" in CheckedIds(form)
      && FindRow(DataKeys(g), "17") == Some(0)
      && Plan(g, "dana", ObjectEntries(Some(SubmitBody(form, ["17"]))).value) == []
  {
    var form := map["17" := map["checked" := Flag(true)]];
    var g := [["symbol"], ["17"]];
    assert DataKeys(g)[0] == Some("17");
    SubmitBodyPlansNothing(g, "dana", form, ["17"]);
  }

  /** The entries of the keyed body: `weekly_<id>` set to "on" for each checked id. */
  function KeyedEntries(form: Form, order: seq<string>): (es: seq<(string, Json)>)
    requires forall id :: id in order ==> id in form
    ensures |es| == |SubmitData(form, order)|
    ensures forall i :: 0 <= i < |es| ==> es[i] == (KeyPrefix + SubmitData(form, order)[i].0, JStr("on"))
  {
    var sent := SubmitData(form, order);
    seq(|sent|, i requires 0 <= i < |sent| => (KeyPrefix + sent[i].0, JStr("on")))
  }

  /** The payload the server expects, as the form's `weekly_<id>` checkboxes with their default value "on" would post it. */
  function KeyedSubmitBody(form: Form, order: seq<string>): (j: Json)
    requires forall id :: id in order ==> id in form
    ensures ObjectEntries(Some(j)) == Some(KeyedEntries(form, order))
  {
    JObj(KeyedEntries(form, order))
  }

  /**
   * With the keyed payload, every write goes to the week columns of the row
   * of a checked symbol, with the operator's name.
   */
  lemma KeyedBodyWritesChecked(g: Grid, name: string, form: Form, order: seq<string>)
    requires IsKeyOrder(order, form)
    requires forall id :: id in form ==> '_' !in id
    ensures forall w :: w in Plan(g, name, KeyedEntries(form, order)) ==>
      && w.value == name && w.column in WeekColumns && 2 <= w.row <= |g|
      && g[w.row - 1] != [] && g[w.row - 1][0] in CheckedIds(form)
  {
    var sent := SubmitData(form, order);
    var es := KeyedEntries(form, order);
    SubmitDataMembers(form, order);
    PlanTargets(g, name, es);
    forall w | w in Plan(g, name, es) ensures g[w.row - 1] != [] && g[w.row - 1][0] in CheckedIds(form) {
      var e :| e in es && Selected(e.0, e.1) && g[w.row - 1][0] == SymbolId(e.0);
      var i :| 0 <= i < |es| && es[i] == e;
      assert sent[i] in sent;
      SymbolIdOfKey(sent[i].0);
    }
  }

  /**
   * With the keyed payload, every checked symbol that has a data row gets all
   * five of its week columns written with the operator's name.
   */
  lemma KeyedBodyStampsChecked(g: Grid, name: string, form: Form, order: seq<string>)
    requires IsKeyOrder(order, form)
    requires forall id :: id in form ==> '_' !in id
    ensures forall id, j :: id in CheckedIds(form) && FindRow(DataKeys(g), id).Some? && 0 <= j < |WeekColumns| ==>
      Write(FindRow(DataKeys(g), id).value + 2, WeekColumns[j], name) in Plan(g, name, KeyedEntries(form, order))
  {
    var sent := SubmitData(form, order);
    var es := KeyedEntries(form, order);
    SubmitDataExact(form, order);
    forall id, j | id in CheckedIds(form) && FindRow(DataKeys(g), id).Some? && 0 <= j < |WeekColumns|
      ensures Write(FindRow(DataKeys(g), id).value + 2, WeekColumns[j], name) in Plan(g, name, es)
    {
      var p :| p in sent && p.0 == id;
      var i :| 0 <= i < |sent| && sent[i] == p;
      StampedAt(g, name, es, i, id);
    }
  }

  /** The plan for a body whose entry `i` is `weekly_<id>` = "on" contains the stamp of that id's row. */
  lemma StampedAt(g: Grid, name: string, es: seq<(string, Json)>, i: nat, id: string)
    requires i < |es| && es[i] == (KeyPrefix + id, JStr("on")) && '_' !in id
    requires FindRow(DataKeys(g), id).Some?
    ensures forall j :: 0 <= j < |WeekColumns| ==>
      Write(FindRow(DataKeys(g), id).value + 2, WeekColumns[j], name) in Plan(g, name, es)
  {
    var dk := DataKeys(g);
    SymbolIdOfKey(id);
    var stamp := PlanEntry(dk, name, es[i].0, es[i].1);
    assert stamp == StampRow(FindRow(dk, id).value + 2, name);
    assert es == es[..i] + [es[i]] + es[i + 1..];
    PlanOnSnoc(dk, name, es[..i], es[i]);
    PlanAppend(dk, name, es[..i] + [es[i]], es[i + 1..]);
    forall j | 0 <= j < |WeekColumns|
      ensures Write(FindRow(dk, id).value + 2, WeekColumns[j], name) in Plan(g, name, es)
    {
      assert stamp[j] == Write(FindRow(dk, id).value + 2, WeekColumns[j], name);
      assert stamp[j] in PlanOn(dk, name, es[..i] + [es[i]]);
    }
  }

  /**
   * The keyed payload needs ids without `_`: `weekly_a_b` selects the id
   * "a", so the checked symbol "a_b" is not stamped and the row of the
   * unchecked symbol "a" is.
   */
  lemma UnderscoreIdStampsAnotherRow()
    ensures var form := map["a_b" := map["checked" := Flag(true)]];
      var g := [["symbol"], ["a"], ["a_b"]];
      && CheckedIds(form) == {"a_b"}
      && FindRow(DataKeys(g), "a_b") == Some(1)
      && Plan(g, "dana", KeyedEntries(form, ["a_b"])) == StampRow(2, "dana")
  {
    var form := map["a_b" := map["checked" := Flag(true)]];
    var g := [["symbol"], ["a"], ["a_b"]];
    var dk := DataKeys(g);
    assert dk == [Some("a"), Some("a_b")];
    var es := KeyedEntries(form, ["a_b"]);
    assert IsChecked(form["a_b"]);
    assert CheckedIds(form) == {"a_b"};
    assert dk[0] != Some("a_b") && dk[1] == Some("a_b");
    assert FindRow(dk, "a_b") == Some(1);
    UnderscoreKeyedEntries(form);
    SymbolIdCutsAtUnderscore("a", "b");
    assert KeyPrefix + "a" + "_" + "b" == "weekly_a_b";
    PlanFirstRow(dk, "dana", "weekly_a_b", es);
  }

  /** A one-entry body that selects the id of the first data row stamps sheet row 2. */
  lemma PlanFirstRow(dk: seq<Option<string>>, name: string, key: string, es: seq<(string, Json)>)
    requires es == [(key, JStr("on"))] && StartsWith(key, KeyPrefix)
    requires |dk| > 0 && dk[0] == Some(SymbolId(key))
    ensures PlanOn(dk, name, es) == StampRow(2, name)
  {
    assert Selected(es[0].0, es[0].1);
    assert FindRow(dk, SymbolId(key)) == Some(0);
    assert es == [] + [es[0]];
    PlanOnSnoc(dk, name, [], es[0]);
  }

  /** The keyed body of a form whose one checked id is "a_b". */
  lemma UnderscoreKeyedEntries(form: Form)
    requires form == map["a_b" := map["checked" := Flag(true)]]
    ensures KeyedEntries(form, ["a_b"]) == [("weekly_a_b", JStr("on"))]
  {
    assert ["a_b"][1..] == [];
    assert SubmitData(form, ["a_b"]) == [("a_b", form["a_b"])];
    var es := KeyedEntries(form, ["a_b"]);
    assert |es| == 1 && es[0] == (KeyPrefix + "a_b", JStr("on"));
    assert KeyPrefix + "a_b" == "weekly_a_b";
  }

  /** A day as `/generate-pdf` interpolates it: a string as is, a boolean as its name. */
  function DayText(v: Value): (t: string)
    ensures Truthy(v) ==> t != ""
  {
    match v
    case Text(s) => s
    case Flag(b) => if b then "true" else "false"
  }

  /** One report row as the request item the server reads. */
  function ReportItemOf(row: ReportRow): ReportItem {
    ReportItem(Some(row.symbolId), Some(row.name), Some(DayText(row.day)))
  }

  /**
   * The server's fallbacks meet the client's: a name the catalog lacks
   * arrives empty and is drawn as "not selected", and the client's day,
   * never empty, is drawn as sent.
   */
  lemma ReportItemCells(form: Form, order: seq<string>, catalog: Grid, i: nat)
    requires IsKeyOrder(order, form) && i < |ReportRows(form, order, catalog)|
    ensures var row := ReportRows(form, order, catalog)[i];
      && OrNotSelected(ReportItemOf(row).name) == (if row.name == "" then NotSelected else row.name)
      && row.symbolId in form
      && OrNotSelected(ReportItemOf(row).day) == DayText(DayOf(form[row.symbolId]))
      && Interpolate(ReportItemOf(row).symbolId) == row.symbolId
  {
    ReportRowsExact(form, order, catalog);
  }
}

/**
 * The client's form state and what it derives from it: the nested update
 * made by each checkbox and day selector, the checked-only list sent to
 * `/save`, and the report rows sent to `/generate-pdf`.
 *
 * `Object.entries` enumerates the form's keys in an order the model does not
 * fix: the derived lists take that order as a parameter `order`, required
 * only to list each key of the form exactly once.
 */
module Attendance {
  import opened Wrappers
  import opened Sheet
  import opened Labels

  /** A field value as the inputs set it: a checkbox's `checked`, or a selector's text. */
  datatype Value = Flag(b: bool) | Text(s: string)

  /** One symbol's fields (`checked`, `day`), and the form: symbol id to fields. */
  type Entry = map<string, Value>
  type Form = map<string, Entry>

  /** JavaScript truthiness of a field value: `false` and `""` are falsy. */
  predicate Truthy(v: Value) {
    match v
    case Flag(b) => b
    case Text(s) => s != ""
  }

  /** `prev[symbolId]`, spread as an object: no fields when the id has none yet. */
  function EntryOf(form: Form, symbolId: string): Entry {
    if symbolId in form then form[symbolId] else map[]
  }

  /**
   * `handleInputChange(symbolId, field, value)`: a fresh form in which the
   * id's entry has `field` set to `value` and keeps its other fields, and
   * every other id keeps its entry.
   */
  function HandleInputChange(form: Form, symbolId: string, field: string, value: Value): (r: Form)
    ensures r.Keys == form.Keys + {symbolId}
    ensures r[symbolId].Keys == EntryOf(form, symbolId).Keys + {field}
    ensures r[symbolId][field] == value
    ensures forall f :: f in EntryOf(form, symbolId) && f != field ==> r[symbolId][f] == EntryOf(form, symbolId)[f]
    ensures forall id :: id in form && id != symbolId ==> r[id] == form[id]
  {
    form[symbolId := EntryOf(form, symbolId)[field := value]]
  }

  /** Repeating the same change changes nothing more. */
  lemma HandleInputChangeIdempotent(form: Form, symbolId: string, field: string, value: Value)
    ensures var once := HandleInputChange(form, symbolId, field, value);
      HandleInputChange(once, symbolId, field, value) == once
  {
    var once := HandleInputChange(form, symbolId, field, value);
    var twice := HandleInputChange(once, symbolId, field, value);
    assert twice[symbolId] == once[symbolId];
  }

  /** A later change of the same field overwrites the earlier one. */
  lemma HandleInputChangeLastWins(form: Form, symbolId: string, field: string, v1: Value, v2: Value)
    ensures HandleInputChange(HandleInputChange(form, symbolId, field, v1), symbolId, field, v2) ==
      HandleInputChange(form, symbolId, field, v2)
  {
    var first := HandleInputChange(HandleInputChange(form, symbolId, field, v1), symbolId, field, v2);
    var direct := HandleInputChange(form, symbolId, field, v2);
    assert first[symbolId] == direct[symbolId];
  }

  /** Changes to different fields, of the same symbol or of two symbols, commute. */
  lemma HandleInputChangeCommutes(form: Form, id1: string, f1: string, v1: Value, id2: string, f2: string, v2: Value)
    requires id1 != id2 || f1 != f2
    ensures HandleInputChange(HandleInputChange(form, id1, f1, v1), id2, f2, v2) ==
      HandleInputChange(HandleInputChange(form, id2, f2, v2), id1, f1, v1)
  {
    var e1 := EntryOf(form, id1)[f1 := v1];
    var e2 := EntryOf(form, id2)[f2 := v2];
    if id1 != id2 {
      assert EntryOf(form[id1 := e1], id2) == EntryOf(form, id2);
      assert EntryOf(form[id2 := e2], id1) == EntryOf(form, id1);
      assert form[id1 := e1][id2 := e2] == form[id2 := e2][id1 := e1];
    } else {
      var e := EntryOf(form, id1);
      assert e[f1 := v1][f2 := v2] == e[f2 := v2][f1 := v1];
    }
  }

  /** `data.checked`, as the filter tests it: present and truthy. */
  predicate IsChecked(entry: Entry) {
    "checked" in entry && Truthy(entry["checked"])
  }

  /** The ids whose entry is checked. */
  function CheckedIds(form: Form): (r: set<string>)
    ensures forall id :: id in r <==> id in form && IsChecked(form[id])
  {
    set id | id in form && IsChecked(form[id])
  }

  /** No key is listed twice. */
  predicate NoRepeats(order: seq<string>) {
    forall i, j :: 0 <= i < j < |order| ==> order[i] != order[j]
  }

  /** `order` is an enumeration of the form's keys: each key exactly once. */
  predicate IsKeyOrder(order: seq<string>, form: Form) {
    && NoRepeats(order)
    && (forall id :: id in order ==> id in form)
    && (forall id :: id in form ==> id in order)
  }

  /** `Object.entries(formData).filter(([_, data]) => data.checked)` over the keys in `order`. */
  function SubmitData(form: Form, order: seq<string>): (r: seq<(string, Entry)>)
    requires forall id :: id in order ==> id in form
    ensures |r| <= |order|
  {
    if order == [] then []
    else
      var rest := SubmitData(form, order[1..]);
      if IsChecked(form[order[0]]) then [(order[0], form[order[0]])] + rest else rest
  }

  /**
   * Without the key-order assumption: a pair is sent exactly when its id is
   * among the enumerated keys and its entry is checked.
   */
  lemma {:induction false} SubmitDataMembers(form: Form, order: seq<string>)
    requires forall id :: id in order ==> id in form
    ensures forall p :: p in SubmitData(form, order) <==>
      p.0 in order && p.1 == form[p.0] && IsChecked(p.1)
  {
    if order != [] {
      SubmitDataMembers(form, order[1..]);
      assert forall id :: id in order <==> id == order[0] || id in order[1..];
    }
  }

  /** No id is sent twice. */
  predicate DistinctIds(sent: seq<(string, Entry)>) {
    forall i, j :: 0 <= i < j < |sent| ==> sent[i].0 != sent[j].0
  }

  /** Every id sent is one of the enumerated keys. */
  lemma {:induction false} SubmitIdsEnumerated(form: Form, order: seq<string>)
    requires forall id :: id in order ==> id in form
    ensures forall i :: 0 <= i < |SubmitData(form, order)| ==> SubmitData(form, order)[i].0 in order
  {
    if order != [] {
      SubmitIdsEnumerated(form, order[1..]);
    }
  }

  /** An enumeration without repeats sends no id twice. */
  lemma {:induction false} SubmitDataDistinct(form: Form, order: seq<string>)
    requires forall id :: id in order ==> id in form
    requires NoRepeats(order)
    ensures DistinctIds(SubmitData(form, order))
  {
    if order != [] {
      var tail := order[1..];
      assert NoRepeats(tail) by {
        forall i, j | 0 <= i < j < |tail| ensures tail[i] != tail[j] {
          assert tail[i] == order[i + 1] && tail[j] == order[j + 1];
        }
      }
      SubmitDataDistinct(form, tail);
      var rest := SubmitData(form, tail);
      if IsChecked(form[order[0]]) {
        SubmitIdsEnumerated(form, tail);
        assert order[0] !in tail;
        var r := [(order[0], form[order[0]])] + rest;
        forall i, j | 0 <= i < j < |r| ensures r[i].0 != r[j].0 {
          assert r[j] == rest[j - 1];
          if i > 0 {
            assert r[i] == rest[i - 1];
          }
        }
      }
    }
  }

  /**
   * The payload holds exactly the checked entries, each as its `[id, entry]`
   * pair, each id once: one pair per checked id.
   */
  lemma SubmitDataExact(form: Form, order: seq<string>)
    requires IsKeyOrder(order, form)
    ensures forall p :: p in SubmitData(form, order) <==> p.0 in form && p.1 == form[p.0] && IsChecked(p.1)
    ensures DistinctIds(SubmitData(form, order))
    ensures forall id :: id in CheckedIds(form) <==> exists p :: p in SubmitData(form, order) && p.0 == id
  {
    SubmitDataMembers(form, order);
    SubmitDataDistinct(form, order);
    var r := SubmitData(form, order);
    forall id | id in CheckedIds(form) ensures exists p :: p in r && p.0 == id {
      assert (id, form[id]) in r;
    }
  }

  /** An entry whose only field set is the day is never sent. */
  lemma DayOnlyNotSent(form: Form, order: seq<string>, id: string, day: string)
    requires IsKeyOrder(order, form)
    requires id in form && form[id] == map["day" := Text(day)]
    ensures forall p :: p in SubmitData(form, order) ==> p.0 != id
  {
    SubmitDataExact(form, order);
  }

  /** `symbols.find(symbol => symbol[1] === symbolId)`: the index of the first catalog row listing the id. */
  function FindSymbol(catalog: Grid, symbolId: string): (r: Option<nat>)
    ensures r.None? ==> forall k :: 0 <= k < |catalog| ==> !(|catalog[k]| > 1 && catalog[k][1] == symbolId)
    ensures r.Some? ==> r.value < |catalog| && |catalog[r.value]| > 1 && catalog[r.value][1] == symbolId
    ensures r.Some? ==> forall k :: 0 <= k < r.value ==> !(|catalog[k]| > 1 && catalog[k][1] == symbolId)
  {
    if catalog == [] then None
    else if |catalog[0]| > 1 && catalog[0][1] == symbolId then Some(0)
    else
      match FindSymbol(catalog[1..], symbolId)
      case None => None
      case Some(k) => Some(k + 1)
  }

  /**
   * `?.[2] || ""`: the name cell of the first row listing the id; empty when
   * no row lists it or that row has no name cell.
   */
  function CatalogName(catalog: Grid, symbolId: string): (name: string)
    ensures (forall k :: 0 <= k < |catalog| ==> !(|catalog[k]| > 1 && catalog[k][1] == symbolId)) ==> name == ""
    ensures forall k ::
      (&& 0 <= k < |catalog| && |catalog[k]| > 1 && catalog[k][1] == symbolId
       && (forall m :: 0 <= m < k ==> !(|catalog[m]| > 1 && catalog[m][1] == symbolId)))
      ==> name == (if |catalog[k]| > 2 then catalog[k][2] else "")
  {
    match FindSymbol(catalog, symbolId)
    case None => ""
    case Some(k) => if |catalog[k]| > 2 then catalog[k][2] else ""
  }

  /** `data.day || "לא נבחר"`: the day when it is set to a truthy value, otherwise "not selected". */
  function DayOf(entry: Entry): (day: Value)
    ensures Truthy(day)
    ensures "day" in entry && Truthy(entry["day"]) ==> day == entry["day"]
    ensures !("day" in entry && Truthy(entry["day"])) ==> day == Text(NotSelected)
  {
    if "day" in entry && Truthy(entry["day"]) then entry["day"] else Text(NotSelected)
  }

  /** The day selector's empty "choose a day" option reads as not selected. */
  lemma ChooseDayIsNotSelected(form: Form, symbolId: string)
    ensures DayOf(HandleInputChange(form, symbolId, "day", Text(""))[symbolId]) == Text(NotSelected)
  {
  }

  /** One object of the report request: `{symbolId, name, day}`. */
  datatype ReportRow = ReportRow(symbolId: string, name: string, day: Value)

  /** The `handleDownloadPDF` map over the checked pairs. */
  function ReportRows(form: Form, order: seq<string>, catalog: Grid): (r: seq<ReportRow>)
    requires forall id :: id in order ==> id in form
    ensures |r| == |SubmitData(form, order)|
    ensures forall i :: 0 <= i < |r| ==> r[i].symbolId == SubmitData(form, order)[i].0
  {
    var sent := SubmitData(form, order);
    seq(|sent|, i requires 0 <= i < |sent| => ReportRow(sent[i].0, CatalogName(catalog, sent[i].0), DayOf(sent[i].1)))
  }

  /**
   * The report has one row per checked entry and no other: each row is keyed
   * by a checked id, each checked id has a row, no id has two, and each row
   * carries the catalog name and the entry's day.
   */
  lemma ReportRowsExact(form: Form, order: seq<string>, catalog: Grid)
    requires IsKeyOrder(order, form)
    ensures var r := ReportRows(form, order, catalog);
      && |r| == |CheckedIds(form)|
      && (forall id :: id in CheckedIds(form) <==> exists i :: 0 <= i < |r| && r[i].symbolId == id)
      && (forall i, j :: 0 <= i < j < |r| ==> r[i].symbolId != r[j].symbolId)
      && (forall i :: 0 <= i < |r| ==>
            r[i].name == CatalogName(catalog, r[i].symbolId) && r[i].day == DayOf(form[r[i].symbolId]))
  {
    var r := ReportRows(form, order, catalog);
    var sent := SubmitData(form, order);
    SubmitDataExact(form, order);
    forall id | id in CheckedIds(form) ensures exists i :: 0 <= i < |r| && r[i].symbolId == id {
      var p :| p in sent && p.0 == id;
      var i :| 0 <= i < |sent| && sent[i] == p;
      assert r[i].symbolId == id;
    }
    forall i | 0 <= i < |r| ensures r[i].symbolId in CheckedIds(form) && r[i].day == DayOf(form[r[i].symbolId]) {
      assert sent[i] in sent;
    }
    assert forall i, j :: 0 <= i < j < |r| ==> r[i].symbolId != r[j].symbolId by {
      forall i, j | 0 <= i < j < |r| ensures r[i].symbolId != r[j].symbolId {
        assert r[i].symbolId == sent[i].0 && r[j].symbolId == sent[j].0;
      }
    }
    DistinctIdsCount(r, CheckedIds(form));
  }

  /** A list of rows with distinct ids that covers exactly a set of ids is as long as the set is large. */
  lemma {:induction false} DistinctIdsCount(r: seq<ReportRow>, ids: set<string>)
    requires forall i, j :: 0 <= i < j < |r| ==> r[i].symbolId != r[j].symbolId
    requires forall id :: id in ids <==> exists i :: 0 <= i < |r| && r[i].symbolId == id
    ensures |r| == |ids|
  {
    if r != [] {
      var last := |r| - 1;
      var rest := ids - {r[last].symbolId};
      forall id ensures id in rest <==> exists i :: 0 <= i < |r[..last]| && r[..last][i].symbolId == id {
        if id in rest {
          var i :| 0 <= i < |r| && r[i].symbolId == id;
          assert i != last;
          assert r[..last][i].symbolId == id;
        }
        if exists i :: 0 <= i < |r[..last]| && r[..last][i].symbolId == id {
          var i :| 0 <= i < |r[..last]| && r[..last][i].symbolId == id;
          assert r[i].symbolId == id;
        }
      }
      DistinctIdsCount(r[..last], rest);
    }
  }
}

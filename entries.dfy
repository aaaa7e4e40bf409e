/**
 * The entries list shared by the RecurringExpenses and PersonalInfo forms: one
 * `{field, value}` pair per field the user has submitted, the array searches the
 * handlers use (`findIndex`, `find`), the upsert a submit performs, and the
 * registry-ordered projection the forms display.
 */
module Entries {
  import opened Wrappers

  datatype Entry = Entry(field: string, value: string)

  /** One element of a form's field registry: the `<option>` value and its label (`caption`). */
  datatype FieldDef = FieldDef(value: string, caption: string)

  /** One displayed row: the registry element and the entry shown beside its label. */
  datatype Row = Row(def: FieldDef, entry: Entry)

  predicate HasField(es: seq<Entry>, f: string) {
    exists j :: 0 <= j < |es| && es[j].field == f
  }

  /** No two entries name the same field. */
  predicate UniqueFields(es: seq<Entry>) {
    forall i, j :: 0 <= i < j < |es| ==> es[i].field != es[j].field
  }

  /** `es.findIndex(e => e.field === f)`: the first index holding `f`, or -1. */
  function FindIndex(es: seq<Entry>, f: string): (i: int)
    ensures -1 <= i < |es|
    ensures i == -1 ==> forall j :: 0 <= j < |es| ==> es[j].field != f
    ensures 0 <= i ==> es[i].field == f && forall j :: 0 <= j < i ==> es[j].field != f
  {
    if es == [] then -1
    else if es[0].field == f then 0
    else
      var k := FindIndex(es[1..], f);
      if k < 0 then -1 else k + 1
  }

  /** `es.find(e => e.field === f)`: the first entry holding `f`, or undefined. */
  function Find(es: seq<Entry>, f: string): (r: Option<Entry>)
    ensures r.None? ==> forall j :: 0 <= j < |es| ==> es[j].field != f
    ensures r.Some? ==> r.value in es && r.value.field == f
  {
    if es == [] then None
    else if es[0].field == f then Some(es[0])
    else Find(es[1..], f)
  }

  /** `find` and `findIndex` agree: `find` returns the element at the index `findIndex` reports. */
  lemma {:induction false} FindAtFindIndex(es: seq<Entry>, f: string)
    ensures Find(es, f) == if FindIndex(es, f) < 0 then None else Some(es[FindIndex(es, f)])
  {
    if es != [] && es[0].field != f {
      FindAtFindIndex(es[1..], f);
    }
  }

  /** Any index that holds `f` with no earlier `f` is the one `findIndex` reports. */
  lemma FirstIndexIsFindIndex(es: seq<Entry>, f: string, k: int)
    requires 0 <= k < |es| && es[k].field == f
    requires forall j :: 0 <= j < k ==> es[j].field != f
    ensures FindIndex(es, f) == k
  {
  }

  /**
   * The state change of one non-blank submit: replace the value of the first entry
   * for `f` in place (`{...entry, value}`), or append `{field: f, value: v}`.
   */
  function Upsert(es: seq<Entry>, f: string, v: string): (r: seq<Entry>)
    ensures HasField(es, f) ==> |r| == |es|
    ensures !HasField(es, f) ==> r == es + [Entry(f, v)]
    ensures forall j :: 0 <= j < |es| ==> r[j].field == es[j].field
    ensures forall j :: 0 <= j < |es| && r[j] != es[j] ==> es[j].field == f && r[j] == Entry(f, v)
  {
    var i := FindIndex(es, f);
    if i >= 0 then es[i := es[i].(value := v)] else es + [Entry(f, v)]
  }

  /**
   * Upsert refines a map update: afterwards looking up `f` yields `{f, v}`, and every
   * other field yields what it yielded before.
   */
  lemma UpsertFind(es: seq<Entry>, f: string, v: string, g: string)
    ensures Find(Upsert(es, f, v), g) == if g == f then Some(Entry(f, v)) else Find(es, g)
  {
    var r := Upsert(es, f, v);
    var i := FindIndex(es, f);
    FindAtFindIndex(es, g);
    FindAtFindIndex(r, g);
    if i >= 0 {
      if g == f {
        FirstIndexIsFindIndex(r, g, i);
      } else {
        var k := FindIndex(es, g);
        if k >= 0 {
          FirstIndexIsFindIndex(r, g, k);
        }
      }
    } else {
      if g == f {
        FirstIndexIsFindIndex(r, g, |es|);
      } else {
        var k := FindIndex(es, g);
        if k >= 0 {
          FirstIndexIsFindIndex(r, g, k);
        }
      }
    }
  }

  /** Exactly one position changes on an update: the one that held `f`, and only its value. */
  lemma UpsertExisting(es: seq<Entry>, f: string, v: string)
    requires UniqueFields(es) && HasField(es, f)
    ensures var r := Upsert(es, f, v);
      && |r| == |es|
      && exists i :: 0 <= i < |es| && es[i].field == f && r == es[i := Entry(f, v)]
  {
  }

  /** Upsert keeps the field names distinct. */
  lemma UpsertPreservesUnique(es: seq<Entry>, f: string, v: string)
    requires UniqueFields(es)
    ensures UniqueFields(Upsert(es, f, v))
  {
  }

  /**
   * The display projection: walk the registry in order and emit a row for each
   * registered field that `find` locates an entry for; other fields yield nothing.
   */
  function Rows(reg: seq<FieldDef>, es: seq<Entry>): (r: seq<Row>)
    ensures |r| <= |reg|
    ensures forall k :: 0 <= k < |r| ==> r[k].def in reg && Find(es, r[k].def.value) == Some(r[k].entry)
  {
    if reg == [] then []
    else
      var rest := Rows(reg[1..], es);
      match Find(es, reg[0].value)
      case None => rest
      case Some(e) => [Row(reg[0], e)] + rest
  }

  /** No registered field with an entry is missing from the display. */
  lemma {:induction false} RowsComplete(reg: seq<FieldDef>, es: seq<Entry>, d: FieldDef)
    requires d in reg && Find(es, d.value).Some?
    ensures exists k :: 0 <= k < |Rows(reg, es)| && Rows(reg, es)[k] == Row(d, Find(es, d.value).value)
  {
    var row := Row(d, Find(es, d.value).value);
    var rest := Rows(reg[1..], es);
    match Find(es, reg[0].value)
    case None =>
      assert Rows(reg, es) == rest;
      assert d in reg[1..];
      RowsComplete(reg[1..], es, d);
    case Some(e) =>
      var r := [Row(reg[0], e)] + rest;
      assert Rows(reg, es) == r;
      if d == reg[0] {
        assert r[0] == row;
      } else {
        assert d in reg[1..];
        RowsComplete(reg[1..], es, d);
        var k :| 0 <= k < |rest| && rest[k] == row;
        assert r[k + 1] == row;
      }
  }

  /** Every registered field with an entry is shown, with the entry `find` returns for it. */
  lemma RowsCompleteAll(reg: seq<FieldDef>, es: seq<Entry>)
    ensures forall d :: d in reg && Find(es, d.value).Some? ==>
      exists k :: 0 <= k < |Rows(reg, es)| && Rows(reg, es)[k] == Row(d, Find(es, d.value).value)
  {
    forall d | d in reg && Find(es, d.value).Some?
      ensures exists k :: 0 <= k < |Rows(reg, es)| && Rows(reg, es)[k] == Row(d, Find(es, d.value).value)
    {
      RowsComplete(reg, es, d);
    }
  }

  /** Rows follow registry order: the rows of a split registry are the rows of its parts, in order. */
  lemma {:induction false} RowsAppend(a: seq<FieldDef>, b: seq<FieldDef>, es: seq<Entry>)
    ensures Rows(a + b, es) == Rows(a, es) + Rows(b, es)
  {
    if a != [] {
      assert (a + b)[0] == a[0];
      assert (a + b)[1..] == a[1..] + b;
      RowsAppend(a[1..], b, es);
      match Find(es, a[0].value)
      case None =>
        assert Rows(a + b, es) == Rows(a[1..] + b, es);
        assert Rows(a, es) == Rows(a[1..], es);
      case Some(e) =>
        assert Rows(a + b, es) == [Row(a[0], e)] + Rows(a[1..] + b, es);
        assert Rows(a, es) == [Row(a[0], e)] + Rows(a[1..], es);
    } else {
      assert a + b == b;
    }
  }

  /** The rows of a one-field registry: one row exactly when that field has an entry. */
  lemma RowsSingle(d: FieldDef, es: seq<Entry>)
    ensures Rows([d], es) == match Find(es, d.value) case None => [] case Some(e) => [Row(d, e)]
  {
  }

  /** With distinct entry fields, every entry of a registered field is displayed with its value. */
  lemma RowsShowEveryRegisteredEntry(reg: seq<FieldDef>, es: seq<Entry>, d: FieldDef, j: nat)
    requires UniqueFields(es) && d in reg && j < |es| && es[j].field == d.value
    ensures exists k :: 0 <= k < |Rows(reg, es)| && Rows(reg, es)[k] == Row(d, es[j])
  {
    FindAtFindIndex(es, d.value);
    FirstIndexIsFindIndex(es, d.value, FindIndex(es, d.value));
    RowsComplete(reg, es, d);
  }
}

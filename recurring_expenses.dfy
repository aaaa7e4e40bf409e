/** The RecurringExpenses component: its field registry, icons, initial state and display. */
module RecurringExpenses {
  import opened Wrappers
  import opened Entries
  import opened EntryForms

  /** `expenseFields`, in display order. */
  const ExpenseFields: seq<FieldDef> := [
    FieldDef("rent", "Rent/Mortgage"),
    FieldDef("utilities", "Utilities"),
    FieldDef("groceries", "Groceries"),
    FieldDef("transportation", "Transportation"),
    FieldDef("insurance", "Insurance"),
    FieldDef("phone", "Phone/Internet"),
    FieldDef("entertainment", "Entertainment"),
    FieldDef("other", "Other Expenses")
  ]

  /** The eight pictures `getFieldIcon` draws; the SVG paths themselves are not modelled. */
  datatype Icon = House | Bolt | Cart | Arrows | Shield | Handset | Film | Dots

  predicate IsExpenseField(f: string) {
    exists d :: d in ExpenseFields && d.value == f
  }

  /** The registry's values are distinct, so each `<option>` key names one field. */
  lemma ExpenseFieldsDistinct()
    ensures forall i, j :: 0 <= i < j < |ExpenseFields| ==> ExpenseFields[i].value != ExpenseFields[j].value
  {
  }

  /** `getFieldIcon`: an icon exactly for the registered fields, and `null` for any other string. */
  function FieldIcon(f: string): (r: Option<Icon>)
    ensures r.Some? <==> IsExpenseField(f)
  {
    match f
    case "rent" => assert ExpenseFields[0].value == f; Some(House)
    case "utilities" => assert ExpenseFields[1].value == f; Some(Bolt)
    case "groceries" => assert ExpenseFields[2].value == f; Some(Cart)
    case "transportation" => assert ExpenseFields[3].value == f; Some(Arrows)
    case "insurance" => assert ExpenseFields[4].value == f; Some(Shield)
    case "phone" => assert ExpenseFields[5].value == f; Some(Handset)
    case "entertainment" => assert ExpenseFields[6].value == f; Some(Film)
    case "other" => assert ExpenseFields[7].value == f; Some(Dots)
    case _ => None
  }

  /** The field whose `case` draws each icon. */
  function IconField(i: Icon): string {
    match i
    case House => "rent"
    case Bolt => "utilities"
    case Cart => "groceries"
    case Arrows => "transportation"
    case Shield => "insurance"
    case Handset => "phone"
    case Film => "entertainment"
    case Dots => "other"
  }

  /** `IconField` inverts `getFieldIcon` on the fields that have an icon. */
  lemma FieldIconInverse(f: string)
    requires FieldIcon(f).Some?
    ensures IconField(FieldIcon(f).value) == f
  {
    match f
    case "rent" =>
    case "utilities" =>
    case "groceries" =>
    case "transportation" =>
    case "insurance" =>
    case "phone" =>
    case "entertainment" =>
    case "other" =>
    case _ =>
  }

  /** Different registered fields are drawn with different icons. */
  lemma FieldIconInjective(f: string, g: string)
    requires FieldIcon(f).Some? && FieldIcon(f) == FieldIcon(g)
    ensures f == g
  {
    FieldIconInverse(f);
    FieldIconInverse(g);
  }

  /** The component's initial state: `'rent'` selected, an empty box, no entries. */
  method NewRecurringExpenses() returns (form: EntryForm)
    ensures fresh(form) && form.Valid()
    ensures form.selectedField == "rent" && form.inputValue == "" && form.entries == []
  {
    form := new EntryForm("rent");
  }

  /** The "Current Expenses" rows: registry order, only registered fields that have an entry. */
  function ExpenseRows(es: seq<Entry>): (r: seq<Row>)
    ensures |r| <= |ExpenseFields|
    ensures forall k :: 0 <= k < |r| ==> r[k].def in ExpenseFields && Find(es, r[k].def.value) == Some(r[k].entry)
    ensures forall d :: d in ExpenseFields && Find(es, d.value).Some? ==>
      exists k :: 0 <= k < |r| && r[k] == Row(d, Find(es, d.value).value)
  {
    RowsCompleteAll(ExpenseFields, es);
    Rows(ExpenseFields, es)
  }
}

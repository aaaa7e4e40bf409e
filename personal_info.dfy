/** The PersonalInfo component: its field registry, initial state and display. */
module PersonalInfo {
  import opened Wrappers
  import opened Entries
  import opened EntryForms

  /** `personalFields`, in display order. */
  const PersonalFields: seq<FieldDef> := [
    FieldDef("name", "Full Name"),
    FieldDef("email", "Email Address"),
    FieldDef("phone", "Phone Number"),
    FieldDef("address", "Address"),
    FieldDef("dob", "Date of Birth"),
    FieldDef("ssn", "Social Security Number")
  ]

  /** The registry's values are distinct, so each `<option>` key names one field. */
  lemma PersonalFieldsDistinct()
    ensures forall i, j :: 0 <= i < j < |PersonalFields| ==> PersonalFields[i].value != PersonalFields[j].value
  {
  }

  /** The component's initial state: `'name'` selected, an empty box, no entries. */
  method NewPersonalInfo() returns (form: EntryForm)
    ensures fresh(form) && form.Valid()
    ensures form.selectedField == "name" && form.inputValue == "" && form.entries == []
  {
    form := new EntryForm("name");
  }

  /** The "Current Information" rows: registry order, only registered fields that have an entry. */
  function PersonalRows(es: seq<Entry>): (r: seq<Row>)
    ensures |r| <= |PersonalFields|
    ensures forall k :: 0 <= k < |r| ==> r[k].def in PersonalFields && Find(es, r[k].def.value) == Some(r[k].entry)
    ensures forall d :: d in PersonalFields && Find(es, d.value).Some? ==>
      exists k :: 0 <= k < |r| && r[k] == Row(d, Find(es, d.value).value)
  {
    RowsCompleteAll(PersonalFields, es);
    Rows(PersonalFields, es)
  }
}

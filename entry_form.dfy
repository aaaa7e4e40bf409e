/**
 * The state of the RecurringExpenses and PersonalInfo forms: the selected field,
 * the text box and the submitted entries. Both components carry the same
 * `handleSubmit`; each handler runs as one atomic step.
 */
module EntryForms {
  import opened JsText
  import opened Entries

  class EntryForm {
    var selectedField: string
    var inputValue: string
    var entries: seq<Entry>

    /** The form invariant: at most one entry per field. */
    ghost predicate Valid()
      reads this
    {
      UniqueFields(entries)
    }

    /** The three `useState` hooks with their initial values. */
    constructor (initialField: string)
      ensures Valid()
      ensures selectedField == initialField && inputValue == "" && entries == []
    {
      selectedField := initialField;
      inputValue := "";
      entries := [];
    }

    /** The `<select>` change handler. */
    method SelectField(f: string)
      requires Valid()
      modifies this
      ensures Valid()
      ensures selectedField == f
      ensures inputValue == old(inputValue) && entries == old(entries)
    {
      selectedField := f;
    }

    /** The text box change handler. */
    method SetInput(v: string)
      requires Valid()
      modifies this
      ensures Valid()
      ensures inputValue == v
      ensures selectedField == old(selectedField) && entries == old(entries)
    {
      inputValue := v;
    }

    /**
     * `handleSubmit`: blank input changes nothing; otherwise the raw (untrimmed)
     * input is upserted under the selected field and the text box is cleared.
     */
    method Submit()
      requires Valid()
      modifies this
      ensures Valid()
      ensures selectedField == old(selectedField)
      ensures IsBlank(old(inputValue)) ==> entries == old(entries) && inputValue == old(inputValue)
      ensures !IsBlank(old(inputValue)) ==>
        entries == Upsert(old(entries), old(selectedField), old(inputValue)) && inputValue == ""
    {
      if IsBlank(inputValue) {
        return;
      }
      UpsertPreservesUnique(entries, selectedField, inputValue);
      var existing := FindIndex(entries, selectedField);
      if existing >= 0 {
        entries := entries[existing := entries[existing].(value := inputValue)];
      } else {
        entries := entries + [Entry(selectedField, inputValue)];
      }
      inputValue := "";
    }
  }
}

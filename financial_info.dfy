/** The FinancialInfo component: a two-field record edited one input at a time. */
module FinancialInfo {

  datatype FinancialInfoData = FinancialInfoData(yearlySalary: string, creditScore: string)

  /** The `name` attribute of the input that fired the change event. */
  datatype InputName = YearlySalary | CreditScore

  function Get(d: FinancialInfoData, name: InputName): string {
    match name
    case YearlySalary => d.yearlySalary
    case CreditScore => d.creditScore
  }

  /** `{...prev, [name]: value}`: the named field takes the value, the other keeps its own. */
  function Set(d: FinancialInfoData, name: InputName, value: string): (r: FinancialInfoData)
    ensures Get(r, name) == value
    ensures forall other :: other != name ==> Get(r, other) == Get(d, other)
  {
    match name
    case YearlySalary => d.(yearlySalary := value)
    case CreditScore => d.(creditScore := value)
  }

  /** A record is determined by what its two inputs show. */
  lemma ExtensionalByInputs(d: FinancialInfoData, e: FinancialInfoData)
    requires forall name :: Get(d, name) == Get(e, name)
    ensures d == e
  {
    assert Get(d, YearlySalary) == Get(e, YearlySalary);
    assert Get(d, CreditScore) == Get(e, CreditScore);
  }

  /** Applying the same change twice is applying it once. */
  lemma SetIdempotent(d: FinancialInfoData, name: InputName, value: string)
    ensures Set(Set(d, name, value), name, value) == Set(d, name, value)
  {
  }

  /** Successive changes to one field: the last one wins. */
  lemma SetLastWins(d: FinancialInfoData, name: InputName, a: string, b: string)
    ensures Set(Set(d, name, a), name, b) == Set(d, name, b)
  {
  }

  /** Changes to different fields do not interfere. */
  lemma SetCommutes(d: FinancialInfoData, n1: InputName, v1: string, n2: InputName, v2: string)
    requires n1 != n2
    ensures Set(Set(d, n1, v1), n2, v2) == Set(Set(d, n2, v2), n1, v1)
  {
  }

  class FinancialForm {
    var formData: FinancialInfoData

    /** `useState(data)`: the form starts from the `data` prop. */
    constructor (data: FinancialInfoData)
      ensures formData == data
    {
      formData := data;
    }

    /** `handleChange` for the input called `name`. */
    method HandleChange(name: InputName, value: string)
      modifies this
      ensures formData == Set(old(formData), name, value)
    {
      formData := Set(formData, name, value);
    }
  }
}

/** The fixed validation rules the form registers for its three inputs:
    name is required and at least three characters long, email and phone
    are required. */
module FormRules {
  import opened Records

  datatype Field = Name | Email | Phone

  const NameMinLength: nat := 3

  /** A `required` rule fails on an empty value. */
  predicate Missing(value: string) {
    value == ""
  }

  /** A `minLength` rule is checked only on a value that is not empty. */
  predicate TooShort(value: string, min: nat) {
    value != "" && |value| < min
  }

  /** The fields whose rules the draft breaks; submission goes ahead only when there are none. */
  function FieldErrors(draft: UserFormInputs): (errors: set<Field>)
    ensures Name in errors <==> |draft.name| < 3
    ensures Email in errors <==> |draft.email| == 0
    ensures Phone in errors <==> |draft.phone| == 0
    ensures errors == {} <==> |draft.name| >= 3 && |draft.email| > 0 && |draft.phone| > 0
  {
    (if Missing(draft.name) || TooShort(draft.name, NameMinLength) then {Name} else {})
    + (if Missing(draft.email) then {Email} else {})
    + (if Missing(draft.phone) then {Phone} else {})
  }

  /** The cleared draft breaks every rule, so a form submitted straight
      after opening (in either mode) never reaches the remote service. */
  lemma EmptyDraftRejected()
    ensures FieldErrors(EmptyDraft) == {Name, Email, Phone}
  {
  }
}

/** The validity gate a harvested record must pass before it is kept. */
module PatentValidator {
  import opened Wrappers
  import opened PatentModel

  /** isNotEmpty: present and at least one character long. */
  predicate IsNotEmpty(value: Option<string>) {
    value.Some? && value.value != []
  }

  /**
   * isValid: a record is valid exactly when its status is present and not
   * empty; a missing record (the NullPointerException isValid catches)
   * is invalid.
   */
  function IsValid(patent: Option<Record>): (r: bool)
    ensures r ==> patent.Some? && patent.value.status.Some? && |patent.value.status.value| > 0
    ensures patent.Some? && patent.value.status.Some? && |patent.value.status.value| > 0 ==> r
  {
    match patent
    case None => false
    case Some(p) => IsNotEmpty(p.status)
  }

  /** Validity reads the status and nothing else: two records with the same status are judged alike. */
  lemma ValidityDependsOnlyOnStatus(a: Record, b: Record)
    requires a.status == b.status
    ensures IsValid(Some(a)) == IsValid(Some(b))
  {
  }

  /** No trimming happens: a status made only of blanks still passes. */
  lemma BlankStatusIsValid(p: Record, blanks: string)
    requires blanks != [] && forall k :: 0 <= k < |blanks| ==> blanks[k] == ' '
    ensures IsValid(Some(p.(status := Some(blanks))))
  {
  }
}

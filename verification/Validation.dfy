/** Validation reports and their fingerprints. */
module Validation {
  import opened Prelude
  import opened Sorting

  datatype ErrorClass =
    | SyntaxError | UnknownTable | UnknownColumn | AmbiguousColumn | TypeOrFunctionError | JoinError
    | FilterOrValueError | AggregationError | DialectError | PolicyViolation | Timeout | EmptyResultSuspected
    | ResultShapeMismatch | SemanticMismatch | UnknownRuntimeError

  datatype ValidationReport = ValidationReport(
    accepted: bool, errorClass: Option<ErrorClass>, signals: seq<string>, repairEligible: bool)

  const NON_REPAIRABLE := {PolicyViolation, Timeout, UnknownRuntimeError}

  /** `classify_for_repair`. */
  predicate Repairable(r: ValidationReport) {
    !r.accepted && r.errorClass.Some? && r.errorClass.value !in NON_REPAIRABLE
    && (r.repairEligible || !r.errorClass.value.PolicyViolation?)
  }

  function Itself(s: string): string { s }

  /** A rejected report of any class but these three can be repaired: what the report says
      of its own eligibility never matters. */
  predicate MayRepair(r: ValidationReport) {
    && !r.accepted && r.errorClass.Some?
    && !r.errorClass.value.PolicyViolation? && !r.errorClass.value.Timeout? && !r.errorClass.value.UnknownRuntimeError?
  }

  lemma RepairableMeans(r: ValidationReport)
    ensures Repairable(r) <==> MayRepair(r)
  {
    assert PolicyViolation in NON_REPAIRABLE;
  }

  /** `error_fingerprint`; the join and the hash are injective. */
  function ErrorFingerprint(r: ValidationReport): (Option<ErrorClass>, seq<string>) { (r.errorClass, Sort(r.signals, Itself)) }

  /** Two failures are the same exactly when the class is, and the signals are up to
      their order. */
  lemma SameError(a: ValidationReport, b: ValidationReport)
    ensures ErrorFingerprint(a) == ErrorFingerprint(b) <==>
            a.errorClass == b.errorClass && multiset(a.signals) == multiset(b.signals)
  {
    SortCanonical(a.signals, b.signals, Itself);
  }
}

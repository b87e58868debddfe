/** The schema check run right after reading the dataset. */
module Schema {
  import opened Wrappers

  /** The eight columns every dataset must carry. */
  const ExpectedColumns: set<string> :=
    {"timestamp", "region", "lat", "lon",
     "risk_score", "activity_index", "supply_pressure", "morale_index"}

  /** Succeeds when every expected column is present; otherwise fails and
      reports exactly the expected columns that are absent. */
  function EnsureColumns(present: set<string>): (r: Result<(), set<string>>)
    ensures r.Success? <==> forall c :: c in ExpectedColumns ==> c in present
    ensures r.Failure? ==>
      r.error != {} &&
      forall c :: c in r.error <==> c in ExpectedColumns && c !in present
  {
    if ExpectedColumns <= present then Success(())
    else
      var missing := ExpectedColumns - present;
      var c :| c in ExpectedColumns && c !in present;
      assert c in missing;
      Failure(missing)
  }

  /** Columns beyond the expected ones never make the check fail, and adding
      columns can only shrink the reported missing set. */
  lemma ExtraColumnsNeverFail(present: set<string>, extra: set<string>)
    ensures EnsureColumns(present).Success? ==> EnsureColumns(present + extra).Success?
    ensures EnsureColumns(present + extra).Failure? ==>
      EnsureColumns(present).Failure? &&
      EnsureColumns(present + extra).error <= EnsureColumns(present).error
  {
  }

  /** The check passes exactly on supersets of the expected columns. */
  lemma SupersetPasses(present: set<string>)
    requires ExpectedColumns <= present
    ensures EnsureColumns(present) == Success(())
  {
  }
}

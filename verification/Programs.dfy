/**
 * The two programs against what is due: whatever the shell answers, every operation they ask for is
 * the one due behind the exchanges before it, and so is what they return.
 */
module Programs {
  import opened Basics
  import opened Tasks
  import A = Admissions
  import AdmissionProgram
  import AdmissionHistory
  import B = Submission
  import BatchProgram
  import BatchHistory

  /** One admission, from the validated request to its outcome. */
  method RunAdmission(shell: AdmissionProgram.Shell, validated: Option<Task>) returns (outcome: A.Outcome)
    requires shell.log == [] && (validated.Some? ==> A.Validated(validated.value))
    modifies shell
    ensures AdmissionHistory.Conforms(validated, shell.log)
    ensures AdmissionHistory.Next(validated, shell.log) == AdmissionHistory.End(outcome)
  {
    outcome := AdmissionProgram.DriveAdmission(shell, validated);
    AdmissionHistory.RunsExactlyWhatIsDue(validated, shell.log);
  }

  /** One polled batch, from envelope ids to a verdict. */
  method RunBatch(shell: BatchProgram.Shell, ids: seq<string>) returns (verdict: B.Verdict)
    requires shell.log == []
    modifies shell
    ensures BatchHistory.Conforms(ids, shell.log) && BatchHistory.Next(ids, shell.log) == BatchHistory.End(verdict)
  {
    verdict := BatchProgram.DriveBatch(shell, ids);
    BatchHistory.RunsExactlyWhatIsDue(ids, shell.log);
  }
}

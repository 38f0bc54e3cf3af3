/** The query of a task-listing request. */
module GetTasksFilter {
  import opened Validation
  import TaskStatus

  datatype GetTasksFilterDto = GetTasksFilterDto(status: Input, search: Input)

  /** IsOptional then IsIn(OPEN, IN_PROGRESS, DONE): compared as is, with no
      case normalisation. */
  function StatusViolations(status: Input): (r: set<Violation>)
    ensures r == {} <==> status == Absent || (status.Str? && TaskStatus.Parse(status.value).Some?)
  {
    if status == Absent then {}
    else Check("status", status.Str? && TaskStatus.Parse(status.value).Some?, IsIn)
  }

  /** IsOptional then IsNotEmpty. */
  function SearchViolations(search: Input): (r: set<Violation>)
    ensures r == {} <==> search != Str("")
  {
    if search == Absent then {}
    else Check("search", NotEmpty(search), IsNotEmpty)
  }

  function Validate(dto: GetTasksFilterDto): (r: Verdict)
    ensures r == Accepted <==> StatusViolations(dto.status) == {} && SearchViolations(dto.search) == {}
    ensures r != TransformFailed
  {
    VerdictOf(StatusViolations(dto.status) + SearchViolations(dto.search))
  }

  /** The two properties are checked independently: a filter is accepted iff
      its status alone and its search alone would be. */
  lemma IndependentChecks(status: Input, search: Input)
    ensures Validate(GetTasksFilterDto(status, search)) == Accepted
            <==> Validate(GetTasksFilterDto(status, Absent)) == Accepted
                 && Validate(GetTasksFilterDto(Absent, search)) == Accepted
  {
  }

  /** Only the empty string fails the search check; white space is kept. */
  lemma SearchRejectedOnlyWhenEmpty(s: string)
    ensures Validate(GetTasksFilterDto(Absent, Str(s))) == Accepted <==> s != ""
  {
  }

  /** A present status must spell a member exactly. */
  lemma StatusMustBeExact(s: string)
    ensures Validate(GetTasksFilterDto(Str(s), Absent)) == Accepted <==> s in {"OPEN", "IN_PROGRESS", "DONE"}
  {
  }

  /** Concrete cases: the empty filter, and a lower-case status. */
  lemma FilterExamples()
    ensures Validate(GetTasksFilterDto(Absent, Absent)) == Accepted
    ensures Validate(GetTasksFilterDto(Str("open"), Absent)) == Rejected({Violation("status", IsIn)})
    ensures Validate(GetTasksFilterDto(Str("OPEN"), Str(" "))) == Accepted
  {
  }
}

/** The body of a task-creation request. */
module CreateTask {
  import opened Validation

  datatype CreateTaskDto = CreateTaskDto(title: Input, description: Input)

  /** IsNotEmpty on both properties, neither of them optional. */
  function Violations(dto: CreateTaskDto): (r: set<Violation>)
    ensures Violation("title", IsNotEmpty) in r <==> dto.title == Absent || dto.title == Str("")
    ensures Violation("description", IsNotEmpty) in r <==> dto.description == Absent || dto.description == Str("")
    ensures r <= {Violation("title", IsNotEmpty), Violation("description", IsNotEmpty)}
  {
    Check("title", NotEmpty(dto.title), IsNotEmpty)
    + Check("description", NotEmpty(dto.description), IsNotEmpty)
  }

  function Validate(dto: CreateTaskDto): (r: Verdict)
    ensures r == Accepted <==> NotEmpty(dto.title) && NotEmpty(dto.description)
    ensures r != TransformFailed
  {
    VerdictOf(Violations(dto))
  }

  /** No trimming and no maximum length: every present string other than ''
      is accepted, white space included. IsNotEmpty does not ask for a string,
      so other JSON values pass as well. */
  lemma OnlyMissingOrEmptyRejected(title: Input, description: Input)
    requires title != Absent && title != Str("")
    requires description != Absent && description != Str("")
    ensures Validate(CreateTaskDto(title, description)) == Accepted
  {
  }

  /** Concrete cases: a missing title, an empty description, white space. */
  lemma CreateTaskExamples()
    ensures Validate(CreateTaskDto(Absent, Str("D"))) == Rejected({Violation("title", IsNotEmpty)})
    ensures Validate(CreateTaskDto(Str("T"), Str(""))) == Rejected({Violation("description", IsNotEmpty)})
    ensures Validate(CreateTaskDto(Str(" "), Str(" "))) == Accepted
  {
  }
}

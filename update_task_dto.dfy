/** The body of a task-update request. */
module UpdateTask {
  import opened Wrappers
  import opened Validation
  import TaskStatus

  datatype UpdateTaskDto = UpdateTaskDto(title: Input, description: Input, status: Input)

  /** `toUpperCase` on one character, restricted to ASCII. */
  function UpperChar(c: char): (u: char)
    ensures 'a' <= c <= 'z' ==> 'A' <= u <= 'Z' && u as int == c as int - 32
    ensures !('a' <= c <= 'z') ==> u == c
  {
    if 'a' <= c <= 'z' then (c as int - 32) as char else c
  }

  /** `String.prototype.toUpperCase`, restricted to ASCII. */
  function ToUpperCase(s: string): (r: string)
    ensures |r| == |s|
    ensures forall i :: 0 <= i < |s| ==> r[i] == UpperChar(s[i])
  {
    if s == [] then [] else [UpperChar(s[0])] + ToUpperCase(s[1..])
  }

  /** Upper-casing twice is upper-casing once. */
  lemma ToUpperCaseIdempotent(s: string)
    ensures ToUpperCase(ToUpperCase(s)) == ToUpperCase(s)
  {
    var u := ToUpperCase(s);
    assert forall i :: 0 <= i < |u| ==> ToUpperCase(u)[i] == u[i];
  }

  /** `@Transform(({ value }) => value?.toUpperCase())`: null and undefined
      give undefined; a value without `toUpperCase`, such as a number, makes
      the call throw. */
  function TransformStatus(status: Input): (r: Option<Input>)
    ensures r == None <==> status == NonString
    ensures status.Str? ==> r == Some(Str(ToUpperCase(status.value)))
    ensures status == Absent ==> r == Some(Absent)
  {
    match status
    case Absent => Some(Absent)
    case Str(s) => Some(Str(ToUpperCase(s)))
    case NonString => None
  }

  /** IsOptional, IsString, MinLength(3). */
  function TitleViolations(title: Input): (r: set<Violation>)
    ensures r == {} <==> title == Absent || (title.Str? && MeasuredLength(title.value) >= 3)
  {
    if title == Absent then {}
    else Check("title", title.Str?, IsString) + Check("title", LengthAtLeast(title, 3), MinLength(3))
  }

  /** IsOptional, IsString: no length bound. */
  function DescriptionViolations(description: Input): (r: set<Violation>)
    ensures r == {} <==> description != NonString
  {
    if description == Absent then {} else Check("description", description.Str?, IsString)
  }

  /** IsOptional then IsEnum(TaskStatus), applied to the transformed value. */
  function StatusViolations(status: Input): (r: set<Violation>)
    ensures r == {} <==> status == Absent || (status.Str? && TaskStatus.Parse(status.value).Some?)
  {
    if status == Absent then {}
    else Check("status", status.Str? && TaskStatus.Parse(status.value).Some?, IsEnum)
  }

  /** The transform runs first; the constraints then see its result. */
  function Validate(dto: UpdateTaskDto): (r: Verdict)
    ensures r == TransformFailed <==> dto.status == NonString
    ensures dto.status == Absent ==>
              (r == Accepted <==> TitleViolations(dto.title) == {} && DescriptionViolations(dto.description) == {})
    ensures dto.status.Str? ==>
              (r == Accepted <==> TitleViolations(dto.title) == {} && DescriptionViolations(dto.description) == {}
                                  && TaskStatus.Parse(ToUpperCase(dto.status.value)).Some?)
  {
    match TransformStatus(dto.status)
    case None => TransformFailed
    case Some(status) =>
      VerdictOf(TitleViolations(dto.title) + DescriptionViolations(dto.description) + StatusViolations(status))
  }

  /** A status whose upper-case form spells a member is accepted as that
      member: the transformed value is exactly the member's value. */
  lemma {:induction false} CaseInsensitiveStatus(s: string, t: TaskStatus.Status)
    requires ToUpperCase(s) == ToUpperCase(t.Value())
    ensures TransformStatus(Str(s)) == Some(Str(t.Value()))
    ensures Validate(UpdateTaskDto(Absent, Absent, Str(s))) == Accepted
  {
    ValueIsUpperCase(t);
    assert TransformStatus(Str(s)) == Some(Str(t.Value()));
    assert StatusViolations(Str(t.Value())) == {};
  }

  /** Each member's value is already upper-case. */
  lemma ValueIsUpperCase(t: TaskStatus.Status)
    ensures ToUpperCase(t.Value()) == t.Value()
  {
    var v := t.Value();
    assert forall i :: 0 <= i < |v| ==> !('a' <= v[i] <= 'z');
  }

  /** A status whose upper-case form is no member is refused by IsEnum. */
  lemma UnknownStatusRejected(s: string)
    requires TaskStatus.Parse(ToUpperCase(s)) == None
    ensures Validate(UpdateTaskDto(Absent, Absent, Str(s))) == Rejected({Violation("status", IsEnum)})
  {
  }

  /** Concrete cases: the empty update, a two-character title, an empty
      description. */
  lemma UpdateExamples()
    ensures Validate(UpdateTaskDto(Absent, Absent, Absent)) == Accepted
    ensures Validate(UpdateTaskDto(Str("ab"), Absent, Absent)) == Rejected({Violation("title", MinLength(3))})
    ensures Validate(UpdateTaskDto(Str("abc"), Str(""), Absent)) == Accepted
  {
  }

  /** Concrete case: a lower-case spelling of a member. */
  lemma LowerCaseStatusExample()
    ensures Validate(UpdateTaskDto(Absent, Absent, Str("in_progress"))) == Accepted
  {
    var s, t := "in_progress", TaskStatus.Status.InProgress;
    var v := t.Value();
    assert ToUpperCase(s) == v by {
      assert forall i :: 0 <= i < |s| ==> UpperChar(s[i]) == v[i];
    }
    ValueIsUpperCase(t);
    CaseInsensitiveStatus(s, t);
  }

  /** Concrete case: a word that is no member. */
  lemma UnknownStatusExample()
    ensures Validate(UpdateTaskDto(Absent, Absent, Str("closed"))) == Rejected({Violation("status", IsEnum)})
  {
    assert ToUpperCase("closed")[0] == 'C';
    UnknownStatusRejected("closed");
  }
}

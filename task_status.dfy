/** The task statuses. The enum's own file is not part of this model. Two
    things about it are assumed here: that it has exactly the three members
    the filter DTO lists (OPEN, IN_PROGRESS, DONE), and that each member's
    string value is its own name. */
module TaskStatus {
  import opened Wrappers

  datatype Status = Open | InProgress | Done {
    /** The string value of the enum member, assumed equal to its name. */
    function Value(): string {
      match this
      case Open => "OPEN"
      case InProgress => "IN_PROGRESS"
      case Done => "DONE"
    }
  }

  /** The member whose value is exactly s, if any (strict equality, as both
      IsIn and IsEnum compare). */
  function Parse(s: string): (r: Option<Status>)
    ensures r.Some? ==> r.value.Value() == s
    ensures forall t: Status :: t.Value() == s ==> r == Some(t)
  {
    if s == "OPEN" then Some(Open)
    else if s == "IN_PROGRESS" then Some(InProgress)
    else if s == "DONE" then Some(Done)
    else None
  }
}

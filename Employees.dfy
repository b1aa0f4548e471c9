/** The employee directory (`EmployeesSection`): the search box filters the
    employee table by a case-insensitive substring of name, email or
    department; avatars show the initials (`Text.Initials`). */
module Employees {
  import opened Seqs
  import Text

  datatype Employee = Employee(id: int, name: string, email: string, phone: string, department: string,
                               position: string, status: string, startDate: string)

  /** The search predicate: the lower-cased query occurs in the lower-cased
      name, email or department. */
  predicate Matches(e: Employee, searchQuery: string)
  {
    var q := Text.ToLower(searchQuery);
    Text.Contains(Text.ToLower(e.name), q) || Text.Contains(Text.ToLower(e.email), q)
    || Text.Contains(Text.ToLower(e.department), q)
  }

  /** `filteredEmployees`: the matching employees, in table order. */
  function FilteredEmployees(employees: seq<Employee>, searchQuery: string): (r: seq<Employee>)
    ensures IsSubsequence(r, employees)
    ensures forall i :: 0 <= i < |r| ==> Matches(r[i], searchQuery)
    ensures forall i :: 0 <= i < |employees| && Matches(employees[i], searchQuery) ==> employees[i] in r
    ensures forall e :: multiset(r)[e] == if Matches(e, searchQuery) then multiset(employees)[e] else 0
  {
    FilterIsSubsequence(employees, (e: Employee) => Matches(e, searchQuery));
    FilterMultiset(employees, (e: Employee) => Matches(e, searchQuery));
    Filter(employees, (e: Employee) => Matches(e, searchQuery))
  }

  /** An empty search box shows the whole table. */
  lemma EmptyQueryKeepsAll(employees: seq<Employee>)
    ensures FilteredEmployees(employees, "") == employees
  {
    forall i | 0 <= i < |employees| ensures Matches(employees[i], "") {
      Text.ContainsEmpty(Text.ToLower(employees[i].name));
    }
    FilterAll(employees, (e: Employee) => Matches(e, ""));
  }

  /** The case of the query does not matter. */
  lemma QueryCaseInsensitive(e: Employee, searchQuery: string)
    ensures Matches(e, Text.ToLower(searchQuery)) == Matches(e, searchQuery)
  {
    Text.ToLowerIdempotent(searchQuery);
  }

  /** Typing more narrows the search: a query that contains another (up to
      case) matches only employees the shorter one matches. */
  lemma LongerQueryNarrows(employees: seq<Employee>, shorter: string, longer: string)
    requires Text.Contains(Text.ToLower(longer), Text.ToLower(shorter))
    ensures forall i :: 0 <= i < |employees| && Matches(employees[i], longer) ==> Matches(employees[i], shorter)
    ensures |FilteredEmployees(employees, longer)| <= |FilteredEmployees(employees, shorter)|
  {
    var q1 := Text.ToLower(shorter);
    var q2 := Text.ToLower(longer);
    forall e: Employee | Matches(e, longer) ensures Matches(e, shorter) {
      if Text.Contains(Text.ToLower(e.name), q2) {
        Text.ContainsTransitive(Text.ToLower(e.name), q2, q1);
      } else if Text.Contains(Text.ToLower(e.email), q2) {
        Text.ContainsTransitive(Text.ToLower(e.email), q2, q1);
      } else {
        Text.ContainsTransitive(Text.ToLower(e.department), q2, q1);
      }
    }
    FilterMonotone(employees, (e: Employee) => Matches(e, longer), (e: Employee) => Matches(e, shorter));
  }
}

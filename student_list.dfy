/** The student list page: the search box, the class and status filters
    applied to the student records, the status badges and the avatar
    initials. */
module StudentList {
  import opened Lists
  import opened Strings
  import opened Badges

  /** A student record. `status` is "active", "inactive" or "graduated";
      `feeStatus` is "paid", "pending" or "overdue". The record's `class`
      field is called `grade` here, `class` being a Dafny keyword. */
  datatype Student = Student(
    id: string,
    name: string,
    studentId: string,
    grade: string,
    section: string,
    phone: string,
    status: string,
    feeStatus: string,
    admissionDate: string)

  /** The filter value that lets every class or every status through. */
  const All := "all"

  /** The search box: name and student ID are compared ignoring case, the
      phone number as typed. */
  predicate MatchesSearch(student: Student, query: string)
  {
    || Includes(Lower(student.name), Lower(query))
    || Includes(Lower(student.studentId), Lower(query))
    || Includes(student.phone, query)
  }

  predicate MatchesClass(student: Student, selectedClass: string)
  {
    selectedClass == All || student.grade == selectedClass
  }

  predicate MatchesStatus(student: Student, selectedStatus: string)
  {
    selectedStatus == All || student.status == selectedStatus
  }

  /** The predicate `filteredStudents` applies to each record. */
  predicate Keep(student: Student, query: string, selectedClass: string, selectedStatus: string)
  {
    MatchesSearch(student, query) && MatchesClass(student, selectedClass) && MatchesStatus(student, selectedStatus)
  }

  /** `filteredStudents`: the records that pass all three tests, in their
      original order; so "Showing X of Y" never has X above Y. */
  function FilteredStudents(students: seq<Student>, query: string, selectedClass: string, selectedStatus: string)
    : (r: seq<Student>)
    ensures IsSubsequence(r, students)
    ensures |r| <= |students|
    ensures forall s :: s in r <==> s in students && Keep(s, query, selectedClass, selectedStatus)
    ensures forall s :: multiset(r)[s] == if Keep(s, query, selectedClass, selectedStatus) then multiset(students)[s] else 0
  {
    var p := (s: Student) => Keep(s, query, selectedClass, selectedStatus);
    FilterIsSubsequence(students, p);
    FilterMembershipAll(students, p);
    forall s
      ensures multiset(Filter(students, p))[s] == if p(s) then multiset(students)[s] else 0
    {
      FilterCount(students, p, s);
    }
    Filter(students, p)
  }

  /** The search matches exactly when the lower-cased query occurs in the
      lower-cased name or student ID, or the query occurs in the phone. */
  lemma MatchesSearchIffOccurs(student: Student, query: string)
    ensures MatchesSearch(student, query) <==>
            || (exists i :: OccursAt(Lower(student.name), Lower(query), i))
            || (exists i :: OccursAt(Lower(student.studentId), Lower(query), i))
            || (exists i :: OccursAt(student.phone, query, i))
  {
    IncludesIffOccurs(Lower(student.name), Lower(query));
    IncludesIffOccurs(Lower(student.studentId), Lower(query));
    IncludesIffOccurs(student.phone, query);
  }

  /** A student whose ID contains the query, in any mix of letter case, is
      listed when no class or status filter is set. */
  lemma StudentIdMatchIsListed(students: seq<Student>, query: string, k: nat, i: int)
    requires k < |students|
    requires OccursAt(Lower(students[k].studentId), Lower(query), i)
    ensures students[k] in FilteredStudents(students, query, All, All)
  {
    MatchesSearchIffOccurs(students[k], query);
  }

  /** With the initial filters (empty query, all classes, all statuses) the
      list is shown whole and in order. */
  lemma InitialFiltersKeepEveryone(students: seq<Student>)
    ensures FilteredStudents(students, "", All, All) == students
  {
    forall k | 0 <= k < |students|
      ensures Keep(students[k], "", All, All)
    {
      IncludesEmpty(Lower(students[k].name));
    }
    FilterKeepsAll(students, (s: Student) => Keep(s, "", All, All));
  }

  const MockStudents: seq<Student> := [
    Student("1", "Rahul Sharma", "ST001", "10", "A", "+91 98765 43210", "active", "paid", "2023-04-15"),
    Student("2", "Priya Patel", "ST002", "9", "B", "+91 87654 32109", "active", "pending", "2023-03-20"),
    Student("3", "Amit Kumar", "ST003", "8", "A", "+91 76543 21098", "active", "overdue", "2023-05-10"),
    Student("4", "Sneha Reddy", "ST004", "7", "C", "+91 65432 10987", "active", "paid", "2023-02-28"),
    Student("5", "Arjun Singh", "ST005", "6", "B", "+91 54321 09876", "inactive", "pending", "2023-01-15")
  ]

  /** Class "8" selects exactly Amit Kumar (ST003) from the mock records. */
  lemma MockClassEight()
    ensures FilteredStudents(MockStudents, "", "8", All) == [MockStudents[2]]
  {
    var p := (s: Student) => Keep(s, "", "8", All);
    var m := MockStudents;
    IncludesEmpty(Lower(m[2].name));
    assert Filter(m[4..], p) == [];
    assert Filter(m[3..], p) == [];
    assert Filter(m[2..], p) == [m[2]];
    assert Filter(m[1..], p) == [m[2]];
  }

  /** The badge classes of a student's status. */
  function StatusColor(status: string): (badge: string)
    ensures badge == MutedBadge <==> status !in {"active", "inactive", "graduated"}
    ensures badge == SuccessBadge <==> status == "active"
    ensures badge == WarningBadge <==> status == "inactive"
    ensures badge == PrimaryBadge <==> status == "graduated"
  {
    match status
    case "active" => SuccessBadge
    case "inactive" => WarningBadge
    case "graduated" => PrimaryBadge
    case _ => MutedBadge
  }

  /** The badge classes of a student's fee status on this page. */
  function FeeStatusColor(status: string): (badge: string)
    ensures badge == MutedBadge <==> status !in {"paid", "pending", "overdue"}
    ensures badge == SuccessBadge <==> status == "paid"
    ensures badge == WarningBadge <==> status == "pending"
    ensures badge == DestructiveBadge <==> status == "overdue"
  {
    match status
    case "paid" => SuccessBadge
    case "pending" => WarningBadge
    case "overdue" => DestructiveBadge
    case _ => MutedBadge
  }

  /** The badge label: the first character upper-cased, the rest unchanged. */
  function Capitalize(s: string): (r: string)
    ensures |r| == |s|
    ensures s != [] ==> r[0] == UpperChar(s[0]) && r[1..] == s[1..]
  {
    if s == [] then [] else [UpperChar(s[0])] + s[1..]
  }

  /** Capitalising changes letter case only. */
  lemma CapitalizeChangesCaseOnly(s: string)
    ensures Lower(Capitalize(s)) == Lower(s)
  {
    if s != [] {
      LowerOfUpper(s[0]);
      assert Lower(Capitalize(s))[0] == Lower(s)[0];
    }
  }

  lemma StatusLabels()
    ensures Capitalize("active") == "Active"
    ensures Capitalize("inactive") == "Inactive"
    ensures Capitalize("graduated") == "Graduated"
  {
  }

  /** `n[0]` of a word, which `join` renders as nothing for an empty word. */
  function FirstLetter(word: string): string
  {
    if word == [] then "" else [word[0]]
  }

  function FirstLetters(words: seq<string>): string
  {
    if words == [] then "" else FirstLetter(words[0]) + FirstLetters(words[1..])
  }

  /** `name.split(' ').map(n => n[0]).join('')`. */
  function Initials(name: string): string
  {
    FirstLetters(Split(name, ' '))
  }

  /** Reference definition: the characters of `s` that start a word, that is
      that are not a space and follow a space or the start of the name. */
  function WordStarts(s: string, atStart: bool): string
  {
    if s == [] then ""
    else (if atStart && s[0] != ' ' then [s[0]] else "") + WordStarts(s[1..], s[0] == ' ')
  }

  /** The initials are the first character of every space-separated word. */
  lemma InitialsAreWordStarts(name: string)
    ensures Initials(name) == WordStarts(name, true)
  {
    WordStartsOfSplit(name);
  }

  lemma {:induction false} WordStartsOfSplit(s: string)
    ensures FirstLetters(Split(s, ' ')) == WordStarts(s, true)
    ensures FirstLetters(Split(s, ' ')[1..]) == WordStarts(s, false)
  {
    if s != [] {
      var rest := Split(s[1..], ' ');
      WordStartsOfSplit(s[1..]);
      if s[0] == ' ' {
        assert Split(s, ' ') == [""] + rest;
        assert Split(s, ' ')[1..] == rest;
      } else {
        var r := Split(s, ' ');
        assert r == [[s[0]] + rest[0]] + rest[1..];
        assert r[1..] == rest[1..];
      }
    }
  }

  lemma RahulSharmaInitials()
    ensures Initials("Rahul Sharma") == "RS"
  {
    var words := ["Rahul", "Sharma"];
    assert Join(words, ' ') == "Rahul Sharma";
    SplitJoin(words, ' ');
  }
}

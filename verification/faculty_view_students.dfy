/**
 * The student directory: each student joined with their records and
 * counters, the four filters, the grouping by department and the list of
 * departments offered in the filter.
 */
module FacultyViewStudents {
  import opened Wrappers
  import opened Types
  import opened Lists
  import Text
  import Views

  /** A student profile as the directory reads it: the document id as `uid`. */
  datatype StudentProfile = StudentProfile(uid: string, name: string, email: string, department: Option<string>)

  datatype StudentStats = StudentStats(total: nat, approved: nat, pending: nat, rejected: nat)

  datatype StudentWithStats = StudentWithStats(profile: StudentProfile, achievements: seq<Achievement>, stats: StudentStats)

  const Everything: string := "All"
  const Unassigned: string := "Unassigned"

  // ---------------------------------------------------------------- merge

  /** A record belongs to a student when its student id or its e-mail is the student's. */
  function Owns(p: StudentProfile): Achievement -> bool {
    (a: Achievement) => a.studentId == p.uid || a.studentEmail == p.email
  }

  /** The counters of one student's records. */
  function StatsOf(mine: seq<Achievement>): (st: StudentStats)
    ensures st.total == |mine|
    ensures st.approved == |Filter(mine, StatusIs(Approved))| && st.pending == |Filter(mine, StatusIs(Pending))|
    ensures st.rejected == |Filter(mine, StatusIs(Rejected))|
    ensures st.approved + st.pending + st.rejected == st.total
  {
    FilterThreeWay(mine, StatusIs(Approved), StatusIs(Pending), StatusIs(Rejected));
    StudentStats(
      |mine|, |Filter(mine, StatusIs(Approved))|, |Filter(mine, StatusIs(Pending))|,
      |Filter(mine, StatusIs(Rejected))|)
  }

  /** One entry of the merge in `loadData`. */
  function MergeOne(p: StudentProfile, all: seq<Achievement>): (s: StudentWithStats)
    ensures s.profile == p && s.stats == StatsOf(s.achievements)
    ensures forall a :: a in s.achievements <==> a in all && (a.studentId == p.uid || a.studentEmail == p.email)
    ensures Subsequence(s.achievements, all)
  {
    var mine := Filter(all, Owns(p));
    FilterMembers(all, Owns(p));
    FilterSubsequence(all, Owns(p));
    StudentWithStats(p, mine, StatsOf(mine))
  }

  /** The merge of `loadData`: every student, in order, with their records. */
  function Merge(students: seq<StudentProfile>, all: seq<Achievement>): (r: seq<StudentWithStats>)
    ensures |r| == |students|
    ensures forall i | 0 <= i < |r| :: r[i] == MergeOne(students[i], all)
  {
    if students == [] then [] else [MergeOne(students[0], all)] + Merge(students[1..], all)
  }

  // ---------------------------------------------------------------- filters

  /** The group a student is shown in: their department, or `Unassigned` when it is missing or empty. */
  function GroupKey(s: StudentWithStats): string {
    OrElse(s.profile.department, Unassigned)
  }

  function InGroup(dept: string): StudentWithStats -> bool {
    (s: StudentWithStats) => GroupKey(s) == dept
  }

  /** The directory's search: name, e-mail, or a non-empty uid. */
  function Hit(term: string): StudentWithStats -> bool {
    (s: StudentWithStats) => Views.Mentions(s.profile.name, term) || Views.Mentions(s.profile.email, term)
      || (s.profile.uid != "" && Views.Mentions(s.profile.uid, term))
  }

  /** One record matches the category and the status selections, `All` matching anything. */
  predicate RecordMatches(a: Achievement, category: string, status: string) {
    (category == Everything || a.category == category) && (status == Everything || a.status.Wire() == status)
  }

  function HasMatch(category: string, status: string): StudentWithStats -> bool {
    (s: StudentWithStats) => exists i | 0 <= i < |s.achievements| :: RecordMatches(s.achievements[i], category, status)
  }

  /** The department selection. */
  function ByDepartment(students: seq<StudentWithStats>, dept: string): (r: seq<StudentWithStats>)
    ensures forall s :: s in r <==> s in students && (dept == Everything || GroupKey(s) == dept)
    ensures Subsequence(r, students)
  {
    if dept == Everything then
      SubsequenceRefl(students);
      students
    else
      FilterMembers(students, InGroup(dept));
      FilterSubsequence(students, InGroup(dept));
      Filter(students, InGroup(dept))
  }

  /** The search box over students. */
  function BySearch(students: seq<StudentWithStats>, term: string): (r: seq<StudentWithStats>)
    ensures forall s :: s in r <==> s in students && (Text.AllSpace(term) || Hit(term)(s))
    ensures Subsequence(r, students)
  {
    Text.TrimEmptyIffBlank(term);
    if Text.Trim(term) == [] then
      SubsequenceRefl(students);
      students
    else
      FilterMembers(students, Hit(term));
      FilterSubsequence(students, Hit(term));
      Filter(students, Hit(term))
  }

  /**
   * The category and status selections: unless both are `All`, a student
   * stays when one of their records matches both.
   */
  function ByRecords(students: seq<StudentWithStats>, category: string, status: string): (r: seq<StudentWithStats>)
    ensures forall s :: s in r <==> s in students && ((category == Everything && status == Everything) || HasMatch(category, status)(s))
    ensures Subsequence(r, students)
  {
    if category != Everything || status != Everything then
      FilterMembers(students, HasMatch(category, status));
      FilterSubsequence(students, HasMatch(category, status));
      Filter(students, HasMatch(category, status))
    else
      SubsequenceRefl(students);
      students
  }

  /** `applyFilters`: department, then search, then category and status. */
  function ApplyFilters(students: seq<StudentWithStats>, dept: string, term: string, category: string, status: string)
    : (r: seq<StudentWithStats>)
    ensures forall s :: s in r <==> (s in students && (dept == Everything || GroupKey(s) == dept)
      && (Text.AllSpace(term) || Hit(term)(s))
      && ((category == Everything && status == Everything) || HasMatch(category, status)(s)))
    ensures Subsequence(r, students)
  {
    var a := ByDepartment(students, dept);
    var b := BySearch(a, term);
    var c := ByRecords(b, category, status);
    SubsequenceTrans(b, a, students);
    SubsequenceTrans(c, b, students);
    c
  }

  /** A student without records is listed only while both record selections are `All`. */
  lemma NoRecordsOnlyUnfiltered(s: StudentWithStats, category: string, status: string)
    requires s.achievements == []
    ensures s in ByRecords([s], category, status) <==> category == Everything && status == Everything
  {
  }

  // ---------------------------------------------------------------- the record list of one student

  function CategoryOk(category: string): Achievement -> bool {
    (a: Achievement) => category == Everything || a.category == category
  }

  function StatusOk(status: string): Achievement -> bool {
    (a: Achievement) => status == Everything || a.status.Wire() == status
  }

  /** The records listed for the selected student: category, then status, each with `All` as a wildcard. */
  function ModalList(achievements: seq<Achievement>, category: string, status: string): (r: seq<Achievement>)
    ensures forall a :: a in r <==> a in achievements && RecordMatches(a, category, status)
    ensures Subsequence(r, achievements)
  {
    var byCategory := Filter(achievements, CategoryOk(category));
    FilterMembers(achievements, CategoryOk(category));
    FilterMembers(byCategory, StatusOk(status));
    FilterSubsequence(achievements, CategoryOk(category));
    FilterSubsequence(byCategory, StatusOk(status));
    SubsequenceTrans(Filter(byCategory, StatusOk(status)), byCategory, achievements);
    Filter(byCategory, StatusOk(status))
  }

  /** Both selections at `All` list every record of the student. */
  lemma ModalUnfiltered(achievements: seq<Achievement>)
    ensures ModalList(achievements, Everything, Everything) == achievements
  {
    FilterAll(achievements, CategoryOk(Everything));
    FilterAll(achievements, StatusOk(Everything));
  }

  /**
   * The directory and the record list agree: a student kept by a category or
   * status selection has a non-empty record list under the same selection.
   */
  lemma KeptStudentsShowRecords(s: StudentWithStats, category: string, status: string)
    requires category != Everything || status != Everything
    ensures HasMatch(category, status)(s) <==> ModalList(s.achievements, category, status) != []
  {
    var r := ModalList(s.achievements, category, status);
    if HasMatch(category, status)(s) {
      var i :| 0 <= i < |s.achievements| && RecordMatches(s.achievements[i], category, status);
      assert s.achievements[i] in r;
    }
    if r != [] {
      assert r[0] in s.achievements;
    }
  }

  // ---------------------------------------------------------------- grouping

  /** The `reduce` that groups the filtered students: each is pushed onto its group's list. */
  function Group(students: seq<StudentWithStats>): (g: map<string, seq<StudentWithStats>>)
    decreases |students|
  {
    if students == [] then map[]
    else
      var prior := Group(students[..|students| - 1]);
      var last := students[|students| - 1];
      var k := GroupKey(last);
      prior[k := (if k in prior then prior[k] else []) + [last]]
  }

  /**
   * Each group lists exactly the students with that key, in their order, and
   * there is a group for every key that occurs; so every student is in
   * exactly one group.
   */
  lemma {:induction false} GroupIsFilter(students: seq<StudentWithStats>)
    ensures forall k | k in Group(students) :: Group(students)[k] == Filter(students, InGroup(k))
    ensures forall k :: k in Group(students) <==> exists i | 0 <= i < |students| :: GroupKey(students[i]) == k
    decreases |students|
  {
    if students != [] {
      var prefix := students[..|students| - 1];
      var last := students[|students| - 1];
      assert students == prefix + [last];
      GroupIsFilter(prefix);
      var prior := Group(prefix);
      var g := Group(students);
      forall k | k in g ensures g[k] == Filter(students, InGroup(k)) {
        FilterAppend(prefix, [last], InGroup(k));
        if k != GroupKey(last) {
          assert Filter([last], InGroup(k)) == [];
        } else {
          assert Filter([last], InGroup(k)) == [last];
          if k !in prior {
            FilterNone(prefix, k);
          }
        }
      }
      forall k ensures k in g <==> exists i | 0 <= i < |students| :: GroupKey(students[i]) == k {
        if k in prior {
          var i :| 0 <= i < |prefix| && GroupKey(prefix[i]) == k;
          assert students[i] == prefix[i];
        }
        if exists i | 0 <= i < |students| :: GroupKey(students[i]) == k {
          var i :| 0 <= i < |students| && GroupKey(students[i]) == k;
          if i < |prefix| {
            assert prefix[i] == students[i];
          }
        }
      }
    }
  }

  lemma {:induction false} FilterNone(students: seq<StudentWithStats>, k: string)
    requires forall i | 0 <= i < |students| :: GroupKey(students[i]) != k
    ensures Filter(students, InGroup(k)) == []
  {
    if students != [] {
      FilterNone(students[1..], k);
    }
  }

  /** Every student sits in the group of their key and in no other. */
  lemma StudentInOneGroup(students: seq<StudentWithStats>, s: StudentWithStats, k: string)
    requires s in students
    ensures GroupKey(s) in Group(students) && s in Group(students)[GroupKey(s)]
    ensures k in Group(students) && k != GroupKey(s) ==> s !in Group(students)[k]
  {
    GroupIsFilter(students);
    var i :| 0 <= i < |students| && students[i] == s;
    FilterMembers(students, InGroup(GroupKey(s)));
    FilterMembers(students, InGroup(k));
  }

  // ---------------------------------------------------------------- departments offered

  /** Strictly increasing: sorted and without repetitions. */
  predicate Increasing(s: seq<string>) {
    forall i, j | 0 <= i < j < |s| :: Text.Less(s[i], s[j])
  }

  /** Put `x` into an increasing list, unless it is already there. */
  function InsertUnique(x: string, s: seq<string>): (r: seq<string>)
    requires Increasing(s)
    ensures Increasing(r)
    ensures forall y :: y in r <==> y == x || y in s
  {
    if s == [] then [x]
    else if x == s[0] then s
    else if Text.Less(x, s[0]) then
      forall j | 0 < j < |s| ensures Text.Less(x, s[j]) {
        Text.LessTransitive(x, s[0], s[j]);
      }
      [x] + s
    else
      Text.LessTotal(x, s[0]);
      var rest := InsertUnique(x, s[1..]);
      assert forall j | 0 <= j < |rest| :: Text.Less(s[0], rest[j]) by {
        forall j | 0 <= j < |rest| ensures Text.Less(s[0], rest[j]) {
          assert rest[j] in rest;
        }
      }
      [s[0]] + rest
  }

  /** `Array.from(new Set(students.map(key))).sort()`. */
  function Departments(students: seq<StudentWithStats>): (r: seq<string>)
    ensures Increasing(r)
    ensures forall k :: k in r <==> exists i | 0 <= i < |students| :: GroupKey(students[i]) == k
    decreases |students|
  {
    if students == [] then []
    else
      var prefix := students[..|students| - 1];
      var r := InsertUnique(GroupKey(students[|students| - 1]), Departments(prefix));
      assert forall i | 0 <= i < |prefix| :: prefix[i] == students[i];
      r
  }

  /** The departments offered are exactly the groups the directory can show. */
  lemma DepartmentsAreGroups(students: seq<StudentWithStats>)
    ensures forall k :: k in Departments(students) <==> k in Group(students)
  {
    GroupIsFilter(students);
  }

  /** The keys of the grouping are the group keys of the students. */
  lemma GroupKeys(students: seq<StudentWithStats>)
    ensures forall k :: k in Group(students) <==> exists i | 0 <= i < |students| :: GroupKey(students[i]) == k
  {
    GroupIsFilter(students);
  }

  /** Grouping some of the students gives only groups whose department is offered for all of them. */
  lemma GroupsOfSomeAreOffered(some: seq<StudentWithStats>, students: seq<StudentWithStats>)
    requires forall s | s in some :: s in students
    ensures forall k | k in Group(some) :: k in Departments(students)
  {
    GroupKeys(some);
    forall k | k in Group(some) ensures k in Departments(students) {
      var i :| 0 <= i < |some| && GroupKey(some[i]) == k;
      assert some[i] in students;
      var j :| 0 <= j < |students| && students[j] == some[i];
    }
  }

  /**
   * The screen groups the filtered students but offers the departments of
   * all students: every group shown is an offered department.
   */
  lemma ShownGroupsAreOffered(students: seq<StudentWithStats>, dept: string, term: string, category: string, status: string)
    ensures forall k | k in Group(ApplyFilters(students, dept, term, category, status)) :: k in Departments(students)
  {
    GroupsOfSomeAreOffered(ApplyFilters(students, dept, term, category, status), students);
  }

  /** With no filter set, the groups shown are exactly the departments offered. */
  lemma UnfilteredGroupsAreOffered(students: seq<StudentWithStats>, term: string)
    requires Text.AllSpace(term)
    ensures forall k :: k in Group(ApplyFilters(students, Everything, term, Everything, Everything)) <==> k in Departments(students)
  {
    var filtered := ApplyFilters(students, Everything, term, Everything, Everything);
    assert forall s | s in students :: s in filtered;
    GroupsOfSomeAreOffered(filtered, students);
    GroupsOfSomeAreOffered(students, filtered);
    DepartmentsAreGroups(filtered);
  }

  /** No department is offered twice. */
  lemma DepartmentsDistinct(students: seq<StudentWithStats>, i: nat, j: nat)
    requires i < j < |Departments(students)|
    ensures Departments(students)[i] != Departments(students)[j]
  {
    Text.LessIrreflexive(Departments(students)[i]);
  }
}

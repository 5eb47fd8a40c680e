/**
 * The list transforms the review screens share: the status tab, the
 * case-insensitive search, and the ordering by submission time.
 */
module Views {
  import opened Wrappers
  import opened Types
  import opened Lists
  import Text

  /** A status tab: every record, or one status. */
  datatype StatusFilter = AllStatuses | Only(status: AchievementStatus)

  function Passes(f: StatusFilter): Achievement -> bool {
    (a: Achievement) => f.AllStatuses? || a.status == f.status
  }

  /** The status tab: `all` keeps the list as it is, a status keeps its records in their order. */
  function ByStatus(s: seq<Achievement>, f: StatusFilter): (r: seq<Achievement>)
    ensures f.AllStatuses? ==> r == s
    ensures forall a :: a in r <==> a in s && (f.AllStatuses? || a.status == f.status)
    ensures Subsequence(r, s)
  {
    if f.AllStatuses? then
      SubsequenceRefl(s);
      s
    else
      FilterMembers(s, Passes(f));
      FilterSubsequence(s, Passes(f));
      Filter(s, Passes(f))
  }

  /** `field.toLowerCase().includes(term.toLowerCase())`. */
  predicate Mentions(field: string, term: string) {
    Text.Contains(Text.ToLower(field), Text.ToLower(term))
  }

  /** `(studentDepartment || department || '')`: the department a record is shown under. */
  function DepartmentText(a: Achievement): string {
    OrElse(Or(a.studentDepartment, a.department), "")
  }

  /**
   * The search box: a blank term keeps the list as it is; otherwise the
   * records `hit` accepts are kept, in their order.
   */
  function Search(s: seq<Achievement>, term: string, hit: Achievement -> bool): (r: seq<Achievement>)
    ensures Text.AllSpace(term) ==> r == s
    ensures !Text.AllSpace(term) ==> forall a :: a in r <==> a in s && hit(a)
    ensures Subsequence(r, s)
  {
    Text.TrimEmptyIffBlank(term);
    if Text.Trim(term) == [] then
      SubsequenceRefl(s);
      s
    else
      FilterMembers(s, hit);
      FilterSubsequence(s, hit);
      Filter(s, hit)
  }

  /** The sort order control: newest (descending) or oldest (ascending) submission first. */
  function BySubmission(s: seq<Achievement>, newest: bool): (r: seq<Achievement>)
    ensures multiset(r) == multiset(s)
    ensures forall i, j | 0 <= i < j < |r| :: if newest then r[i].submittedAt >= r[j].submittedAt else r[i].submittedAt <= r[j].submittedAt
  {
    var r := SortBy(s, SubmittedAt, newest);
    assert SortedBy(r, SubmittedAt, newest);
    r
  }

  /** The status tab and a search give the same records in either order. */
  lemma StatusAndSearchCommute(s: seq<Achievement>, f: StatusFilter, term: string, hit: Achievement -> bool)
    ensures ByStatus(Search(s, term, hit), f) == Search(ByStatus(s, f), term, hit)
  {
    if !f.AllStatuses? && !Text.AllSpace(term) {
      Text.TrimEmptyIffBlank(term);
      FilterCommutes(s, Passes(f), hit);
    }
  }

  /** Searching is case-insensitive: the term's case does not matter. */
  lemma MentionsIgnoresCase(field: string, term: string)
    ensures Mentions(field, term) <==> Mentions(field, Text.ToLower(term))
  {
    Text.ToLowerIdempotent(term);
  }
}

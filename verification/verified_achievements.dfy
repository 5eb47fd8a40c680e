/**
 * The screen listing decided records: which records it loads, its search
 * (which also looks at the title) and the status colour and icon.
 */
module VerifiedAchievements {
  import opened Wrappers
  import opened Types
  import opened Lists
  import Text
  import Views

  /**
   * The load filter: only decided records, and a record is hidden for its
   * department only when both the viewer's department and the record's
   * student department are non-empty and differ.
   */
  function Shown(userDept: Option<string>): Achievement -> bool {
    (a: Achievement) => a.status != Pending
      && !(Truthy(userDept) && Truthy(a.studentDepartment) && a.studentDepartment != userDept)
  }

  /** `loadVerifiedAchievements` over the result of `getAllAchievements`. */
  function LoadList(all: seq<Achievement>, userDept: Option<string>): (r: seq<Achievement>)
    ensures forall a | a in r :: a.status == Approved || a.status == Rejected
    ensures forall a | a in all && a.status != Pending && !Truthy(a.studentDepartment) :: a in r
    ensures forall a | a in all && a.status != Pending && !Truthy(userDept) :: a in r
    ensures forall a | a in r && Truthy(userDept) && Truthy(a.studentDepartment) :: a.studentDepartment == userDept
    ensures forall a :: a in r <==> (a in all && a.status != Pending
      && (!Truthy(userDept) || !Truthy(a.studentDepartment) || a.studentDepartment == userDept))
    ensures Subsequence(r, all)
  {
    FilterMembers(all, Shown(userDept));
    FilterSubsequence(all, Shown(userDept));
    Filter(all, Shown(userDept))
  }

  /** The search of this screen: student name, e-mail, department or title. */
  function Hit(term: string): Achievement -> bool {
    (a: Achievement) => Views.Mentions(a.studentName, term) || Views.Mentions(a.studentEmail, term)
      || Views.Mentions(Views.DepartmentText(a), term) || Views.Mentions(a.title, term)
  }

  /** `getFilteredAndSortedAchievements`: the status tab, the search, then the order. */
  function Visible(achievements: seq<Achievement>, tab: Views.StatusFilter, term: string, newest: bool): (r: seq<Achievement>)
    ensures forall a :: a in r <==> a in achievements && Views.Passes(tab)(a) && (Text.AllSpace(term) || Hit(term)(a))
    ensures tab.AllStatuses? && Text.AllSpace(term) ==> multiset(r) == multiset(achievements)
    ensures forall i, j | 0 <= i < j < |r| :: if newest then r[i].submittedAt >= r[j].submittedAt else r[i].submittedAt <= r[j].submittedAt
  {
    var found := Views.Search(Views.ByStatus(achievements, tab), term, Hit(term));
    var r := Views.BySubmission(found, newest);
    SameMembers(r, found);
    r
  }

  const ApprovedColor: string := "bg-green-100 text-green-800 border-green-300"
  const RejectedColor: string := "bg-red-100 text-red-800 border-red-300"
  const DefaultColor: string := "bg-gray-100 text-gray-800 border-gray-300"

  /** `getStatusColor`, a switch on the status text. */
  function StatusColor(status: string): (c: string)
    ensures status != Approved.Wire() && status != Rejected.Wire() ==> c == DefaultColor
    ensures c == DefaultColor || c == ApprovedColor || c == RejectedColor
  {
    if status == Approved.Wire() then ApprovedColor
    else if status == Rejected.Wire() then RejectedColor
    else DefaultColor
  }

  /** `getStatusIcon`; the three icon texts are kept as the file spells them. */
  function StatusIcon(status: string): (icon: string)
    ensures status != Approved.Wire() && status != Rejected.Wire() ==> icon == "\U{F8FF}\U{FC}\U{EC}\U{E3}"
  {
    if status == Approved.Wire() then "\U{201A}\U{FA}\U{D6}"
    else if status == Rejected.Wire() then "\U{201A}\U{F9}\U{E5}"
    else "\U{F8FF}\U{FC}\U{EC}\U{E3}"
  }

  /** The three statuses get three different colours and three different icons; a pending record gets the default. */
  lemma StatusStylesDistinct()
    ensures StatusColor(Approved.Wire()) != StatusColor(Rejected.Wire())
    ensures StatusColor(Pending.Wire()) == DefaultColor && StatusColor(Approved.Wire()) != DefaultColor
    ensures StatusIcon(Approved.Wire()) != StatusIcon(Rejected.Wire()) && StatusIcon(Approved.Wire()) != StatusIcon(Pending.Wire())
  {
  }
}

/**
 * The faculty review screen: which records it loads, how it searches and
 * orders them, the tab counts, and the approve / reject actions behind the
 * department gate.
 */
module FacultyVerification {
  import opened Wrappers
  import opened Types
  import opened Lists
  import Text
  import Views
  import AchievementService
  import NotificationService

  // ---------------------------------------------------------------- loading

  function InDepartment(dept: string): Achievement -> bool {
    (a: Achievement) => a.studentDepartment == Some(dept) || a.department == Some(dept)
  }

  /**
   * `loadPendingAchievements` over the result of `getAllAchievements`: a
   * faculty member with a department sees the records where either
   * department field equals it; without one, every record. Then the tab.
   */
  function LoadList(all: seq<Achievement>, userDept: Option<string>, tab: Views.StatusFilter): (r: seq<Achievement>)
    ensures Truthy(userDept) ==> forall a :: a in r <==>
      a in all && (a.studentDepartment == userDept || a.department == userDept) && Views.Passes(tab)(a)
    ensures !Truthy(userDept) ==> r == Views.ByStatus(all, tab)
    ensures Subsequence(r, all)
  {
    if Truthy(userDept) then
      var mine := Filter(all, InDepartment(userDept.value));
      FilterMembers(all, InDepartment(userDept.value));
      FilterSubsequence(all, InDepartment(userDept.value));
      var r := Views.ByStatus(mine, tab);
      SubsequenceTrans(r, mine, all);
      r
    else
      Views.ByStatus(all, tab)
  }

  // ---------------------------------------------------------------- searching and ordering

  /** The search of this screen: student name, e-mail or department. */
  function Hit(term: string): Achievement -> bool {
    (a: Achievement) => Views.Mentions(a.studentName, term) || Views.Mentions(a.studentEmail, term)
      || Views.Mentions(Views.DepartmentText(a), term)
  }

  /** `getFilteredAndSortedAchievements`: search, then order by submission time. */
  function Visible(achievements: seq<Achievement>, term: string, newest: bool): (r: seq<Achievement>)
    ensures Text.AllSpace(term) ==> multiset(r) == multiset(achievements)
    ensures forall a :: a in r <==> a in achievements && (Text.AllSpace(term) || Hit(term)(a))
    ensures forall i, j | 0 <= i < j < |r| :: if newest then r[i].submittedAt >= r[j].submittedAt else r[i].submittedAt <= r[j].submittedAt
  {
    var found := Views.Search(achievements, term, Hit(term));
    var r := Views.BySubmission(found, newest);
    SameMembers(r, found);
    r
  }

  // ---------------------------------------------------------------- tab counts

  datatype TabCounts = TabCounts(pending: nat, approved: nat, rejected: nat, all: nat)

  /** The numbers on the four tabs, counted over the loaded list. */
  function Counts(achievements: seq<Achievement>): (c: TabCounts)
    ensures c.pending == |Filter(achievements, StatusIs(Pending))|
    ensures c.approved == |Filter(achievements, StatusIs(Approved))|
    ensures c.rejected == |Filter(achievements, StatusIs(Rejected))|
    ensures c.pending + c.approved + c.rejected == c.all == |achievements|
  {
    FilterThreeWay(achievements, StatusIs(Pending), StatusIs(Approved), StatusIs(Rejected));
    TabCounts(
      |Filter(achievements, StatusIs(Pending))|, |Filter(achievements, StatusIs(Approved))|,
      |Filter(achievements, StatusIs(Rejected))|, |achievements|)
  }

  /** A tab's count is the length of the list that tab shows. */
  lemma TabCountIsTabLength(achievements: seq<Achievement>, st: AchievementStatus)
    ensures |Views.ByStatus(achievements, Views.Only(st))| == match st
      case Pending => Counts(achievements).pending
      case Approved => Counts(achievements).approved
      case Rejected => Counts(achievements).rejected
  {
    FilterSamePredicate(achievements, Views.Passes(Views.Only(st)), StatusIs(st));
  }

  // ---------------------------------------------------------------- the department gate

  /**
   * The gate: the verifier's department must equal the record's
   * `studentDepartment || department`, compared with `!==`. A missing or
   * empty student department falls back to `department`.
   */
  predicate GateOpen(user: User, a: Achievement) {
    user.department == Or(a.studentDepartment, a.department)
  }

  /**
   * What the gate lets through besides a matching department: a verifier
   * without a department may decide on a record that has none either.
   */
  lemma GateWithoutDepartments(user: User, a: Achievement)
    ensures user.department.None? && a.department.None? && !Truthy(a.studentDepartment) ==> GateOpen(user, a)
    ensures Truthy(a.studentDepartment) ==> (GateOpen(user, a) <==> user.department == a.studentDepartment)
  {
  }

  // ---------------------------------------------------------------- approve and reject

  datatype Decision = Approve | Reject

  function DecidedStatus(d: Decision): AchievementStatus {
    match d
    case Approve => Approved
    case Reject => Rejected
  }

  const DefaultRejectRemark: string := "Rejected by faculty"

  /** The remarks written: reject substitutes its default for empty remarks, approve writes them as typed. */
  function WrittenRemarks(d: Decision, remarks: string): (r: string)
    ensures d == Approve ==> r == remarks
    ensures d == Reject ==> r != "" && (remarks != "" ==> r == remarks)
  {
    if d == Reject && remarks == "" then DefaultRejectRemark else remarks
  }

  /** The first text passed to `createNotification`, which it stores as the notification's type. */
  function DecisionText(d: Decision, a: Achievement, user: User, remarks: string): string {
    match d
    case Approve =>
      "\U{1F389} Your achievement \"" + a.title + "\" has been APPROVED by " + user.name
      + " (" + Template(user.department) + ")!"
    case Reject =>
      "\U{26A0}\U{FE0F} Your achievement \"" + a.title + "\" has been REJECTED by " + user.name
      + " (" + Template(user.department) + "). Remarks: " + remarks
  }

  /** The second text passed, which it stores as the title. */
  function DecisionTitle(d: Decision): string {
    match d
    case Approve => "approval"
    case Reject => "rejection"
  }

  function Refusal(d: Decision): string {
    match d
    case Approve => "\U{274C} Cannot approve: Student is from a different department!"
    case Reject => "\U{274C} Cannot reject: Student is from a different department!"
  }

  function Success(d: Decision): string {
    match d
    case Approve => "\U{2713} Achievement approved!"
    case Reject => "\U{2713} Achievement rejected!"
  }

  /**
   * The notification a decision creates, with the arguments in the order
   * the screen passes them: the message text lands in `type`, the word
   * `approval` / `rejection` in `title`, the record id in `message`, and no
   * related achievement is given.
   */
  function DecisionNotification(id: Id, d: Decision, a: Achievement, user: User, remarks: string, now: int): (n: Notification)
    ensures n.userId == a.studentId && n.title == DecisionTitle(d) && n.message == IdText(a.id)
    ensures n.actionUrl == "" && n.relatedAchievementId == "" && !n.isRead
  {
    NotificationService.NewNotification(id, a.studentId, DecisionText(d, a, user, remarks), DecisionTitle(d), IdText(a.id), None, None, now)
  }

  /** The student's notification of a decision, as the screens pass its arguments. */
  method Notify(
    notes: NotificationService.NotificationStore, d: Decision, a: Achievement, user: User, remarks: string,
    now: int, fail: bool) returns (r: Result<Id, string>)
    requires notes.Valid()
    modifies notes
    ensures notes.Valid()
    ensures r.Ok? <==> !fail
    ensures r.Ok? ==> notes.docs == old(notes.docs)[old(notes.nextId) := DecisionNotification(old(notes.nextId), d, a, user, remarks, now)]
    ensures r.Err? ==> notes.docs == old(notes.docs) && notes.nextId == old(notes.nextId)
  {
    r := notes.CreateNotification(a.studentId, DecisionText(d, a, user, remarks), DecisionTitle(d), IdText(a.id), None, None, now, fail);
  }

  /** The screen's state: the loaded list, the open record, the remarks box and the toasts shown. */
  class Screen {
    var achievements: seq<Achievement>
    var tab: Views.StatusFilter
    var selected: Option<Achievement>
    var remarks: string
    var toasts: seq<string>

    constructor (tab: Views.StatusFilter)
      ensures achievements == [] && this.tab == tab && selected == None && remarks == "" && toasts == []
    {
      achievements := [];
      this.tab := tab;
      selected := None;
      remarks := "";
      toasts := [];
    }

    /** The end of a decision that went through: the success toast, a cleared selection, the reloaded list. */
    method Finish(d: Decision, u: User, store: AchievementService.AchievementStore, readFail: bool)
      modifies this
      ensures selected == None && remarks == "" && toasts == old(toasts) + [Success(d)]
      ensures achievements == LoadList(AchievementService.GetAllAchievements(store.Listing(), readFail), u.department, tab)
      ensures tab == old(tab)
    {
      toasts := toasts + [Success(d)];
      selected := None;
      remarks := "";
      achievements := LoadList(AchievementService.GetAllAchievements(store.Listing(), readFail), u.department, tab);
    }

    /**
     * `handleApprove` / `handleReject`. Nothing happens without a selected
     * record and a user; a closed gate only shows a toast. Otherwise the
     * review is written, then the student is notified, then the screen is
     * reset and reloaded. A failing step stops the later ones and undoes
     * none of the earlier ones.
     */
    method Decide(
      d: Decision, user: Option<User>, store: AchievementService.AchievementStore,
      notes: NotificationService.NotificationStore, now: int, updateFail: bool, notifyFail: bool, readFail: bool)
      requires store.Valid() && notes.Valid()
      modifies this, store, notes
      ensures store.Valid() && notes.Valid() && store.nextId == old(store.nextId)
      ensures tab == old(tab)
      ensures old(selected).None? || user.None? ==>
        store.docs == old(store.docs) && notes.docs == old(notes.docs) && notes.nextId == old(notes.nextId)
        && toasts == old(toasts) && selected == old(selected) && remarks == old(remarks) && achievements == old(achievements)
      ensures old(selected).Some? && user.Some? && !GateOpen(user.value, old(selected).value) ==>
        store.docs == old(store.docs) && notes.docs == old(notes.docs) && notes.nextId == old(notes.nextId)
        && toasts == old(toasts) + [Refusal(d)] && selected == old(selected) && remarks == old(remarks)
        && achievements == old(achievements)
      ensures old(selected).Some? && user.Some? && GateOpen(user.value, old(selected).value) ==>
        var a, u := old(selected).value, user.value;
        var written := !updateFail && a.id in old(store.docs);
        store.docs == (if written then old(store.docs)[a.id := AchievementService.WithReview(
          old(store.docs)[a.id], DecidedStatus(d), WrittenRemarks(d, old(remarks)), u.id, u.name, now)] else old(store.docs))
        && notes.docs == (if written && !notifyFail then old(notes.docs)[old(notes.nextId) :=
          DecisionNotification(old(notes.nextId), d, a, u, old(remarks), now)] else old(notes.docs))
        && (written && !notifyFail <==> selected == None)
        && (written && !notifyFail ==> (remarks == "" && toasts == old(toasts) + [Success(d)]
          && achievements == LoadList(AchievementService.GetAllAchievements(store.Listing(), readFail), u.department, tab)))
        && (!(written && !notifyFail) ==> (selected == old(selected) && remarks == old(remarks)
          && achievements == old(achievements) && |toasts| == |old(toasts)| + 1 && toasts[..|old(toasts)|] == old(toasts)))
    {
      if selected.None? || user.None? {
        return;
      }
      var a, u := selected.value, user.value;
      if !GateOpen(u, a) {
        toasts := toasts + [Refusal(d)];
        return;
      }
      var r := store.UpdateAchievementStatus(a.id, DecidedStatus(d), WrittenRemarks(d, remarks), u.id, u.name, now, updateFail);
      if r.Err? {
        toasts := toasts + [r.error];
        return;
      }
      var n := Notify(notes, d, a, u, remarks, now, notifyFail);
      if n.Err? {
        toasts := toasts + [n.error];
        return;
      }
      Finish(d, u, store, readFail);
    }
  }

  /**
   * The approval message says `APPROVED` in capitals, so the only way it can
   * contain `approved`, the word that makes a notification high priority,
   * is through the title, the verifier's name or department; when none of
   * them has a `p`, the approval notification has normal priority.
   */
  lemma ApprovalIsNormalPriority(id: Id, a: Achievement, user: User, now: int)
    requires 'p' !in a.title && 'p' !in user.name && 'p' !in Template(user.department)
    ensures DecisionNotification(id, Approve, a, user, "", now).priority == Normal
  {
    var text := DecisionText(Approve, a, user, "");
    assert 'p' !in "\U{1F389} Your achievement \"" && 'p' !in "\" has been APPROVED by " && 'p' !in " (" && 'p' !in ")!";
    assert 'p' !in text;
    Text.NotContainedAt(text, "approved", 1);
  }
}

/**
 * The admin service: the `categories` collection and the dashboard counters.
 */
module AdminService {
  import opened Wrappers
  import opened Types
  import opened Lists

  const DefaultIcon: string := "certificate"
  const DefaultColor: string := "#3b82f6"

  /** The document `addCategory` adds under `id`. */
  function NewCategory(id: Id, name: string, slug: string, description: string, order: int, now: int): (c: Category)
    ensures c.isActive && c.icon == DefaultIcon && c.color == DefaultColor
    ensures c.id == id && c.name == name && c.slug == slug && c.description == description
    ensures c.order == order && c.createdAt == c.updatedAt == now
  {
    Category(id, name, slug, description, DefaultIcon, DefaultColor, order, true, now, now)
  }

  class CategoryStore {
    var docs: map<Id, Category>
    var nextId: Id

    ghost predicate Valid()
      reads this
    {
      forall k | k in docs :: k < nextId && docs[k].id == k
    }

    constructor ()
      ensures Valid() && docs == map[] && nextId == 0
    {
      docs := map[];
      nextId := 0;
    }

    function Listing(): seq<Category>
      reads this
    {
      Values(docs, nextId)
    }

    /** `getCategories`: a failed read is swallowed and reported as an empty list. */
    method GetCategories(fail: bool) returns (r: seq<Category>)
      ensures fail ==> r == []
      ensures !fail ==> r == Listing()
    {
      if fail {
        return [];
      }
      return Values(docs, nextId);
    }

    /** `addCategory(name, slug, description, order = 0)`. */
    method AddCategory(name: string, slug: string, description: string, now: int, fail: bool, order: int := 0)
      returns (r: Result<Id, string>)
      requires Valid()
      modifies this
      ensures Valid()
      ensures r.Ok? <==> !fail
      ensures r.Ok? ==> r.value == old(nextId) && r.value !in old(docs) && nextId == old(nextId) + 1
      ensures r.Ok? ==> docs == old(docs)[r.value := NewCategory(r.value, name, slug, description, order, now)]
      ensures r.Err? ==> docs == old(docs) && nextId == old(nextId)
    {
      if fail {
        return Err("firestore/unavailable");
      }
      var id := nextId;
      docs := docs[id := NewCategory(id, name, slug, description, order, now)];
      nextId := nextId + 1;
      return Ok(id);
    }

    /** `updateCategory`: changes only the name, the description and the update time. */
    method UpdateCategory(categoryId: Id, name: string, description: string, now: int, fail: bool)
      returns (r: Result<(), string>)
      requires Valid()
      modifies this
      ensures Valid() && nextId == old(nextId)
      ensures r.Ok? <==> !fail && categoryId in old(docs)
      ensures r.Ok? ==> docs == old(docs)[categoryId := old(docs)[categoryId].(name := name, description := description, updatedAt := now)]
      ensures r.Err? ==> docs == old(docs)
    {
      if fail {
        return Err("firestore/unavailable");
      }
      if categoryId !in docs {
        return Err("not-found");
      }
      docs := docs[categoryId := docs[categoryId].(name := name, description := description, updatedAt := now)];
      return Ok(());
    }

    /** `deleteCategory`: removes only that id. */
    method DeleteCategory(categoryId: Id, fail: bool) returns (r: Result<(), string>)
      requires Valid()
      modifies this
      ensures Valid() && nextId == old(nextId)
      ensures r.Ok? <==> !fail
      ensures docs == if r.Ok? then old(docs) - {categoryId} else old(docs)
    {
      if fail {
        return Err("firestore/unavailable");
      }
      docs := docs - {categoryId};
      return Ok(());
    }
  }

  // ---------------------------------------------------------------- dashboard

  function RoleIs(role: UserRole): UserDoc -> bool {
    (u: UserDoc) => u.role == Some(role.Wire())
  }

  /**
   * `getDashboardStats` over a read of the achievements and of the users; a
   * failure of either read gives all six counters as 0.
   */
  function GetDashboardStats(achievements: seq<Achievement>, users: seq<UserDoc>, fail: bool): (s: DashboardStats)
    ensures fail ==> s == DashboardStats(0, 0, 0, 0, 0, 0)
    ensures !fail ==> s.totalAchievements == |achievements|
    ensures !fail ==> s.approvedAchievements + s.pendingAchievements + s.rejectedAchievements == s.totalAchievements
    ensures !fail ==> s.totalStudents + s.totalFaculty <= |users|
    ensures !fail ==> (s.approvedAchievements == |Filter(achievements, StatusIs(Approved))|
      && s.pendingAchievements == |Filter(achievements, StatusIs(Pending))|
      && s.rejectedAchievements == |Filter(achievements, StatusIs(Rejected))|)
    ensures !fail ==> (s.totalStudents == |Filter(users, RoleIs(Student))|
      && s.totalFaculty == |Filter(users, RoleIs(Faculty))|)
  {
    if fail then DashboardStats(0, 0, 0, 0, 0, 0)
    else
      FilterThreeWay(achievements, StatusIs(Approved), StatusIs(Pending), StatusIs(Rejected));
      FilterDisjoint(users, RoleIs(Student), RoleIs(Faculty));
      DashboardStats(
        |achievements|,
        |Filter(achievements, StatusIs(Approved))|,
        |Filter(achievements, StatusIs(Pending))|,
        |Filter(achievements, StatusIs(Rejected))|,
        |Filter(users, RoleIs(Student))|,
        |Filter(users, RoleIs(Faculty))|)
  }

  /**
   * The reads come back in no particular order; the six counters depend only
   * on which documents were read, not on their order.
   */
  lemma DashboardOrderFree(a: seq<Achievement>, b: seq<Achievement>, u: seq<UserDoc>, v: seq<UserDoc>)
    requires multiset(a) == multiset(b) && multiset(u) == multiset(v)
    ensures GetDashboardStats(a, u, false) == GetDashboardStats(b, v, false)
  {
    assert |a| == |multiset(a)| == |multiset(b)| == |b|;
    FilterPermutation(a, b, StatusIs(Approved));
    FilterPermutation(a, b, StatusIs(Pending));
    FilterPermutation(a, b, StatusIs(Rejected));
    FilterPermutation(u, v, RoleIs(Student));
    FilterPermutation(u, v, RoleIs(Faculty));
  }

  /** Approving a pending record moves one unit from the pending counter to the approved one. */
  lemma {:induction false} ApprovalMovesCount(s: seq<Achievement>, i: nat, approved: Achievement, users: seq<UserDoc>)
    requires i < |s| && s[i].status == Pending && approved.status == Approved
    ensures var before, after := GetDashboardStats(s, users, false), GetDashboardStats(s[i := approved], users, false);
      after.pendingAchievements == before.pendingAchievements - 1
      && after.approvedAchievements == before.approvedAchievements + 1
      && after.rejectedAchievements == before.rejectedAchievements
  {
    var t := s[i := approved];
    var pre, post := s[..i], s[i + 1..];
    assert s == pre + [s[i]] + post;
    assert t == pre + [approved] + post;
    forall st: AchievementStatus
      ensures |Filter(t, StatusIs(st))| + |Filter([s[i]], StatusIs(st))| == |Filter(s, StatusIs(st))| + |Filter([approved], StatusIs(st))|
    {
      FilterAppend(pre + [s[i]], post, StatusIs(st));
      FilterAppend(pre, [s[i]], StatusIs(st));
      FilterAppend(pre + [approved], post, StatusIs(st));
      FilterAppend(pre, [approved], StatusIs(st));
    }
    assert Filter([s[i]], StatusIs(Pending)) == [s[i]];
    assert Filter([approved], StatusIs(Pending)) == [];
    assert Filter([s[i]], StatusIs(Approved)) == [];
    assert Filter([approved], StatusIs(Approved)) == [approved];
    assert Filter([s[i]], StatusIs(Rejected)) == [];
    assert Filter([approved], StatusIs(Rejected)) == [];
  }
}

/**
 * The `notifications` collection: creation with derived link and priority,
 * marking as read, deletion, a user's inbox and its unread count.
 */
module NotificationService {
  import opened Wrappers
  import opened Types
  import opened Lists
  import Text

  const ActionPrefix: string := "/dashboard/achievements/"

  /** The link a notification carries: the achievement page when an id is given, else nothing. */
  function ActionUrl(relatedAchievementId: Option<string>): (url: string)
    ensures url != "" <==> Truthy(relatedAchievementId)
    ensures Truthy(relatedAchievementId) ==> Text.EndsWith(url, relatedAchievementId.value)
  {
    if Truthy(relatedAchievementId) then ActionPrefix + relatedAchievementId.value else ""
  }

  /** `high` exactly when the type text contains `approved`, compared case-sensitively. */
  function PriorityOf(kind: string): (p: Priority)
    ensures p == High <==> Text.Contains(kind, "approved")
  {
    if Text.Contains(kind, "approved") then High else Normal
  }

  /** The type texts the application passes never mention `approved` in lower case, except the approval message itself. */
  lemma ApprovedIsCaseSensitive()
    ensures PriorityOf("APPROVED") == Normal
    ensures PriorityOf("approved") == High
  {
    Text.NotContainedAt("APPROVED", "approved", 0);
    Text.ContainsSelf("approved");
  }

  /** The document `createNotification` adds under `id`. */
  function NewNotification(
    id: Id, userId: string, kind: string, title: string, message: string,
    relatedAchievementId: Option<string>, relatedAchievementTitle: Option<string>, now: int): (n: Notification)
    ensures !n.isRead && n.readAt == None && ReadMatches(n)
    ensures n.relatedAchievementId == OrElse(relatedAchievementId, "")
    ensures n.relatedAchievementTitle == OrElse(relatedAchievementTitle, "")
    ensures n.actionUrl == ActionUrl(relatedAchievementId) && n.priority == PriorityOf(kind)
    ensures n.id == id && n.userId == userId && n.kind == kind && n.createdAt == now
  {
    Notification(
      id, userId, kind, title, message, OrElse(relatedAchievementId, ""),
      OrElse(relatedAchievementTitle, ""), ActionUrl(relatedAchievementId), false, now, None,
      PriorityOf(kind))
  }

  /** A notification carries a read time exactly when it is read. */
  predicate ReadMatches(n: Notification) {
    n.isRead <==> n.readAt.Some?
  }

  function CreatedAt(n: Notification): int {
    n.createdAt
  }

  function UserIs(userId: string): Notification -> bool {
    (n: Notification) => n.userId == userId
  }

  function Unread(): Notification -> bool {
    (n: Notification) => !n.isRead
  }

  class NotificationStore {
    var docs: map<Id, Notification>
    var nextId: Id

    ghost predicate Valid()
      reads this
    {
      forall k | k in docs :: k < nextId && docs[k].id == k && ReadMatches(docs[k])
    }

    constructor ()
      ensures Valid() && docs == map[] && nextId == 0
    {
      docs := map[];
      nextId := 0;
    }

    function Listing(): seq<Notification>
      reads this
    {
      Values(docs, nextId)
    }

    /** `createNotification(userId, type, title, message, relatedAchievementId?, relatedAchievementTitle?)`. */
    method CreateNotification(
      userId: string, kind: string, title: string, message: string,
      relatedAchievementId: Option<string>, relatedAchievementTitle: Option<string>,
      now: int, fail: bool) returns (r: Result<Id, string>)
      requires Valid()
      modifies this
      ensures Valid()
      ensures r.Ok? <==> !fail
      ensures r.Ok? ==> r.value == old(nextId) && r.value !in old(docs) && nextId == old(nextId) + 1
      ensures r.Ok? ==> docs == old(docs)[r.value := NewNotification(
        r.value, userId, kind, title, message, relatedAchievementId, relatedAchievementTitle, now)]
      ensures r.Err? ==> docs == old(docs) && nextId == old(nextId)
    {
      if fail {
        return Err("firestore/unavailable");
      }
      var id := nextId;
      docs := docs[id := NewNotification(id, userId, kind, title, message, relatedAchievementId, relatedAchievementTitle, now)];
      nextId := nextId + 1;
      return Ok(id);
    }

    /** `markAsRead`: sets only the read flag and the read time; a missing document fails. */
    method MarkAsRead(notificationId: Id, now: int, fail: bool) returns (r: Result<(), string>)
      requires Valid()
      modifies this
      ensures Valid() && nextId == old(nextId)
      ensures r.Ok? <==> !fail && notificationId in old(docs)
      ensures r.Ok? ==> docs == old(docs)[notificationId := old(docs)[notificationId].(isRead := true, readAt := Some(now))]
      ensures r.Err? ==> docs == old(docs)
    {
      if fail {
        return Err("firestore/unavailable");
      }
      if notificationId !in docs {
        return Err("not-found");
      }
      docs := docs[notificationId := docs[notificationId].(isRead := true, readAt := Some(now))];
      return Ok(());
    }

    /** `deleteNotification`: removes only that id; deleting a missing document succeeds. */
    method DeleteNotification(notificationId: Id, fail: bool) returns (r: Result<(), string>)
      requires Valid()
      modifies this
      ensures Valid() && nextId == old(nextId)
      ensures r.Ok? <==> !fail
      ensures docs == if r.Ok? then old(docs) - {notificationId} else old(docs)
    {
      if fail {
        return Err("firestore/unavailable");
      }
      docs := docs - {notificationId};
      return Ok(());
    }
  }

  /**
   * `getUserNotifications`: the collection ordered by creation time, newest
   * first, then restricted to the user; `[]` when the read fails.
   */
  function GetUserNotifications(snapshot: seq<Notification>, userId: string, fail: bool): (r: seq<Notification>)
    ensures fail ==> r == []
    ensures !fail ==> forall n :: n in r <==> n in snapshot && n.userId == userId
    ensures !fail ==> multiset(r) == multiset(Filter(snapshot, UserIs(userId)))
    ensures SortedBy(r, CreatedAt, true)
  {
    if fail then []
    else
      var ordered := SortBy(snapshot, CreatedAt, true);
      var r := Filter(ordered, UserIs(userId));
      FilterKeepsSorted(ordered, UserIs(userId), CreatedAt, true);
      FilterPermutation(ordered, snapshot, UserIs(userId));
      FilterMembers(ordered, UserIs(userId));
      SameMembers(ordered, snapshot);
      r
  }

  /** `getUnreadCount`: how many of the user's notifications are unread; 0 when the read fails. */
  function GetUnreadCount(snapshot: seq<Notification>, userId: string, fail: bool): (c: nat)
    ensures c <= |GetUserNotifications(snapshot, userId, fail)|
    ensures fail ==> c == 0
  {
    |Filter(GetUserNotifications(snapshot, userId, fail), Unread())|
  }

  /** The unread count is the number of the user's unread notifications in the collection, whatever their order. */
  lemma UnreadCountIsUsersUnread(snapshot: seq<Notification>, userId: string)
    ensures GetUnreadCount(snapshot, userId, false) == |Filter(Filter(snapshot, UserIs(userId)), Unread())|
  {
    FilterPermutation(GetUserNotifications(snapshot, userId, false), Filter(snapshot, UserIs(userId)), Unread());
  }

  /** Marking one of the user's unread notifications as read lowers the unread count by exactly one. */
  lemma {:induction false} MarkingLowersCount(s: seq<Notification>, i: nat, userId: string, now: int)
    requires i < |s| && s[i].userId == userId && !s[i].isRead
    ensures |Filter(Filter(s[i := s[i].(isRead := true, readAt := Some(now))], UserIs(userId)), Unread())|
         == |Filter(Filter(s, UserIs(userId)), Unread())| - 1
  {
    var x := s[i];
    var y := x.(isRead := true, readAt := Some(now));
    var t := s[i := y];
    var pre, post := s[..i], s[i + 1..];
    assert s == pre + [x] + post;
    assert t == pre + [y] + post;
    var mine, unread := UserIs(userId), Unread();
    assert Filter([x], mine) == [x];
    assert Filter([y], mine) == [y];
    assert Filter([x], unread) == [x];
    assert Filter([y], unread) == [];
    FilterAppend(pre + [x], post, mine);
    FilterAppend(pre, [x], mine);
    FilterAppend(pre + [y], post, mine);
    FilterAppend(pre, [y], mine);
    var a, b := Filter(pre, mine), Filter(post, mine);
    assert Filter(s, mine) == a + [x] + b;
    assert Filter(t, mine) == a + [y] + b;
    FilterAppend(a + [x], b, unread);
    FilterAppend(a, [x], unread);
    FilterAppend(a + [y], b, unread);
    FilterAppend(a, [y], unread);
  }
}

/**
 * The `achievements` collection and the service that writes and reads it:
 * creation of a pending record, certificate attachment, review, deletion, and
 * the three list queries.
 */
module AchievementService {
  import opened Wrappers
  import opened Types
  import opened Lists
  import Text
  import CloudStorage

  // ---------------------------------------------------------------- record shapes

  /** Nobody has verified the record yet. */
  predicate Unreviewed(a: Achievement) {
    a.status == Pending && a.remarks == "" && a.verifiedBy == "" && a.verifiedByName == ""
    && a.verificationDate == None
  }

  /** No certificate is attached. */
  predicate Uncertified(a: Achievement) {
    a.certificateUrl == "" && a.certificateFileName == "" && a.certificateSize == 0
  }

  /** The record `createAchievement` adds under `id`. */
  function NewAchievement(
    id: Id, studentId: string, studentEmail: string, studentName: string, title: string,
    description: string, category: string, organizationName: string, eventDate: int,
    department: string, tags: seq<string>, now: int): (a: Achievement)
    ensures Unreviewed(a) && Uncertified(a) && DateMatchesStatus(a)
    ensures a.department == a.studentDepartment == Some(department)
    ensures a.submittedAt == a.updatedAt == now && !a.isPublic
    ensures a.id == id && a.studentId == studentId && a.title == title && a.tags == tags
  {
    Achievement(
      id, studentId, studentEmail, studentName, title, description, category, organizationName,
      eventDate, "", "", 0, Pending, "", "", "", None, Some(department), Some(department),
      now, now, tags, false)
  }

  /** The patch `uploadCertificate` applies. */
  function WithCertificate(a: Achievement, url: string, fileName: string, size: nat, now: int): (b: Achievement)
    ensures SameSubmission(a, b) && SameReview(a, b)
    ensures b.certificateUrl == url && b.certificateFileName == fileName && b.certificateSize == size
    ensures b.updatedAt == now
  {
    a.(certificateUrl := url, certificateFileName := fileName, certificateSize := size, updatedAt := now)
  }

  /**
   * The patch `updateAchievementStatus` applies. It takes the new review
   * whatever the record's current status.
   */
  function WithReview(
    a: Achievement, status: AchievementStatus, remarks: string, verifiedBy: string,
    verifiedByName: string, now: int): (b: Achievement)
    ensures SameSubmission(a, b) && SameCertificate(a, b)
    ensures DateMatchesStatus(b)
    ensures b.status == status && b.remarks == remarks && b.verifiedBy == verifiedBy
    ensures b.verifiedByName == verifiedByName && b.updatedAt == now
  {
    a.(status := status, remarks := remarks, verifiedBy := verifiedBy, verifiedByName := verifiedByName,
       verificationDate := if status != Pending then Some(now) else None, updatedAt := now)
  }

  /** A second review replaces the first entirely: nothing of the earlier one survives. */
  lemma ReviewOverwrites(
    a: Achievement, s1: AchievementStatus, r1: string, v1: string, n1: string, t1: int,
    s2: AchievementStatus, r2: string, v2: string, n2: string, t2: int)
    ensures WithReview(WithReview(a, s1, r1, v1, n1, t1), s2, r2, v2, n2, t2) == WithReview(a, s2, r2, v2, n2, t2)
  {
  }

  /** Setting a record back to pending clears its verification date, and only then. */
  lemma ReviewBackToPending(a: Achievement, status: AchievementStatus, remarks: string, reviewer: string, byName: string, now: int)
    ensures WithReview(a, status, remarks, reviewer, byName, now).verificationDate == None <==> status == Pending
  {
  }

  /** Attaching a certificate and reviewing touch disjoint fields. */
  lemma CertificateAndReviewCommute(
    a: Achievement, url: string, fileName: string, size: nat,
    status: AchievementStatus, remarks: string, reviewer: string, byName: string, now: int)
    ensures WithCertificate(WithReview(a, status, remarks, reviewer, byName, now), url, fileName, size, now)
         == WithReview(WithCertificate(a, url, fileName, size, now), status, remarks, reviewer, byName, now)
  {
  }

  // ---------------------------------------------------------------- certificate paths

  /** `certificates/<studentId>/<achievementId>_<fileName>`. */
  function CertificatePath(studentId: string, achievementId: Id, fileName: string): string {
    "certificates/" + studentId + "/" + IdText(achievementId) + "_" + fileName
  }

  /**
   * Two different achievements of one student never share a blob path for the
   * same file name, so one upload cannot overwrite another's certificate.
   */
  lemma {:induction false} CertificatePathsDistinct(studentId: string, i: Id, j: Id, fileName: string)
    requires i != j
    ensures CertificatePath(studentId, i, fileName) != CertificatePath(studentId, j, fileName)
  {
    var prefix := "certificates/" + studentId + "/";
    var a, b := IdText(i), IdText(j);
    Text.NatToStringInjective(i, j);
    Text.NatToStringInjective(j, i);
    var u, v := a + "_" + fileName, b + "_" + fileName;
    assert CertificatePath(studentId, i, fileName) == prefix + u;
    assert CertificatePath(studentId, j, fileName) == prefix + v;
    if |a| == |b| {
      var k :| 0 <= k < |a| && a[k] != b[k];
      assert u[k] != v[k];
      assert (prefix + u)[|prefix| + k] != (prefix + v)[|prefix| + k];
    } else if |a| < |b| {
      assert u[|a|] == '_' && Text.IsDigit(b[|a|]) && v[|a|] == b[|a|];
      assert (prefix + u)[|prefix| + |a|] != (prefix + v)[|prefix| + |a|];
    } else {
      assert v[|b|] == '_' && Text.IsDigit(a[|b|]) && u[|b|] == a[|b|];
      assert (prefix + u)[|prefix| + |b|] != (prefix + v)[|prefix| + |b|];
    }
  }

  // ---------------------------------------------------------------- the collection

  class AchievementStore {
    var docs: map<Id, Achievement>
    var nextId: Id

    /**
     * Every record sits under its own id, below the next id to hand out, and
     * carries a verification date exactly when it is not pending.
     */
    ghost predicate Valid()
      reads this
    {
      forall k | k in docs :: k < nextId && docs[k].id == k && DateMatchesStatus(docs[k])
    }

    constructor ()
      ensures Valid() && docs == map[] && nextId == 0
    {
      docs := map[];
      nextId := 0;
    }

    /** A read of the whole collection, in the order documents were added. */
    function Listing(): seq<Achievement>
      reads this
    {
      Values(docs, nextId)
    }

    /**
     * `createAchievement`. `eventDate` is `None` when the form's date does not
     * parse: converting it to a timestamp throws before anything is written.
     * `fail` is the outcome of `addDoc`.
     */
    method CreateAchievement(
      studentId: string, studentEmail: string, studentName: string, title: string,
      description: string, category: string, organizationName: string, eventDate: Option<int>,
      department: string, tags: seq<string>, now: int, fail: bool) returns (r: Result<Id, string>)
      requires Valid()
      modifies this
      ensures Valid()
      ensures r.Ok? <==> eventDate.Some? && !fail
      ensures r.Ok? ==> r.value == old(nextId) && r.value !in old(docs) && nextId == old(nextId) + 1
      ensures r.Ok? ==> docs == old(docs)[r.value := NewAchievement(
        r.value, studentId, studentEmail, studentName, title, description, category,
        organizationName, eventDate.value, department, tags, now)]
      ensures r.Err? ==> docs == old(docs) && nextId == old(nextId)
    {
      if eventDate.None? {
        return Err("Invalid time value");
      }
      if fail {
        return Err("firestore/unavailable");
      }
      var id := nextId;
      docs := docs[id := NewAchievement(
        id, studentId, studentEmail, studentName, title, description, category,
        organizationName, eventDate.value, department, tags, now)];
      nextId := nextId + 1;
      return Ok(id);
    }

    /**
     * `uploadCertificate`: store the file, then patch the record's certificate
     * fields. `uploadFail` and `updateFail` are the outcomes of the two calls;
     * patching a record that does not exist fails too. A failed patch leaves
     * the uploaded file in the bucket.
     */
    method UploadCertificate(
      bucket: CloudStorage.Bucket, achievementId: Id, studentId: string, fileName: string,
      fileSize: nat, now: int, uploadFail: bool, updateFail: bool) returns (r: Result<string, string>)
      requires Valid()
      modifies this, bucket
      ensures Valid() && nextId == old(nextId)
      ensures var path := CertificatePath(studentId, achievementId, fileName);
        bucket.objects == if uploadFail then old(bucket.objects) else old(bucket.objects)[path := fileSize]
      ensures r.Ok? <==> !uploadFail && !updateFail && achievementId in old(docs)
      ensures r.Ok? ==> var url := CloudStorage.DownloadUrl(CertificatePath(studentId, achievementId, fileName));
        r.value == url
        && docs == old(docs)[achievementId := WithCertificate(old(docs)[achievementId], url, fileName, fileSize, now)]
      ensures r.Err? ==> docs == old(docs)
    {
      var path := CertificatePath(studentId, achievementId, fileName);
      var up := bucket.Upload(path, fileSize, uploadFail);
      if up.Err? {
        return Err(up.error);
      }
      if updateFail {
        return Err("firestore/unavailable");
      }
      if achievementId !in docs {
        return Err("not-found");
      }
      docs := docs[achievementId := WithCertificate(docs[achievementId], up.value, fileName, fileSize, now)];
      return Ok(up.value);
    }

    /**
     * `updateAchievementStatus`: overwrite the review fields of an existing
     * record. There is no check of who asks or of the current status.
     */
    method UpdateAchievementStatus(
      achievementId: Id, status: AchievementStatus, remarks: string, verifiedBy: string,
      verifiedByName: string, now: int, fail: bool) returns (r: Result<(), string>)
      requires Valid()
      modifies this
      ensures Valid() && nextId == old(nextId)
      ensures r.Ok? <==> !fail && achievementId in old(docs)
      ensures r.Ok? ==> docs == old(docs)[achievementId := WithReview(
        old(docs)[achievementId], status, remarks, verifiedBy, verifiedByName, now)]
      ensures r.Err? ==> docs == old(docs)
    {
      if fail {
        return Err("firestore/unavailable");
      }
      if achievementId !in docs {
        return Err("not-found");
      }
      docs := docs[achievementId := WithReview(docs[achievementId], status, remarks, verifiedBy, verifiedByName, now)];
      return Ok(());
    }

    /**
     * `deleteAchievement`: delete the certificate file when a URL is given,
     * then the record. A failed file delete stops before the record is
     * touched; deleting a record that does not exist succeeds.
     */
    method DeleteAchievement(
      bucket: CloudStorage.Bucket, achievementId: Id, certificateUrl: string,
      objectFail: bool, deleteFail: bool) returns (r: Result<(), string>)
      requires Valid()
      modifies this, bucket
      ensures Valid() && nextId == old(nextId)
      ensures var fileGone := certificateUrl != "" && !objectFail && certificateUrl in old(bucket.objects);
        bucket.objects == if fileGone then old(bucket.objects) - {certificateUrl} else old(bucket.objects)
      ensures r.Ok? <==> (certificateUrl == "" || (!objectFail && certificateUrl in old(bucket.objects))) && !deleteFail
      ensures r.Ok? ==> docs == old(docs) - {achievementId}
      ensures r.Err? ==> docs == old(docs)
    {
      if certificateUrl != "" {
        var gone := bucket.DeleteObject(certificateUrl, objectFail);
        if gone.Err? {
          return Err(gone.error);
        }
      }
      if deleteFail {
        return Err("firestore/unavailable");
      }
      docs := docs - {achievementId};
      return Ok(());
    }
  }

  // ---------------------------------------------------------------- queries

  /**
   * `getStudentAchievements`: the student's records, newest submission first;
   * `[]` when the read fails.
   */
  function GetStudentAchievements(snapshot: seq<Achievement>, studentId: string, fail: bool): (r: seq<Achievement>)
    ensures fail ==> r == []
    ensures !fail ==> multiset(r) == multiset(Filter(snapshot, StudentIs(studentId)))
    ensures !fail ==> forall a :: a in r <==> a in snapshot && a.studentId == studentId
    ensures SortedBy(r, SubmittedAt, true)
  {
    if fail then []
    else
      var mine := Filter(snapshot, StudentIs(studentId));
      var r := SortBy(mine, SubmittedAt, true);
      SameMembers(r, mine);
      FilterMembers(snapshot, StudentIs(studentId));
      r
  }

  /** `getPendingAchievements`: the pending records, newest submission first; `[]` when the read fails. */
  function GetPendingAchievements(snapshot: seq<Achievement>, fail: bool): (r: seq<Achievement>)
    ensures fail ==> r == []
    ensures !fail ==> multiset(r) == multiset(Filter(snapshot, StatusIs(Pending)))
    ensures !fail ==> forall a :: a in r <==> a in snapshot && a.status == Pending
    ensures SortedBy(r, SubmittedAt, true)
  {
    if fail then []
    else
      var pending := Filter(snapshot, StatusIs(Pending));
      var r := SortBy(pending, SubmittedAt, true);
      SameMembers(r, pending);
      FilterMembers(snapshot, StatusIs(Pending));
      r
  }

  /** `getAllAchievements`: every record, newest submission first; `[]` when the read fails. */
  function GetAllAchievements(snapshot: seq<Achievement>, fail: bool): (r: seq<Achievement>)
    ensures fail ==> r == []
    ensures !fail ==> multiset(r) == multiset(snapshot)
    ensures SortedBy(r, SubmittedAt, true)
  {
    if fail then [] else SortBy(snapshot, SubmittedAt, true)
  }

  /** A student's list and the pending list never disagree about a record both contain. */
  lemma PendingOfStudent(snapshot: seq<Achievement>, studentId: string)
    ensures forall a | a in GetStudentAchievements(snapshot, studentId, false) && a.status == Pending ::
      a in GetPendingAchievements(snapshot, false)
  {
  }

  /** The number of records a student sees does not depend on the order the store returns them in. */
  lemma StudentCountOrderFree(s: seq<Achievement>, t: seq<Achievement>, studentId: string)
    requires multiset(s) == multiset(t)
    ensures |GetStudentAchievements(s, studentId, false)| == |GetStudentAchievements(t, studentId, false)|
  {
    FilterPermutation(s, t, StudentIs(studentId));
    var a, b := GetStudentAchievements(s, studentId, false), GetStudentAchievements(t, studentId, false);
    assert |a| == |multiset(a)|;
    assert |b| == |multiset(b)|;
    assert |Filter(s, StudentIs(studentId))| == |multiset(Filter(s, StudentIs(studentId)))|;
    assert |Filter(t, StudentIs(studentId))| == |multiset(Filter(t, StudentIs(studentId)))|;
  }
}

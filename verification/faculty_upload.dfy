/**
 * The faculty upload screen: a faculty member files an achievement for a
 * student, attaches the certificate, approves it on the spot and notifies
 * the student.
 */
module FacultyUpload {
  import opened Wrappers
  import opened Types
  import Text
  import CloudStorage
  import AchievementService
  import NotificationService
  import AdminService
  import Submission

  datatype Form = Form(
    studentId: string, studentName: string, studentEmail: string, title: string, description: string,
    category: string, organizationName: string, eventDate: string, tags: string)

  const BlankForm: Form := Form("", "", "", "", "", "", "", "", "")

  const MissingFields: string := "Please fill all required fields and select a file"
  const NoDepartment: string := "Your department is not set"
  const Uploaded: string := "\U{2713} Achievement uploaded and approved successfully!"
  const ApprovalRemark: string := "Achievement uploaded and approved by faculty"

  /** The first pre-check: the required fields and a file. */
  predicate FieldsComplete(form: Form, file: Option<Submission.File>) {
    form.studentId != "" && form.title != "" && form.category != "" && file.Some?
  }

  /** Both pre-checks pass: the required fields, a file, and a signed-in faculty member with a department. */
  predicate Ready(form: Form, file: Option<Submission.File>, user: Option<User>) {
    FieldsComplete(form, file) && user.Some? && Truthy(user.value.department)
  }

  /** The toast a refused submit shows, for the first pre-check that fails. */
  function Refusal(form: Form, file: Option<Submission.File>): string {
    if !FieldsComplete(form, file) then MissingFields else NoDepartment
  }

  /** The type text of the notification sent to the student; it says `APPROVED` in capitals. */
  function AddedText(facultyName: string, title: string): string {
    "\U{1F389} Faculty " + facultyName + " has added a new achievement: \"" + title
    + "\" to your profile and it's already APPROVED!"
  }

  /** The record a faculty upload creates under `id`: the student as the form names them, the faculty member's department. */
  function Filed(id: Id, f: Form, department: string, when: int, now: int): (a: Achievement)
    ensures AchievementService.Unreviewed(a) && AchievementService.Uncertified(a)
    ensures a.id == id && a.studentId == f.studentId && a.studentEmail == f.studentEmail && a.studentName == f.studentName
    ensures a.department == a.studentDepartment == Some(department)
    ensures a.tags == Submission.ParseTags(f.tags)
  {
    AchievementService.NewAchievement(
      id, f.studentId, f.studentEmail, f.studentName, f.title, f.description, f.category,
      f.organizationName, when, department, Submission.ParseTags(f.tags), now)
  }

  /**
   * The record as it stands after the steps that succeeded: created with the
   * faculty member's department, then the certificate attached if the upload
   * went through, then the forced approval if that went through too.
   */
  function Staged(record: Achievement, uploaded: bool, approved: bool, url: string, file: Submission.File, u: User, now: int)
    : (a: Achievement)
    requires approved ==> uploaded
    ensures a.id == record.id && a.department == record.department && a.studentDepartment == record.studentDepartment
    ensures uploaded ==> a.certificateUrl == url && a.certificateFileName == file.name && a.certificateSize == file.size
    ensures !uploaded ==> SameCertificate(a, record)
    ensures approved ==> (a.status == Approved && a.remarks == ApprovalRemark && a.verifiedBy == u.id
      && a.verifiedByName == u.name && a.verificationDate == Some(now))
    ensures !approved ==> SameReview(a, record)
  {
    var withFile := if uploaded then AchievementService.WithCertificate(record, url, file.name, file.size, now) else record;
    if approved then AchievementService.WithReview(withFile, Approved, ApprovalRemark, u.id, u.name, now) else withFile
  }

  /** A failed approval leaves the created record pending and unreviewed, with or without its certificate. */
  lemma FailedApprovalStaysPending(record: Achievement, uploaded: bool, url: string, file: Submission.File, u: User, now: int)
    requires AchievementService.Unreviewed(record)
    ensures AchievementService.Unreviewed(Staged(record, uploaded, false, url, file, u, now))
    ensures Staged(record, uploaded, false, url, file, u, now).status == Pending
  {
  }

  class Screen {
    var form: Form
    var file: Option<Submission.File>
    var progress: nat
    var categories: seq<string>
    var toasts: seq<string>

    constructor ()
      ensures form == BlankForm && file == None && progress == 0 && categories == [] && toasts == []
    {
      form := BlankForm;
      file := None;
      progress := 0;
      categories := [];
      toasts := [];
    }

    /** The category part of `loadStudentsAndCategories`: the shared load, falling back without a toast. */
    method LoadCategories(
      store: AdminService.CategoryStore, firstReadFail: bool, addFails: seq<bool>, secondReadFail: bool, now: int)
      requires store.Valid() && |addFails| == |Submission.Defaults|
      modifies this, store
      ensures store.Valid()
      ensures var first := if firstReadFail then [] else old(store.Listing());
        first != [] ==> (categories == Submission.Names(first)
          && store.docs == old(store.docs) && store.nextId == old(store.nextId))
      ensures var first := if firstReadFail then [] else old(store.Listing());
        first == [] ==> (var k := Submission.FirstFailure(addFails);
          store.docs == Submission.Seeded(old(store.docs), Submission.Defaults, old(store.nextId), k, now)
          && store.nextId == old(store.nextId) + k
          && categories == (if k < |Submission.Defaults| then Submission.FallbackNames
            else if secondReadFail then [] else Submission.Names(store.Listing())))
      ensures form == old(form) && file == old(file) && progress == old(progress) && toasts == old(toasts)
    {
      var names, _ := Submission.LoadCategories(store, firstReadFail, addFails, secondReadFail, now);
      categories := names;
    }

    /** `handleFileSelect`: a picked file replaces the selection. */
    method SelectFile(picked: Option<Submission.File>)
      modifies this
      ensures file == (if picked.Some? then picked else old(file))
      ensures toasts == (if picked.Some? then old(toasts) + ["\U{2713} File selected: " + picked.value.name] else old(toasts))
      ensures form == old(form) && progress == old(progress) && categories == old(categories)
    {
      if picked.Some? {
        file := picked;
        toasts := toasts + ["\U{2713} File selected: " + picked.value.name];
      }
    }

    /** The first store step: the record, then the progress bar runs to 100. */
    method Create(
      f: Form, department: string, store: AchievementService.AchievementStore, when: Option<int>, now: int, createFail: bool)
      returns (r: Result<Id, string>)
      requires store.Valid()
      modifies this, store
      ensures store.Valid()
      ensures r.Ok? <==> when.Some? && !createFail
      ensures r.Ok? ==> (r.value == old(store.nextId) && r.value !in old(store.docs)
        && store.docs == old(store.docs)[r.value := Filed(r.value, f, department, when.value, now)] && progress == 100)
      ensures r.Err? ==> store.docs == old(store.docs) && progress == old(progress)
      ensures form == old(form) && file == old(file) && toasts == old(toasts) && categories == old(categories)
    {
      r := store.CreateAchievement(
        f.studentId, f.studentEmail, f.studentName, f.title, f.description, f.category,
        f.organizationName, when, department, Submission.ParseTags(f.tags), now, createFail);
      if r.Ok? {
        var shown := Submission.SimulateProgress();
        progress := shown[|shown| - 1];
      }
    }

    /**
     * The store steps of `handleSubmit` once the pre-checks passed: create
     * the record with the faculty member's department, run the progress bar,
     * upload the certificate, approve. The first failure ends the run and
     * nothing already written is undone.
     */
    method Record(
      f: Form, picked: Submission.File, u: User, store: AchievementService.AchievementStore,
      bucket: CloudStorage.Bucket, when: Option<int>, now: int,
      createFail: bool, uploadFail: bool, patchFail: bool, approveFail: bool)
      returns (r: Result<Id, string>)
      requires store.Valid() && Truthy(u.department)
      modifies this, store, bucket
      ensures store.Valid()
      ensures var id := old(store.nextId);
        var created := when.Some? && !createFail;
        var uploaded := created && !uploadFail && !patchFail;
        var approved := uploaded && !approveFail;
        var path := AchievementService.CertificatePath(f.studentId, id, picked.name);
        (r.Ok? <==> approved) && (r.Ok? ==> r.value == id)
        && store.docs == (if created then old(store.docs)[id := Staged(
          Filed(id, f, u.department.value, when.value, now), uploaded, approved, CloudStorage.DownloadUrl(path), picked, u, now)] else old(store.docs))
        && bucket.objects == (if created && !uploadFail then old(bucket.objects)[path := picked.size] else old(bucket.objects))
        && progress == (if created then 100 else old(progress))
      ensures form == old(form) && file == old(file) && toasts == old(toasts) && categories == old(categories)
    {
      r := Create(f, u.department.value, store, when, now, createFail);
      if r.Ok? {
        r := Attach(r.value, Filed(r.value, f, u.department.value, when.value, now), f.studentId, picked, u, store, bucket,
          now, uploadFail, patchFail, approveFail);
      }
    }

    /**
     * The later store steps on the record just created under `id`: upload
     * the certificate, then approve; the first failure ends the run.
     */
    method Attach(
      id: Id, record: Achievement, studentId: string, picked: Submission.File, u: User, store: AchievementService.AchievementStore,
      bucket: CloudStorage.Bucket, now: int, uploadFail: bool, patchFail: bool, approveFail: bool)
      returns (r: Result<Id, string>)
      requires store.Valid() && id in store.docs && store.docs[id] == record
      modifies store, bucket
      ensures store.Valid() && store.nextId == old(store.nextId)
      ensures var uploaded := !uploadFail && !patchFail;
        var approved := uploaded && !approveFail;
        var path := AchievementService.CertificatePath(studentId, id, picked.name);
        (r.Ok? <==> approved) && (r.Ok? ==> r.value == id)
        && store.docs == old(store.docs)[id := Staged(record, uploaded, approved, CloudStorage.DownloadUrl(path), picked, u, now)]
        && bucket.objects == (if !uploadFail then old(bucket.objects)[path := picked.size] else old(bucket.objects))
    {
      var uploaded := store.UploadCertificate(bucket, id, studentId, picked.name, picked.size, now, uploadFail, patchFail);
      if uploaded.Err? {
        return Err(uploaded.error);
      }
      var approved := store.UpdateAchievementStatus(id, Approved, ApprovalRemark, u.id, u.name, now, approveFail);
      if approved.Err? {
        return Err(approved.error);
      }
      return Ok(id);
    }

    /** The end of a successful submit: the success toast and a cleared form. */
    method Finish()
      modifies this
      ensures form == BlankForm && file == None && progress == 0 && toasts == old(toasts) + [Uploaded]
      ensures categories == old(categories)
    {
      toasts := toasts + [Uploaded];
      form := BlankForm;
      file := None;
      progress := 0;
    }

    /**
     * `handleSubmit`. `when` is the timestamp the date field converts to
     * (`None` for a field that is not a date); the fault flags are the
     * outcomes of the five backend calls. A refused submit writes nothing.
     * Otherwise the steps run in order (create, upload, approve, notify),
     * the first failure ends the run, nothing already written is undone, and
     * the form is cleared only when every step succeeded.
     */
    method HandleSubmit(
      user: Option<User>, store: AchievementService.AchievementStore, bucket: CloudStorage.Bucket,
      notes: NotificationService.NotificationStore, when: Option<int>, now: int,
      createFail: bool, uploadFail: bool, patchFail: bool, approveFail: bool, notifyFail: bool)
      requires store.Valid() && notes.Valid()
      modifies this, store, bucket, notes
      ensures store.Valid() && notes.Valid() && categories == old(categories)
      ensures !Ready(old(form), old(file), user) ==>
        store.docs == old(store.docs) && store.nextId == old(store.nextId) && bucket.objects == old(bucket.objects)
        && notes.docs == old(notes.docs) && notes.nextId == old(notes.nextId)
        && form == old(form) && file == old(file) && progress == old(progress)
        && toasts == old(toasts) + [Refusal(old(form), old(file))]
      ensures Ready(old(form), old(file), user) ==>
        var f, picked, u, id := old(form), old(file).value, user.value, old(store.nextId);
        var created := when.Some? && !createFail;
        var uploaded := created && !uploadFail && !patchFail;
        var approved := uploaded && !approveFail;
        var notified := approved && !notifyFail;
        var path := AchievementService.CertificatePath(f.studentId, id, picked.name);
        store.docs == (if created then old(store.docs)[id := Staged(
          Filed(id, f, u.department.value, when.value, now), uploaded, approved, CloudStorage.DownloadUrl(path), picked, u, now)] else old(store.docs))
        && bucket.objects == (if created && !uploadFail then old(bucket.objects)[path := picked.size] else old(bucket.objects))
        && notes.docs == (if notified then old(notes.docs)[old(notes.nextId) := NotificationService.NewNotification(
          old(notes.nextId), f.studentId, AddedText(u.name, f.title), "approval", IdText(id), None, None, now)]
          else old(notes.docs))
        && (notified ==> form == BlankForm && file == None && progress == 0 && toasts == old(toasts) + [Uploaded])
        && (!notified ==> (form == old(form) && file == old(file) && |toasts| == |old(toasts)| + 1
          && toasts[..|old(toasts)|] == old(toasts)))
        && (created && !notified ==> progress == 100)
        && (!created ==> progress == old(progress))
    {
      if !Ready(form, file, user) {
        toasts := toasts + [Refusal(form, file)];
        return;
      }
      var u := user.value;
      var r := Record(form, file.value, u, store, bucket, when, now, createFail, uploadFail, patchFail, approveFail);
      if r.Err? {
        toasts := toasts + [r.error];
        return;
      }
      var notified := notes.CreateNotification(
        form.studentId, AddedText(u.name, form.title), "approval", IdText(r.value), None, None, now, notifyFail);
      if notified.Err? {
        toasts := toasts + [notified.error];
        return;
      }
      Finish();
    }
  }
}

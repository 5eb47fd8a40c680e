/**
 * The student's certificate submission screen: a pending record under the
 * student's own id, its certificate, and the refreshed list of the
 * student's submissions. No notification is sent.
 */
module StudentSubmit {
  import opened Wrappers
  import opened Types
  import CloudStorage
  import AchievementService
  import AdminService
  import Submission

  datatype Form = Form(
    title: string, description: string, category: string, organizationName: string, eventDate: string, tags: string)

  const BlankForm: Form := Form("", "", "", "", "", "")

  const MissingFields: string := "Please fill all required fields and select a certificate file"
  const IncompleteUser: string := "User authentication incomplete. Please refresh and try again."
  const Submitting: string := "\U{1F4E4} Submitting certificate..."
  const UploadingFile: string := "\U{1F4CE} Uploading certificate file..."
  const Submitted: string := "\U{2713} Certificate submitted successfully!"

  /** The first pre-check; the description is not required. */
  predicate FieldsComplete(form: Form, file: Option<Submission.File>) {
    form.title != "" && form.category != "" && form.organizationName != "" && form.eventDate != "" && file.Some?
  }

  /** The second pre-check: a user with an id and an e-mail. */
  predicate UserComplete(user: Option<User>) {
    user.Some? && user.value.id != "" && user.value.email != ""
  }

  /** The name written on the record: the user's name, or `Student` when it is empty. */
  function StudentName(u: User): (name: string)
    ensures name != ""
    ensures u.name != "" ==> name == u.name
  {
    if u.name != "" then u.name else "Student"
  }

  /** The record a submission creates under `id`. */
  function NewSubmission(id: Id, f: Form, u: User, when: int, now: int): (a: Achievement)
    ensures AchievementService.Unreviewed(a) && AchievementService.Uncertified(a)
    ensures a.id == id && a.studentId == u.id && a.studentEmail == u.email && a.studentName == StudentName(u)
    ensures a.department == a.studentDepartment == Some(OrElse(u.department, ""))
    ensures a.tags == Submission.ParseTags(f.tags)
  {
    AchievementService.NewAchievement(
      id, u.id, u.email, StudentName(u), f.title, f.description, f.category, f.organizationName, when,
      OrElse(u.department, ""), Submission.ParseTags(f.tags), now)
  }

  class Screen {
    var form: Form
    var file: Option<Submission.File>
    var progress: nat
    var submitted: seq<Achievement>
    var categories: seq<string>
    var toasts: seq<string>

    constructor ()
      ensures form == BlankForm && file == None && progress == 0 && submitted == [] && categories == [] && toasts == []
    {
      form := BlankForm;
      file := None;
      progress := 0;
      submitted := [];
      categories := [];
      toasts := [];
    }

    /** `loadCategories`: the shared load; this screen falls back to the fixed names without a toast. */
    method LoadCategories(
      store: AdminService.CategoryStore, firstReadFail: bool, addFails: seq<bool>, secondReadFail: bool, now: int)
      requires store.Valid() && |addFails| == |Submission.Defaults|
      modifies this, store
      ensures store.Valid()
      ensures var first := if firstReadFail then [] else old(store.Listing());
        first != [] ==> (categories == Submission.Names(first)
          && store.docs == old(store.docs) && store.nextId == old(store.nextId))
      ensures var first := if firstReadFail then [] else old(store.Listing());
        first == [] ==> (var k := Submission.FirstFailure(addFails);
          store.docs == Submission.Seeded(old(store.docs), Submission.Defaults, old(store.nextId), k, now)
          && store.nextId == old(store.nextId) + k
          && categories == (if k < |Submission.Defaults| then Submission.FallbackNames
            else if secondReadFail then [] else Submission.Names(store.Listing())))
      ensures form == old(form) && file == old(file) && progress == old(progress)
      ensures submitted == old(submitted) && toasts == old(toasts)
    {
      var names, _ := Submission.LoadCategories(store, firstReadFail, addFails, secondReadFail, now);
      categories := names;
    }

    /** `loadSubmittedAchievements`: the student's records, newest first; `[]` when the read fails. */
    method LoadSubmitted(u: User, store: AchievementService.AchievementStore, readFail: bool)
      modifies this
      ensures submitted == AchievementService.GetStudentAchievements(store.Listing(), u.id, readFail)
      ensures form == old(form) && file == old(file) && progress == old(progress) && toasts == old(toasts)
      ensures categories == old(categories)
    {
      submitted := AchievementService.GetStudentAchievements(store.Listing(), u.id, readFail);
    }

    /** The first step of a submit: the pending record, then the progress bar runs to 100. */
    method Create(f: Form, u: User, store: AchievementService.AchievementStore, when: Option<int>, now: int, createFail: bool)
      returns (r: Result<Id, string>)
      requires store.Valid()
      modifies this, store
      ensures store.Valid()
      ensures r.Ok? <==> when.Some? && !createFail
      ensures r.Ok? ==> (r.value == old(store.nextId) && r.value !in old(store.docs)
        && store.docs == old(store.docs)[r.value := NewSubmission(r.value, f, u, when.value, now)]
        && progress == 100 && toasts == old(toasts) + [Submitting])
      ensures r.Err? ==> store.docs == old(store.docs) && progress == old(progress) && toasts == old(toasts) + [Submitting, r.error]
      ensures form == old(form) && file == old(file) && submitted == old(submitted) && categories == old(categories)
    {
      toasts := toasts + [Submitting];
      r := store.CreateAchievement(
        u.id, u.email, StudentName(u), f.title, f.description, f.category, f.organizationName,
        when, OrElse(u.department, ""), Submission.ParseTags(f.tags), now, createFail);
      if r.Err? {
        toasts := toasts + [r.error];
        return;
      }
      var shown := Submission.SimulateProgress();
      progress := shown[|shown| - 1];
    }

    /** The second step: the certificate is stored under the student's folder and attached to record `id`. */
    method Attach(
      id: Id, picked: Submission.File, u: User, store: AchievementService.AchievementStore,
      bucket: CloudStorage.Bucket, now: int, uploadFail: bool, patchFail: bool)
      returns (r: Result<string, string>)
      requires store.Valid() && id in store.docs
      modifies this, store, bucket
      ensures store.Valid()
      ensures r.Ok? <==> !uploadFail && !patchFail
      ensures var path := AchievementService.CertificatePath(u.id, id, picked.name);
        bucket.objects == (if uploadFail then old(bucket.objects) else old(bucket.objects)[path := picked.size])
        && store.docs == (if r.Ok? then old(store.docs)[id := AchievementService.WithCertificate(
          old(store.docs)[id], CloudStorage.DownloadUrl(path), picked.name, picked.size, now)] else old(store.docs))
      ensures toasts == old(toasts) + (if r.Ok? then [UploadingFile] else [UploadingFile, r.error])
      ensures form == old(form) && file == old(file) && progress == old(progress)
      ensures submitted == old(submitted) && categories == old(categories)
    {
      toasts := toasts + [UploadingFile];
      r := store.UploadCertificate(bucket, id, u.id, picked.name, picked.size, now, uploadFail, patchFail);
      if r.Err? {
        toasts := toasts + [r.error];
      }
    }

    /**
     * The writes of `handleSubmit` once the pre-checks passed: create the
     * pending record, run the progress bar, upload the certificate. The
     * first failure ends the run, shows its message, and undoes nothing.
     */
    method Record(
      f: Form, picked: Submission.File, u: User, store: AchievementService.AchievementStore,
      bucket: CloudStorage.Bucket, when: Option<int>, now: int, createFail: bool, uploadFail: bool, patchFail: bool)
      returns (r: Result<Id, string>)
      requires store.Valid()
      modifies this, store, bucket
      ensures store.Valid()
      ensures var id := old(store.nextId);
        var created := when.Some? && !createFail;
        var uploaded := created && !uploadFail && !patchFail;
        var path := AchievementService.CertificatePath(u.id, id, picked.name);
        var record := NewSubmission(id, f, u, if created then when.value else 0, now);
        (r.Ok? <==> uploaded) && (r.Ok? ==> r.value == id)
        && store.docs == Submission.Written(old(store.docs), record, created, uploaded, CloudStorage.DownloadUrl(path), picked, now)
        && bucket.objects == (if created && !uploadFail then old(bucket.objects)[path := picked.size] else old(bucket.objects))
        && (created ==> store.docs[id].status == Pending && progress == 100)
        && (!created ==> progress == old(progress))
        && toasts == old(toasts) + (if !created then [Submitting, r.error]
          else if !uploaded then [Submitting, UploadingFile, r.error] else [Submitting, UploadingFile])
      ensures form == old(form) && file == old(file) && submitted == old(submitted) && categories == old(categories)
    {
      r := Create(f, u, store, when, now, createFail);
      if r.Err? {
        return;
      }
      var uploaded := Attach(r.value, picked, u, store, bucket, now, uploadFail, patchFail);
      if uploaded.Err? {
        return Err(uploaded.error);
      }
    }

    /** The end of a successful submit: the success toast, the reloaded list, the cleared form. */
    method Finish(u: User, store: AchievementService.AchievementStore, readFail: bool)
      modifies this
      ensures form == BlankForm && file == None && progress == 0 && toasts == old(toasts) + [Submitted]
      ensures submitted == AchievementService.GetStudentAchievements(store.Listing(), u.id, readFail)
      ensures categories == old(categories)
    {
      toasts := toasts + [Submitted];
      LoadSubmitted(u, store, readFail);
      form := BlankForm;
      file := None;
      progress := 0;
    }

    /**
     * `handleSubmit`. `when` is the timestamp the date field converts to.
     * A refused submit writes nothing. Otherwise the record is written as
     * `Record` says, and on success the list of submissions is read again
     * and the form is cleared. The record stays pending, and no
     * notification is created.
     */
    method HandleSubmit(
      user: Option<User>, store: AchievementService.AchievementStore, bucket: CloudStorage.Bucket,
      when: Option<int>, now: int, createFail: bool, uploadFail: bool, patchFail: bool, readFail: bool)
      requires store.Valid()
      modifies this, store, bucket
      ensures store.Valid() && categories == old(categories)
      ensures !FieldsComplete(old(form), old(file)) || !UserComplete(user) ==>
        store.docs == old(store.docs) && store.nextId == old(store.nextId) && bucket.objects == old(bucket.objects)
        && form == old(form) && file == old(file) && progress == old(progress) && submitted == old(submitted)
        && toasts == old(toasts) + [if !FieldsComplete(old(form), old(file)) then MissingFields else IncompleteUser]
      ensures FieldsComplete(old(form), old(file)) && UserComplete(user) ==>
        var f, picked, u, id := old(form), old(file).value, user.value, old(store.nextId);
        var created := when.Some? && !createFail;
        var uploaded := created && !uploadFail && !patchFail;
        var path := AchievementService.CertificatePath(u.id, id, picked.name);
        var record := NewSubmission(id, f, u, if created then when.value else 0, now);
        store.docs == Submission.Written(old(store.docs), record, created, uploaded, CloudStorage.DownloadUrl(path), picked, now)
        && bucket.objects == (if created && !uploadFail then old(bucket.objects)[path := picked.size] else old(bucket.objects))
        && (created ==> store.docs[id].status == Pending)
        && (uploaded ==> (form == BlankForm && file == None && progress == 0
          && submitted == AchievementService.GetStudentAchievements(store.Listing(), u.id, readFail)
          && toasts == old(toasts) + [Submitting, UploadingFile, Submitted]))
        && (!uploaded ==> form == old(form) && file == old(file) && submitted == old(submitted))
        && (!created ==> (progress == old(progress) && |toasts| == |old(toasts)| + 2
          && toasts[..|old(toasts)| + 1] == old(toasts) + [Submitting]))
        && (created && !uploaded ==> (progress == 100 && |toasts| == |old(toasts)| + 3
          && toasts[..|old(toasts)| + 2] == old(toasts) + [Submitting, UploadingFile]))
    {
      if !FieldsComplete(form, file) || !UserComplete(user) {
        toasts := toasts + [if !FieldsComplete(form, file) then MissingFields else IncompleteUser];
        return;
      }
      var r := Record(form, file.value, user.value, store, bucket, when, now, createFail, uploadFail, patchFail);
      if r.Ok? {
        Finish(user.value, store, readFail);
      }
    }
  }

  /** A submitted record appears in the refreshed list of the student's submissions, unless that read fails. */
  lemma NewSubmissionIsListed(store: AchievementService.AchievementStore, id: Id, uid: string)
    requires store.Valid() && id in store.docs && store.docs[id].studentId == uid
    ensures store.docs[id] in AchievementService.GetStudentAchievements(store.Listing(), uid, false)
  {
  }
}

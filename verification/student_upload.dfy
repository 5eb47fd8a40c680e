/**
 * The student upload screen: the 10 MB file limit, the ordered refusals of
 * a submit, and the pending record with its certificate.
 */
module StudentUpload {
  import opened Wrappers
  import opened Types
  import CloudStorage
  import AchievementService
  import AdminService
  import Submission

  datatype Form = Form(
    title: string, description: string, category: string, organizationName: string, eventDate: string, tags: string)

  const BlankForm: Form := Form("", "", "", "", "", "")

  /** 10 MB: `10 * 1024 * 1024` bytes. */
  const MaxFileSize: nat := 10 * 1024 * 1024

  const TooLarge: string := "File size must be less than 10MB"
  const LoginFirst: string := "Please login first"
  const SelectFile: string := "Please select a file"
  const MissingFields: string := "Please fill all required fields"
  const Uploaded: string := "\U{2713} Achievement uploaded successfully!"
  const UsingDefaults: string := "Using default categories"

  /** A file is accepted when it is at most 10 MB; the test that refuses is `size > 10 MB`. */
  predicate Acceptable(f: Submission.File) {
    f.size <= MaxFileSize
  }

  /** Exactly 10 MB is accepted, one byte more is not. */
  lemma LimitIsInclusive()
    ensures Acceptable(Submission.File("a.pdf", 10485760))
    ensures !Acceptable(Submission.File("a.pdf", 10485761))
  {
  }

  /** The refusal of a submit, checked in this order: no user, no file, a missing title, category or date. */
  function Refusal(form: Form, file: Option<Submission.File>, user: Option<User>): (r: Option<string>)
    ensures r.None? <==> user.Some? && file.Some? && form.title != "" && form.category != "" && form.eventDate != ""
    ensures user.None? ==> r == Some(LoginFirst)
    ensures user.Some? && file.None? ==> r == Some(SelectFile)
  {
    if user.None? then Some(LoginFirst)
    else if file.None? then Some(SelectFile)
    else if form.title == "" || form.category == "" || form.eventDate == "" then Some(MissingFields)
    else None
  }

  /** The record a submit creates under `id`: the user's own name and id, department `user.department || ''`. */
  function NewUpload(id: Id, f: Form, u: User, when: int, now: int): (a: Achievement)
    ensures AchievementService.Unreviewed(a) && AchievementService.Uncertified(a)
    ensures a.id == id && a.studentId == u.id && a.studentEmail == u.email && a.studentName == u.name
    ensures a.department == a.studentDepartment == Some(OrElse(u.department, ""))
    ensures a.tags == Submission.ParseTags(f.tags)
  {
    AchievementService.NewAchievement(
      id, u.id, u.email, u.name, f.title, f.description, f.category, f.organizationName, when,
      OrElse(u.department, ""), Submission.ParseTags(f.tags), now)
  }

  class Screen {
    var form: Form
    var file: Option<Submission.File>
    var progress: nat
    var categories: seq<string>
    var toasts: seq<string>

    constructor ()
      ensures form == BlankForm && file == None && progress == 0 && categories == [] && toasts == []
    {
      form := BlankForm;
      file := None;
      progress := 0;
      categories := [];
      toasts := [];
    }

    /** `loadCategories`: the shared load; this screen says when it fell back to the fixed names. */
    method LoadCategories(
      store: AdminService.CategoryStore, firstReadFail: bool, addFails: seq<bool>, secondReadFail: bool, now: int)
      requires store.Valid() && |addFails| == |Submission.Defaults|
      modifies this, store
      ensures store.Valid()
      ensures var fellBack := (firstReadFail || old(store.Listing()) == [])
        && Submission.FirstFailure(addFails) < |Submission.Defaults|;
        (fellBack ==> toasts == old(toasts) + [UsingDefaults]) && (!fellBack ==> toasts == old(toasts))
      ensures var first := if firstReadFail then [] else old(store.Listing());
        first != [] ==> (categories == Submission.Names(first)
          && store.docs == old(store.docs) && store.nextId == old(store.nextId))
      ensures var first := if firstReadFail then [] else old(store.Listing());
        first == [] ==> (var k := Submission.FirstFailure(addFails);
          store.docs == Submission.Seeded(old(store.docs), Submission.Defaults, old(store.nextId), k, now)
          && store.nextId == old(store.nextId) + k
          && categories == (if k < |Submission.Defaults| then Submission.FallbackNames
            else if secondReadFail then [] else Submission.Names(store.Listing())))
      ensures form == old(form) && file == old(file) && progress == old(progress)
    {
      var names, fellBack := Submission.LoadCategories(store, firstReadFail, addFails, secondReadFail, now);
      categories := names;
      if fellBack {
        toasts := toasts + [UsingDefaults];
      }
    }

    /** `handleFileChange`: a file over 10 MB is refused and the selection stays as it was. */
    method HandleFileChange(picked: Option<Submission.File>)
      modifies this
      ensures picked.Some? && !Acceptable(picked.value) ==> file == old(file) && toasts == old(toasts) + [TooLarge]
      ensures picked.Some? && Acceptable(picked.value) ==>
        file == picked && toasts == old(toasts) + ["File selected: " + picked.value.name]
      ensures picked.None? ==> file == old(file) && toasts == old(toasts)
      ensures form == old(form) && progress == old(progress) && categories == old(categories)
    {
      if picked.Some? {
        if picked.value.size > MaxFileSize {
          toasts := toasts + [TooLarge];
          return;
        }
        file := picked;
        toasts := toasts + ["File selected: " + picked.value.name];
      }
    }

    /** The first write of a submit: the pending record, then the progress bar runs to 100. */
    method Create(f: Form, u: User, store: AchievementService.AchievementStore, when: Option<int>, now: int, createFail: bool)
      returns (r: Result<Id, string>)
      requires store.Valid()
      modifies this, store
      ensures store.Valid()
      ensures r.Ok? <==> when.Some? && !createFail
      ensures r.Ok? ==> (r.value == old(store.nextId) && r.value !in old(store.docs)
        && store.docs == old(store.docs)[r.value := NewUpload(r.value, f, u, when.value, now)] && progress == 100)
      ensures r.Err? ==> store.docs == old(store.docs) && progress == old(progress)
      ensures form == old(form) && file == old(file) && categories == old(categories) && toasts == old(toasts)
    {
      r := store.CreateAchievement(
        u.id, u.email, u.name, f.title, f.description, f.category, f.organizationName,
        when, OrElse(u.department, ""), Submission.ParseTags(f.tags), now, createFail);
      if r.Ok? {
        var shown := Submission.SimulateProgress();
        progress := shown[|shown| - 1];
      }
    }

    /**
     * The writes of `handleSubmit` once the pre-checks passed: create the
     * pending record, run the progress bar, upload the certificate. The
     * first failure ends the run and undoes nothing.
     */
    method Record(
      f: Form, picked: Submission.File, u: User, store: AchievementService.AchievementStore,
      bucket: CloudStorage.Bucket, when: Option<int>, now: int, createFail: bool, uploadFail: bool, patchFail: bool)
      returns (r: Result<Id, string>)
      requires store.Valid()
      modifies this, store, bucket
      ensures store.Valid()
      ensures var id := old(store.nextId);
        var created := when.Some? && !createFail;
        var uploaded := created && !uploadFail && !patchFail;
        var path := AchievementService.CertificatePath(u.id, id, picked.name);
        var record := NewUpload(id, f, u, if created then when.value else 0, now);
        (r.Ok? <==> uploaded) && (r.Ok? ==> r.value == id)
        && store.docs == Submission.Written(old(store.docs), record, created, uploaded, CloudStorage.DownloadUrl(path), picked, now)
        && bucket.objects == (if created && !uploadFail then old(bucket.objects)[path := picked.size] else old(bucket.objects))
        && progress == (if created then 100 else old(progress))
      ensures form == old(form) && file == old(file) && toasts == old(toasts) && categories == old(categories)
    {
      r := Create(f, u, store, when, now, createFail);
      if r.Ok? {
        var uploaded := store.UploadCertificate(bucket, r.value, u.id, picked.name, picked.size, now, uploadFail, patchFail);
        if uploaded.Err? {
          r := Err(uploaded.error);
        }
      }
    }

    /** The end of a successful submit: the success toast and a cleared form. */
    method Finish()
      modifies this
      ensures form == BlankForm && file == None && progress == 0 && toasts == old(toasts) + [Uploaded]
      ensures categories == old(categories)
    {
      toasts := toasts + [Uploaded];
      form := BlankForm;
      file := None;
      progress := 0;
    }

    /**
     * `handleSubmit`. `when` is the timestamp the date field converts to.
     * A refused submit writes nothing and shows the first refusal. Otherwise
     * the record is created, the progress bar runs, the certificate is
     * uploaded, and the categories are read once more with the result
     * unused (that read cannot fail); the first failure ends the run with
     * its message and undoes nothing, and only a full success clears the
     * form. The record stays pending. The result is the new record's id,
     * or the message the one toast of a refused or failed submit shows.
     */
    method HandleSubmit(
      user: Option<User>, store: AchievementService.AchievementStore, bucket: CloudStorage.Bucket,
      when: Option<int>, now: int, createFail: bool, uploadFail: bool, patchFail: bool)
      returns (r: Result<Id, string>)
      requires store.Valid()
      modifies this, store, bucket
      ensures store.Valid() && categories == old(categories)
      ensures Refusal(old(form), old(file), user).Some? ==>
        r.Err? && store.docs == old(store.docs) && store.nextId == old(store.nextId) && bucket.objects == old(bucket.objects)
        && form == old(form) && file == old(file) && progress == old(progress)
        && toasts == old(toasts) + [Refusal(old(form), old(file), user).value]
      ensures Refusal(old(form), old(file), user).None? ==>
        var f, picked, u, id := old(form), old(file).value, user.value, old(store.nextId);
        var created := when.Some? && !createFail;
        var uploaded := created && !uploadFail && !patchFail;
        var path := AchievementService.CertificatePath(u.id, id, picked.name);
        var record := NewUpload(id, f, u, if created then when.value else 0, now);
        (r.Ok? <==> uploaded) && (r.Ok? ==> r.value == id)
        && store.docs == Submission.Written(old(store.docs), record, created, uploaded, CloudStorage.DownloadUrl(path), picked, now)
        && bucket.objects == (if created && !uploadFail then old(bucket.objects)[path := picked.size] else old(bucket.objects))
        && (uploaded ==> form == BlankForm && file == None && progress == 0 && toasts == old(toasts) + [Uploaded])
        && (!uploaded ==> form == old(form) && file == old(file) && toasts == old(toasts) + [r.error])
        && (created && !uploaded ==> progress == 100)
        && (!created ==> progress == old(progress))
    {
      var refusal := Refusal(form, file, user);
      if refusal.Some? {
        toasts := toasts + [refusal.value];
        return Err(refusal.value);
      }
      r := Record(form, file.value, user.value, store, bucket, when, now, createFail, uploadFail, patchFail);
      if r.Err? {
        toasts := toasts + [r.error];
        return;
      }
      Finish();
    }
  }
}

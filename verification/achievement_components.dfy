/**
 * The achievement form (field validation, the submit sequence, the toast
 * queue) and the achievement list (what each card shows for a record).
 */
module AchievementComponents {
  import opened Wrappers
  import opened Types
  import Text
  import CloudStorage
  import AchievementService
  import NotificationService
  import Submission

  // ---------------------------------------------------------------- validation

  /** The fields `validationErrors` is keyed by. */
  datatype Field = TitleField | DescriptionField | CategoryField | OrganizationNameField | EventDateField | CertificateField {
    /** The key under which the message is stored. */
    function Key(): string {
      match this
      case TitleField => "title"
      case DescriptionField => "description"
      case CategoryField => "category"
      case OrganizationNameField => "organizationName"
      case EventDateField => "eventDate"
      case CertificateField => "certificate"
    }
  }

  const TitleRequired: string := "Title is required"
  const DescriptionRequired: string := "Description is required"
  const CategoryRequired: string := "Category is required"
  const OrganizationRequired: string := "Organization name is required"
  const EventDateRequired: string := "Event date is required"
  const CertificateRequired: string := "Certificate file is required"

  const FixErrors: string := "Please fix the errors above"
  const UploadingAchievement: string := "\U{1F4E4} Uploading achievement..."
  const UploadingCertificate: string := "\U{1F4CE} Uploading certificate..."
  const Uploaded: string := "\U{2713} Achievement uploaded successfully!"

  const SubmittedKind: string := "achievement_submitted"
  const SubmittedTitle: string := "\U{2713} Achievement Submitted"
  const SubmittedMessage: string := "Your achievement has been submitted for verification"

  /**
   * The notification a submit sends to the submitting user: its type text
   * has no `p`, so it never mentions `approved` and has normal priority.
   */
  function SubmittedNotification(id: Id, u: User, now: int): (n: Notification)
    ensures n.id == id && n.userId == u.id && n.kind == SubmittedKind && n.title == SubmittedTitle
    ensures n.message == SubmittedMessage && !n.isRead && n.actionUrl == "" && n.createdAt == now
    ensures n.priority == Normal
  {
    Text.NotContainedAt(SubmittedKind, "approved", 1);
    NotificationService.NewNotification(id, u.id, SubmittedKind, SubmittedTitle, SubmittedMessage, None, None, now)
  }

  /** The `createNotification` call of a submit. */
  method NotifySubmitted(notes: NotificationService.NotificationStore, u: User, now: int, fail: bool)
    returns (r: Result<Id, string>)
    requires notes.Valid()
    modifies notes
    ensures notes.Valid()
    ensures r.Ok? <==> !fail
    ensures r.Ok? ==> notes.docs == old(notes.docs)[old(notes.nextId) := SubmittedNotification(old(notes.nextId), u, now)]
    ensures r.Err? ==> notes.docs == old(notes.docs) && notes.nextId == old(notes.nextId)
  {
    r := notes.CreateNotification(u.id, SubmittedKind, SubmittedTitle, SubmittedMessage, None, None, now, fail);
  }

  /** The four categories the form offers. */
  const FormCategories: seq<string> :=
    ["\U{1F3A4} Conference", "\U{1F3C6} Competition", "\U{1F4DA} Workshop", "\U{1F4DC} Certification"]

  /**
   * The form passes validation: title, description and organisation are not
   * blank (`trim()` leaves something), category and date are not empty, and
   * a certificate is chosen.
   */
  predicate Complete(
    title: string, description: string, category: string, organizationName: string, eventDate: string,
    certificate: Option<Submission.File>)
  {
    !Text.AllSpace(title) && !Text.AllSpace(description) && category != ""
    && !Text.AllSpace(organizationName) && eventDate != "" && certificate.Some?
  }

  /** The record `handleSubmit` creates under `id`: no tags, department `user.department || ''`. */
  function NewEntry(
    id: Id, title: string, description: string, category: string, organizationName: string,
    u: User, when: int, now: int): (a: Achievement)
    ensures AchievementService.Unreviewed(a) && AchievementService.Uncertified(a)
    ensures a.id == id && a.studentId == u.id && a.studentEmail == u.email && a.studentName == u.name
    ensures a.tags == [] && a.department == a.studentDepartment == Some(OrElse(u.department, ""))
  {
    AchievementService.NewAchievement(
      id, u.id, u.email, u.name, title, description, category, organizationName, when,
      OrElse(u.department, ""), [], now)
  }

  /** `!s.trim()`: the text trims to nothing exactly when it is blank. */
  method TrimsToEmpty(s: string) returns (empty: bool)
    ensures empty <==> Text.AllSpace(s)
  {
    Text.TrimEmptyIffBlank(s);
    empty := Text.Trim(s) == "";
  }

  // ---------------------------------------------------------------- toast queue

  /** One expiry: the oldest toast leaves (`prev.slice(1)`); an empty queue stays empty. */
  function Expire(q: seq<string>): (r: seq<string>)
    ensures |q| > 0 ==> |r| == |q| - 1 && forall i | 0 <= i < |r| :: r[i] == q[i + 1]
    ensures |q| == 0 ==> r == []
  {
    if q == [] then [] else q[1..]
  }

  /** `n` expiries in a row. */
  function ExpireTimes(q: seq<string>, n: nat): (r: seq<string>)
    ensures |r| == if n <= |q| then |q| - n else 0
  {
    if n == 0 then q else ExpireTimes(Expire(q), n - 1)
  }

  /** First in, first out: expiring as many times as there are older toasts leaves exactly the newer ones. */
  lemma {:induction false} OldestLeaveFirst(older: seq<string>, newer: seq<string>)
    ensures ExpireTimes(older + newer, |older|) == newer
  {
    if older != [] {
      assert Expire(older + newer) == older[1..] + newer;
      OldestLeaveFirst(older[1..], newer);
    }
  }

  // ---------------------------------------------------------------- the form

  class AchievementForm {
    var title: string
    var description: string
    var category: string
    var organizationName: string
    var eventDate: string
    var certificate: Option<Submission.File>
    var categories: seq<string>
    /** `validationErrors`: field name to message. */
    var errors: map<Field, string>
    var error: string
    var success: bool
    var toasts: seq<string>

    constructor ()
      ensures title == description == category == organizationName == eventDate == ""
      ensures certificate == None && categories == FormCategories && errors == map[]
      ensures error == "" && !success && toasts == []
    {
      title, description, category, organizationName, eventDate := "", "", "", "", "";
      certificate := None;
      categories := FormCategories;
      errors := map[];
      error := "";
      success := false;
      toasts := [];
    }

    /** `addToast`: the message joins the back of the queue. */
    method AddToast(message: string)
      modifies this
      ensures categories == old(categories)
      ensures toasts == old(toasts) + [message]
      ensures title == old(title) && description == old(description) && category == old(category)
      ensures organizationName == old(organizationName) && eventDate == old(eventDate)
      ensures certificate == old(certificate) && errors == old(errors) && error == old(error) && success == old(success)
    {
      toasts := toasts + [message];
    }

    /** The timer `addToast` starts: when it fires, the oldest toast leaves. */
    method ExpireToast()
      modifies this
      ensures categories == old(categories)
      ensures toasts == Expire(old(toasts))
      ensures title == old(title) && description == old(description) && category == old(category)
      ensures organizationName == old(organizationName) && eventDate == old(eventDate)
      ensures certificate == old(certificate) && errors == old(errors) && error == old(error) && success == old(success)
    {
      if |toasts| > 0 {
        toasts := toasts[1..];
      }
    }

    /**
     * `validateForm`: one message per failing field, and the form is valid
     * exactly when there are none.
     */
    method ValidateForm() returns (valid: bool)
      modifies this
      ensures categories == old(categories)
      ensures valid <==> errors == map[]
      ensures valid <==> Complete(title, description, category, organizationName, eventDate, certificate)
      ensures (TitleField in errors <==> Text.AllSpace(title)) && (TitleField in errors ==> errors[TitleField] == TitleRequired)
      ensures (DescriptionField in errors <==> Text.AllSpace(description))
        && (DescriptionField in errors ==> errors[DescriptionField] == DescriptionRequired)
      ensures (CategoryField in errors <==> category == "") && (CategoryField in errors ==> errors[CategoryField] == CategoryRequired)
      ensures (OrganizationNameField in errors <==> Text.AllSpace(organizationName))
        && (OrganizationNameField in errors ==> errors[OrganizationNameField] == OrganizationRequired)
      ensures (EventDateField in errors <==> eventDate == "") && (EventDateField in errors ==> errors[EventDateField] == EventDateRequired)
      ensures (CertificateField in errors <==> certificate.None?)
        && (CertificateField in errors ==> errors[CertificateField] == CertificateRequired)
      ensures title == old(title) && description == old(description) && category == old(category)
      ensures organizationName == old(organizationName) && eventDate == old(eventDate) && certificate == old(certificate)
      ensures toasts == old(toasts) && error == old(error) && success == old(success)
    {
      var found: map<Field, string> := map[];
      var blank := TrimsToEmpty(title);
      found := if blank then found[TitleField := TitleRequired] else found;
      blank := TrimsToEmpty(description);
      found := if blank then found[DescriptionField := DescriptionRequired] else found;
      found := if category == "" then found[CategoryField := CategoryRequired] else found;
      blank := TrimsToEmpty(organizationName);
      found := if blank then found[OrganizationNameField := OrganizationRequired] else found;
      found := if eventDate == "" then found[EventDateField := EventDateRequired] else found;
      found := if certificate.None? then found[CertificateField := CertificateRequired] else found;
      assert found == map[] <==> (TitleField !in found && DescriptionField !in found && CategoryField !in found
        && OrganizationNameField !in found && EventDateField !in found && CertificateField !in found) by {
        if forall f: Field :: f !in found {
          assert found.Keys == {};
        }
      }
      errors := found;
      valid := found == map[];
    }

    /**
     * `handleCertificateChange`: a picked file replaces the certificate and
     * blanks its message. The toast names the file; the size it prints is
     * not modelled.
     */
    method CertificateChange(picked: Option<Submission.File>)
      modifies this
      ensures categories == old(categories)
      ensures picked.None? ==> certificate == old(certificate) && errors == old(errors) && toasts == old(toasts)
      ensures picked.Some? ==> (certificate == picked && errors == old(errors)[CertificateField := ""]
        && |toasts| == |old(toasts)| + 1 && toasts[..|old(toasts)|] == old(toasts))
      ensures title == old(title) && description == old(description) && category == old(category)
      ensures organizationName == old(organizationName) && eventDate == old(eventDate)
      ensures error == old(error) && success == old(success)
    {
      if picked.Some? {
        certificate := picked;
        errors := errors[CertificateField := ""];
        var file := picked.value;
        toasts := toasts + ["\U{1F4CE} File selected: " + file.name];
      }
    }

    /** The first write of a submit: the uploading toast, then the record from the form's fields. */
    method Create(u: User, store: AchievementService.AchievementStore, when: Option<int>, now: int, createFail: bool)
      returns (r: Result<Id, string>)
      requires store.Valid()
      modifies this, store
      ensures categories == old(categories)
      ensures store.Valid()
      ensures r.Ok? <==> when.Some? && !createFail
      ensures r.Ok? ==> (r.value == old(store.nextId) && r.value !in old(store.docs)
        && store.docs == old(store.docs)[r.value := NewEntry(
          r.value, title, description, category, organizationName, u, when.value, now)])
      ensures r.Err? ==> store.docs == old(store.docs)
      ensures toasts == old(toasts) + [UploadingAchievement]
      ensures title == old(title) && description == old(description) && category == old(category)
      ensures organizationName == old(organizationName) && eventDate == old(eventDate) && certificate == old(certificate)
      ensures errors == old(errors) && error == old(error) && success == old(success)
    {
      toasts := toasts + [UploadingAchievement];
      r := store.CreateAchievement(
        u.id, u.email, u.name, title, description, category, organizationName, when,
        OrElse(u.department, ""), [], now, createFail);
    }

    /**
     * The writes of `handleSubmit` after validation: create the record, upload
     * the certificate when there is one, notify the student. The first
     * failure ends the run, and nothing already written is undone.
     */
    method Record(
      u: User, store: AchievementService.AchievementStore, bucket: CloudStorage.Bucket,
      notes: NotificationService.NotificationStore, when: Option<int>, now: int,
      createFail: bool, uploadFail: bool, patchFail: bool, notifyFail: bool)
      returns (r: Result<Id, string>)
      requires store.Valid() && notes.Valid()
      modifies this, store, bucket, notes
      ensures categories == old(categories)
      ensures store.Valid() && notes.Valid()
      ensures var id := old(store.nextId);
        var created := when.Some? && !createFail;
        var attached := created && certificate.Some? && !uploadFail && !patchFail;
        var uploaded := created && (certificate.None? || attached);
        var notified := uploaded && !notifyFail;
        var record := NewEntry(id, title, description, category, organizationName, u, if created then when.value else 0, now);
        (r.Ok? <==> notified) && (r.Ok? ==> r.value == id)
        && store.docs == (if !created then old(store.docs)
          else if !attached then old(store.docs)[id := record]
          else var path := AchievementService.CertificatePath(u.id, id, certificate.value.name);
            old(store.docs)[id := AchievementService.WithCertificate(
              record, CloudStorage.DownloadUrl(path), certificate.value.name, certificate.value.size, now)])
        && bucket.objects == (if created && certificate.Some? && !uploadFail
          then old(bucket.objects)[AchievementService.CertificatePath(u.id, id, certificate.value.name) := certificate.value.size]
          else old(bucket.objects))
        && notes.docs == (if notified then old(notes.docs)[old(notes.nextId) := SubmittedNotification(old(notes.nextId), u, now)] else old(notes.docs))
        && toasts == old(toasts) + [UploadingAchievement] + (if created && certificate.Some? then [UploadingCertificate] else [])
      ensures title == old(title) && description == old(description) && category == old(category)
      ensures organizationName == old(organizationName) && eventDate == old(eventDate) && certificate == old(certificate)
      ensures errors == old(errors) && error == old(error) && success == old(success)
    {
      r := Create(u, store, when, now, createFail);
      if r.Err? {
        return;
      }
      var id := r.value;
      if certificate.Some? {
        toasts := toasts + [UploadingCertificate];
        var file := certificate.value;
        var uploaded := store.UploadCertificate(bucket, id, u.id, file.name, file.size, now, uploadFail, patchFail);
        if uploaded.Err? {
          return Err(uploaded.error);
        }
      }
      var notified := NotifySubmitted(notes, u, now, notifyFail);
      if notified.Err? {
        return Err(notified.error);
      }
      return Ok(id);
    }

    /**
     * `handleSubmit`. Without a user nothing happens; an invalid form shows
     * one toast and writes nothing; otherwise the writes of `Record` run and
     * `success` is set only when all of them went through. A valid form has a
     * certificate, so the certificate is always uploaded.
     */
    method HandleSubmit(
      user: Option<User>, store: AchievementService.AchievementStore, bucket: CloudStorage.Bucket,
      notes: NotificationService.NotificationStore, when: Option<int>, now: int,
      createFail: bool, uploadFail: bool, patchFail: bool, notifyFail: bool)
      requires store.Valid() && notes.Valid()
      modifies this, store, bucket, notes
      ensures categories == old(categories)
      ensures store.Valid() && notes.Valid()
      ensures title == old(title) && description == old(description) && category == old(category)
      ensures organizationName == old(organizationName) && eventDate == old(eventDate) && certificate == old(certificate)
      ensures user.None? ==> (store.docs == old(store.docs) && bucket.objects == old(bucket.objects)
        && notes.docs == old(notes.docs) && errors == old(errors) && toasts == old(toasts)
        && error == old(error) && success == old(success))
      ensures user.Some? && !Complete(title, description, category, organizationName, eventDate, certificate) ==>
        errors != map[] && store.docs == old(store.docs) && store.nextId == old(store.nextId)
        && bucket.objects == old(bucket.objects) && notes.docs == old(notes.docs)
        && toasts == old(toasts) + [FixErrors] && error == old(error) && success == old(success)
      ensures user.Some? && Complete(title, description, category, organizationName, eventDate, certificate) ==>
        var u, id, file := user.value, old(store.nextId), certificate.value;
        var created := when.Some? && !createFail;
        var attached := created && !uploadFail && !patchFail;
        var notified := attached && !notifyFail;
        var path := AchievementService.CertificatePath(u.id, id, file.name);
        var record := NewEntry(id, title, description, category, organizationName, u, if created then when.value else 0, now);
        errors == map[]
        && store.docs == (if !created then old(store.docs)
          else if !attached then old(store.docs)[id := record]
          else old(store.docs)[id := AchievementService.WithCertificate(
            record, CloudStorage.DownloadUrl(path), file.name, file.size, now)])
        && bucket.objects == (if created && !uploadFail then old(bucket.objects)[path := file.size] else old(bucket.objects))
        && notes.docs == (if notified then old(notes.docs)[old(notes.nextId) := SubmittedNotification(old(notes.nextId), u, now)] else old(notes.docs))
        && (success <==> notified)
        && (notified ==> error == "" && toasts == old(toasts) + [UploadingAchievement, UploadingCertificate, Uploaded])
        && (!notified ==> |toasts| == |old(toasts)| + (if created then 3 else 2) && toasts[|toasts| - 1] == error)
    {
      if user.None? {
        return;
      }
      var valid := ValidateForm();
      if !valid {
        toasts := toasts + [FixErrors];
        return;
      }
      error := "";
      success := false;
      var r := Record(user.value, store, bucket, notes, when, now, createFail, uploadFail, patchFail, notifyFail);
      if r.Err? {
        error := r.error;
        toasts := toasts + [r.error];
        return;
      }
      success := true;
      toasts := toasts + [Uploaded];
    }

    /** The delayed reset after a successful submit: every field and the certificate are cleared. */
    method ResetAfterSuccess()
      modifies this
      ensures categories == old(categories)
      ensures title == description == category == organizationName == eventDate == "" && certificate == None
      ensures errors == old(errors) && toasts == old(toasts) && success == old(success) && error == old(error)
    {
      title, description, category, organizationName, eventDate := "", "", "", "", "";
      certificate := None;
    }
  }

  // ---------------------------------------------------------------- the list

  /** The remarks box shows when the remarks are not empty. */
  predicate RemarksShown(a: Achievement) {
    a.remarks != ""
  }

  /** The certificate panel: only when the list is asked to show certificates, for an approved record with a URL. */
  predicate CertificatePanelShown(showCertificate: bool, a: Achievement) {
    showCertificate && a.status == Approved && a.certificateUrl != ""
  }

  /** A certificate is shown as a PDF when its lowercased file name ends in `.pdf`. */
  predicate IsPdf(fileName: string) {
    Text.EndsWith(Text.ToLower(fileName), ".pdf")
  }

  /** The verifier line: both the verifier's name and the verification date are present. */
  predicate VerifierLineShown(a: Achievement) {
    a.verifiedByName != "" && a.verificationDate.Some?
  }

  /** A record whose certificate is attached and which is then approved shows its panel. */
  lemma ApprovedCertificateShown(a: Achievement, url: string, fileName: string, size: nat, remarks: string, verifier: string,
    byName: string, now: int)
    requires url != ""
    ensures var b := AchievementService.WithReview(
      AchievementService.WithCertificate(a, url, fileName, size, now), Approved, remarks, verifier, byName, now);
      CertificatePanelShown(true, b) && (byName != "" ==> VerifierLineShown(b))
  {
  }

  /** The PDF test looks at the last four characters only, ignoring their case. */
  lemma {:induction false} PdfBySuffix(fileName: string)
    ensures IsPdf(fileName) <==> |fileName| >= 4 && Text.ToLower(fileName[|fileName| - 4..]) == ".pdf"
  {
    var low := Text.ToLower(fileName);
    if |fileName| >= 4 {
      var tail := Text.ToLower(fileName[|fileName| - 4..]);
      assert low[|low| - 4..] == tail by {
        forall i | 0 <= i < 4 ensures low[|low| - 4..][i] == tail[i] {
          assert low[|low| - 4 + i] == Text.LowerChar(fileName[|fileName| - 4 + i]);
        }
      }
    }
  }

  /** Upper-case extensions count. */
  lemma UpperCasePdf()
    ensures IsPdf("CERT.PDF") && IsPdf("a.Pdf")
  {
    PdfBySuffix("CERT.PDF");
    PdfBySuffix("a.Pdf");
  }

  /** A name that only contains `.pdf` elsewhere is not a PDF, nor is a name shorter than the extension. */
  lemma PdfOnlyAtEnd()
    ensures !IsPdf("a.pdf.png") && !IsPdf("pdf")
  {
    PdfBySuffix("a.pdf.png");
  }

  /** A record nobody has reviewed never shows the verifier line. */
  lemma UnreviewedHasNoVerifierLine(a: Achievement)
    requires AchievementService.Unreviewed(a)
    ensures !VerifierLineShown(a) && a.status == Pending
  {
  }

  const ApprovedColor: string := "bg-green-100 border-green-300 text-green-800"
  const RejectedColor: string := "bg-red-100 border-red-300 text-red-800"
  const PendingColor: string := "bg-yellow-100 border-yellow-300 text-yellow-800"
  const OtherColor: string := "bg-gray-100 border-gray-300 text-gray-800"

  /** `getStatusColor`: a switch on the status text with a grey default. */
  function StatusColor(status: string): (c: string)
    ensures c in {ApprovedColor, RejectedColor, PendingColor, OtherColor}
    ensures c == OtherColor <==> ParseStatus(status).None?
  {
    if status == Approved.Wire() then ApprovedColor
    else if status == Rejected.Wire() then RejectedColor
    else if status == Pending.Wire() then PendingColor
    else OtherColor
  }

  /** `getStatusIcon`: a check mark, a cross, an hourglass, and a bullet for anything else. */
  function StatusIcon(status: string): (icon: string)
    ensures icon in {"\U{2713}", "\U{2715}", "\U{23F3}", "\U{2022}"}
    ensures icon == "\U{2022}" <==> ParseStatus(status).None?
  {
    if status == Approved.Wire() then "\U{2713}"
    else if status == Rejected.Wire() then "\U{2715}"
    else if status == Pending.Wire() then "\U{23F3}"
    else "\U{2022}"
  }

  /** Each of the three statuses gets its own colour and its own icon. */
  lemma StatusStylesDistinct(s: AchievementStatus, t: AchievementStatus)
    ensures StatusColor(s.Wire()) == StatusColor(t.Wire()) <==> s == t
    ensures StatusIcon(s.Wire()) == StatusIcon(t.Wire()) <==> s == t
  {
    StatusRoundTrip(s);
    StatusRoundTrip(t);
  }
}

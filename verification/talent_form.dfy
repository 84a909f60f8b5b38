/** The talent sign-up form's submit handler: check the tech-stack selection,
    upload the resume when one was chosen, insert the profile row, and map
    the outcome to the state the form shows. The remote calls are not made
    here: their outcomes, and the random key, are parameters. */
module TalentForm {
  import opened Wrappers
  import opened Text
  import opened Tags
  import opened Submission
  import Dashboard

  /** The file chosen in the resume input; an untouched input yields an
      empty file. */
  datatype ResumeFile = ResumeFile(name: string, size: nat)

  /** The form fields other than the tech-stack chips. */
  datatype TalentFields = TalentFields(
    fullName: string,
    email: string,
    linkedin: string,
    yearsOfExperience: nat,
    clearanceEligible: bool,
    workPreference: string,
    accommodationPreferences: string,
    resume: Option<ResumeFile>)

  /** The row inserted into `talents`. */
  datatype TalentRow = TalentRow(
    fullName: string,
    email: string,
    linkedin: Option<string>,
    techStack: seq<Tag>,
    yearsOfExperience: nat,
    clearanceEligible: bool,
    workPreference: string,
    accommodationPreferences: Option<string>,
    resumePath: Option<string>)

  const NoSkillError := "Please select at least one skill from the tech stack."
  const UploadFailedPrefix := "Resume upload failed: "
  const DuplicateEmailError := "An account with this email already exists."

  /** A resume is uploaded only when a file is present and not empty. */
  predicate HasResume(fields: TalentFields) {
    fields.resume.Some? && fields.resume.value.size > 0
  }

  /** `name.split(".").pop()`: the text after the last dot, or the whole
      name when it has none. */
  function FileExtension(fileName: string): (ext: string)
    ensures '.' !in ext
    ensures '.' !in fileName ==> ext == fileName
  {
    LastSegment(fileName, '.')
  }

  /** The storage key `${uuid}.${ext}`. A key built from a dot-free
      identifier gives back the file's extension. */
  function ResumeKey(uuid: string, fileName: string): (key: string)
    ensures StartsWith(key, uuid + ".")
    ensures '.' !in uuid ==> LastSegment(key, '.') == FileExtension(fileName)
  {
    var ext := FileExtension(fileName);
    LastSegmentAfter(uuid, '.', ext);
    assert uuid + "." + ext == uuid + ['.'] + ext;
    assert (uuid + "." + ext)[..|uuid| + 1] == uuid + ".";
    uuid + "." + ext
  }

  /** The message shown for a failed insert: a duplicate-key failure gets
      its own wording, anything else is passed on after a prefix. */
  function InsertErrorMessage(message: string): (shown: string)
    ensures shown != ""
    ensures Contains(message, "duplicate") <==> shown == DuplicateEmailError
  {
    if Contains(message, "duplicate") then DuplicateEmailError
    else
      assert (SubmissionFailedPrefix + message)[0] == 'S' != DuplicateEmailError[0];
      SubmissionFailedPrefix + message
  }

  /** The row built from the fields, the selection and the resume path. */
  function RowOf(fields: TalentFields, selectedTech: seq<Tag>, resumePath: Option<string>): (row: TalentRow)
    ensures row.fullName == fields.fullName && row.email == fields.email
    ensures row.techStack == selectedTech && row.resumePath == resumePath
    ensures row.yearsOfExperience == fields.yearsOfExperience
    ensures row.clearanceEligible == fields.clearanceEligible
    ensures row.workPreference == fields.workPreference
    ensures row.linkedin == None <==> fields.linkedin == ""
    ensures row.linkedin != None ==> row.linkedin.value == fields.linkedin
    ensures row.accommodationPreferences == None <==> fields.accommodationPreferences == ""
    ensures row.accommodationPreferences != None ==> row.accommodationPreferences.value == fields.accommodationPreferences
  {
    TalentRow(
      fields.fullName,
      fields.email,
      NullIfEmpty(fields.linkedin),
      selectedTech,
      fields.yearsOfExperience,
      fields.clearanceEligible,
      fields.workPreference,
      NullIfEmpty(fields.accommodationPreferences),
      resumePath)
  }

  /** The insert step, after any calls already `issued`. */
  function InsertStep(issued: seq<Effect<TalentRow>>, row: TalentRow, insert: RemoteResult): (r: Submit<TalentRow>)
    ensures r.effects == issued + [Insert(row)]
    ensures Settled(r.state)
    ensures r.state.submitted <==> insert.Succeeded?
  {
    match insert
    case Succeeded => Submit(issued + [Insert(row)], FormState(true, "", false))
    case FailedWith(message) => Submit(issued + [Insert(row)], FormState(false, InsertErrorMessage(message), false))
  }

  /** `handleSubmit`, given the selection, the fields, the generated
      identifier and the outcomes of the upload and the insert. */
  function HandleSubmit(
    selectedTech: seq<Tag>, fields: TalentFields, uuid: string,
    upload: RemoteResult, insert: RemoteResult): (r: Submit<TalentRow>)
    ensures Settled(r.state)
    ensures UploadsBeforeInserts(r.effects)
    ensures |Uploads(r.effects)| <= 1 && |Inserts(r.effects)| <= 1
    ensures |Uploads(r.effects)| == 1 <==> selectedTech != [] && HasResume(fields)
    ensures |Inserts(r.effects)| == 1 <==> selectedTech != [] && (HasResume(fields) ==> upload.Succeeded?)
    ensures r.state.submitted <==> |Inserts(r.effects)| == 1 && insert.Succeeded?
  {
    if selectedTech == [] then
      Submit([], FormState(false, NoSkillError, false))
    else if HasResume(fields) then
      var key := ResumeKey(uuid, fields.resume.value.name);
      match upload
      case FailedWith(message) =>
        Submit([Upload(key)], FormState(false, UploadFailedPrefix + message, false))
      case Succeeded =>
        var r := InsertStep([Upload(key)], RowOf(fields, selectedTech, Some(key)), insert);
        assert Uploads(r.effects) == [key];
        assert Inserts(r.effects) == [RowOf(fields, selectedTech, Some(key))];
        r
    else
      var r := InsertStep([], RowOf(fields, selectedTech, None), insert);
      assert Uploads(r.effects) == [];
      assert Inserts(r.effects) == [RowOf(fields, selectedTech, None)];
      r
  }

  /** With nothing selected: the validation message, no call at all. */
  lemma EmptySelectionIsRejected(fields: TalentFields, uuid: string, upload: RemoteResult, insert: RemoteResult)
    ensures HandleSubmit([], fields, uuid, upload, insert) == Submit([], FormState(false, NoSkillError, false))
  {
  }

  /** A failed upload is reported with its message and stops the submit
      before the insert. */
  lemma UploadFailureStopsInsert(
    selectedTech: seq<Tag>, fields: TalentFields, uuid: string, message: string, insert: RemoteResult)
    requires selectedTech != [] && HasResume(fields)
    ensures var r := HandleSubmit(selectedTech, fields, uuid, FailedWith(message), insert);
      && Inserts(r.effects) == []
      && Uploads(r.effects) == [ResumeKey(uuid, fields.resume.value.name)]
      && r.state.error == UploadFailedPrefix + message
  {
  }

  /** The inserted `resume_path` is null exactly when nothing was uploaded,
      and otherwise is the uploaded key `${uuid}.${ext}`. */
  lemma ResumePathIsUploadedKey(
    selectedTech: seq<Tag>, fields: TalentFields, uuid: string, upload: RemoteResult, insert: RemoteResult)
    ensures var r := HandleSubmit(selectedTech, fields, uuid, upload, insert);
      forall row :: row in Inserts(r.effects) ==>
        && (row.resumePath == None <==> Uploads(r.effects) == [])
        && (row.resumePath != None ==>
              Uploads(r.effects) == [row.resumePath.value]
              && row.resumePath.value == uuid + "." + FileExtension(fields.resume.value.name))
  {
    var r := HandleSubmit(selectedTech, fields, uuid, upload, insert);
    if selectedTech != [] {
      if HasResume(fields) && upload.Succeeded? {
        var key := ResumeKey(uuid, fields.resume.value.name);
        assert Inserts(r.effects) == [RowOf(fields, selectedTech, Some(key))];
        assert Uploads(r.effects) == [key];
      } else if !HasResume(fields) {
        assert Inserts(r.effects) == [RowOf(fields, selectedTech, None)];
      }
    }
  }

  /** The inserted row carries the selection as it was, every field as it
      was entered, and empty optional fields as null. */
  lemma InsertedRowMatchesForm(
    selectedTech: seq<Tag>, fields: TalentFields, uuid: string, upload: RemoteResult, insert: RemoteResult)
    ensures var r := HandleSubmit(selectedTech, fields, uuid, upload, insert);
      forall row :: row in Inserts(r.effects) ==>
        && row.techStack == selectedTech
        && row.fullName == fields.fullName && row.email == fields.email
        && row.yearsOfExperience == fields.yearsOfExperience
        && row.clearanceEligible == fields.clearanceEligible
        && row.workPreference == fields.workPreference
        && row.linkedin == NullIfEmpty(fields.linkedin)
        && row.accommodationPreferences == NullIfEmpty(fields.accommodationPreferences)
  {
    var r := HandleSubmit(selectedTech, fields, uuid, upload, insert);
    if selectedTech != [] {
      if HasResume(fields) && upload.Succeeded? {
        var key := ResumeKey(uuid, fields.resume.value.name);
        assert Inserts(r.effects) == [RowOf(fields, selectedTech, Some(key))];
      } else if !HasResume(fields) {
        assert Inserts(r.effects) == [RowOf(fields, selectedTech, None)];
      }
    }
  }

  /** A failed insert shows the duplicate message when the store's message
      mentions "duplicate", and the prefixed message otherwise. */
  lemma InsertFailureMessage(
    selectedTech: seq<Tag>, fields: TalentFields, uuid: string, upload: RemoteResult, message: string)
    requires selectedTech != [] && (HasResume(fields) ==> upload.Succeeded?)
    ensures var r := HandleSubmit(selectedTech, fields, uuid, upload, FailedWith(message));
      && |Inserts(r.effects)| == 1
      && !r.state.submitted
      && (Contains(message, "duplicate") ==> r.state.error == DuplicateEmailError)
      && (!Contains(message, "duplicate") ==> r.state.error == SubmissionFailedPrefix + message)
  {
  }

  /** The file name offered on download ends in the extension of the file
      that was uploaded: the key's identifier holds no dot, so the
      extension survives the round trip through the storage key. */
  lemma DownloadKeepsUploadedExtension(uuid: string, fileName: string, fullName: string)
    requires '.' !in uuid
    ensures LastSegment(Dashboard.ResumeFileName(fullName, ResumeKey(uuid, fileName)), '.') == FileExtension(fileName)
  {
  }
}

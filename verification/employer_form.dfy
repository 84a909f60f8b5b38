/** The employer inquiry form's submit handler: check the required-skills
    selection, insert the inquiry row, and map the outcome to the state the
    form shows. The insert's outcome is a parameter. */
module EmployerForm {
  import opened Tags
  import opened Submission

  /** The form fields other than the skill chips. */
  datatype InquiryFields = InquiryFields(companyName: string, contactEmail: string, roleDescription: string)

  /** The row inserted into `employer_inquiries`. */
  datatype InquiryRow = InquiryRow(
    companyName: string,
    contactEmail: string,
    roleDescription: string,
    requiredSkills: seq<Tag>)

  const NoSkillError := "Please select at least one required skill."

  /** `handleSubmit`, given the selection, the fields and the outcome of the
      insert. There is no upload, and no special case for duplicates. */
  function HandleSubmit(selectedSkills: seq<Tag>, fields: InquiryFields, insert: RemoteResult): (r: Submit<InquiryRow>)
    ensures Settled(r.state)
    ensures Uploads(r.effects) == []
    ensures |Inserts(r.effects)| == 1 <==> selectedSkills != []
    ensures forall row :: row in Inserts(r.effects) ==>
              row == InquiryRow(fields.companyName, fields.contactEmail, fields.roleDescription, selectedSkills)
    ensures r.state.submitted <==> selectedSkills != [] && insert.Succeeded?
  {
    if selectedSkills == [] then
      Submit([], FormState(false, NoSkillError, false))
    else
      var row := InquiryRow(fields.companyName, fields.contactEmail, fields.roleDescription, selectedSkills);
      var r := match insert
        case Succeeded => Submit([Insert(row)], FormState(true, "", false))
        case FailedWith(message) => Submit([Insert(row)], FormState(false, SubmissionFailedPrefix + message, false));
      assert Inserts(r.effects) == [row] && Uploads(r.effects) == [];
      r
  }

  /** With nothing selected: the validation message, no insert. */
  lemma EmptySelectionIsRejected(fields: InquiryFields, insert: RemoteResult)
    ensures HandleSubmit([], fields, insert) == Submit([], FormState(false, NoSkillError, false))
  {
  }

  /** Every failed insert shows the store's message after the prefix, even
      one that reports a duplicate. */
  lemma InsertFailureMessage(selectedSkills: seq<Tag>, fields: InquiryFields, message: string)
    requires selectedSkills != []
    ensures HandleSubmit(selectedSkills, fields, FailedWith(message)).state
         == FormState(false, SubmissionFailedPrefix + message, false)
  {
  }
}

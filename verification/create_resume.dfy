/** The create-resume page of the client: a flat form edited field by field,
    and `toApiResume`, the projection of that form onto the JSON body posted
    to the resume endpoint. */
module CreateResumeForm {

  /** A form entry: the text fields hold strings; the list fields start out
      empty, and an input bound to one of them replaces the list by its text. */
  datatype FieldValue = Text(text: string) | Items(items: seq<string>)

  /** The keys of the form state, in declaration order. */
  datatype FieldName =
    | FullName | Email | Phone | Address | LinkedIn | Portfolio | School
    | EducationName | University | Degree | StartDate | EndDate | Description
    | DesiredJobPosition | PostCode | City | DateOfBirth | DriverLicense
    | Gender | Nationality | CivilStatus | Website
    | CustomFields | Skills | Languages | Hobbies | Employment

  predicate IsListField(f: FieldName) {
    f in {CustomFields, Skills, Languages, Hobbies, Employment}
  }

  type Form = map<FieldName, FieldValue>

  /** Every text field is present and holds text. */
  predicate WellFormed(form: Form) {
    forall f: FieldName :: !IsListField(f) ==> f in form && form[f].Text?
  }

  /** The initial form: every text field empty, every list field empty. */
  function InitialForm(): (form: Form)
    ensures WellFormed(form)
    ensures forall f: FieldName :: f in form
    ensures forall f: FieldName :: form[f] == if IsListField(f) then Items([]) else Text("")
  {
    map f: FieldName | true :: if IsListField(f) then Items([]) else Text("")
  }

  /** The inputs the page renders, section by section. `school` and
      `customFields` have none. */
  const Inputs: seq<FieldName> := [
    FullName, Email, Phone, Address, LinkedIn, Portfolio, DesiredJobPosition,
    PostCode, City, DateOfBirth, DriverLicense, Gender, Nationality, CivilStatus, Website,
    EducationName, University, Degree, StartDate, EndDate, Description,
    Skills, Languages, Hobbies, Employment]

  /** `handleChange`: the input named `name` now holds `value`. */
  function HandleChange(form: Form, name: FieldName, value: string): (r: Form)
    ensures name in r && r[name] == Text(value)
    ensures r.Keys == form.Keys + {name}
    ensures forall k :: k in form && k != name ==> r[k] == form[k]
    ensures WellFormed(form) ==> WellFormed(r)
  {
    form[name := Text(value)]
  }

  /** The text of a text field of a well-formed form. */
  function Field(form: Form, name: FieldName): string
    requires WellFormed(form)
    requires !IsListField(name)
  {
    form[name].text
  }

  // ---- The JSON body ----------------------------------------------------------

  /** The `personalDetails` object of the body, with the extra `school` member
      `toApiResume` writes. The phone number is never `null` here. */
  datatype PersonalDetailsBody = PersonalDetailsBody(
    name: string, desiredJobPosition: string, emailAddress: string, phoneNumber: string,
    address: string, school: string, postCode: string, city: string, dateOfBirth: string,
    driverLicense: string, gender: string, nationality: string, civilStatus: string,
    website: string, linkedIn: string, customFields: seq<string>)

  /** The one education object of the body. */
  datatype EducationBody = EducationBody(
    educationName: string, university: string, degree: string, school: string,
    city: string, startDate: string, endDate: string, description: string)

  /** The posted resume. The lists other than `educations` are always empty
      here, so their element type is immaterial. */
  datatype ResumeBody = ResumeBody(
    id: string,
    personalDetails: PersonalDetailsBody,
    educations: seq<EducationBody>,
    employment: seq<string>,
    skills: seq<string>,
    languages: seq<string>,
    hobbies: seq<string>)

  /** `toApiResume`; `id` stands for the fresh `crypto.randomUUID()`. */
  function ToApiResume(form: Form, id: string): (r: ResumeBody)
    requires WellFormed(form)
    ensures r.id == id
    ensures var p := r.personalDetails;
      && p.name == Field(form, FullName) && p.emailAddress == Field(form, Email)
      && p.phoneNumber == Field(form, Phone) && p.address == Field(form, Address)
      && p.school == Field(form, School)
      && p.website == Field(form, Portfolio) && p.linkedIn == Field(form, LinkedIn)
    ensures var p := r.personalDetails;
      && p.desiredJobPosition == "" && p.postCode == "" && p.city == "" && p.dateOfBirth == ""
      && p.driverLicense == "" && p.gender == "" && p.nationality == "" && p.civilStatus == ""
      && p.customFields == []
    ensures |r.educations| == 1
    ensures r.educations[0] == EducationBody(
      Field(form, EducationName), Field(form, University), Field(form, Degree), Field(form, School),
      Field(form, City), Field(form, StartDate), Field(form, EndDate), Field(form, Description))
    ensures r.employment == [] && r.skills == [] && r.languages == [] && r.hobbies == []
  {
    ResumeBody(
      id,
      PersonalDetailsBody(
        Field(form, FullName), "", Field(form, Email), Field(form, Phone),
        Field(form, Address), Field(form, School), "", "", "",
        "", "", "", "",
        Field(form, Portfolio), Field(form, LinkedIn), []),
      [EducationBody(
        Field(form, EducationName), Field(form, University), Field(form, Degree), Field(form, School),
        Field(form, City), Field(form, StartDate), Field(form, EndDate), Field(form, Description))],
      [], [], [], [])
  }

  /** The form fields `toApiResume` reads. */
  const ReadFields: set<FieldName> := {
    FullName, Email, Phone, Address, School, Portfolio, LinkedIn,
    EducationName, University, Degree, City, StartDate, EndDate, Description}

  /** Editing a field `toApiResume` does not read leaves the posted resume as
      it was: what is typed into the desired job position, post code, date of
      birth, driver licence, gender, nationality, civil status or website
      inputs, or into a list input, is dropped. */
  lemma UnreadFieldIsDropped(form: Form, name: FieldName, value: string, id: string)
    requires WellFormed(form)
    requires name !in ReadFields
    ensures ToApiResume(HandleChange(form, name, value), id) == ToApiResume(form, id)
  {
  }

  /** Where the posted resume carries a field `toApiResume` reads. `school`
      is posted twice; this names its personal-details copy. */
  function PostedValue(r: ResumeBody, name: FieldName): string
    requires name in ReadFields
    requires |r.educations| == 1
  {
    var p := r.personalDetails;
    var e := r.educations[0];
    match name
    case FullName => p.name
    case Email => p.emailAddress
    case Phone => p.phoneNumber
    case Address => p.address
    case School => p.school
    case Portfolio => p.website
    case LinkedIn => p.linkedIn
    case EducationName => e.educationName
    case University => e.university
    case Degree => e.degree
    case City => e.city
    case StartDate => e.startDate
    case EndDate => e.endDate
    case Description => e.description
  }

  /** Each read field is posted with exactly the text of that field. */
  lemma PostedIsField(form: Form, id: string, name: FieldName)
    requires WellFormed(form)
    requires name in ReadFields
    ensures PostedValue(ToApiResume(form, id), name) == Field(form, name)
  {
  }

  /** Editing a field `toApiResume` reads puts the typed text where that
      field is posted. */
  lemma ReadFieldIsPosted(form: Form, name: FieldName, value: string, id: string)
    requires WellFormed(form)
    requires name in ReadFields
    ensures PostedValue(ToApiResume(HandleChange(form, name, value), id), name) == value
  {
    var edited := HandleChange(form, name, value);
    assert Field(edited, name) == value;
    PostedIsField(edited, id, name);
  }

  /** Editing one field leaves the posted value of every other read field as it was. */
  lemma EditKeepsOtherPosted(form: Form, name: FieldName, value: string, id: string, other: FieldName)
    requires WellFormed(form)
    requires other in ReadFields && other != name
    ensures PostedValue(ToApiResume(HandleChange(form, name, value), id), other)
         == PostedValue(ToApiResume(form, id), other)
  {
    SameFieldSamePosted(HandleChange(form, name, value), form, id, other);
  }

  /** Two forms that agree on a read field post the same value for it. */
  lemma SameFieldSamePosted(f: Form, g: Form, id: string, name: FieldName)
    requires WellFormed(f) && WellFormed(g)
    requires name in ReadFields && Field(f, name) == Field(g, name)
    ensures PostedValue(ToApiResume(f, id), name) == PostedValue(ToApiResume(g, id), name)
  {
    PostedIsField(f, id, name);
    PostedIsField(g, id, name);
  }

  /** The form after typing into inputs, one edit after another. */
  function Edit(form: Form, edits: seq<(FieldName, string)>): Form
    decreases |edits|
  {
    if edits == [] then form else Edit(HandleChange(form, edits[0].0, edits[0].1), edits[1..])
  }

  /** No input is bound to `school`, so a resume built from the page always
      posts an empty school, in the personal details and in the education. */
  lemma {:induction false} SchoolIsAlwaysEmpty(edits: seq<(FieldName, string)>, id: string)
    requires forall i :: 0 <= i < |edits| ==> edits[i].0 in Inputs
    ensures WellFormed(Edit(InitialForm(), edits))
    ensures var r := ToApiResume(Edit(InitialForm(), edits), id);
      r.personalDetails.school == "" && r.educations[0].school == ""
  {
    EditsKeepSchool(InitialForm(), edits);
  }

  lemma {:induction false} EditsKeepSchool(form: Form, edits: seq<(FieldName, string)>)
    requires WellFormed(form)
    requires forall i :: 0 <= i < |edits| ==> edits[i].0 in Inputs
    ensures WellFormed(Edit(form, edits))
    ensures Edit(form, edits)[School] == form[School]
    decreases |edits|
  {
    if edits != [] {
      assert edits[0].0 != School;
      EditsKeepSchool(HandleChange(form, edits[0].0, edits[0].1), edits[1..]);
    }
  }
}

/** The wire-facing entities: field for field the domain ones, except that the
    API user also carries the quizzes taken. */
module Api {
  import opened Wrappers
  import opened Primitives

  datatype Level = Level(value: Int32, description: Option<string>)

  datatype CustomField = CustomField(labelText: string, value: string)

  datatype PersonalDetails = PersonalDetails(
    name: string,
    desiredJobPosition: Option<string>,
    emailAddress: string,
    phoneNumber: Option<string>,
    address: Option<string>,
    postCode: Option<string>,
    city: Option<string>,
    dateOfBirth: Option<Date>,
    driverLicense: Option<string>,
    gender: Option<string>,
    nationality: Option<string>,
    civilStatus: Option<string>,
    website: Option<string>,
    linkedIn: Option<string>,
    customFields: seq<CustomField>)

  datatype Education = Education(
    id: Guid,
    educationName: string,
    school: string,
    city: Option<string>,
    startDate: Option<Date>,
    endDate: Option<Date>,
    description: Option<string>)

  datatype Employment = Employment(
    id: Guid,
    jobTitle: string,
    employer: string,
    city: Option<string>,
    startDate: Option<Date>,
    endDate: Option<Date>,
    description: Option<string>)

  datatype Skill = Skill(name: string, level: Level)

  datatype Language = Language(name: string, level: Level)

  datatype Resume = Resume(
    id: Guid,
    personalDetails: PersonalDetails,
    educations: seq<Education>,
    employment: seq<Employment>,
    skills: seq<Skill>,
    languages: seq<Language>,
    hobbies: seq<string>)

  datatype Quiz = Quiz(quizId: Guid, quizScore: Int32)

  datatype User = User(id: Guid, email: string, resumes: seq<Resume>, quizzes: seq<Quiz>)
}

/** Conversions between the domain resume and the API resume, entity by entity.
    Each pair is a plain structural copy; lists are projected element by element
    into fresh lists. */
module ResumeMapper {
  import opened Lists
  import D = Domain
  import A = Api

  function LevelToApi(l: D.Level): (r: A.Level)
    ensures r.value == l.value && r.description == l.description
  {
    A.Level(l.value, l.description)
  }

  function LevelToDomain(l: A.Level): (r: D.Level)
    ensures r.value == l.value && r.description == l.description
  {
    D.Level(l.value, l.description)
  }

  function CustomFieldToApi(f: D.CustomField): (r: A.CustomField)
    ensures r.labelText == f.labelText && r.value == f.value
  {
    A.CustomField(f.labelText, f.value)
  }

  function CustomFieldToDomain(f: A.CustomField): (r: D.CustomField)
    ensures r.labelText == f.labelText && r.value == f.value
  {
    D.CustomField(f.labelText, f.value)
  }

  /** Each of the 14 scalar fields is copied to the field of the same name. */
  function PersonalDetailsToApi(p: D.PersonalDetails): (r: A.PersonalDetails)
    ensures && r.name == p.name && r.desiredJobPosition == p.desiredJobPosition
            && r.emailAddress == p.emailAddress && r.phoneNumber == p.phoneNumber
            && r.address == p.address && r.postCode == p.postCode && r.city == p.city
            && r.dateOfBirth == p.dateOfBirth && r.driverLicense == p.driverLicense
            && r.gender == p.gender && r.nationality == p.nationality
            && r.civilStatus == p.civilStatus && r.website == p.website && r.linkedIn == p.linkedIn
    ensures |r.customFields| == |p.customFields|
    ensures forall i :: 0 <= i < |p.customFields| ==> r.customFields[i] == CustomFieldToApi(p.customFields[i])
  {
    A.PersonalDetails(
      p.name, p.desiredJobPosition, p.emailAddress, p.phoneNumber, p.address,
      p.postCode, p.city, p.dateOfBirth, p.driverLicense, p.gender,
      p.nationality, p.civilStatus, p.website, p.linkedIn,
      MapSeq(CustomFieldToApi, p.customFields))
  }

  function PersonalDetailsToDomain(p: A.PersonalDetails): (r: D.PersonalDetails)
    ensures && r.name == p.name && r.desiredJobPosition == p.desiredJobPosition
            && r.emailAddress == p.emailAddress && r.phoneNumber == p.phoneNumber
            && r.address == p.address && r.postCode == p.postCode && r.city == p.city
            && r.dateOfBirth == p.dateOfBirth && r.driverLicense == p.driverLicense
            && r.gender == p.gender && r.nationality == p.nationality
            && r.civilStatus == p.civilStatus && r.website == p.website && r.linkedIn == p.linkedIn
    ensures |r.customFields| == |p.customFields|
    ensures forall i :: 0 <= i < |p.customFields| ==> r.customFields[i] == CustomFieldToDomain(p.customFields[i])
  {
    D.PersonalDetails(
      p.name, p.desiredJobPosition, p.emailAddress, p.phoneNumber, p.address,
      p.postCode, p.city, p.dateOfBirth, p.driverLicense, p.gender,
      p.nationality, p.civilStatus, p.website, p.linkedIn,
      MapSeq(CustomFieldToDomain, p.customFields))
  }

  function EducationToApi(e: D.Education): (r: A.Education)
    ensures && r.id == e.id && r.educationName == e.educationName && r.school == e.school
            && r.city == e.city && r.startDate == e.startDate && r.endDate == e.endDate
            && r.description == e.description
  {
    A.Education(e.id, e.educationName, e.school, e.city, e.startDate, e.endDate, e.description)
  }

  function EducationToDomain(e: A.Education): (r: D.Education)
    ensures && r.id == e.id && r.educationName == e.educationName && r.school == e.school
            && r.city == e.city && r.startDate == e.startDate && r.endDate == e.endDate
            && r.description == e.description
  {
    D.Education(e.id, e.educationName, e.school, e.city, e.startDate, e.endDate, e.description)
  }

  function EmploymentToApi(e: D.Employment): (r: A.Employment)
    ensures && r.id == e.id && r.jobTitle == e.jobTitle && r.employer == e.employer
            && r.city == e.city && r.startDate == e.startDate && r.endDate == e.endDate
            && r.description == e.description
  {
    A.Employment(e.id, e.jobTitle, e.employer, e.city, e.startDate, e.endDate, e.description)
  }

  function EmploymentToDomain(e: A.Employment): (r: D.Employment)
    ensures && r.id == e.id && r.jobTitle == e.jobTitle && r.employer == e.employer
            && r.city == e.city && r.startDate == e.startDate && r.endDate == e.endDate
            && r.description == e.description
  {
    D.Employment(e.id, e.jobTitle, e.employer, e.city, e.startDate, e.endDate, e.description)
  }

  function SkillToApi(s: D.Skill): (r: A.Skill)
    ensures r.name == s.name && r.level == LevelToApi(s.level)
  {
    A.Skill(s.name, LevelToApi(s.level))
  }

  function SkillToDomain(s: A.Skill): (r: D.Skill)
    ensures r.name == s.name && r.level == LevelToDomain(s.level)
  {
    D.Skill(s.name, LevelToDomain(s.level))
  }

  function LanguageToApi(l: D.Language): (r: A.Language)
    ensures r.name == l.name && r.level == LevelToApi(l.level)
  {
    A.Language(l.name, LevelToApi(l.level))
  }

  function LanguageToDomain(l: A.Language): (r: D.Language)
    ensures r.name == l.name && r.level == LevelToDomain(l.level)
  {
    D.Language(l.name, LevelToDomain(l.level))
  }

  function ResumeToApi(r: D.Resume): (a: A.Resume)
    ensures a.id == r.id
    ensures a.personalDetails == PersonalDetailsToApi(r.personalDetails)
    ensures |a.educations| == |r.educations| && |a.employment| == |r.employment|
    ensures |a.skills| == |r.skills| && |a.languages| == |r.languages|
    ensures forall i :: 0 <= i < |r.educations| ==> a.educations[i] == EducationToApi(r.educations[i])
    ensures forall i :: 0 <= i < |r.educations| ==> a.educations[i].id == r.educations[i].id
    ensures forall i :: 0 <= i < |r.employment| ==> a.employment[i] == EmploymentToApi(r.employment[i])
    ensures forall i :: 0 <= i < |r.employment| ==> a.employment[i].id == r.employment[i].id
    ensures forall i :: 0 <= i < |r.skills| ==> a.skills[i] == SkillToApi(r.skills[i])
    ensures forall i :: 0 <= i < |r.languages| ==> a.languages[i] == LanguageToApi(r.languages[i])
    ensures a.hobbies == r.hobbies
  {
    A.Resume(
      r.id,
      PersonalDetailsToApi(r.personalDetails),
      MapSeq(EducationToApi, r.educations),
      MapSeq(EmploymentToApi, r.employment),
      MapSeq(SkillToApi, r.skills),
      MapSeq(LanguageToApi, r.languages),
      r.hobbies)
  }

  function ResumeToDomain(a: A.Resume): (r: D.Resume)
    ensures r.id == a.id
    ensures r.personalDetails == PersonalDetailsToDomain(a.personalDetails)
    ensures |r.educations| == |a.educations| && |r.employment| == |a.employment|
    ensures |r.skills| == |a.skills| && |r.languages| == |a.languages|
    ensures forall i :: 0 <= i < |a.educations| ==> r.educations[i] == EducationToDomain(a.educations[i])
    ensures forall i :: 0 <= i < |a.educations| ==> r.educations[i].id == a.educations[i].id
    ensures forall i :: 0 <= i < |a.employment| ==> r.employment[i] == EmploymentToDomain(a.employment[i])
    ensures forall i :: 0 <= i < |a.employment| ==> r.employment[i].id == a.employment[i].id
    ensures forall i :: 0 <= i < |a.skills| ==> r.skills[i] == SkillToDomain(a.skills[i])
    ensures forall i :: 0 <= i < |a.languages| ==> r.languages[i] == LanguageToDomain(a.languages[i])
    ensures r.hobbies == a.hobbies
  {
    D.Resume(
      a.id,
      PersonalDetailsToDomain(a.personalDetails),
      MapSeq(EducationToDomain, a.educations),
      MapSeq(EmploymentToDomain, a.employment),
      MapSeq(SkillToDomain, a.skills),
      MapSeq(LanguageToDomain, a.languages),
      a.hobbies)
  }

  // ---- Round trips ----------------------------------------------------------

  /** A level keeps its value and description through both conversions. */
  lemma LevelRoundTrip(d: D.Level, a: A.Level)
    ensures LevelToApi(d).value == d.value && LevelToApi(d).description == d.description
    ensures LevelToDomain(LevelToApi(d)) == d
    ensures LevelToApi(LevelToDomain(a)) == a
  {
  }

  /** A custom field keeps its label and value through both conversions. */
  lemma CustomFieldRoundTrip(d: D.CustomField, a: A.CustomField)
    ensures CustomFieldToApi(d).labelText == d.labelText && CustomFieldToApi(d).value == d.value
    ensures CustomFieldToDomain(CustomFieldToApi(d)) == d
    ensures CustomFieldToApi(CustomFieldToDomain(a)) == a
  {
  }

  lemma PersonalDetailsRoundTrip(d: D.PersonalDetails, a: A.PersonalDetails)
    ensures PersonalDetailsToDomain(PersonalDetailsToApi(d)) == d
    ensures PersonalDetailsToApi(PersonalDetailsToDomain(a)) == a
  {
    MapSeqInverse(CustomFieldToApi, CustomFieldToDomain, d.customFields);
    MapSeqInverse(CustomFieldToDomain, CustomFieldToApi, a.customFields);
  }

  lemma EducationRoundTrip(d: D.Education, a: A.Education)
    ensures EducationToDomain(EducationToApi(d)) == d
    ensures EducationToApi(EducationToDomain(a)) == a
  {
  }

  lemma EmploymentRoundTrip(d: D.Employment, a: A.Employment)
    ensures EmploymentToDomain(EmploymentToApi(d)) == d
    ensures EmploymentToApi(EmploymentToDomain(a)) == a
  {
  }

  lemma SkillRoundTrip(d: D.Skill, a: A.Skill)
    ensures SkillToApi(d).level.value == d.level.value && SkillToApi(d).level.description == d.level.description
    ensures SkillToDomain(SkillToApi(d)) == d
    ensures SkillToApi(SkillToDomain(a)) == a
  {
  }

  lemma LanguageRoundTrip(d: D.Language, a: A.Language)
    ensures LanguageToApi(d).level.value == d.level.value && LanguageToApi(d).level.description == d.level.description
    ensures LanguageToDomain(LanguageToApi(d)) == d
    ensures LanguageToApi(LanguageToDomain(a)) == a
  {
  }

  /** Converting a domain resume to the API and back gives the same resume. */
  lemma ResumeToApiAndBack(r: D.Resume)
    ensures ResumeToDomain(ResumeToApi(r)) == r
  {
    PersonalDetailsRoundTrip(r.personalDetails, PersonalDetailsToApi(r.personalDetails));
    MapSeqInverse(EducationToApi, EducationToDomain, r.educations);
    MapSeqInverse(EmploymentToApi, EmploymentToDomain, r.employment);
    MapSeqInverse(SkillToApi, SkillToDomain, r.skills);
    MapSeqInverse(LanguageToApi, LanguageToDomain, r.languages);
  }

  /** Converting an API resume to the domain and back gives the same resume. */
  lemma ResumeToDomainAndBack(a: A.Resume)
    ensures ResumeToApi(ResumeToDomain(a)) == a
  {
    PersonalDetailsRoundTrip(PersonalDetailsToDomain(a.personalDetails), a.personalDetails);
    MapSeqInverse(EducationToDomain, EducationToApi, a.educations);
    MapSeqInverse(EmploymentToDomain, EmploymentToApi, a.employment);
    MapSeqInverse(SkillToDomain, SkillToApi, a.skills);
    MapSeqInverse(LanguageToDomain, LanguageToApi, a.languages);
  }

  /** The conversion loses nothing: distinct resumes stay distinct. */
  lemma ResumeToApiInjective(r1: D.Resume, r2: D.Resume)
    ensures ResumeToApi(r1) == ResumeToApi(r2) ==> r1 == r2
  {
    ResumeToApiAndBack(r1);
    ResumeToApiAndBack(r2);
  }
}

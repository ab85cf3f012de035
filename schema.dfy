/** The two structured records the language model must produce (`JobRequirements`,
    `ResumeEvaluation`), the validation a structured-output binding applies to the model's
    answer before accepting it, and the dictionary `model_dump()` turns a record into. */
module Schema {
  import opened Wrappers

  /** The requirements extracted once from a job description. No field carries a bound. */
  datatype JobRequirements = JobRequirements(
    keySkills: seq<string>,
    experienceRequirements: string,
    roleResponsibilities: string,
    qualifications: string)

  /** A score constrained by `ge=0, le=10`. */
  type Score = n: int | 0 <= n <= 10

  /** The four values of the `recommendation` literal type. */
  datatype Recommendation = StronglyRecommended | Recommended | Consider | NotSuitable

  function Label(r: Recommendation): string {
    match r
    case StronglyRecommended => "Strongly Recommended"
    case Recommended => "Recommended"
    case Consider => "Consider"
    case NotSuitable => "Not Suitable"
  }

  /** Accepts a string exactly when it is one of the four labels. */
  function ParseRecommendation(s: string): (r: Option<Recommendation>)
    ensures r.Some? ==> Label(r.value) == s
    ensures forall x :: Label(x) == s ==> r == Some(x)
  {
    if s == "Strongly Recommended" then Some(StronglyRecommended)
    else if s == "Recommended" then Some(Recommended)
    else if s == "Consider" then Some(Consider)
    else if s == "Not Suitable" then Some(NotSuitable)
    else None
  }

  predicate IsLabel(s: string) {
    ParseRecommendation(s).Some?
  }

  /** An accepted evaluation: every field present, both scores within their bounds and the
      recommendation one of the four labels. */
  datatype ResumeEvaluation = ResumeEvaluation(
    name: string,
    contactNumber: string,
    email: string,
    experienceScore: Score,
    skillsScore: Score,
    recommendation: Recommendation)

  /** The model's structured answer once every field is present and of the right type, but
      before the bounds and the literal type are checked. A missing field or a value of the
      wrong type is a failure of the model call itself. */
  datatype RawEvaluation = RawEvaluation(
    name: string,
    contactNumber: string,
    email: string,
    experienceScore: int,
    skillsScore: int,
    recommendation: string)

  const ValidationError := "validation error for ResumeEvaluation"

  /** Accepts the answer unchanged when it meets the field constraints and rejects it
      otherwise; a value out of bounds is never clamped. */
  function Validate(raw: RawEvaluation): (r: Result<ResumeEvaluation, string>)
    ensures r.Success? <==>
      0 <= raw.experienceScore <= 10 && 0 <= raw.skillsScore <= 10 && IsLabel(raw.recommendation)
    ensures r.Success? ==>
      && r.value.name == raw.name
      && r.value.contactNumber == raw.contactNumber
      && r.value.email == raw.email
      && r.value.experienceScore == raw.experienceScore
      && r.value.skillsScore == raw.skillsScore
      && Label(r.value.recommendation) == raw.recommendation
    ensures r.Failure? ==> r.error == ValidationError
  {
    if 0 <= raw.experienceScore <= 10 && 0 <= raw.skillsScore <= 10 then
      match ParseRecommendation(raw.recommendation)
      case Some(rec) =>
        Success(ResumeEvaluation(raw.name, raw.contactNumber, raw.email,
                                 raw.experienceScore, raw.skillsScore, rec))
      case None => Failure(ValidationError)
    else Failure(ValidationError)
  }

  /** Every accepted evaluation is the validation of the answer that spells it out, so the
      validation rejects nothing the record type allows. */
  lemma ValidateAcceptsEveryEvaluation(e: ResumeEvaluation)
    ensures Validate(RawEvaluation(e.name, e.contactNumber, e.email, e.experienceScore,
                                   e.skillsScore, Label(e.recommendation))) == Success(e)
  {
  }

  /** A value of a Python dictionary built from these records. */
  datatype Value = Str(s: string) | Int(n: int)

  const NameKey := "name"
  const ContactNumberKey := "contact_number"
  const EmailKey := "email"
  const ExperienceScoreKey := "experience_score"
  const SkillsScoreKey := "skills_score"
  const RecommendationKey := "recommendation"

  /** The keys of a dumped `ResumeEvaluation`. */
  const FieldKeys: set<string> :=
    {NameKey, ContactNumberKey, EmailKey, ExperienceScoreKey, SkillsScoreKey, RecommendationKey}

  /** Every field key present in `d` holds a value of the field's type and range. */
  predicate TypedEntries(d: map<string, Value>) {
    && (NameKey in d ==> d[NameKey].Str?)
    && (ContactNumberKey in d ==> d[ContactNumberKey].Str?)
    && (EmailKey in d ==> d[EmailKey].Str?)
    && (ExperienceScoreKey in d ==> d[ExperienceScoreKey].Int? && 0 <= d[ExperienceScoreKey].n <= 10)
    && (SkillsScoreKey in d ==> d[SkillsScoreKey].Int? && 0 <= d[SkillsScoreKey].n <= 10)
    && (RecommendationKey in d ==> d[RecommendationKey].Str? && IsLabel(d[RecommendationKey].s))
  }

  /** `model_dump()`: the record as a dictionary keyed by its field names. */
  function Dump(e: ResumeEvaluation): (d: map<string, Value>)
    ensures d.Keys == FieldKeys
    ensures TypedEntries(d)
  {
    map[NameKey := Str(e.name),
        ContactNumberKey := Str(e.contactNumber),
        EmailKey := Str(e.email),
        ExperienceScoreKey := Int(e.experienceScore),
        SkillsScoreKey := Int(e.skillsScore),
        RecommendationKey := Str(Label(e.recommendation))]
  }
}

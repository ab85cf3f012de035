/** `ResumeEvaluator.process_folder` and `evaluate_resume`: the batch that extracts the job
    description once, asks the model for its requirements once, selects the resume files of a
    directory listing and appends exactly one result row per selected file. The two model
    chains are parameters (`Backend`); the method also returns the log of the external calls
    it makes, in order, so that what is and is not invoked can be stated. */
module Pipeline {
  import opened Wrappers
  import opened Text
  import opened Schema
  import opened Extraction

  const NotProvided := "Not Provided"
  const NoTextMessage := "Could not extract text"
  const NoJobDescriptionMessage := "Could not extract text from job description file"
  const SkillSeparator := ", "

  /** One dictionary appended to `results`. The six score columns hold whatever the
      evaluation dictionary holds; `error` is the optional "Error" key. */
  datatype Row = Row(
    name: Value,
    contactNumber: Value,
    email: Value,
    experienceScore: Value,
    skillsScore: Value,
    recommendation: Value,
    error: Option<string>)

  /** The row's keys in insertion order, which fixes the report's column order. */
  function Columns(row: Row): seq<string> {
    ["Name", "Contact Number", "Email", "Experience Score", "Skills Score", "Recommendation"]
    + if row.error.Some? then ["Error"] else []
  }

  /** The row appended when a file yields no text or its evaluation raises. */
  function FailureRow(filename: string, message: string): (row: Row)
    ensures WellFormedRow(row) && row.name == Str(filename) && row.error == Some(message)
    ensures Columns(row)[|Columns(row)| - 1] == "Error"
  {
    Row(Str(filename), Str(NotProvided), Str(NotProvided), Int(0), Int(0),
        Str(Label(NotSuitable)), Some(message))
  }

  /** Python's `d.get(key, default)`. */
  function Get(d: map<string, Value>, key: string, default: Value): Value {
    if key in d then d[key] else default
  }

  /** The row built from an evaluation dictionary, each key with its default. The defaults
      are well formed, so the row is well formed exactly when every key the dictionary has
      holds a value of its field's type and range; the row has no "Error" key. */
  function EvaluationRow(evaluation: map<string, Value>, filename: string): (row: Row)
    ensures WellFormedRow(row) <==> TypedEntries(evaluation)
    ensures row.error == None
  {
    Row(Get(evaluation, NameKey, Str(filename)),
        Get(evaluation, ContactNumberKey, Str(NotProvided)),
        Get(evaluation, EmailKey, Str(NotProvided)),
        Get(evaluation, ExperienceScoreKey, Int(0)),
        Get(evaluation, SkillsScoreKey, Int(0)),
        Get(evaluation, RecommendationKey, Str(Label(NotSuitable))),
        None)
  }

  /** A row every column of which has the type and range a `ResumeEvaluation` gives it. */
  predicate WellFormedRow(row: Row) {
    && row.name.Str? && row.contactNumber.Str? && row.email.Str?
    && row.experienceScore.Int? && 0 <= row.experienceScore.n <= 10
    && row.skillsScore.Int? && 0 <= row.skillsScore.n <= 10
    && row.recommendation.Str? && IsLabel(row.recommendation.s)
  }

  /** The variables the evaluation prompt is filled with. */
  datatype EvaluationInputs = EvaluationInputs(
    keySkills: string,
    experienceRequirements: string,
    roleResponsibilities: string,
    qualifications: string,
    resumeText: string)

  /** The prompt variables for one resume: the key skills joined with ", ", the other
      requirements as they are, and the resume text. */
  function EvaluationInputsFor(requirements: JobRequirements, resumeText: string): EvaluationInputs {
    EvaluationInputs(Join(requirements.keySkills, SkillSeparator),
                     requirements.experienceRequirements,
                     requirements.roleResponsibilities,
                     requirements.qualifications,
                     resumeText)
  }

  /** The two structured-output chains. Each answers or fails with the message of the
      exception it raises; the evaluation chain's answer is still to be validated. */
  datatype Backend = Backend(
    jobAnalysisChain: string -> Result<JobRequirements, string>,
    evaluationChain: EvaluationInputs -> Result<RawEvaluation, string>)

  /** `evaluate_resume`: one evaluation call, the validation of its answer, `model_dump()`. */
  function EvaluateResume(backend: Backend, requirements: JobRequirements, resumeText: string)
    : (r: Result<map<string, Value>, string>)
    ensures r.Success? <==>
      && backend.evaluationChain(EvaluationInputsFor(requirements, resumeText)).Success?
      && Validate(backend.evaluationChain(EvaluationInputsFor(requirements, resumeText)).value).Success?
    ensures r.Success? ==> r.value.Keys == FieldKeys && TypedEntries(r.value)
    ensures r.Failure? ==>
      || backend.evaluationChain(EvaluationInputsFor(requirements, resumeText)) == Failure(r.error)
      || r.error == ValidationError
  {
    match backend.evaluationChain(EvaluationInputsFor(requirements, resumeText))
    case Failure(message) => Failure(message)
    case Success(raw) =>
      match Validate(raw)
      case Failure(message) => Failure(message)
      case Success(evaluation) => Success(Dump(evaluation))
  }

  /** `filename.lower().endswith(('.pdf', '.doc', '.docx'))`: exactly the names that
      `extract_text` opens as a PDF or Word file. */
  predicate IsResumeName(filename: string)
    ensures IsResumeName(filename) <==> KindOf(filename) != Unsupported
  {
    LowerEndsWith(filename, ".pdf") || LowerEndsWith(filename, ".doc") || LowerEndsWith(filename, ".docx")
  }

  /** The resume files of a listing, in listing order. */
  function Selected(listing: seq<string>): (names: seq<string>)
    ensures |names| <= |listing|
    ensures forall k :: 0 <= k < |names| ==> IsResumeName(names[k])
  {
    if listing == [] then []
    else
      var last := listing[|listing| - 1];
      Selected(listing[..|listing| - 1]) + if IsResumeName(last) then [last] else []
  }

  /** The loop that collects `resume_files` from the directory listing. */
  method SelectResumeFiles(listing: seq<string>) returns (resumeFiles: seq<string>)
    ensures resumeFiles == Selected(listing)
  {
    resumeFiles := [];
    for i := 0 to |listing|
      invariant resumeFiles == Selected(listing[..i])
    {
      assert listing[..i + 1][..i] == listing[..i];
      if LowerEndsWith(listing[i], ".pdf") || LowerEndsWith(listing[i], ".doc")
         || LowerEndsWith(listing[i], ".docx") {
        resumeFiles := resumeFiles + [listing[i]];
      }
    }
    assert listing[..|listing|] == listing;
  }

  /** Selection keeps order: the selection of a concatenated listing is the concatenation of
      the selections. */
  lemma {:induction false} SelectedAppend(a: seq<string>, b: seq<string>)
    ensures Selected(a + b) == Selected(a) + Selected(b)
    decreases |b|
  {
    if b == [] {
      assert a + b == a;
    } else {
      var init := b[..|b| - 1];
      assert (a + b)[..|a + b| - 1] == a + init;
      SelectedAppend(a, init);
    }
  }

  /** A name is selected exactly when it is in the listing and has a resume extension. */
  lemma {:induction false} SelectedMembers(listing: seq<string>, name: string)
    ensures name in Selected(listing) <==> name in listing && IsResumeName(name)
    decreases |listing|
  {
    if listing != [] {
      var init := listing[..|listing| - 1];
      SelectedMembers(init, name);
      assert listing == init + [listing[|listing| - 1]];
    }
  }

  /** The extension test ignores case. */
  lemma ResumeNamesIgnoreCase()
    ensures IsResumeName("CV.PDF") && IsResumeName("cv.Docx") && IsResumeName("cv.doc")
  {
    assert LowerAll("CV.PDF")[2..] == ".pdf";
    assert LowerAll("cv.Docx")[2..] == ".docx";
    assert LowerAll("cv.doc")[2..] == ".doc";
  }

  /** The extension test needs the dot, and the suffix at the very end. */
  lemma NonResumeNames()
    ensures !IsResumeName("cv.txt") && !IsResumeName("pdf") && !IsResumeName("cv.pdf.bak")
  {
    assert LowerAll("cv.txt")[5] == 't' && LowerAll("cv.pdf.bak")[9] == 'k';
  }

  /** An external call made by the batch: `extract_text` on a path (which opens the file
      with a parsing library only when the extension names one), the job analysis chain,
      the evaluation chain. */
  datatype Call =
    | ExtractsText(path: string)
    | AnalyzesJob(jobDescription: string)
    | EvaluatesResume(inputs: EvaluationInputs)

  /** The row for one resume file whose extracted text is `text`. */
  function FileRow(backend: Backend, requirements: JobRequirements, filename: string, text: string): Row {
    if Strip(text) == [] then FailureRow(filename, NoTextMessage)
    else
      match EvaluateResume(backend, requirements, text)
      case Failure(message) => FailureRow(filename, message)
      case Success(evaluation) => EvaluationRow(evaluation, filename)
  }

  /** The calls made for one resume file: its text is extracted, and it is evaluated only if
      that text is not blank. */
  function FileCalls(requirements: JobRequirements, filename: string, text: string): seq<Call> {
    [ExtractsText(filename)]
    + if Strip(text) == [] then [] else [EvaluatesResume(EvaluationInputsFor(requirements, text))]
  }

  function ResumeText(files: string -> StoredFile, filename: string): string {
    DocumentText(filename, files(filename))
  }

  /** The rows of a batch: one per name, in order, each determined by its own file alone. */
  function Rows(backend: Backend, requirements: JobRequirements, files: string -> StoredFile,
                names: seq<string>): (rows: seq<Row>)
    ensures |rows| == |names|
  {
    seq(|names|, k requires 0 <= k < |names| =>
      FileRow(backend, requirements, names[k], ResumeText(files, names[k])))
  }

  /** The calls of the per-file loop. */
  function ResumeCalls(requirements: JobRequirements, files: string -> StoredFile,
                       names: seq<string>): seq<Call>
  {
    if names == [] then []
    else
      var last := names[|names| - 1];
      ResumeCalls(requirements, files, names[..|names| - 1])
      + FileCalls(requirements, last, ResumeText(files, last))
  }

  /** The exceptions `process_folder` lets escape. */
  datatype BatchError =
    | ValueError(message: string)
    | RequirementsError(message: string)

  datatype Run = Run(outcome: Result<seq<Row>, BatchError>, calls: seq<Call>)

  /** What `process_folder` returns (or raises) and the calls it makes. */
  function Batch(backend: Backend, jobPath: string, jobFile: StoredFile, listing: seq<string>,
                 files: string -> StoredFile): Run
  {
    var jobDescription := DocumentText(jobPath, jobFile);
    if jobDescription == [] then Run(Failure(ValueError(NoJobDescriptionMessage)), [ExtractsText(jobPath)])
    else
      var prologue := [ExtractsText(jobPath), AnalyzesJob(jobDescription)];
      match backend.jobAnalysisChain(jobDescription)
      case Failure(message) => Run(Failure(RequirementsError(message)), prologue)
      case Success(requirements) =>
        var names := Selected(listing);
        Run(Success(Rows(backend, requirements, files, names)),
            prologue + ResumeCalls(requirements, files, names))
  }

  /** Taking one more name adds that name's row at the end. */
  lemma RowsSnoc(backend: Backend, requirements: JobRequirements, files: string -> StoredFile,
                 names: seq<string>, i: nat)
    requires i < |names|
    ensures Rows(backend, requirements, files, names[..i + 1])
         == Rows(backend, requirements, files, names[..i])
            + [FileRow(backend, requirements, names[i], ResumeText(files, names[i]))]
  {
    var longer := Rows(backend, requirements, files, names[..i + 1]);
    var shorter := Rows(backend, requirements, files, names[..i]);
    forall k | 0 <= k < i ensures longer[k] == shorter[k] {
      assert names[..i + 1][k] == names[..i][k];
    }
    assert names[..i + 1][i] == names[i];
  }

  /** Taking one more name adds that name's calls at the end. */
  lemma ResumeCallsSnoc(requirements: JobRequirements, files: string -> StoredFile,
                        names: seq<string>, i: nat)
    requires i < |names|
    ensures ResumeCalls(requirements, files, names[..i + 1])
         == ResumeCalls(requirements, files, names[..i])
            + FileCalls(requirements, names[i], ResumeText(files, names[i]))
  {
    assert names[..i + 1][..i] == names[..i];
    assert names[..i + 1][i] == names[i];
  }

  /** The body of the per-file loop: extract the file's text, append the no-text row if its text is
      blank, otherwise evaluate it and append its row, or the error row if evaluation raises. */
  method ProcessResume(backend: Backend, requirements: JobRequirements,
                       files: string -> StoredFile, filename: string)
    returns (row: Row, calls: seq<Call>)
    ensures row == FileRow(backend, requirements, filename, ResumeText(files, filename))
    ensures calls == FileCalls(requirements, filename, ResumeText(files, filename))
  {
    calls := [ExtractsText(filename)];
    var resumeText := ExtractText(filename, files(filename));
    if Strip(resumeText) == "" {
      row := FailureRow(filename, NoTextMessage);
    } else {
      calls := calls + [EvaluatesResume(EvaluationInputsFor(requirements, resumeText))];
      match EvaluateResume(backend, requirements, resumeText)
      case Failure(message) =>
        row := FailureRow(filename, message);
      case Success(evaluation) =>
        row := EvaluationRow(evaluation, filename);
    }
  }

  /** The per-file loop: a failure for one file never stops it. */
  method ProcessResumes(backend: Backend, requirements: JobRequirements,
                        files: string -> StoredFile, resumeFiles: seq<string>)
    returns (results: seq<Row>, calls: seq<Call>)
    ensures results == Rows(backend, requirements, files, resumeFiles)
    ensures calls == ResumeCalls(requirements, files, resumeFiles)
  {
    results, calls := [], [];
    for i := 0 to |resumeFiles|
      invariant results == Rows(backend, requirements, files, resumeFiles[..i])
      invariant calls == ResumeCalls(requirements, files, resumeFiles[..i])
    {
      var row, fileCalls := ProcessResume(backend, requirements, files, resumeFiles[i]);
      RowsSnoc(backend, requirements, files, resumeFiles, i);
      ResumeCallsSnoc(requirements, files, resumeFiles, i);
      results := results + [row];
      calls := calls + fileCalls;
    }
    assert resumeFiles[..|resumeFiles|] == resumeFiles;
  }

  /** `process_folder`, up to building the data frame. */
  method ProcessFolder(backend: Backend, jobPath: string, jobFile: StoredFile,
                       listing: seq<string>, files: string -> StoredFile)
    returns (outcome: Result<seq<Row>, BatchError>, calls: seq<Call>)
    ensures Run(outcome, calls) == Batch(backend, jobPath, jobFile, listing, files)
  {
    calls := [ExtractsText(jobPath)];
    var jobDescription := ExtractText(jobPath, jobFile);
    if jobDescription == "" {
      outcome := Failure(ValueError(NoJobDescriptionMessage));
      return;
    }
    calls := [ExtractsText(jobPath), AnalyzesJob(jobDescription)];
    var analysis := backend.jobAnalysisChain(jobDescription);
    if analysis.Failure? {
      outcome := Failure(RequirementsError(analysis.error));
      return;
    }
    var resumeFiles := SelectResumeFiles(listing);
    var results, resumeCalls := ProcessResumes(backend, analysis.value, files, resumeFiles);
    calls := [ExtractsText(jobPath), AnalyzesJob(jobDescription)] + resumeCalls;
    outcome := Success(results);
  }

  /** An evaluation dictionary produced by `model_dump()` has every key, so no default is
      used: the row carries the evaluation's values and has no "Error" key. */
  lemma EvaluationRowFromDump(e: ResumeEvaluation, filename: string)
    ensures EvaluationRow(Dump(e), filename)
         == Row(Str(e.name), Str(e.contactNumber), Str(e.email), Int(e.experienceScore),
                Int(e.skillsScore), Str(Label(e.recommendation)), None)
    ensures "Error" !in Columns(EvaluationRow(Dump(e), filename))
  {
  }

  /** The key skills reach the prompt joined with ", ": when there is at least one skill and
      no skill contains a comma, splitting the prompt variable on ", " gives them back. */
  lemma SkillsRecoverableFromPrompt(requirements: JobRequirements, resumeText: string)
    requires requirements.keySkills != []
    requires forall k :: 0 <= k < |requirements.keySkills| ==> ',' !in requirements.keySkills[k]
    ensures Split(EvaluationInputsFor(requirements, resumeText).keySkills, ", ") == requirements.keySkills
  {
    SplitJoin(requirements.keySkills, SkillSeparator);
  }

  /** What one resume file turns into. Blank text (empty or all whitespace): the no-text row,
      and the evaluator is not invoked. Otherwise the evaluator is invoked once with the
      requirements and the text; its exception or a rejected answer gives an error row, an
      accepted answer gives a row with the evaluation's values and no error. */
  lemma FileOutcome(backend: Backend, requirements: JobRequirements, filename: string, text: string)
    ensures IsBlank(text) ==>
      && FileRow(backend, requirements, filename, text) == FailureRow(filename, NoTextMessage)
      && FileCalls(requirements, filename, text) == [ExtractsText(filename)]
    ensures !IsBlank(text) ==>
      FileCalls(requirements, filename, text)
      == [ExtractsText(filename), EvaluatesResume(EvaluationInputsFor(requirements, text))]
    ensures !IsBlank(text) ==>
      match backend.evaluationChain(EvaluationInputsFor(requirements, text))
      case Failure(message) => FileRow(backend, requirements, filename, text) == FailureRow(filename, message)
      case Success(raw) =>
        match Validate(raw)
        case Failure(message) => FileRow(backend, requirements, filename, text) == FailureRow(filename, message)
        case Success(e) =>
          FileRow(backend, requirements, filename, text)
          == Row(Str(e.name), Str(e.contactNumber), Str(e.email), Int(e.experienceScore),
                 Int(e.skillsScore), Str(Label(e.recommendation)), None)
  {
    StripEmptyIffBlank(text);
    if !IsBlank(text) {
      var evaluated := EvaluateResume(backend, requirements, text);
      match backend.evaluationChain(EvaluationInputsFor(requirements, text))
      case Failure(message) =>
        assert evaluated == Failure(message);
      case Success(raw) =>
        match Validate(raw)
        case Failure(message) =>
          assert evaluated == Failure(message);
        case Success(e) =>
          assert evaluated == Success(Dump(e));
          EvaluationRowFromDump(e, filename);
    }
  }

  /** Every row has the column types and ranges of a `ResumeEvaluation`. */
  lemma FileRowWellFormed(backend: Backend, requirements: JobRequirements, filename: string, text: string)
    ensures WellFormedRow(FileRow(backend, requirements, filename, text))
  {
    assert IsLabel(Label(NotSuitable));
    match EvaluateResume(backend, requirements, text)
    case Failure(_) =>
    case Success(_) =>
      var raw := backend.evaluationChain(EvaluationInputsFor(requirements, text)).value;
      assert IsLabel(Label(Validate(raw).value.recommendation));
  }

  /** An evaluator call as the loop makes it: the requirements as extracted, the skills
      joined with ", ", and resume text that is not blank. */
  predicate EvaluatorCallFor(requirements: JobRequirements, inputs: EvaluationInputs) {
    && inputs.keySkills == Join(requirements.keySkills, SkillSeparator)
    && inputs.experienceRequirements == requirements.experienceRequirements
    && inputs.roleResponsibilities == requirements.roleResponsibilities
    && inputs.qualifications == requirements.qualifications
    && !IsBlank(inputs.resumeText)
  }

  /** Every call is a text extraction or an evaluator call as the per-file loop makes it. */
  predicate OnlyEvaluatorCalls(requirements: JobRequirements, calls: seq<Call>) {
    forall c :: c in calls ==>
      !c.AnalyzesJob? && (c.EvaluatesResume? ==> EvaluatorCallFor(requirements, c.inputs))
  }

  /** The per-file loop extracts texts and invokes the evaluator, never the job analysis, and
      every evaluator call is made with the shared requirements and non-blank text. */
  lemma {:induction false} ResumeCallsInvokeOnlyTheEvaluator(requirements: JobRequirements,
                                                              files: string -> StoredFile,
                                                              names: seq<string>)
    ensures OnlyEvaluatorCalls(requirements, ResumeCalls(requirements, files, names))
    decreases |names|
  {
    if names != [] {
      var last := names[|names| - 1];
      ResumeCallsInvokeOnlyTheEvaluator(requirements, files, names[..|names| - 1]);
      StripEmptyIffBlank(ResumeText(files, last));
    }
  }

  /** An empty job-description text raises `ValueError` right after the job file's text is
      extracted, before any other call: the requirements are not extracted and no resume is
      looked at. This holds as well for a job path whose extension names no format. */
  lemma FailsFastWithoutJobText(backend: Backend, jobPath: string, jobFile: StoredFile,
                                listing: seq<string>, files: string -> StoredFile)
    requires DocumentText(jobPath, jobFile) == ""
    ensures Batch(backend, jobPath, jobFile, listing, files)
         == Run(Failure(ValueError("Could not extract text from job description file")), [ExtractsText(jobPath)])
  {
  }

  /** A failed requirements extraction is fatal: its exception escapes and no resume is
      evaluated. */
  lemma RequirementsFailureIsFatal(backend: Backend, jobPath: string, jobFile: StoredFile,
                                   listing: seq<string>, files: string -> StoredFile)
    requires DocumentText(jobPath, jobFile) != ""
    requires backend.jobAnalysisChain(DocumentText(jobPath, jobFile)).Failure?
    ensures var run := Batch(backend, jobPath, jobFile, listing, files);
      && run.outcome == Failure(RequirementsError(backend.jobAnalysisChain(DocumentText(jobPath, jobFile)).error))
      && forall c :: c in run.calls ==> !c.EvaluatesResume?
  {
  }

  /** The call log of a batch that gets past the requirements: the job file's text is extracted, the
      job is analysed, then come the per-file calls. */
  predicate AnalysedOnceThenEvaluated(requirements: JobRequirements, jobPath: string,
                                      jobDescription: string, calls: seq<Call>)
  {
    && |calls| >= 2
    && calls[0] == ExtractsText(jobPath)
    && calls[1] == AnalyzesJob(jobDescription)
    && (forall k :: 0 <= k < |calls| && calls[k].AnalyzesJob? ==> k == 1)
    && forall k :: 0 <= k < |calls| && calls[k].EvaluatesResume? ==>
         EvaluatorCallFor(requirements, calls[k].inputs)
  }

  /** Any per-file calls after the two prologue calls leave the job analysis at index 1 only. */
  lemma PrologueThen(requirements: JobRequirements, jobPath: string, jobDescription: string,
                     rest: seq<Call>)
    requires OnlyEvaluatorCalls(requirements, rest)
    ensures AnalysedOnceThenEvaluated(requirements, jobPath, jobDescription,
      [ExtractsText(jobPath), AnalyzesJob(jobDescription)] + rest)
  {
    var calls := [ExtractsText(jobPath), AnalyzesJob(jobDescription)] + rest;
    forall k | 2 <= k < |calls|
      ensures !calls[k].AnalyzesJob?
      ensures calls[k].EvaluatesResume? ==> EvaluatorCallFor(requirements, calls[k].inputs)
    {
      assert calls[k] == rest[k - 2] && rest[k - 2] in rest;
    }
  }

  /** The requirements are extracted exactly once, right after the job file's text is
      extracted and
      before any resume; every evaluator call then gets those requirements. */
  lemma RequirementsExtractedOnce(backend: Backend, jobPath: string, jobFile: StoredFile,
                                  listing: seq<string>, files: string -> StoredFile,
                                  requirements: JobRequirements)
    requires DocumentText(jobPath, jobFile) != ""
    requires backend.jobAnalysisChain(DocumentText(jobPath, jobFile)) == Success(requirements)
    ensures AnalysedOnceThenEvaluated(requirements, jobPath, DocumentText(jobPath, jobFile),
                                      Batch(backend, jobPath, jobFile, listing, files).calls)
  {
    var jobDescription := DocumentText(jobPath, jobFile);
    var rest := ResumeCalls(requirements, files, Selected(listing));
    assert Batch(backend, jobPath, jobFile, listing, files).calls
        == [ExtractsText(jobPath), AnalyzesJob(jobDescription)] + rest;
    ResumeCallsInvokeOnlyTheEvaluator(requirements, files, Selected(listing));
    PrologueThen(requirements, jobPath, jobDescription, rest);
  }

  /** A successful batch has exactly one row per selected resume file, in listing order, and
      every row is well formed; an error row is the whole failure row of its file: the
      file's name, "Not Provided" twice, scores 0, "Not Suitable" and the message. */
  lemma OneWellFormedRowPerResumeFile(backend: Backend, jobPath: string, jobFile: StoredFile,
                                      listing: seq<string>, files: string -> StoredFile,
                                      requirements: JobRequirements)
    requires DocumentText(jobPath, jobFile) != ""
    requires backend.jobAnalysisChain(DocumentText(jobPath, jobFile)) == Success(requirements)
    ensures Batch(backend, jobPath, jobFile, listing, files).outcome.Success?
    ensures var rows := Batch(backend, jobPath, jobFile, listing, files).outcome.value;
      var names := Selected(listing);
      && |rows| == |names|
      && forall k :: 0 <= k < |rows| ==>
           WellFormedRow(rows[k])
           && (rows[k].error.Some? ==> rows[k] == FailureRow(names[k], rows[k].error.value))
  {
    var names := Selected(listing);
    var rows := Rows(backend, requirements, files, names);
    assert Batch(backend, jobPath, jobFile, listing, files).outcome == Success(rows);
    forall k | 0 <= k < |names|
      ensures WellFormedRow(rows[k])
      ensures rows[k].error.Some? ==> rows[k] == FailureRow(names[k], rows[k].error.value)
    {
      FileRowWellFormed(backend, requirements, names[k], ResumeText(files, names[k]));
    }
  }

  /** Why each row of a successful batch is what it is: a file with blank text gets the
      no-text row; otherwise the row is an error row exactly when `evaluate_resume` raised,
      and then carries its message, and is otherwise the row of the evaluation dictionary. */
  lemma EachRowExplained(backend: Backend, jobPath: string, jobFile: StoredFile,
                         listing: seq<string>, files: string -> StoredFile,
                         requirements: JobRequirements)
    requires DocumentText(jobPath, jobFile) != ""
    requires backend.jobAnalysisChain(DocumentText(jobPath, jobFile)) == Success(requirements)
    ensures Batch(backend, jobPath, jobFile, listing, files).outcome.Success?
    ensures var rows := Batch(backend, jobPath, jobFile, listing, files).outcome.value;
      var names := Selected(listing);
      && |rows| == |names|
      && forall k :: 0 <= k < |rows| ==>
           var text := ResumeText(files, names[k]);
           var evaluated := EvaluateResume(backend, requirements, text);
           && (IsBlank(text) ==> rows[k] == FailureRow(names[k], NoTextMessage))
           && (!IsBlank(text) && evaluated.Failure? ==>
                 rows[k] == FailureRow(names[k], evaluated.error))
           && (!IsBlank(text) && evaluated.Success? ==>
                 rows[k] == EvaluationRow(evaluated.value, names[k]) && rows[k].error.None?)
  {
    var names := Selected(listing);
    var rows := Rows(backend, requirements, files, names);
    assert Batch(backend, jobPath, jobFile, listing, files).outcome == Success(rows);
    forall k | 0 <= k < |names|
      ensures var text := ResumeText(files, names[k]);
        IsBlank(text) <==> Strip(text) == []
    {
      StripEmptyIffBlank(ResumeText(files, names[k]));
    }
  }

  /** A failure for one file never disturbs the others: changing what one file contains,
      even into a corrupt file, leaves every other file's row as it was. */
  lemma OneFileCannotDisturbOthers(backend: Backend, jobPath: string, jobFile: StoredFile,
                                   listing: seq<string>, files: string -> StoredFile,
                                   files': string -> StoredFile, changed: string,
                                   requirements: JobRequirements)
    requires DocumentText(jobPath, jobFile) != ""
    requires backend.jobAnalysisChain(DocumentText(jobPath, jobFile)) == Success(requirements)
    requires forall n :: n != changed ==> files(n) == files'(n)
    ensures Batch(backend, jobPath, jobFile, listing, files).outcome.Success?
    ensures Batch(backend, jobPath, jobFile, listing, files').outcome.Success?
    ensures var rows := Batch(backend, jobPath, jobFile, listing, files).outcome.value;
      var rows' := Batch(backend, jobPath, jobFile, listing, files').outcome.value;
      && |rows| == |rows'|
      && forall k :: 0 <= k < |rows| && Selected(listing)[k] != changed ==> rows[k] == rows'[k]
  {
    var names := Selected(listing);
    var rows := Rows(backend, requirements, files, names);
    var rows' := Rows(backend, requirements, files', names);
    assert Batch(backend, jobPath, jobFile, listing, files).outcome == Success(rows);
    assert Batch(backend, jobPath, jobFile, listing, files').outcome == Success(rows');
    forall k | 0 <= k < |names| && names[k] != changed
      ensures rows[k] == rows'[k]
    {
      assert files(names[k]) == files'(names[k]);
    }
  }

  /** The job-description check is `not text`, without `strip()`: a Word job file holding one
      empty paragraph yields "\n", which passes the check and is sent to the job analysis. */
  lemma BlankJobDescriptionIsAnalyzed(backend: Backend, jobPath: string, pdf: Opened<Page>,
                                      listing: seq<string>, files: string -> StoredFile)
    requires KindOf(jobPath) == Word
    ensures var run := Batch(backend, jobPath, StoredFile(pdf, Opened([Paragraph("")])), listing, files);
      |run.calls| >= 2 && run.calls[1] == AnalyzesJob("\n")
  {
    var file := StoredFile(pdf, Opened([Paragraph("")]));
    BlankWordFileIsNotEmpty();
    assert DocumentText(jobPath, file) == "\n";
    var prologue := [ExtractsText(jobPath), AnalyzesJob("\n")];
    var run := Batch(backend, jobPath, file, listing, files);
    match backend.jobAnalysisChain("\n")
    case Failure(message) =>
      assert run.calls == prologue;
    case Success(requirements) =>
      assert run.calls == prologue + ResumeCalls(requirements, files, Selected(listing));
  }

  /** The resume check strips first: the same "\n" as a resume's text gives the no-text row,
      whatever the backend and the requirements. */
  lemma BlankResumeTextIsNotEvaluated(backend: Backend, requirements: JobRequirements,
                                      filename: string)
    ensures FileRow(backend, requirements, filename, "\n") == FailureRow(filename, NoTextMessage)
    ensures FileCalls(requirements, filename, "\n") == [ExtractsText(filename)]
  {
    BlankWordFileIsNotEmpty();
    StripEmptyIffBlank("\n");
  }
}

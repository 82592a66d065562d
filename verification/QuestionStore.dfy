/** Questions, drives and the rows that link them, and what each writer does to them. */
module QuestionStore {
  import opened Prelude

  datatype QuestionStatus = Draft | Published | Archived

  /** content and scoringConfig stand for their JSON text. */
  datatype Question = Question(
    moduleType: string,
    role: string,
    content: string,
    scoringConfig: string,
    difficulty: string,
    tags: seq<string>,
    status: QuestionStatus,
    version: int,
    folderId: Option<string>)

  datatype Drive = Drive(
    partnerChannel: bool,
    editingUnlocked: bool,
    invites: nat,
    ungeneratedInvites: nat)

  /** A drive holds a question at most once. */
  datatype LinkKey = LinkKey(drive: string, question: string)

  datatype DriveQuestion = DriveQuestion(moduleType: string, pointShare: Option<real>, questionVersionSnapshot: int)

  datatype Store = Store(
    questions: map<string, Question>,
    drives: map<string, Drive>,
    links: map<LinkKey, DriveQuestion>)

  datatype StoreError =
    | QuestionMissing(id: string)
    | DriveMissing(id: string)
    | ContentInvalid
    | EditingLocked
    | MappingLocked
    | DriveInUse
    | IdTaken(id: string)

  /** The content checks, the keyword extraction and the two readings of a prompt. */
  datatype Rules = Rules(
    valid: (string, string, string) -> bool,
    withKeywords: string -> string,
    promptIsDebugging: string -> bool,
    textIsDebugging: string -> bool)

  datatype CreateQuestionDto = CreateQuestionDto(
    moduleType: string,
    content: string,
    scoringConfig: Option<string>,
    difficulty: Option<string>,
    tags: Option<seq<string>>,
    status: Option<QuestionStatus>,
    role: Option<string>)

  datatype UpdateQuestionDto = UpdateQuestionDto(
    moduleType: Option<string>,
    content: Option<string>,
    scoringConfig: Option<string>,
    difficulty: Option<string>,
    tags: Option<seq<string>>,
    status: Option<QuestionStatus>,
    role: Option<string>)

  datatype Assignment = Assignment(questionId: string, pointShare: Option<real>)

  function Or<T>(o: Option<T>, default: T): T {
    if o.Some? then o.value else default
  }

  // ---- Questions ----

  function Prepared(rules: Rules, moduleType: string, content: string): string {
    if moduleType == "AI_PROMPTING" then rules.withKeywords(content) else content
  }

  function CreateQuestion(rules: Rules, s: Store, dto: CreateQuestionDto, freshId: string): Result<Store, StoreError> {
    var scoring := Or(dto.scoringConfig, "{}");
    if !rules.valid(dto.moduleType, dto.content, scoring) then Err(ContentInvalid)
    else if freshId in s.questions then Err(IdTaken(freshId))
    else
      Ok(s.(questions := s.questions[freshId :=
        Question(dto.moduleType, Or(dto.role, "General"), Prepared(rules, dto.moduleType, dto.content), scoring,
                 Or(dto.difficulty, "medium"), Or(dto.tags, []), Or(dto.status, Published), 1, None)]))
  }

  /** The row with the fields the submission names replaced. */
  function Edited(rules: Rules, q: Question, dto: UpdateQuestionDto): Question {
    var moduleType := Or(dto.moduleType, q.moduleType);
    Question(moduleType, Or(dto.role, q.role), Prepared(rules, moduleType, Or(dto.content, q.content)),
             Or(dto.scoringConfig, q.scoringConfig), Or(dto.difficulty, q.difficulty), Or(dto.tags, q.tags),
             Or(dto.status, q.status), q.version + 1, q.folderId)
  }

  /** The link rows of a question. */
  function Uses(s: Store, id: string): set<LinkKey> {
    set k | k in s.links && k.question == id
  }

  predicate Linked(s: Store, id: string) {
    exists k :: k in s.links && k.question == id
  }

  /** A linked question is copied to freshId and archived; an unlinked one is edited in place. */
  function UpdateQuestion(rules: Rules, s: Store, id: string, dto: UpdateQuestionDto, freshId: string)
    : Result<Store, StoreError>
  {
    if id !in s.questions then Err(QuestionMissing(id))
    else
      var q := s.questions[id];
      var edited := Edited(rules, q, dto);
      if !rules.valid(edited.moduleType, Or(dto.content, q.content), edited.scoringConfig) then Err(ContentInvalid)
      else if !Linked(s, id) then Ok(s.(questions := s.questions[id := edited]))
      else if freshId in s.questions then Err(IdTaken(freshId))
      else
        var copy := edited.(folderId := Some(Or(q.folderId, id)));
        Ok(s.(questions := s.questions[freshId := copy][id := q.(status := Archived)]))
  }

  function RemoveQuestion(s: Store, id: string): Result<Store, StoreError> {
    if id !in s.questions then Err(QuestionMissing(id))
    else Ok(s.(questions := s.questions[id := s.questions[id].(status := Archived)]))
  }

  /** Whether the start-up pass files the question under debugging. */
  predicate FiledAsDebugging(rules: Rules, q: Question) {
    q.moduleType == "DEBUGGING" || "debugging" in q.tags || rules.textIsDebugging(q.content)
  }

  function Debugging(rules: Rules, questions: map<string, Question>): set<string> {
    set id | id in questions && FiledAsDebugging(rules, questions[id])
  }

  function Refiled(links: map<LinkKey, DriveQuestion>, ids: set<string>): map<LinkKey, DriveQuestion> {
    map k | k in links :: if k.question in ids then links[k].(moduleType := "DEBUGGING") else links[k]
  }

  function RefiledQuestions(questions: map<string, Question>, ids: set<string>): map<string, Question> {
    map id | id in questions :: if id in ids then questions[id].(moduleType := "DEBUGGING") else questions[id]
  }

  function NormalizeDebugging(rules: Rules, s: Store): Store {
    s.(questions := RefiledQuestions(s.questions, Debugging(rules, s.questions)),
       links := Refiled(s.links, Debugging(rules, s.questions)))
  }

  // ---- Links ----

  function LinkedType(rules: Rules, q: Question): string {
    if q.moduleType == "DEBUGGING" || "debugging" in q.tags || rules.promptIsDebugging(q.content) then "DEBUGGING"
    else q.moduleType
  }

  /** One row per id that names a question. */
  function LinksTo(rules: Rules, questions: map<string, Question>, drive: string, ids: set<string>,
                   shares: map<string, real>): map<LinkKey, DriveQuestion>
  {
    map id | id in ids && id in questions ::
      LinkKey(drive, id) := DriveQuestion(LinkedType(rules, questions[id]),
                                          if id in shares then Some(shares[id]) else None,
                                          questions[id].version)
  }

  function PublishedIn(questions: map<string, Question>, ids: set<string>): set<string> {
    set id | id in ids && id in questions && questions[id].status == Published
  }

  function WithoutDrive(links: map<LinkKey, DriveQuestion>, drive: string): map<LinkKey, DriveQuestion> {
    map k | k in links && k.drive != drive :: links[k]
  }

  function CreateDrive(rules: Rules, s: Store, freshId: string, drive: Drive, questionIds: set<string>)
    : Result<Store, StoreError>
  {
    if freshId in s.drives then Err(IdTaken(freshId))
    else
      Ok(s.(drives := s.drives[freshId := drive],
            links := s.links + LinksTo(rules, s.questions, freshId, PublishedIn(s.questions, questionIds), map[])))
  }

  /** The copied rows take the questions' live versions and carry no point share. */
  function CopiedLinks(s: Store, source: string, target: string): map<LinkKey, DriveQuestion> {
    map k | k in s.links && k.drive == source ::
      LinkKey(target, k.question) :=
        DriveQuestion(s.links[k].moduleType, None,
                      if k.question in s.questions then s.questions[k.question].version
                      else s.links[k].questionVersionSnapshot)
  }

  function DuplicateDrive(s: Store, source: string, freshId: string): Result<Store, StoreError> {
    if source !in s.drives then Err(DriveMissing(source))
    else if freshId in s.drives then Err(IdTaken(freshId))
    else
      Ok(s.(drives := s.drives[freshId := Drive(false, false, 0, 0)],
            links := s.links + CopiedLinks(s, source, freshId)))
  }

  /** Later entries win; an entry without a share leaves an earlier one standing. */
  function Shares(assignments: seq<Assignment>): map<string, real> {
    if assignments == [] then map[]
    else
      var last := assignments[|assignments| - 1];
      var before := Shares(assignments[..|assignments| - 1]);
      if last.pointShare.Some? then before[last.questionId := last.pointShare.value] else before
  }

  function Ids(assignments: seq<Assignment>): set<string> {
    set i | 0 <= i < |assignments| :: assignments[i].questionId
  }

  function SaveQuestions(rules: Rules, s: Store, drive: string, assignments: seq<Assignment>)
    : Result<Store, StoreError>
  {
    if drive !in s.drives then Err(DriveMissing(drive))
    else if s.drives[drive].partnerChannel && !s.drives[drive].editingUnlocked then Err(EditingLocked)
    else if s.drives[drive].invites > 0 && s.drives[drive].ungeneratedInvites == 0 then Err(MappingLocked)
    else
      Ok(s.(links := WithoutDrive(s.links, drive)
                     + LinksTo(rules, s.questions, drive, Ids(assignments), Shares(assignments))))
  }

  /** Replacing a drive's module configuration drops the rows of modules it does not enable. */
  function KeepModules(s: Store, drive: string, enabled: set<string>): Result<Store, StoreError> {
    if drive !in s.drives then Err(DriveMissing(drive))
    else if s.drives[drive].invites > s.drives[drive].ungeneratedInvites then Err(DriveInUse)
    else
      Ok(s.(links := map k | k in s.links && (k.drive != drive || s.links[k].moduleType in enabled) :: s.links[k]))
  }

  function DeleteDrive(s: Store, drive: string): Result<Store, StoreError> {
    if drive !in s.drives then Err(DriveMissing(drive))
    else Ok(s.(drives := s.drives - {drive}, links := WithoutDrive(s.links, drive)))
  }

  // ---- Runs ----

  datatype Step =
    | QuestionCreated(newQuestion: CreateQuestionDto, freshId: string)
    | QuestionUpdated(id: string, change: UpdateQuestionDto, freshId: string)
    | QuestionRemoved(id: string)
    | ServiceStarted
    | DriveCreated(drive: Drive, questionIds: set<string>, freshId: string)
    | DriveDuplicated(source: string, freshId: string)
    | QuestionsSaved(driveId: string, assignments: seq<Assignment>)
    | ModulesChanged(driveId: string, enabled: set<string>)
    | DriveDeleted(driveId: string)
    | DriveEdited(driveId: string, drive: Drive)

  function Outcome(rules: Rules, s: Store, step: Step): Result<Store, StoreError> {
    match step
    case QuestionCreated(dto, freshId) => CreateQuestion(rules, s, dto, freshId)
    case QuestionUpdated(id, dto, freshId) => UpdateQuestion(rules, s, id, dto, freshId)
    case QuestionRemoved(id) => RemoveQuestion(s, id)
    case ServiceStarted => Ok(NormalizeDebugging(rules, s))
    case DriveCreated(drive, ids, freshId) => CreateDrive(rules, s, freshId, drive, ids)
    case DriveDuplicated(source, freshId) => DuplicateDrive(s, source, freshId)
    case QuestionsSaved(drive, assignments) => SaveQuestions(rules, s, drive, assignments)
    case ModulesChanged(drive, enabled) => KeepModules(s, drive, enabled)
    case DriveDeleted(drive) => DeleteDrive(s, drive)
    case DriveEdited(id, drive) =>
      if id in s.drives then Ok(s.(drives := s.drives[id := drive])) else Err(DriveMissing(id))
  }

  /** A refused step changes nothing. */
  function Apply(rules: Rules, s: Store, step: Step): Store {
    var outcome := Outcome(rules, s, step);
    if outcome.Ok? then outcome.value else s
  }

  function Run(rules: Rules, s: Store, steps: seq<Step>): Store {
    if steps == [] then s else Apply(rules, Run(rules, s, steps[..|steps| - 1]), steps[|steps| - 1])
  }

  const EMPTY_STORE: Store := Store(map[], map[], map[])
}

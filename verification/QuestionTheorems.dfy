/** What every interleaving of question edits and drive writers keeps. */
module QuestionTheorems {
  import opened Prelude
  import opened QuestionStore

  // ---- Links agree with live questions ----

  ghost predicate LinkAgrees(s: Store, k: LinkKey)
    requires k in s.links
  {
    && k.drive in s.drives
    && k.question in s.questions
    && s.links[k].questionVersionSnapshot == s.questions[k.question].version
    && s.links[k].moduleType in {s.questions[k.question].moduleType, "DEBUGGING"}
  }

  ghost predicate LinksAgree(s: Store) {
    forall k :: k in s.links ==> LinkAgrees(s, k)
  }

  ghost predicate FolderIsRoot(s: Store, id: string)
    requires id in s.questions
  {
    var folder := s.questions[id].folderId;
    folder.Some? ==> folder.value in s.questions && s.questions[folder.value].folderId.None?
  }

  ghost predicate FoldersAreRoots(s: Store) {
    forall id :: id in s.questions ==> FolderIsRoot(s, id)
  }

  // ---- How a row may change ----

  /** Equal but for the status and a module type refiled under debugging. */
  predicate SameBody(a: Question, b: Question) {
    a == b.(status := a.status, moduleType := a.moduleType) && a.moduleType in {b.moduleType, "DEBUGGING"}
  }

  predicate Grows(before: Question, after: Question) {
    && before.version <= after.version
    && before.folderId == after.folderId
    && (before.version == after.version ==> SameBody(after, before))
  }

  ghost predicate RowsGrow(s: Store, t: Store) {
    forall id :: id in s.questions ==> id in t.questions && Grows(s.questions[id], t.questions[id])
  }

  /** A linked row keeps its version, hence its body. */
  ghost predicate LinkedRowsFrozen(s: Store, t: Store) {
    forall k :: k in s.links && k.question in s.questions ==>
      k.question in t.questions && SameBody(t.questions[k.question], s.questions[k.question])
  }

  lemma StartGrows(rules: Rules, s: Store)
    ensures RowsGrow(s, NormalizeDebugging(rules, s))
    ensures LinkedRowsFrozen(s, NormalizeDebugging(rules, s))
  {
    hide FiledAsDebugging, Refiled;
  }

  lemma QuestionStepGrows(rules: Rules, s: Store, step: Step)
    requires step.QuestionCreated? || step.QuestionUpdated? || step.QuestionRemoved?
    ensures RowsGrow(s, Apply(rules, s, step))
  {
    hide Prepared, Linked;
  }

  /**
   * Every step keeps every row and raises its version whenever it edits its content; a linked row changes
   * at most its status and, in the start-up pass, its module type.
   */
  lemma StepGrows(rules: Rules, s: Store, step: Step)
    ensures RowsGrow(s, Apply(rules, s, step))
    ensures LinkedRowsFrozen(s, Apply(rules, s, step))
  {
    hide CreateQuestion, UpdateQuestion, RemoveQuestion, NormalizeDebugging;
    hide LinksTo, CopiedLinks, WithoutDrive, PublishedIn, Shares, Ids;
    if step.ServiceStarted? {
      StartGrows(rules, s);
    } else if step.QuestionCreated? || step.QuestionUpdated? || step.QuestionRemoved? {
      QuestionStepGrows(rules, s, step);
      QuestionStepsLeaveLinks(rules, s, step);
    }
  }

  /** Linked rows change status only. */
  ghost predicate OnlyStatusChanges(s: Store, t: Store) {
    forall k :: k in s.links && k.question in s.questions ==>
      && k.question in t.questions
      && t.questions[k.question] == s.questions[k.question].(status := t.questions[k.question].status)
  }

  lemma QuestionStepsLeaveLinks(rules: Rules, s: Store, step: Step)
    requires step.QuestionCreated? || step.QuestionUpdated? || step.QuestionRemoved?
    ensures Apply(rules, s, step).links == s.links && Apply(rules, s, step).drives == s.drives
    ensures OnlyStatusChanges(s, Apply(rules, s, step))
  {
    hide Prepared;
  }

  lemma QuestionStepKeepsLinks(rules: Rules, s: Store, step: Step)
    requires LinksAgree(s)
    requires step.QuestionCreated? || step.QuestionUpdated? || step.QuestionRemoved?
    ensures LinksAgree(Apply(rules, s, step))
  {
  }

  lemma StartKeepsLinks(rules: Rules, s: Store)
    requires LinksAgree(s)
    ensures LinksAgree(NormalizeDebugging(rules, s))
  {
  }

  lemma LinkWritersKeepLinks(rules: Rules, s: Store, step: Step)
    requires LinksAgree(s)
    requires step.DriveCreated? || step.DriveDuplicated? || step.QuestionsSaved?
    ensures LinksAgree(Apply(rules, s, step))
  {
    hide Shares, Ids, LinksAgree;
    var t := Apply(rules, s, step);
    forall k | k in t.links
      ensures LinkAgrees(t, k)
    {
      if k in s.links {
        AgreesAt(s, k);
      }
      if step.DriveDuplicated? {
        var from := LinkKey(step.source, k.question);
        if from in s.links {
          AgreesAt(s, from);
        }
      }
    }
    AgreesEverywhere(t);
  }

  lemma AgreesAt(s: Store, k: LinkKey)
    requires LinksAgree(s) && k in s.links
    ensures LinkAgrees(s, k)
  {
  }

  lemma AgreesEverywhere(s: Store)
    requires forall k :: k in s.links ==> LinkAgrees(s, k)
    ensures LinksAgree(s)
  {
  }

  lemma DriveStepsKeepLinks(rules: Rules, s: Store, step: Step)
    requires LinksAgree(s)
    requires step.ModulesChanged? || step.DriveDeleted? || step.DriveEdited?
    ensures LinksAgree(Apply(rules, s, step))
  {
  }

  /** Every writer keeps each snapshot equal to its question's live version. */
  lemma StepKeepsLinks(rules: Rules, s: Store, step: Step)
    requires LinksAgree(s)
    ensures LinksAgree(Apply(rules, s, step))
  {
    hide LinksAgree, CreateQuestion, UpdateQuestion, RemoveQuestion, NormalizeDebugging;
    hide CreateDrive, DuplicateDrive, SaveQuestions, KeepModules, DeleteDrive;
    match step
    case QuestionCreated(_, _) => QuestionStepKeepsLinks(rules, s, step);
    case QuestionUpdated(_, _, _) => QuestionStepKeepsLinks(rules, s, step);
    case QuestionRemoved(_) => QuestionStepKeepsLinks(rules, s, step);
    case ServiceStarted => StartKeepsLinks(rules, s);
    case DriveCreated(_, _, _) => LinkWritersKeepLinks(rules, s, step);
    case DriveDuplicated(_, _) => LinkWritersKeepLinks(rules, s, step);
    case QuestionsSaved(_, _) => LinkWritersKeepLinks(rules, s, step);
    case ModulesChanged(_, _) => DriveStepsKeepLinks(rules, s, step);
    case DriveDeleted(_) => DriveStepsKeepLinks(rules, s, step);
    case DriveEdited(_, _) => DriveStepsKeepLinks(rules, s, step);
  }

  /** A new version points at the root of its family, and roots stay roots. */
  lemma StepKeepsFolders(rules: Rules, s: Store, step: Step)
    requires FoldersAreRoots(s)
    ensures FoldersAreRoots(Apply(rules, s, step))
  {
    hide Prepared, FiledAsDebugging, LinksTo, CopiedLinks, WithoutDrive, PublishedIn, Shares, Ids, Refiled;
    hide FolderIsRoot;
    var t := Apply(rules, s, step);
    StepGrows(rules, s, step);
    forall id | id in t.questions
      ensures FolderIsRoot(t, id)
    {
      if id in s.questions {
        FolderCarriesOver(s, t, id);
      } else {
        NewRowFolder(rules, s, step, id);
      }
    }
  }

  lemma FolderCarriesOver(s: Store, t: Store, id: string)
    requires FoldersAreRoots(s) && RowsGrow(s, t) && id in s.questions
    ensures id in t.questions && FolderIsRoot(t, id)
  {
    assert FolderIsRoot(s, id);
  }

  lemma NewRowFolder(rules: Rules, s: Store, step: Step, id: string)
    requires FoldersAreRoots(s)
    requires id in Apply(rules, s, step).questions && id !in s.questions
    ensures FolderIsRoot(Apply(rules, s, step), id)
  {
  }

  /** In every reachable store, snapshots are live versions and folders are roots. */
  lemma {:induction false} ReachableStoresAgree(rules: Rules, steps: seq<Step>)
    ensures LinksAgree(Run(rules, EMPTY_STORE, steps))
    ensures FoldersAreRoots(Run(rules, EMPTY_STORE, steps))
  {
    hide Apply;
    if steps != [] {
      var n := |steps| - 1;
      ReachableStoresAgree(rules, steps[..n]);
      StepKeepsLinks(rules, Run(rules, EMPTY_STORE, steps[..n]), steps[n]);
      StepKeepsFolders(rules, Run(rules, EMPTY_STORE, steps[..n]), steps[n]);
    }
  }

  // ---- Contents over time ----

  lemma {:induction false} RunSplit(rules: Rules, s: Store, steps: seq<Step>, i: nat)
    requires i <= |steps|
    ensures Run(rules, s, steps) == Run(rules, Run(rules, s, steps[..i]), steps[i..])
  {
    hide Apply;
    if i == |steps| {
      assert steps[..i] == steps && steps[i..] == [];
    } else {
      var n := |steps| - 1;
      RunSplit(rules, s, steps[..n], i);
      assert steps[..n][..i] == steps[..i] && steps[..n][i..] == steps[i..][..n - i];
    }
  }

  lemma {:induction false} RunGrows(rules: Rules, s: Store, steps: seq<Step>)
    ensures RowsGrow(s, Run(rules, s, steps))
  {
    hide Apply;
    if steps != [] {
      var n := |steps| - 1;
      RunGrows(rules, s, steps[..n]);
      StepGrows(rules, Run(rules, s, steps[..n]), steps[n]);
    }
  }

  /** Rows never vanish, versions never fall, and one version of a row has one body. */
  lemma VersionPinsBody(rules: Rules, steps: seq<Step>, i: nat, id: string)
    requires i <= |steps| && id in Run(rules, EMPTY_STORE, steps[..i]).questions
    ensures id in Run(rules, EMPTY_STORE, steps).questions
    ensures Grows(Run(rules, EMPTY_STORE, steps[..i]).questions[id], Run(rules, EMPTY_STORE, steps).questions[id])
  {
    hide Run;
    RunSplit(rules, EMPTY_STORE, steps, i);
    RunGrows(rules, Run(rules, EMPTY_STORE, steps[..i]), steps[i..]);
  }

  /** Two links of one question with equal snapshots, at any two times, stand for the same content. */
  lemma SnapshotPinsContent(rules: Rules, steps: seq<Step>, i: nat, k: LinkKey, l: LinkKey)
    requires i <= |steps| && k.question == l.question
    requires k in Run(rules, EMPTY_STORE, steps[..i]).links && l in Run(rules, EMPTY_STORE, steps).links
    requires Run(rules, EMPTY_STORE, steps[..i]).links[k].questionVersionSnapshot
             == Run(rules, EMPTY_STORE, steps).links[l].questionVersionSnapshot
    ensures k.question in Run(rules, EMPTY_STORE, steps[..i]).questions
    ensures l.question in Run(rules, EMPTY_STORE, steps).questions
    ensures SameBody(Run(rules, EMPTY_STORE, steps).questions[l.question],
                     Run(rules, EMPTY_STORE, steps[..i]).questions[k.question])
  {
    hide Run;
    var s, t := Run(rules, EMPTY_STORE, steps[..i]), Run(rules, EMPTY_STORE, steps);
    ReachableStoresAgree(rules, steps[..i]);
    ReachableStoresAgree(rules, steps);
    AgreesAt(s, k);
    AgreesAt(t, l);
    VersionPinsBody(rules, steps, i, k.question);
  }

  /** As long as some drive holds a question, its version and content stand still. */
  lemma {:induction false} LinkedQuestionIsFrozen(rules: Rules, s: Store, steps: seq<Step>, id: string)
    requires id in s.questions
    requires forall j :: 0 <= j < |steps| ==> Linked(Run(rules, s, steps[..j]), id)
    ensures id in Run(rules, s, steps).questions
    ensures SameBody(Run(rules, s, steps).questions[id], s.questions[id])
  {
    hide Apply, Linked;
    if steps != [] {
      var n := |steps| - 1;
      forall j | 0 <= j < n
        ensures Linked(Run(rules, s, steps[..n][..j]), id)
      {
        assert steps[..n][..j] == steps[..j];
      }
      LinkedQuestionIsFrozen(rules, s, steps[..n], id);
      LinkedIsFrozenOnce(rules, Run(rules, s, steps[..n]), steps[n], id);
    }
  }

  lemma LinkedIsFrozenOnce(rules: Rules, s: Store, step: Step, id: string)
    requires id in s.questions && Linked(s, id)
    ensures id in Apply(rules, s, step).questions
    ensures SameBody(Apply(rules, s, step).questions[id], s.questions[id])
  {
    hide Apply;
    StepGrows(rules, s, step);
    var k :| k in s.links && k.question == id;
    assert k.question in Apply(rules, s, step).questions;
  }

  // ---- Families of versions ----

  /** The oldest row of the family a row belongs to. */
  function Root(s: Store, id: string): string
    requires id in s.questions
  {
    Or(s.questions[id].folderId, id)
  }

  ghost predicate Newest(s: Store, id: string)
    requires id in s.questions
  {
    forall other :: other in s.questions && Root(s, other) == Root(s, id) ==>
      s.questions[other].version <= s.questions[id].version
  }

  ghost predicate StrictlyNewest(s: Store, id: string)
    requires id in s.questions
  {
    forall other :: other in s.questions && other != id && Root(s, other) == Root(s, id) ==>
      s.questions[other].version < s.questions[id].version
  }

  /** The row an update writes the new content to: the fresh copy of a linked row, the row itself otherwise. */
  function Written(s: Store, id: string, freshId: string): string {
    if Linked(s, id) then freshId else id
  }

  /** What both paths of an update do to the versions and folders. */
  lemma UpdateEffect(rules: Rules, s: Store, id: string, dto: UpdateQuestionDto, freshId: string)
    requires FoldersAreRoots(s) && UpdateQuestion(rules, s, id, dto, freshId).Ok?
    ensures id in s.questions
    ensures var t, n := UpdateQuestion(rules, s, id, dto, freshId).value, Written(s, id, freshId);
            && t.links == s.links
            && t.questions.Keys == s.questions.Keys + {n}
            && (n in s.questions ==> n == id)
            && t.questions[n].version == s.questions[id].version + 1
            && Root(t, n) == Root(s, id)
            && forall other :: other in s.questions && other != n ==>
                 Root(t, other) == Root(s, other) && t.questions[other].version == s.questions[other].version
  {
    hide Prepared, Linked;
  }

  /** What a submission says, or what the row said before. */
  function Given<T>(submitted: Option<T>, stored: T): T {
    match submitted
    case Some(v) => v
    case None => stored
  }

  /** On both paths the written row says what was submitted, and keeps the rest; a copied row is only archived. */
  lemma UpdateWrites(rules: Rules, s: Store, id: string, dto: UpdateQuestionDto, freshId: string)
    requires UpdateQuestion(rules, s, id, dto, freshId).Ok?
    ensures id in s.questions
    ensures var t, q := UpdateQuestion(rules, s, id, dto, freshId).value, s.questions[id];
            Written(s, id, freshId) in t.questions
            && var row := t.questions[Written(s, id, freshId)];
               && row.moduleType == Given(dto.moduleType, q.moduleType)
               && row.role == Given(dto.role, q.role)
               && row.content == (if row.moduleType == "AI_PROMPTING"
                                  then rules.withKeywords(Given(dto.content, q.content))
                                  else Given(dto.content, q.content))
               && row.scoringConfig == Given(dto.scoringConfig, q.scoringConfig)
               && row.difficulty == Given(dto.difficulty, q.difficulty)
               && row.tags == Given(dto.tags, q.tags)
               && row.status == Given(dto.status, q.status)
               && (Linked(s, id) ==> id in t.questions && t.questions[id] == q.(status := Archived))
  {
    hide Linked;
  }

  /** Which updates are refused, and why. */
  lemma UpdateRefused(rules: Rules, s: Store, id: string, dto: UpdateQuestionDto, freshId: string)
    ensures var r := UpdateQuestion(rules, s, id, dto, freshId);
            && (r == Err(QuestionMissing(id)) <==> id !in s.questions)
            && (id in s.questions ==>
                  var q := s.questions[id];
                  var fits := rules.valid(Given(dto.moduleType, q.moduleType), Given(dto.content, q.content),
                                          Given(dto.scoringConfig, q.scoringConfig));
                  && (r == Err(ContentInvalid) <==> !fits)
                  && (r == Err(IdTaken(freshId)) <==> fits && Linked(s, id) && freshId in s.questions)
                  && (r.Ok? <==> fits && (Linked(s, id) ==> freshId !in s.questions)))
  {
    hide Linked, Prepared;
  }

  /** A new question says what was submitted; the rest is General, medium, untagged, published, version one. */
  lemma CreateWrites(rules: Rules, s: Store, dto: CreateQuestionDto, freshId: string)
    requires CreateQuestion(rules, s, dto, freshId).Ok?
    ensures var t := CreateQuestion(rules, s, dto, freshId).value;
            freshId !in s.questions && freshId in t.questions
            && var row := t.questions[freshId];
               && row.moduleType == dto.moduleType
               && row.content == (if dto.moduleType == "AI_PROMPTING"
                                  then rules.withKeywords(dto.content) else dto.content)
               && row.role == Given(dto.role, "General") && row.difficulty == Given(dto.difficulty, "medium")
               && row.tags == Given(dto.tags, []) && row.status == Given(dto.status, Published)
               && row.scoringConfig == Given(dto.scoringConfig, "{}") && row.version == 1 && row.folderId == None
  {
  }

  /** The written row carries the highest version of its family, alone, iff the updated row was the newest. */
  lemma NewVersionIsNewestIff(rules: Rules, s: Store, id: string, dto: UpdateQuestionDto, freshId: string)
    requires FoldersAreRoots(s) && UpdateQuestion(rules, s, id, dto, freshId).Ok?
    ensures id in s.questions && Written(s, id, freshId) in UpdateQuestion(rules, s, id, dto, freshId).value.questions
    ensures StrictlyNewest(UpdateQuestion(rules, s, id, dto, freshId).value, Written(s, id, freshId)) <==> Newest(s, id)
  {
    hide UpdateQuestion, Written, FoldersAreRoots;
    UpdateEffect(rules, s, id, dto, freshId);
    var t, n := UpdateQuestion(rules, s, id, dto, freshId).value, Written(s, id, freshId);
    if StrictlyNewest(t, n) {
      forall other | other in s.questions && Root(s, other) == Root(s, id)
        ensures s.questions[other].version <= s.questions[id].version
      {
        assert other != n ==> t.questions[other].version < t.questions[n].version;
      }
    } else {
      var other :| other in t.questions && other != n && Root(t, other) == Root(t, n)
                   && t.questions[other].version >= t.questions[n].version;
      assert other in s.questions;
    }
  }

  /** The rows of a family carry pairwise different version numbers. */
  ghost predicate DistinctVersions(s: Store, root: string) {
    forall a, b :: a in s.questions && b in s.questions && a != b && Root(s, a) == root && Root(s, b) == root ==>
      s.questions[a].version != s.questions[b].version
  }

  ghost predicate HasVersion(s: Store, root: string, version: int) {
    exists a :: a in s.questions && Root(s, a) == root && s.questions[a].version == version
  }

  /** An update repeats a version number in its family exactly when the family already holds the next number. */
  lemma VersionsStayDistinctIff(rules: Rules, s: Store, id: string, dto: UpdateQuestionDto, freshId: string)
    requires FoldersAreRoots(s) && UpdateQuestion(rules, s, id, dto, freshId).Ok?
    requires id in s.questions && DistinctVersions(s, Root(s, id))
    ensures DistinctVersions(UpdateQuestion(rules, s, id, dto, freshId).value, Root(s, id))
            <==> !HasVersion(s, Root(s, id), s.questions[id].version + 1)
  {
    hide UpdateQuestion, Written, FoldersAreRoots, Root;
    UpdateEffect(rules, s, id, dto, freshId);
    var t, n := UpdateQuestion(rules, s, id, dto, freshId).value, Written(s, id, freshId);
    var root, next := Root(s, id), s.questions[id].version + 1;
    if HasVersion(s, root, next) {
      var a :| a in s.questions && Root(s, a) == root && s.questions[a].version == next;
      assert a != n && t.questions[a].version == t.questions[n].version;
    } else {
      forall a, b | a in t.questions && b in t.questions && a != b && Root(t, a) == root && Root(t, b) == root
        ensures t.questions[a].version != t.questions[b].version
      {
        assert a != n ==> a in s.questions;
        assert b != n ==> b in s.questions;
      }
    }
  }

  /** Updating a linked row twice in a row repeats a number, copy after copy. */
  lemma SecondUpdateCollides(rules: Rules, s: Store, id: string, a: UpdateQuestionDto, r: string,
                             b: UpdateQuestionDto, w: string)
    requires id in s.questions && Linked(s, id) && UpdateQuestion(rules, s, id, a, r).Ok?
    requires UpdateQuestion(rules, UpdateQuestion(rules, s, id, a, r).value, id, b, w).Ok?
    ensures var u := UpdateQuestion(rules, UpdateQuestion(rules, s, id, a, r).value, id, b, w).value;
            && r in u.questions && w in u.questions && r != w
            && Root(u, r) == Root(u, w) && u.questions[r].version == u.questions[w].version
  {
  }

  /** So does a linked update followed, once no drive holds the row any more, by an edit in place. */
  lemma UnlinkedEditCollides(rules: Rules, s: Store, id: string, a: UpdateQuestionDto, r: string,
                             later: Store, b: UpdateQuestionDto, w: string)
    requires id in s.questions && Linked(s, id) && UpdateQuestion(rules, s, id, a, r).Ok?
    requires later.questions == UpdateQuestion(rules, s, id, a, r).value.questions && !Linked(later, id)
    requires UpdateQuestion(rules, later, id, b, w).Ok?
    ensures var u := UpdateQuestion(rules, later, id, b, w).value;
            && r in u.questions && id in u.questions && r != id
            && Root(u, r) == Root(u, id) && u.questions[r].version == u.questions[id].version
  {
  }

  const ANY_CONTENT: Rules :=
    Rules((m: string, c: string, x: string) => true, (c: string) => c, (c: string) => false, (c: string) => false)
  const NO_CHANGE: UpdateQuestionDto := UpdateQuestionDto(None, None, None, None, None, None, None)
  const FIRST_VERSION: CreateQuestionDto := CreateQuestionDto("MCQ", "c", None, None, None, None, None)

  function LinkedQuestion(): Store {
    Apply(ANY_CONTENT, Apply(ANY_CONTENT, EMPTY_STORE, QuestionCreated(FIRST_VERSION, "q")),
          DriveCreated(Drive(false, false, 0, 0), {"q"}, "d"))
  }

  lemma LinkedQuestionShape()
    ensures "q" in LinkedQuestion().questions && LinkedQuestion().questions.Keys == {"q"}
    ensures Linked(LinkedQuestion(), "q") && LinkedQuestion().drives.Keys == {"d"}
    ensures forall k :: k in LinkedQuestion().links ==> k.drive == "d"
  {
    var s1 := Apply(ANY_CONTENT, EMPTY_STORE, QuestionCreated(FIRST_VERSION, "q"));
    assert s1.questions.Keys == {"q"} && s1.questions["q"].status == Published;
    assert LinkKey("d", "q") in LinkedQuestion().links;
  }

  /** A run of five service calls after which two rows of one family carry one number. */
  lemma ReachableCollision()
    ensures var t := Apply(ANY_CONTENT, LinkedQuestion(), QuestionUpdated("q", NO_CHANGE, "r"));
            var u := Apply(ANY_CONTENT, Apply(ANY_CONTENT, t, DriveDeleted("d")), QuestionUpdated("q", NO_CHANGE, "w"));
            && "q" in u.questions && "r" in u.questions
            && Root(u, "q") == Root(u, "r") && u.questions["q"].version == u.questions["r"].version
  {
    hide LinkedQuestion, Linked, Prepared;
    LinkedQuestionShape();
    var s := LinkedQuestion();
    var t := Apply(ANY_CONTENT, s, QuestionUpdated("q", NO_CHANGE, "r"));
    var later := Apply(ANY_CONTENT, t, DriveDeleted("d"));
    assert later.links == map[] && later.questions == t.questions;
    assert !Linked(later, "q") by { NothingLinked(later, "q"); }
    UnlinkedEditCollides(ANY_CONTENT, s, "q", NO_CHANGE, "r", later, NO_CHANGE, "w");
  }

  lemma NothingLinked(s: Store, id: string)
    requires s.links == map[]
    ensures !Linked(s, id)
  {
  }

  // ---- The start-up pass ----

  /** A question is refiled iff its module, a tag or its text says debugging; nothing else of any row changes. */
  lemma StartRefiles(rules: Rules, s: Store, id: string, k: LinkKey)
    ensures var t := NormalizeDebugging(rules, s);
            && t.questions.Keys == s.questions.Keys && t.links.Keys == s.links.Keys && t.drives == s.drives
            && (id in s.questions ==>
                  var q := s.questions[id];
                  var debugging := q.moduleType == "DEBUGGING" || "debugging" in q.tags
                                   || rules.textIsDebugging(q.content);
                  t.questions[id] == if debugging then q.(moduleType := "DEBUGGING") else q)
            && (k in s.links && k.question == id && id in s.questions ==>
                  t.links[k] == if t.questions[id].moduleType == "DEBUGGING"
                                then s.links[k].(moduleType := "DEBUGGING") else s.links[k])
  {
  }

  // ---- What the link writers leave ----

  ghost function Held(s: Store, drive: string): set<string> {
    set k | k in s.links && k.drive == drive :: k.question
  }

  /** A saved drive holds exactly the named existing questions; other drives keep theirs; saving again is idle. */
  lemma SaveIsExact(rules: Rules, s: Store, drive: string, assignments: seq<Assignment>)
    requires SaveQuestions(rules, s, drive, assignments).Ok?
    ensures var t := SaveQuestions(rules, s, drive, assignments).value;
            && Held(t, drive) == Ids(assignments) * s.questions.Keys
            && WithoutDrive(t.links, drive) == WithoutDrive(s.links, drive)
            && SaveQuestions(rules, t, drive, assignments) == Ok(t)
  {
  }

  /** A new drive holds exactly the requested questions that are published; nothing else changes. */
  lemma CreateHoldsPublished(rules: Rules, s: Store, freshId: string, drive: Drive, ids: set<string>, id: string)
    requires LinksAgree(s) && CreateDrive(rules, s, freshId, drive, ids).Ok?
    ensures var t := CreateDrive(rules, s, freshId, drive, ids).value;
            && (LinkKey(freshId, id) in t.links <==>
                  id in ids && id in s.questions && s.questions[id].status == Published)
            && t.questions == s.questions
            && forall k :: k in s.links ==> k in t.links && t.links[k] == s.links[k]
  {
    hide LinksAgree, LinkedType;
    forall k | k in s.links
      ensures k.drive != freshId
    {
      AgreesAt(s, k);
    }
  }

  /** A link carries the live version, the share named for it, and its module, DEBUGGING for debugging questions. */
  lemma SavedRow(rules: Rules, s: Store, drive: string, assignments: seq<Assignment>, id: string)
    requires SaveQuestions(rules, s, drive, assignments).Ok?
    requires id in Ids(assignments) && id in s.questions
    ensures LinkKey(drive, id) in SaveQuestions(rules, s, drive, assignments).value.links
    ensures var q := s.questions[id];
            var row := SaveQuestions(rules, s, drive, assignments).value.links[LinkKey(drive, id)];
            && row.questionVersionSnapshot == q.version
            && row.pointShare == (if id in Shares(assignments) then Some(Shares(assignments)[id]) else None)
            && row.moduleType == (if q.moduleType == "DEBUGGING" || "debugging" in q.tags
                                     || rules.promptIsDebugging(q.content)
                                  then "DEBUGGING" else q.moduleType)
  {
    hide Shares, Ids;
  }

  /** Saving is refused for a missing drive, a locked partner drive, and once every invite link is out. */
  lemma SaveRefused(rules: Rules, s: Store, drive: string, assignments: seq<Assignment>)
    ensures var r := SaveQuestions(rules, s, drive, assignments);
            && (r == Err(DriveMissing(drive)) <==> drive !in s.drives)
            && (drive in s.drives ==>
                  var d := s.drives[drive];
                  && (r == Err(EditingLocked) <==> d.partnerChannel && !d.editingUnlocked)
                  && (r.Ok? <==>
                        !(d.partnerChannel && !d.editingUnlocked) && (d.invites == 0 || d.ungeneratedInvites > 0)))
  {
    hide Shares, Ids, LinksTo, WithoutDrive;
  }

  /** Changing the modules is refused for a missing drive and once an invite link is out. */
  lemma ModulesRefused(s: Store, drive: string, enabled: set<string>)
    ensures var r := KeepModules(s, drive, enabled);
            && (r == Err(DriveMissing(drive)) <==> drive !in s.drives)
            && (r == Err(DriveInUse) <==>
                  drive in s.drives && s.drives[drive].invites > s.drives[drive].ungeneratedInvites)
            && (r.Ok? <==> drive in s.drives && s.drives[drive].invites <= s.drives[drive].ungeneratedInvites)
  {
  }

  /** Changing the modules keeps the rows of enabled modules and of other drives, as they are. */
  lemma ModulesKept(s: Store, drive: string, enabled: set<string>, k: LinkKey)
    requires KeepModules(s, drive, enabled).Ok?
    ensures var t := KeepModules(s, drive, enabled).value;
            && t.questions == s.questions && t.drives == s.drives
            && (k in t.links <==> k in s.links && (k.drive == drive ==> s.links[k].moduleType in enabled))
            && (k in t.links ==> t.links[k] == s.links[k])
  {
  }

  /** Deleting a drive takes its own rows with it and no others. */
  lemma DeleteTakesOwnRows(s: Store, drive: string, k: LinkKey)
    requires DeleteDrive(s, drive).Ok?
    ensures var t := DeleteDrive(s, drive).value;
            && t.questions == s.questions && t.drives.Keys == s.drives.Keys - {drive}
            && (k in t.links <==> k in s.links && k.drive != drive)
            && (k in t.links ==> t.links[k] == s.links[k])
  {
  }

  predicate LastShare(assignments: seq<Assignment>, i: nat, id: string)
    requires i < |assignments|
  {
    && assignments[i].questionId == id && assignments[i].pointShare.Some?
    && forall j :: i < j < |assignments| && assignments[j].questionId == id ==> assignments[j].pointShare.None?
  }

  /** A question has a share iff some entry names one. */
  lemma {:induction false} SharesNamed(assignments: seq<Assignment>, id: string)
    ensures id in Shares(assignments) <==>
            exists i :: 0 <= i < |assignments| && assignments[i].questionId == id && assignments[i].pointShare.Some?
  {
    if assignments != [] {
      var n := |assignments| - 1;
      SharesNamed(assignments[..n], id);
      assert forall i :: 0 <= i < n ==> assignments[..n][i] == assignments[i];
    }
  }

  /** The last entry that names a share decides. */
  lemma {:induction false} LastShareWins(assignments: seq<Assignment>, i: nat, id: string)
    requires i < |assignments| && LastShare(assignments, i, id)
    ensures id in Shares(assignments) && Shares(assignments)[id] == assignments[i].pointShare.value
  {
    var n := |assignments| - 1;
    if i < n {
      LastShareWins(assignments[..n], i, id);
    }
  }

  lemma CopiedRow(s: Store, source: string, target: string, id: string)
    requires LinksAgree(s)
    ensures LinkKey(target, id) in CopiedLinks(s, source, target) <==> LinkKey(source, id) in s.links
    ensures LinkKey(source, id) in s.links ==>
              CopiedLinks(s, source, target)[LinkKey(target, id)] == s.links[LinkKey(source, id)].(pointShare := None)
  {
  }

  lemma CopiesHaveTarget(s: Store, source: string, target: string)
    ensures forall k :: k in CopiedLinks(s, source, target) ==> k.drive == target
  {
  }

  /** A copied drive holds the same rows as its source but for the point shares; no other row changes. */
  lemma DuplicateCopiesRows(s: Store, source: string, freshId: string, id: string)
    requires LinksAgree(s) && DuplicateDrive(s, source, freshId).Ok?
    ensures var t := DuplicateDrive(s, source, freshId).value;
            && (LinkKey(freshId, id) in t.links <==> LinkKey(source, id) in s.links)
            && (LinkKey(source, id) in s.links ==>
                  t.links[LinkKey(freshId, id)] == s.links[LinkKey(source, id)].(pointShare := None))
            && forall k :: k in s.links ==> k in t.links && t.links[k] == s.links[k]
  {
    hide CopiedLinks, LinksAgree;
    CopiedRow(s, source, freshId, id);
    CopiesHaveTarget(s, source, freshId);
    forall k | k in s.links
      ensures k.drive != freshId
    {
      AgreesAt(s, k);
    }
  }
}

/** The question service and the drive service's link writers, over shared tables. */
module QuestionServices {
  import opened Prelude
  import S = QuestionStore

  class Tables {
    var questions: map<string, S.Question>
    var drives: map<string, S.Drive>
    var links: map<S.LinkKey, S.DriveQuestion>

    constructor ()
      ensures State() == S.EMPTY_STORE
    {
      questions, drives, links := map[], map[], map[];
    }

    function State(): S.Store
      reads this
    {
      S.Store(questions, drives, links)
    }
  }

  /** The tables hold the outcome, or are unchanged on a refusal. */
  predicate Reflects(outcome: Result<S.Store, S.StoreError>, before: S.Store, after: S.Store) {
    after == if outcome.Ok? then outcome.value else before
  }

  lemma FiledIs(rules: S.Rules, questions: map<string, S.Question>, id: string)
    requires id in questions
    ensures var q := questions[id];
            id in S.Debugging(rules, questions) <==>
              q.moduleType == "DEBUGGING" || "debugging" in q.tags || rules.textIsDebugging(q.content)
  {
  }

  lemma RefileNone(rules: S.Rules, questions: map<string, S.Question>, links: map<S.LinkKey, S.DriveQuestion>)
    ensures S.Debugging(rules, questions) <= questions.Keys
    ensures S.RefiledQuestions(questions, {}) == questions && S.Refiled(links, {}) == links
  {
  }

  lemma VisitStep(ids: set<string>, todo: set<string>, id: string)
    requires id in todo
    ensures ids - (todo - {id}) == if id in ids then ids - todo + {id} else ids - todo
    ensures id !in ids - todo
  {
  }

  lemma RefileStep(questions: map<string, S.Question>, ids: set<string>, id: string)
    requires id in questions && id !in ids
    ensures var q, next := questions[id], S.RefiledQuestions(questions, ids + {id});
            && next == S.RefiledQuestions(questions, ids)[id := q.(moduleType := "DEBUGGING")]
            && (q.moduleType == "DEBUGGING" ==> next == S.RefiledQuestions(questions, ids))
  {
  }

  class QuestionService {
    const prisma: Tables
    const rules: S.Rules

    constructor (prisma: Tables, rules: S.Rules)
      ensures this.prisma == prisma && this.rules == rules
    {
      this.prisma, this.rules := prisma, rules;
    }

    /** The start-up pass: questions about debugging, and their links, are filed under that module. */
    method OnModuleInit()
      modifies prisma
      ensures prisma.State() == S.NormalizeDebugging(rules, old(prisma.State()))
    {
      hide S.FiledAsDebugging, S.Debugging, S.RefiledQuestions, S.Refiled;
      RefileNone(rules, prisma.questions, prisma.links);
      var before := prisma.questions;
      var debuggingIds: set<string> := {};
      var todo := before.Keys;
      while todo != {}
        invariant todo <= before.Keys && debuggingIds == S.Debugging(rules, before) - todo
        invariant prisma.links == old(prisma.links) && prisma.drives == old(prisma.drives)
        invariant prisma.questions == S.RefiledQuestions(before, debuggingIds)
        decreases |todo|
      {
        var id :| id in todo;
        var q := before[id];
        var isDebug := q.moduleType == "DEBUGGING" || "debugging" in q.tags || rules.textIsDebugging(q.content);
        FiledIs(rules, before, id);
        RefileStep(before, debuggingIds, id);
        VisitStep(S.Debugging(rules, before), todo, id);
        if isDebug {
          debuggingIds := debuggingIds + {id};
          if q.moduleType != "DEBUGGING" {
            prisma.questions := prisma.questions[id := q.(moduleType := "DEBUGGING")];
          }
        }
        todo := todo - {id};
      }
      if |debuggingIds| > 0 {
        prisma.links := S.Refiled(prisma.links, debuggingIds);
      }
    }

    method Create(dto: S.CreateQuestionDto, freshId: string) returns (r: Result<S.Question, S.StoreError>)
      modifies prisma
      ensures var outcome := S.CreateQuestion(rules, old(prisma.State()), dto, freshId);
              && Reflects(outcome, old(prisma.State()), prisma.State())
              && r == if outcome.Ok? then Ok(outcome.value.questions[freshId]) else Err(outcome.error)
    {
      var scoringConfig := S.Or(dto.scoringConfig, "{}");
      if !rules.valid(dto.moduleType, dto.content, scoringConfig) {
        return Err(S.ContentInvalid);
      }
      var content := dto.content;
      if dto.moduleType == "AI_PROMPTING" {
        content := rules.withKeywords(content);
      }
      if freshId in prisma.questions {
        return Err(S.IdTaken(freshId));
      }
      var question := S.Question(dto.moduleType, S.Or(dto.role, "General"), content, scoringConfig,
                                 S.Or(dto.difficulty, "medium"), S.Or(dto.tags, []), S.Or(dto.status, S.Published),
                                 1, None);
      prisma.questions := prisma.questions[freshId := question];
      r := Ok(question);
    }

    /** Answers with the new version of a linked question, with the edited row otherwise. */
    method Update(id: string, dto: S.UpdateQuestionDto, freshId: string) returns (r: Result<S.Question, S.StoreError>)
      modifies prisma
      ensures var outcome := S.UpdateQuestion(rules, old(prisma.State()), id, dto, freshId);
              && Reflects(outcome, old(prisma.State()), prisma.State())
              && (outcome.Err? ==> r == Err(outcome.error))
              && (outcome.Ok? ==>
                    r == Ok(prisma.questions[if S.Linked(old(prisma.State()), id) then freshId else id]))
    {
      if id !in prisma.questions {
        return Err(S.QuestionMissing(id));
      }
      var question := prisma.questions[id];
      var moduleType := S.Or(dto.moduleType, question.moduleType);
      var content := S.Or(dto.content, question.content);
      var scoringConfig := S.Or(dto.scoringConfig, question.scoringConfig);
      if !rules.valid(moduleType, content, scoringConfig) {
        return Err(S.ContentInvalid);
      }
      if moduleType == "AI_PROMPTING" {
        content := rules.withKeywords(content);
      }
      var uses := S.Uses(prisma.State(), id);
      if |uses| > 0 {
        var k :| k in uses;
        if freshId in prisma.questions {
          return Err(S.IdTaken(freshId));
        }
        var newQuestion := S.Question(moduleType, S.Or(dto.role, question.role), content, scoringConfig,
                                      S.Or(dto.difficulty, question.difficulty), S.Or(dto.tags, question.tags),
                                      S.Or(dto.status, question.status), question.version + 1,
                                      if question.folderId.Some? then question.folderId else Some(id));
        prisma.questions := prisma.questions[freshId := newQuestion];
        prisma.questions := prisma.questions[id := question.(status := S.Archived)];
        r := Ok(newQuestion);
      } else {
        assert forall k :: k in prisma.links && k.question == id ==> k in uses;
        var updated := S.Question(moduleType, S.Or(dto.role, question.role), content, scoringConfig,
                                  S.Or(dto.difficulty, question.difficulty), S.Or(dto.tags, question.tags),
                                  S.Or(dto.status, question.status), question.version + 1, question.folderId);
        prisma.questions := prisma.questions[id := updated];
        r := Ok(updated);
      }
    }

    method Remove(id: string) returns (r: Result<S.QuestionStatus, S.StoreError>)
      modifies prisma
      ensures var outcome := S.RemoveQuestion(old(prisma.State()), id);
              && Reflects(outcome, old(prisma.State()), prisma.State())
              && r == if outcome.Ok? then Ok(S.Archived) else Err(outcome.error)
    {
      if id !in prisma.questions {
        return Err(S.QuestionMissing(id));
      }
      var updated := prisma.questions[id].(status := S.Archived);
      prisma.questions := prisma.questions[id := updated];
      r := Ok(updated.status);
    }
  }

  class DriveService {
    const prisma: Tables
    const rules: S.Rules

    constructor (prisma: Tables, rules: S.Rules)
      ensures this.prisma == prisma && this.rules == rules
    {
      this.prisma, this.rules := prisma, rules;
    }

    method Create(drive: S.Drive, questionIds: set<string>, freshId: string) returns (r: Result<string, S.StoreError>)
      modifies prisma
      ensures var outcome := S.CreateDrive(rules, old(prisma.State()), freshId, drive, questionIds);
              && Reflects(outcome, old(prisma.State()), prisma.State())
              && r == if outcome.Ok? then Ok(freshId) else Err(outcome.error)
    {
      hide S.LinksTo, S.PublishedIn;
      NothingToLink();
      if freshId in prisma.drives {
        return Err(S.IdTaken(freshId));
      }
      prisma.drives := prisma.drives[freshId := drive];
      if |questionIds| > 0 {
        var questionsToLink := S.PublishedIn(prisma.questions, questionIds);
        if |questionsToLink| > 0 {
          prisma.links := prisma.links + S.LinksTo(rules, prisma.questions, freshId, questionsToLink, map[]);
        }
      }
      r := Ok(freshId);
    }

    lemma NothingToLink()
      ensures S.PublishedIn(prisma.questions, {}) == {}
      ensures forall drive :: S.LinksTo(rules, prisma.questions, drive, {}, map[]) == map[]
    {
    }

    method Duplicate(driveId: string, freshId: string) returns (r: Result<string, S.StoreError>)
      modifies prisma
      ensures var outcome := S.DuplicateDrive(old(prisma.State()), driveId, freshId);
              && Reflects(outcome, old(prisma.State()), prisma.State())
              && r == if outcome.Ok? then Ok(freshId) else Err(outcome.error)
    {
      if driveId !in prisma.drives {
        return Err(S.DriveMissing(driveId));
      }
      if freshId in prisma.drives {
        return Err(S.IdTaken(freshId));
      }
      hide S.CopiedLinks;
      var copied := S.CopiedLinks(prisma.State(), driveId, freshId);
      prisma.drives := prisma.drives[freshId := S.Drive(false, false, 0, 0)];
      if |copied| > 0 {
        prisma.links := prisma.links + copied;
      }
      r := Ok(freshId);
    }

    /** The shares a list of assignments names. */
    method ShareMap(assignments: seq<S.Assignment>) returns (shares: map<string, real>)
      ensures shares == S.Shares(assignments)
    {
      shares := map[];
      for i := 0 to |assignments|
        invariant shares == S.Shares(assignments[..i])
      {
        assert assignments[..i + 1][..i] == assignments[..i];
        if assignments[i].pointShare.Some? {
          shares := shares[assignments[i].questionId := assignments[i].pointShare.value];
        }
      }
      assert assignments[..|assignments|] == assignments;
    }

    method SaveQuestions(driveId: string, assignments: seq<S.Assignment>) returns (r: Result<(), S.StoreError>)
      modifies prisma
      ensures var outcome := S.SaveQuestions(rules, old(prisma.State()), driveId, assignments);
              && Reflects(outcome, old(prisma.State()), prisma.State())
              && r == if outcome.Ok? then Ok(()) else Err(outcome.error)
    {
      if driveId !in prisma.drives {
        return Err(S.DriveMissing(driveId));
      }
      var drive := prisma.drives[driveId];
      if drive.partnerChannel && !drive.editingUnlocked {
        return Err(S.EditingLocked);
      }
      if drive.invites > 0 && drive.ungeneratedInvites == 0 {
        return Err(S.MappingLocked);
      }
      hide S.LinksTo, S.Shares, S.Ids;
      var shareMap := ShareMap(assignments);
      var ids := S.Ids(assignments);
      var rows := S.LinksTo(rules, prisma.questions, driveId, ids, shareMap);
      prisma.links := S.WithoutDrive(prisma.links, driveId);
      if |rows| > 0 {
        prisma.links := prisma.links + rows;
      }
      r := Ok(());
    }

    method UpdateModules(driveId: string, enabledModules: set<string>) returns (r: Result<(), S.StoreError>)
      modifies prisma
      ensures var outcome := S.KeepModules(old(prisma.State()), driveId, enabledModules);
              && Reflects(outcome, old(prisma.State()), prisma.State())
              && r == if outcome.Ok? then Ok(()) else Err(outcome.error)
    {
      if driveId !in prisma.drives {
        return Err(S.DriveMissing(driveId));
      }
      if prisma.drives[driveId].invites > prisma.drives[driveId].ungeneratedInvites {
        return Err(S.DriveInUse);
      }
      prisma.links :=
        map k | k in prisma.links && (k.drive != driveId || prisma.links[k].moduleType in enabledModules) ::
          prisma.links[k];
      r := Ok(());
    }

    method Delete(driveId: string) returns (r: Result<(), S.StoreError>)
      modifies prisma
      ensures var outcome := S.DeleteDrive(old(prisma.State()), driveId);
              && Reflects(outcome, old(prisma.State()), prisma.State())
              && r == if outcome.Ok? then Ok(()) else Err(outcome.error)
    {
      if driveId !in prisma.drives {
        return Err(S.DriveMissing(driveId));
      }
      prisma.links := S.WithoutDrive(prisma.links, driveId);
      prisma.drives := prisma.drives - {driveId};
      r := Ok(());
    }
  }
}

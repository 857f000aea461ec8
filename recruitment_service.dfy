/**
 * The recruitment application service: update-then-save operations on an accessed
 * recruitment, the announcement guard, and the assembly of a recruitment's details
 * with its questions grouped by section.
 */
module RecruitmentService {
  import opened Exceptions
  import opened RecruitmentDomain
  import opened Grouping

  datatype Choice = Choice(id: int, content: string)

  datatype NarrativeQuestion = NarrativeQuestion(id: int, section: Section, content: string)

  datatype SelectiveQuestion = SelectiveQuestion(id: int, section: Section, content: string, choices: seq<Choice>)

  function NarrativeSection(q: NarrativeQuestion): Section { q.section }

  function SelectiveSection(q: SelectiveQuestion): Section { q.section }

  /** What the details response is built from: the recruitment and its questions by section. */
  datatype RecruitmentDetails = RecruitmentDetails(
    recruitment: RecruitmentState,
    narrativeQuestionsBySection: map<Section, seq<NarrativeQuestion>>,
    selectiveQuestionsBySection: map<Section, seq<SelectiveQuestion>>)

  datatype RecruitmentSaveRequest = RecruitmentSaveRequest(
    title: string, description: string, sections: seq<Section>, closingDate: Timestamp)

  datatype ProgressStateUpdateRequest = ProgressStateUpdateRequest(progress: Progress)

  datatype DeadlineUpdateRequest = DeadlineUpdateRequest(deadline: Timestamp)

  /** `findAllBySectionIn`: the stored narrative questions whose section is one of `sections`. */
  function FindAllBySectionIn(narrativeQuestions: seq<NarrativeQuestion>, sections: seq<Section>): (r: seq<NarrativeQuestion>)
    ensures forall q :: q in r ==> q in narrativeQuestions && q.section in sections
    ensures forall q :: q in narrativeQuestions && q.section in sections ==> q in r
  {
    KeyInComplete(narrativeQuestions, NarrativeSection, sections);
    KeyIn(narrativeQuestions, NarrativeSection, sections)
  }

  /** `findAllWithChoicesInSections`: the stored selective questions whose section is one of `sections`. */
  function FindAllWithChoicesInSections(selectiveQuestions: seq<SelectiveQuestion>, sections: seq<Section>): (r: seq<SelectiveQuestion>)
    ensures forall q :: q in r ==> q in selectiveQuestions && q.section in sections
    ensures forall q :: q in selectiveQuestions && q.section in sections ==> q in r
  {
    KeyInComplete(selectiveQuestions, SelectiveSection, sections);
    KeyIn(selectiveQuestions, SelectiveSection, sections)
  }

  /**
   * Looks the recruitment up (RECRUITMENT_NOT_FOUND when absent), fetches the stored
   * questions of its sections and groups each kind by section.
   */
  function GetRecruitmentDetails(recruitments: map<int, RecruitmentState>, recruitmentId: int,
                                 narrativeQuestions: seq<NarrativeQuestion>,
                                 selectiveQuestions: seq<SelectiveQuestion>): (r: Result<RecruitmentDetails>)
    ensures r.Err? <==> recruitmentId !in recruitments
    ensures r.Err? ==> r.error == RecruitmentNotFound
    ensures r.Ok? ==> r.value.recruitment == recruitments[recruitmentId]
    ensures r.Ok? ==> forall s :: s in r.value.narrativeQuestionsBySection ==>
                        s in recruitments[recruitmentId].sections && Group(narrativeQuestions, NarrativeSection, s) != []
    ensures r.Ok? ==> forall s :: s in recruitments[recruitmentId].sections && Group(narrativeQuestions, NarrativeSection, s) != [] ==>
                        s in r.value.narrativeQuestionsBySection
    ensures r.Ok? ==> forall s :: s in r.value.narrativeQuestionsBySection ==>
                        r.value.narrativeQuestionsBySection[s] == Group(narrativeQuestions, NarrativeSection, s)
    ensures r.Ok? ==> forall s :: s in r.value.selectiveQuestionsBySection ==>
                        s in recruitments[recruitmentId].sections && Group(selectiveQuestions, SelectiveSection, s) != []
    ensures r.Ok? ==> forall s :: s in recruitments[recruitmentId].sections && Group(selectiveQuestions, SelectiveSection, s) != [] ==>
                        s in r.value.selectiveQuestionsBySection
    ensures r.Ok? ==> forall s :: s in r.value.selectiveQuestionsBySection ==>
                        r.value.selectiveQuestionsBySection[s] == Group(selectiveQuestions, SelectiveSection, s)
  {
    if recruitmentId !in recruitments then Err(RecruitmentNotFound)
    else
      var recruitment := recruitments[recruitmentId];
      var sections := recruitment.sections;
      var narratives := FindAllBySectionIn(narrativeQuestions, sections);
      var selectives := FindAllWithChoicesInSections(selectiveQuestions, sections);
      GroupingByOfKeyIn(narrativeQuestions, NarrativeSection, sections);
      GroupingByOfKeyIn(selectiveQuestions, SelectiveSection, sections);
      Ok(RecruitmentDetails(recruitment, GroupingBy(narratives, NarrativeSection), GroupingBy(selectives, SelectiveSection)))
  }

  /** Every question in the details sits under its own section, and that section is one of the recruitment's. */
  lemma DetailsKeyedBySection(recruitments: map<int, RecruitmentState>, recruitmentId: int,
                              narrativeQuestions: seq<NarrativeQuestion>,
                              selectiveQuestions: seq<SelectiveQuestion>)
    requires recruitmentId in recruitments
    ensures var d := GetRecruitmentDetails(recruitments, recruitmentId, narrativeQuestions, selectiveQuestions).value;
            (forall s, q :: s in d.narrativeQuestionsBySection && q in d.narrativeQuestionsBySection[s] ==>
               q.section == s && s in recruitments[recruitmentId].sections) &&
            (forall s, q :: s in d.selectiveQuestionsBySection && q in d.selectiveQuestionsBySection[s] ==>
               q.section == s && s in recruitments[recruitmentId].sections)
  {
  }

  /** Number of choices over the selective questions listed under `sections`. */
  function ChoiceCount(m: map<Section, seq<SelectiveQuestion>>, sections: seq<Section>): nat {
    if sections == [] then 0
    else (if sections[0] in m then Choices(m[sections[0]]) else 0) + ChoiceCount(m, sections[1..])
  }

  function Choices(qs: seq<SelectiveQuestion>): nat {
    if qs == [] then 0 else |qs[0].choices| + Choices(qs[1..])
  }

  /**
   * Grouping loses and duplicates nothing: over the recruitment's (distinct) sections,
   * the group sizes add up to the number of questions fetched for them.
   */
  lemma DetailsLoseNothing(recruitments: map<int, RecruitmentState>, recruitmentId: int,
                           narrativeQuestions: seq<NarrativeQuestion>,
                           selectiveQuestions: seq<SelectiveQuestion>)
    requires recruitmentId in recruitments
    requires Distinct(recruitments[recruitmentId].sections)
    ensures var d := GetRecruitmentDetails(recruitments, recruitmentId, narrativeQuestions, selectiveQuestions).value;
            var sections := recruitments[recruitmentId].sections;
            TotalSize(d.narrativeQuestionsBySection, sections) == |FindAllBySectionIn(narrativeQuestions, sections)| &&
            TotalSize(d.selectiveQuestionsBySection, sections) == |FindAllWithChoicesInSections(selectiveQuestions, sections)|
  {
    var sections := recruitments[recruitmentId].sections;
    GroupingByLosesNothing(narrativeQuestions, NarrativeSection, sections);
    GroupingByLosesNothing(selectiveQuestions, SelectiveSection, sections);
  }

  /**
   * Two sections, each with one narrative question and one selective question of three
   * choices: the details hold 2 sections, 2 narrative and 2 selective questions, 6 choices.
   */
  lemma TwoSectionDetails(backend: Section, frontend: Section, recruitment: RecruitmentState,
                          n1: NarrativeQuestion, n2: NarrativeQuestion,
                          s1: SelectiveQuestion, s2: SelectiveQuestion)
    requires backend != frontend
    requires recruitment.sections == [backend, frontend]
    requires n1.section == backend && n2.section == frontend
    requires s1.section == backend && s2.section == frontend
    requires |s1.choices| == 3 && |s2.choices| == 3
    ensures var r := GetRecruitmentDetails(map[recruitment.id := recruitment], recruitment.id, [n1, n2], [s1, s2]);
            r.Ok? &&
            |r.value.recruitment.sections| == 2 &&
            TotalSize(r.value.narrativeQuestionsBySection, recruitment.sections) == 2 &&
            TotalSize(r.value.selectiveQuestionsBySection, recruitment.sections) == 2 &&
            ChoiceCount(r.value.selectiveQuestionsBySection, recruitment.sections) == 6
  {
    TwoSectionNarratives(backend, frontend, recruitment, n1, n2, [s1, s2]);
    TwoSectionSelectives(backend, frontend, recruitment, [n1, n2], s1, s2);
    TwoSectionChoices(backend, frontend, recruitment, [n1, n2], s1, s2);
  }

  lemma TwoSectionNarratives(backend: Section, frontend: Section, recruitment: RecruitmentState,
                             n1: NarrativeQuestion, n2: NarrativeQuestion, selectives: seq<SelectiveQuestion>)
    requires backend != frontend
    requires recruitment.sections == [backend, frontend]
    requires n1.section == backend && n2.section == frontend
    ensures var d := GetRecruitmentDetails(map[recruitment.id := recruitment], recruitment.id, [n1, n2], selectives).value;
            TotalSize(d.narrativeQuestionsBySection, recruitment.sections) == 2
  {
    var m := GetRecruitmentDetails(map[recruitment.id := recruitment], recruitment.id, [n1, n2], selectives).value.narrativeQuestionsBySection;
    TwoSectionNarrativeGroups(backend, frontend, recruitment, n1, n2, selectives);
    TotalSizeOfTwo(m, backend, frontend);
  }

  lemma TwoSectionNarrativeGroups(backend: Section, frontend: Section, recruitment: RecruitmentState,
                                  n1: NarrativeQuestion, n2: NarrativeQuestion, selectives: seq<SelectiveQuestion>)
    requires backend != frontend
    requires recruitment.sections == [backend, frontend]
    requires n1.section == backend && n2.section == frontend
    ensures var m := GetRecruitmentDetails(map[recruitment.id := recruitment], recruitment.id, [n1, n2], selectives).value.narrativeQuestionsBySection;
            backend in m && m[backend] == [n1] && frontend in m && m[frontend] == [n2]
  {
    GroupOfTwo(n1, n2, NarrativeSection, backend, frontend);
  }

  lemma TwoSectionSelectives(backend: Section, frontend: Section, recruitment: RecruitmentState,
                             narratives: seq<NarrativeQuestion>, s1: SelectiveQuestion, s2: SelectiveQuestion)
    requires backend != frontend
    requires recruitment.sections == [backend, frontend]
    requires s1.section == backend && s2.section == frontend
    ensures var d := GetRecruitmentDetails(map[recruitment.id := recruitment], recruitment.id, narratives, [s1, s2]).value;
            TotalSize(d.selectiveQuestionsBySection, recruitment.sections) == 2
  {
    var m := GetRecruitmentDetails(map[recruitment.id := recruitment], recruitment.id, narratives, [s1, s2]).value.selectiveQuestionsBySection;
    TwoSectionSelectiveGroups(backend, frontend, recruitment, narratives, s1, s2);
    TotalSizeOfTwo(m, backend, frontend);
  }

  lemma TwoSectionChoices(backend: Section, frontend: Section, recruitment: RecruitmentState,
                          narratives: seq<NarrativeQuestion>, s1: SelectiveQuestion, s2: SelectiveQuestion)
    requires backend != frontend
    requires recruitment.sections == [backend, frontend]
    requires s1.section == backend && s2.section == frontend
    ensures var d := GetRecruitmentDetails(map[recruitment.id := recruitment], recruitment.id, narratives, [s1, s2]).value;
            ChoiceCount(d.selectiveQuestionsBySection, recruitment.sections) == |s1.choices| + |s2.choices|
  {
    var m := GetRecruitmentDetails(map[recruitment.id := recruitment], recruitment.id, narratives, [s1, s2]).value.selectiveQuestionsBySection;
    TwoSectionSelectiveGroups(backend, frontend, recruitment, narratives, s1, s2);
    ChoiceCountOfTwo(m, backend, frontend);
    ChoicesOfOne(s1);
    ChoicesOfOne(s2);
  }

  lemma TwoSectionSelectiveGroups(backend: Section, frontend: Section, recruitment: RecruitmentState,
                                  narratives: seq<NarrativeQuestion>, s1: SelectiveQuestion, s2: SelectiveQuestion)
    requires backend != frontend
    requires recruitment.sections == [backend, frontend]
    requires s1.section == backend && s2.section == frontend
    ensures var m := GetRecruitmentDetails(map[recruitment.id := recruitment], recruitment.id, narratives, [s1, s2]).value.selectiveQuestionsBySection;
            backend in m && m[backend] == [s1] && frontend in m && m[frontend] == [s2]
  {
    GroupOfTwo(s1, s2, SelectiveSection, backend, frontend);
  }

  lemma ChoicesOfOne(q: SelectiveQuestion)
    ensures Choices([q]) == |q.choices|
  {
    assert [q][1..] == [];
  }

  /** The choice count over two present sections is the sum of their questions' choices. */
  lemma ChoiceCountOfTwo(m: map<Section, seq<SelectiveQuestion>>, k1: Section, k2: Section)
    requires k1 in m && k2 in m
    ensures ChoiceCount(m, [k1, k2]) == Choices(m[k1]) + Choices(m[k2])
  {
    assert [k1, k2][1..] == [k2] && [k2][1..] == [];
    assert ChoiceCount(m, [k2]) == Choices(m[k2]) + ChoiceCount(m, []);
    assert ChoiceCount(m, [k1, k2]) == Choices(m[k1]) + ChoiceCount(m, [k2]);
  }

  /** The recruitment table: saved states by id. */
  class RecruitmentRepository {
    var rows: map<int, RecruitmentState>

    constructor ()
      ensures rows == map[]
    {
      rows := map[];
    }

    /** Persists the recruitment's current state under its id. */
    method Save(recruitment: Recruitment)
      modifies this
      ensures rows == old(rows)[recruitment.id := recruitment.State()]
    {
      rows := rows[recruitment.id := recruitment.State()];
    }
  }

  /**
   * The effect of an update-then-save operation: the mutation's new state is the
   * recruitment's and the saved row; a refused mutation changes and saves nothing.
   */
  ghost predicate MutatedThenSaved(mutated: Result<RecruitmentState>, res: Outcome,
                                   before: RecruitmentState, after: RecruitmentState,
                                   rowsBefore: map<int, RecruitmentState>, rowsAfter: map<int, RecruitmentState>)
  {
    match mutated
    case Err(e) => res == Fail(e) && after == before && rowsAfter == rowsBefore
    case Ok(s) => res == Pass && after == s && rowsAfter == rowsBefore[s.id := s]
  }

  method ApplyThenSave(repository: RecruitmentRepository, recruitment: Recruitment,
                       mutated: Result<RecruitmentState>) returns (res: Outcome)
    modifies repository, recruitment
    ensures MutatedThenSaved(mutated, res, old(recruitment.State()), recruitment.State(),
                             old(repository.rows), repository.rows)
  {
    if mutated.Err? {
      return Fail(mutated.error);
    }
    var s := mutated.value;
    recruitment.id, recruitment.code, recruitment.title, recruitment.description := s.id, s.code, s.title, s.description;
    recruitment.progress, recruitment.closingDate, recruitment.publisher, recruitment.sections := s.progress, s.closingDate, s.publisher, s.sections;
    repository.Save(recruitment);
    res := Pass;
  }

  /** `saveRecruitment`: `updateAll(request)` on the accessed recruitment, then save. */
  method SaveRecruitment(repository: RecruitmentRepository, accessedRecruitment: Recruitment,
                         request: RecruitmentSaveRequest,
                         updateAll: (RecruitmentState, RecruitmentSaveRequest) -> Result<RecruitmentState>)
    returns (res: Outcome)
    modifies repository, accessedRecruitment
    ensures MutatedThenSaved(updateAll(old(accessedRecruitment.State()), request), res,
                             old(accessedRecruitment.State()), accessedRecruitment.State(),
                             old(repository.rows), repository.rows)
  {
    res := ApplyThenSave(repository, accessedRecruitment, updateAll(accessedRecruitment.State(), request));
  }

  /** `updateProgressState`: `updateProgress(request.progress)`, then save. */
  method UpdateProgressState(repository: RecruitmentRepository, accessedRecruitment: Recruitment,
                             request: ProgressStateUpdateRequest,
                             updateProgress: (RecruitmentState, Progress) -> Result<RecruitmentState>)
    returns (res: Outcome)
    modifies repository, accessedRecruitment
    ensures MutatedThenSaved(updateProgress(old(accessedRecruitment.State()), request.progress), res,
                             old(accessedRecruitment.State()), accessedRecruitment.State(),
                             old(repository.rows), repository.rows)
  {
    res := ApplyThenSave(repository, accessedRecruitment, updateProgress(accessedRecruitment.State(), request.progress));
  }

  /** `updateDeadline`: `updateDeadline(request.deadline)`, then save. */
  method UpdateDeadline(repository: RecruitmentRepository, accessedRecruitment: Recruitment,
                        request: DeadlineUpdateRequest,
                        updateDeadline: (RecruitmentState, Timestamp) -> Result<RecruitmentState>)
    returns (res: Outcome)
    modifies repository, accessedRecruitment
    ensures MutatedThenSaved(updateDeadline(old(accessedRecruitment.State()), request.deadline), res,
                             old(accessedRecruitment.State()), accessedRecruitment.State(),
                             old(repository.rows), repository.rows)
  {
    res := ApplyThenSave(repository, accessedRecruitment, updateDeadline(accessedRecruitment.State(), request.deadline));
  }

  /**
   * Announcing outcomes: refused with ALREADY_ANNOUNCED, changing and saving nothing,
   * when the recruitment is already announced; otherwise announces and saves it.
   */
  method AnnounceRecruitmentOutcome(repository: RecruitmentRepository, recruitment: Recruitment)
    returns (res: Outcome)
    modifies repository, recruitment`progress
    ensures old(recruitment.IsAnnounced()) ==>
              res == Fail(AlreadyAnnounced) && recruitment.progress == old(recruitment.progress) &&
              repository.rows == old(repository.rows)
    ensures !old(recruitment.IsAnnounced()) ==>
              res == Pass && recruitment.IsAnnounced() &&
              repository.rows == old(repository.rows)[recruitment.id := recruitment.State()]
  {
    if recruitment.IsAnnounced() {
      return Fail(AlreadyAnnounced);
    }
    recruitment.Announce();
    repository.Save(recruitment);
    res := Pass;
  }

  /** A second announcement of the same recruitment fails and leaves it announced. */
  method AnnounceTwice(repository: RecruitmentRepository, recruitment: Recruitment)
    returns (first: Outcome, second: Outcome)
    requires !recruitment.IsAnnounced()
    modifies repository, recruitment`progress
    ensures first == Pass && second == Fail(AlreadyAnnounced)
    ensures recruitment.IsAnnounced()
  {
    first := AnnounceRecruitmentOutcome(repository, recruitment);
    second := AnnounceRecruitmentOutcome(repository, recruitment);
  }
}

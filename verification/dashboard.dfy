/** The admin dashboard: the talent records it lists, the three filters over
    them, the resume download and the session gate in front of the listing. */
module Dashboard {
  import opened Wrappers
  import opened Seqs
  import opened Text

  /** One row of the `talents` collection, as the dashboard reads it. */
  datatype TalentProfile = TalentProfile(
    id: string,
    fullName: string,
    email: string,
    linkedin: Option<string>,
    techStack: seq<string>,
    yearsOfExperience: nat,
    clearanceEligible: bool,
    workPreference: string,
    accommodationPreferences: Option<string>,
    resumePath: Option<string>,
    createdAt: string)

  /** The clearance select: "all", "yes" or "no". */
  datatype ClearanceFilter = AllClearance | ClearanceYes | ClearanceNo

  /** The experience select: "all", or a minimum number of years. */
  datatype ExperienceFilter = AnyExperience | MinYears(years: nat)

  /** The filter state; the skill term is the empty string when unset. */
  datatype Criteria = Criteria(searchSkill: string, clearance: ClearanceFilter, experience: ExperienceFilter)

  const NoCriteria := Criteria("", AllClearance, AnyExperience)

  /** The values the experience select offers, and the thresholds they mean. */
  const ExperienceOptions: seq<string> := ["all", "3", "6", "10"]
  const ExperienceThresholds: seq<nat> := [3, 6, 10]

  /** The experience filter chosen by a value of the select; values the
      select does not offer choose nothing. */
  function SelectExperience(value: string): (r: Option<ExperienceFilter>)
    ensures r.Some? <==> value in ExperienceOptions
    ensures r.Some? && r.value.MinYears? ==> r.value.years in ExperienceThresholds
    ensures r == Some(AnyExperience) <==> value == "all"
    ensures forall k :: 0 <= k < |ExperienceThresholds| && value == ExperienceOptions[k + 1] ==>
              r == Some(MinYears(ExperienceThresholds[k]))
  {
    if value == "all" then Some(AnyExperience)
    else if value == "3" then Some(MinYears(3))
    else if value == "6" then Some(MinYears(6))
    else if value == "10" then Some(MinYears(10))
    else None
  }

  /** The clearance filter chosen by a value of the select. */
  function SelectClearance(value: string): (r: Option<ClearanceFilter>)
    ensures r.Some? <==> value in ["all", "yes", "no"]
    ensures r == Some(AllClearance) <==> value == "all"
    ensures r == Some(ClearanceYes) <==> value == "yes"
    ensures r == Some(ClearanceNo) <==> value == "no"
  {
    if value == "all" then Some(AllClearance)
    else if value == "yes" then Some(ClearanceYes)
    else if value == "no" then Some(ClearanceNo)
    else None
  }

  // ---------------------------------------------------------------------
  // What each criterion admits, stated record by record.

  /** Some entry of the tech stack, lower-cased, contains the lower-cased term. */
  predicate SkillMatches(term: string, t: TalentProfile) {
    exists k :: 0 <= k < |t.techStack| && Contains(Lower(t.techStack[k]), Lower(term))
  }

  predicate SkillAdmits(term: string, t: TalentProfile) {
    term == "" || SkillMatches(term, t)
  }

  predicate ClearanceAdmits(f: ClearanceFilter, t: TalentProfile) {
    match f
    case AllClearance => true
    case ClearanceYes => t.clearanceEligible
    case ClearanceNo => !t.clearanceEligible
  }

  predicate ExperienceAdmits(f: ExperienceFilter, t: TalentProfile) {
    match f
    case AnyExperience => true
    case MinYears(n) => t.yearsOfExperience >= n
  }

  /** A record is shown exactly when every criterion admits it. */
  predicate Admits(c: Criteria, t: TalentProfile) {
    SkillAdmits(c.searchSkill, t) && ClearanceAdmits(c.clearance, t) && ExperienceAdmits(c.experience, t)
  }

  function AdmittedBy(c: Criteria): TalentProfile -> bool {
    t => Admits(c, t)
  }

  function SkillAdmittedBy(term: string): TalentProfile -> bool {
    t => SkillAdmits(term, t)
  }

  function ClearanceAdmittedBy(f: ClearanceFilter): TalentProfile -> bool {
    t => ClearanceAdmits(f, t)
  }

  function ExperienceAdmittedBy(f: ExperienceFilter): TalentProfile -> bool {
    t => ExperienceAdmits(f, t)
  }

  function SkillAndClearanceAdmittedBy(c: Criteria): TalentProfile -> bool {
    t => SkillAdmits(c.searchSkill, t) && ClearanceAdmits(c.clearance, t)
  }

  // ---------------------------------------------------------------------
  // The filter pipeline, stage by stage as the dashboard runs it.

  /** `stack.some(s => s.toLowerCase().includes(term))` */
  predicate AnyEntryContains(stack: seq<string>, term: string)
    decreases |stack|
  {
    stack != [] && (Contains(Lower(stack[0]), term) || AnyEntryContains(stack[1..], term))
  }

  lemma {:induction false} AnyEntryContainsIff(stack: seq<string>, term: string)
    ensures AnyEntryContains(stack, term) <==> exists k :: 0 <= k < |stack| && Contains(Lower(stack[k]), term)
    decreases |stack|
  {
    if stack != [] {
      AnyEntryContainsIff(stack[1..], term);
      if exists k :: 0 <= k < |stack| && Contains(Lower(stack[k]), term) {
        var k :| 0 <= k < |stack| && Contains(Lower(stack[k]), term);
        if k > 0 {
          assert stack[1..][k - 1] == stack[k];
        }
      }
    }
  }

  function HasSkillContaining(term: string): TalentProfile -> bool {
    (t: TalentProfile) => AnyEntryContains(t.techStack, term)
  }

  /** Lines 76-81: applied only for a non-empty search term. */
  function SkillStage(term: string, xs: seq<TalentProfile>): (r: seq<TalentProfile>)
    ensures r == Filter(SkillAdmittedBy(term), xs)
  {
    if term != "" then
      var lowered := Lower(term);
      assert forall i :: 0 <= i < |xs| ==> HasSkillContaining(lowered)(xs[i]) == SkillAdmittedBy(term)(xs[i]) by {
        forall i | 0 <= i < |xs|
          ensures HasSkillContaining(lowered)(xs[i]) == SkillAdmittedBy(term)(xs[i])
        {
          AnyEntryContainsIff(xs[i].techStack, lowered);
        }
      }
      FilterExtensional(HasSkillContaining(lowered), SkillAdmittedBy(term), xs);
      Filter(HasSkillContaining(lowered), xs)
    else
      FilterKeepsAll(SkillAdmittedBy(term), xs);
      xs
  }

  function HasClearance(eligible: bool): TalentProfile -> bool {
    (t: TalentProfile) => t.clearanceEligible == eligible
  }

  /** Lines 83-87: applied unless the select says "all". */
  function ClearanceStage(f: ClearanceFilter, xs: seq<TalentProfile>): (r: seq<TalentProfile>)
    ensures r == Filter(ClearanceAdmittedBy(f), xs)
  {
    if f != AllClearance then
      FilterExtensional(HasClearance(f == ClearanceYes), ClearanceAdmittedBy(f), xs);
      Filter(HasClearance(f == ClearanceYes), xs)
    else
      FilterKeepsAll(ClearanceAdmittedBy(f), xs);
      xs
  }

  function HasYears(min: nat): TalentProfile -> bool {
    (t: TalentProfile) => t.yearsOfExperience >= min
  }

  /** Lines 89-92: applied unless the select says "all". */
  function ExperienceStage(f: ExperienceFilter, xs: seq<TalentProfile>): (r: seq<TalentProfile>)
    ensures r == Filter(ExperienceAdmittedBy(f), xs)
  {
    if f != AnyExperience then
      FilterExtensional(HasYears(f.years), ExperienceAdmittedBy(f), xs);
      Filter(HasYears(f.years), xs)
    else
      FilterKeepsAll(ExperienceAdmittedBy(f), xs);
      xs
  }

  lemma PipelineIsConjunction(talents: seq<TalentProfile>, c: Criteria)
    ensures ExperienceStage(c.experience, ClearanceStage(c.clearance, SkillStage(c.searchSkill, talents)))
         == Filter(AdmittedBy(c), talents)
  {
    var sc := SkillAndClearanceAdmittedBy(c);
    FilterFuse(SkillAdmittedBy(c.searchSkill), ClearanceAdmittedBy(c.clearance), sc, talents);
    FilterFuse(sc, ExperienceAdmittedBy(c.experience), AdmittedBy(c), talents);
  }

  /** `applyFilters`: the three stages in turn. The result is the records
      every criterion admits, in their fetched order. */
  function ApplyFilters(talents: seq<TalentProfile>, c: Criteria): (r: seq<TalentProfile>)
    ensures r == Filter(AdmittedBy(c), talents)
  {
    PipelineIsConjunction(talents, c);
    ExperienceStage(c.experience, ClearanceStage(c.clearance, SkillStage(c.searchSkill, talents)))
  }

  /** The result is a subsequence of the input: nothing is invented and the
      order is kept. */
  lemma ApplyFiltersSubsequence(talents: seq<TalentProfile>, c: Criteria)
    ensures IsSubsequence(ApplyFilters(talents, c), talents)
    ensures forall t :: t in ApplyFilters(talents, c) ==> t in talents
  {
    FilterIsSubsequence(AdmittedBy(c), talents);
    forall t | t in ApplyFilters(talents, c)
      ensures t in talents
    {
      SubsequenceMembers(ApplyFilters(talents, c), talents, t);
    }
  }

  /** A record is shown exactly when it was fetched and every criterion
      admits it. */
  lemma ApplyFiltersMembers(talents: seq<TalentProfile>, c: Criteria, t: TalentProfile)
    ensures t in ApplyFilters(talents, c) <==> t in talents && Admits(c, t)
  {
    FilterMembership(AdmittedBy(c), talents, t);
  }

  /** With no criterion set the whole list is shown, in its order. */
  lemma ApplyFiltersNoCriteria(talents: seq<TalentProfile>)
    ensures ApplyFilters(talents, NoCriteria) == talents
  {
    FilterKeepsAll(AdmittedBy(NoCriteria), talents);
  }

  /** Filtering the filtered list again with the same criteria changes
      nothing. */
  lemma ApplyFiltersIdempotent(talents: seq<TalentProfile>, c: Criteria)
    ensures ApplyFilters(ApplyFilters(talents, c), c) == ApplyFilters(talents, c)
  {
    FilterIdempotent(AdmittedBy(c), talents);
  }

  /** Running clearance first, then experience, then skill gives the list
      the dashboard shows. */
  lemma StagesCommute(talents: seq<TalentProfile>, c: Criteria)
    ensures SkillStage(c.searchSkill, ExperienceStage(c.experience, ClearanceStage(c.clearance, talents)))
         == ApplyFilters(talents, c)
  {
    var ce := t => ClearanceAdmits(c.clearance, t) && ExperienceAdmits(c.experience, t);
    FilterFuse(ClearanceAdmittedBy(c.clearance), ExperienceAdmittedBy(c.experience), ce, talents);
    FilterFuse(ce, SkillAdmittedBy(c.searchSkill), AdmittedBy(c), talents);
  }

  /** Any two stages commute; together the three lemmas below let the
      stages run in every one of the six orders with the same result. */
  lemma SkillClearanceCommute(term: string, f: ClearanceFilter, xs: seq<TalentProfile>)
    ensures SkillStage(term, ClearanceStage(f, xs)) == ClearanceStage(f, SkillStage(term, xs))
  {
    FilterCommute(ClearanceAdmittedBy(f), SkillAdmittedBy(term), xs);
  }

  lemma SkillExperienceCommute(term: string, f: ExperienceFilter, xs: seq<TalentProfile>)
    ensures SkillStage(term, ExperienceStage(f, xs)) == ExperienceStage(f, SkillStage(term, xs))
  {
    FilterCommute(ExperienceAdmittedBy(f), SkillAdmittedBy(term), xs);
  }

  lemma ClearanceExperienceCommute(f: ClearanceFilter, g: ExperienceFilter, xs: seq<TalentProfile>)
    ensures ClearanceStage(f, ExperienceStage(g, xs)) == ExperienceStage(g, ClearanceStage(f, xs))
  {
    FilterCommute(ExperienceAdmittedBy(g), ClearanceAdmittedBy(f), xs);
  }

  /** Switching one criterion back to "all" only brings records back, in
      their places; a record comes back exactly when the others admit it. */
  lemma ClearingACriterionRestores(talents: seq<TalentProfile>, c: Criteria)
    ensures IsSubsequence(ApplyFilters(talents, c), ApplyFilters(talents, c.(searchSkill := "")))
    ensures IsSubsequence(ApplyFilters(talents, c), ApplyFilters(talents, c.(clearance := AllClearance)))
    ensures IsSubsequence(ApplyFilters(talents, c), ApplyFilters(talents, c.(experience := AnyExperience)))
    ensures forall t :: t in ApplyFilters(talents, c.(searchSkill := "")) <==>
              t in talents && ClearanceAdmits(c.clearance, t) && ExperienceAdmits(c.experience, t)
    ensures forall t :: t in ApplyFilters(talents, c.(clearance := AllClearance)) <==>
              t in talents && SkillAdmits(c.searchSkill, t) && ExperienceAdmits(c.experience, t)
    ensures forall t :: t in ApplyFilters(talents, c.(experience := AnyExperience)) <==>
              t in talents && SkillAdmits(c.searchSkill, t) && ClearanceAdmits(c.clearance, t)
  {
    FilterMonotone(AdmittedBy(c), AdmittedBy(c.(searchSkill := "")), talents);
    FilterMonotone(AdmittedBy(c), AdmittedBy(c.(clearance := AllClearance)), talents);
    FilterMonotone(AdmittedBy(c), AdmittedBy(c.(experience := AnyExperience)), talents);
    var noSkill, anyClearance, anyYears := c.(searchSkill := ""), c.(clearance := AllClearance), c.(experience := AnyExperience);
    forall t
      ensures t in ApplyFilters(talents, noSkill) <==>
                t in talents && ClearanceAdmits(c.clearance, t) && ExperienceAdmits(c.experience, t)
    {
      ApplyFiltersMembers(talents, noSkill, t);
    }
    forall t
      ensures t in ApplyFilters(talents, anyClearance) <==>
                t in talents && SkillAdmits(c.searchSkill, t) && ExperienceAdmits(c.experience, t)
    {
      ApplyFiltersMembers(talents, anyClearance, t);
    }
    forall t
      ensures t in ApplyFilters(talents, anyYears) <==>
                t in talents && SkillAdmits(c.searchSkill, t) && ClearanceAdmits(c.clearance, t)
    {
      ApplyFiltersMembers(talents, anyYears, t);
    }
  }

  /** Under "yes" exactly the eligible records remain, under "no" exactly
      the others. */
  lemma ClearanceFilterExact(talents: seq<TalentProfile>, t: TalentProfile)
    ensures t in ApplyFilters(talents, NoCriteria.(clearance := ClearanceYes)) <==> t in talents && t.clearanceEligible
    ensures t in ApplyFilters(talents, NoCriteria.(clearance := ClearanceNo)) <==> t in talents && !t.clearanceEligible
  {
    ApplyFiltersMembers(talents, NoCriteria.(clearance := ClearanceYes), t);
    ApplyFiltersMembers(talents, NoCriteria.(clearance := ClearanceNo), t);
  }

  /** Under a threshold `n` a record remains exactly when it has at least
      `n` years; five years pass "3+" and fail "6+". */
  lemma ExperienceFilterThreshold(talents: seq<TalentProfile>, t: TalentProfile, n: nat)
    ensures t in ApplyFilters(talents, NoCriteria.(experience := MinYears(n))) <==> t in talents && t.yearsOfExperience >= n
    ensures t in talents && t.yearsOfExperience == 5 ==>
              t in ApplyFilters(talents, NoCriteria.(experience := MinYears(3)))
              && t !in ApplyFilters(talents, NoCriteria.(experience := MinYears(6)))
  {
    ApplyFiltersMembers(talents, NoCriteria.(experience := MinYears(n)), t);
    ApplyFiltersMembers(talents, NoCriteria.(experience := MinYears(3)), t);
    ApplyFiltersMembers(talents, NoCriteria.(experience := MinYears(6)), t);
  }

  /** The skill search ignores the case of the term. */
  lemma SkillSearchIgnoresCase(term: string, t: TalentProfile)
    ensures SkillMatches(term, t) <==> SkillMatches(Lower(term), t)
  {
    LowerIdempotent(term);
  }

  /** A record listing "TypeScript" is found by the term "script", and by
      "SCRIPT". */
  lemma SkillSearchExample(t: TalentProfile)
    requires "TypeScript" in t.techStack
    ensures SkillMatches("script", t)
    ensures SkillMatches("SCRIPT", t)
  {
    var k :| 0 <= k < |t.techStack| && t.techStack[k] == "TypeScript";
    assert Lower("TypeScript") == "typescript";
    assert Lower("script") == "script";
    assert Lower("SCRIPT") == "script";
    assert OccursAt("typescript", "script", 4);
    OccursAtContains("typescript", "script", 4);
  }

  // ---------------------------------------------------------------------
  // Resume download.

  /** The download name: the full name with each whitespace run replaced by
      an underscore, then `_resume.`, then the storage key's extension. */
  function ResumeFileName(name: string, path: string): (r: string)
    ensures StartsWith(r, CollapseWhitespace(name) + "_resume.")
    ensures r[|CollapseWhitespace(name) + "_resume."|..] == LastSegment(path, '.')
    ensures LastSegment(r, '.') == LastSegment(path, '.')
  {
    var ext := LastSegment(path, '.');
    var stem := CollapseWhitespace(name) + "_resume.";
    var r := stem + ext;
    assert r[..|stem|] == stem;
    assert r == CollapseWhitespace(name) + "_resume" + ['.'] + ext by {
      assert "_resume." == "_resume" + ['.'];
    }
    LastSegmentAfter(CollapseWhitespace(name) + "_resume", '.', ext);
    r
  }

  /** A download the browser is asked to perform. */
  datatype Download = Download(url: string, fileName: string)

  /** `handleDownloadResume`, given the outcome of the signed-URL request:
      nothing happens when the URL is null or empty. */
  function DownloadResume(path: string, name: string, signedUrl: Option<string>): (r: Option<Download>)
    ensures r.Some? <==> signedUrl.Some? && signedUrl.value != ""
    ensures r.Some? ==> r.value.url == signedUrl.value
    ensures r.Some? ==> r.value.fileName == ResumeFileName(name, path)
    ensures r.Some? ==> LastSegment(r.value.fileName, '.') == LastSegment(path, '.')
  {
    match signedUrl
    case Some(url) => if url != "" then Some(Download(url, ResumeFileName(name, path))) else None
    case None => None
  }

  // ---------------------------------------------------------------------
  // Session gate and listing fetch.

  /** What the dashboard asks of the outside world. */
  datatype DashboardEffect = RedirectToLogin | QueryTalents | LogFetchError(message: string)

  /** The outcome of the listing query: rows (possibly null) or an error. */
  datatype FetchResult = Fetched(data: Option<seq<TalentProfile>>) | FetchFailed(message: string)

  datatype DashboardState = DashboardState(
    authChecked: bool,
    loading: bool,
    talents: seq<TalentProfile>,
    filtered: seq<TalentProfile>,
    criteria: Criteria)

  datatype Step = Step(state: DashboardState, effects: seq<DashboardEffect>)

  const Initial := DashboardState(false, true, [], [], NoCriteria)

  /** The loading placeholder is shown instead of the listing. */
  predicate ShowsLoading(s: DashboardState) {
    !s.authChecked || s.loading
  }

  /** `checkAuth`: without a session, redirect and leave the gate closed. */
  function CheckAuth(s: DashboardState, hasSession: bool): (r: Step)
    ensures r.state.authChecked <==> hasSession || s.authChecked
    ensures RedirectToLogin in r.effects <==> !hasSession
    ensures r.state.talents == s.talents && r.state.loading == s.loading
    ensures r.state.filtered == s.filtered && r.state.criteria == s.criteria
    ensures QueryTalents !in r.effects
    ensures r.effects == if hasSession then [] else [RedirectToLogin]
  {
    if !hasSession then Step(s, [RedirectToLogin])
    else Step(s.(authChecked := true), [])
  }

  /** `fetchTalents`, run whenever `authChecked` changes: nothing happens
      before the gate opens; a failed query is logged and leaves the list
      as it was; either way loading ends. */
  function LoadTalents(s: DashboardState, result: FetchResult): (r: Step)
    ensures !s.authChecked ==> r == Step(s, [])
    ensures s.authChecked ==> |r.effects| > 0 && r.effects[0] == QueryTalents && !r.state.loading && r.state.authChecked
    ensures result.FetchFailed? ==> r.state.talents == s.talents && r.state.filtered == s.filtered
    ensures s.authChecked && result.Fetched? ==> r.state.talents == result.data.GetOr([])
    ensures s.authChecked && result.Fetched? ==> r.state.filtered == result.data.GetOr([])
    ensures r.state.criteria == s.criteria && r.state.authChecked == s.authChecked
    ensures RedirectToLogin !in r.effects
    ensures s.authChecked && result.FetchFailed? ==> r.effects == [QueryTalents, LogFetchError(result.message)]
    ensures s.authChecked && result.Fetched? ==> r.effects == [QueryTalents]
  {
    if !s.authChecked then Step(s, [])
    else
      match result
      case FetchFailed(message) => Step(s.(loading := false), [QueryTalents, LogFetchError(message)])
      case Fetched(data) =>
        var rows := data.GetOr([]);
        Step(s.(talents := rows, filtered := rows, loading := false), [QueryTalents])
  }

  /** A filter change (or a new list): `filtered` is recomputed from the
      untouched `talents`. */
  function SetCriteria(s: DashboardState, c: Criteria): (r: DashboardState)
    ensures r.talents == s.talents && r.criteria == c
    ensures r.authChecked == s.authChecked && r.loading == s.loading
    ensures r.filtered == Filter(AdmittedBy(c), s.talents)
    ensures IsSubsequence(r.filtered, s.talents)
    ensures forall t :: t in r.filtered <==> t in s.talents && Admits(c, t)
  {
    ApplyFiltersSubsequence(s.talents, c);
    forall t
      ensures t in ApplyFilters(s.talents, c) <==> t in s.talents && Admits(c, t)
    {
      ApplyFiltersMembers(s.talents, c, t);
    }
    s.(criteria := c, filtered := ApplyFilters(s.talents, c))
  }

  /** Mounting the dashboard: the session check, then the listing query the
      gate allows, then the filters over what arrived. */
  function Mount(hasSession: bool, result: FetchResult): (r: Step)
    ensures QueryTalents in r.effects <==> hasSession
    ensures RedirectToLogin in r.effects <==> !hasSession
    ensures !hasSession ==> r.effects == [RedirectToLogin] && !r.state.authChecked && ShowsLoading(r.state)
    ensures hasSession ==> r.state.authChecked && !ShowsLoading(r.state)
    ensures result.FetchFailed? ==> r.state.talents == [] && r.state.filtered == []
    ensures hasSession && result.Fetched? ==> r.state.talents == r.state.filtered == result.data.GetOr([])
  {
    var auth := CheckAuth(Initial, hasSession);
    var load := LoadTalents(auth.state, result);
    ApplyFiltersNoCriteria(load.state.talents);
    Step(SetCriteria(load.state, NoCriteria), auth.effects + load.effects)
  }
}

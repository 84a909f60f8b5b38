# Talent network site: filter engine, tag toggles and form submission

A Dafny model of the logic inside the staffing site's three interactive
components. The rest of the site is page layout.

- **Admin dashboard** (`src/app/admin/dashboard.tsx`). It lists talent
  profiles under three independent filters: a case-insensitive skill
  substring, a tri-state clearance flag, and a minimum-experience threshold.
  It derives the file name used when downloading a resume. It fetches the
  list only after the session check has passed.
- **Multi-select chips** (`toggleTech`, `toggleSkill`). Both forms keep the
  selected tags in a list that is used as a set. Clicking a chip toggles its
  tag.
- **Submit handlers** of the talent sign-up form and the employer inquiry
  form. Each checks that at least one tag is selected. The talent form may
  then upload a resume. Each inserts one row and maps the result to the
  `{submitted, error, loading}` state the form shows.

All of it is pure functions over immutable datatypes. Remote calls are not
made. Their outcomes are parameters: the session, the listing query, the
signed URL, the upload and the insert. So is the random key. Each handler
returns the trace of remote calls it would issue, plus the state it ends in.

Files:

- `wrappers.dfy`: `Option`, for JavaScript's `T | null`.
- `seqs.dfy`: `Filter`, the subsequence relation, and the lemmas about them.
- `text.dfy`: the string operations the components use. These are ASCII
  lower-casing, `includes`, `replace(/\s+/g, "_")`, `split(".").pop()` and
  `s || null`.
- `tags.dfy`: the chip toggle.
- `dashboard.dfy`: the profile record, the filter pipeline, the download and
  the session gate.
- `submission.dfy`: the form state and the effect trace both forms use.
- `talent_form.dfy`, `employer_form.dfy`: the two submit handlers.

The filter is modelled twice. One model is the pipeline as the dashboard runs
it: three conditional `filter` stages. The other is a record-by-record
predicate, `Admits`, the conjunction of the three criteria. `ApplyFilters` is
proved equal to filtering by `Admits`. Subsequence, exact membership,
idempotence, commutation and the "all filters off" identity all follow from
that.

Three behaviours of the code worth knowing:

- A failed resume upload shows `Resume upload failed: ` followed by the
  store's message.
- A failed listing query leaves `talents` as it was. On mount that is the
  initial empty list.
- The skill filter is a substring match, so the term "Java" also keeps
  records that list only "JavaScript".

## Model

| member | source | states |
|---|---|---|
| `Dashboard.ApplyFilters` | src/app/admin/dashboard.tsx:73-95 | The staged pipeline equals one filter by the conjunction of the three criteria (`Admits`). The stages run in the order skill, clearance, experience, and each runs only when its criterion is set. |
| `Dashboard.AnyEntryContains` | src/app/admin/dashboard.tsx:78-80 | The recursive `tech_stack.some(...)`: with `AnyEntryContainsIff` it holds exactly when some entry, lower-cased, contains the term, and never for an empty stack. |
| `Dashboard.SkillStage` | src/app/admin/dashboard.tsx:76-81 | The skill stage is skipped for an empty term. Otherwise it keeps a record iff some tech-stack entry, lower-cased, contains the lower-cased term. It equals filtering by `SkillAdmits`. |
| `Dashboard.ClearanceStage` | src/app/admin/dashboard.tsx:83-87 | The clearance stage keeps everything under "all". It keeps the eligible records under "yes" and the ineligible ones under "no". |
| `Dashboard.ExperienceStage` | src/app/admin/dashboard.tsx:89-92 | Under a threshold `n`, the experience stage keeps exactly the records with at least `n` years. Under "all" it keeps everything. |
| `Dashboard.AnyEntryContainsIff` | src/app/admin/dashboard.tsx:78-80 | `tech_stack.some(s => s.toLowerCase().includes(term))` holds iff some index of the stack holds an entry whose lower-cased text contains the term. |
| `Dashboard.ApplyFiltersSubsequence` | src/app/admin/dashboard.tsx:74-94 | The filtered list is a subsequence of the fetched list. Every shown record was fetched, and the relative order is kept. |
| `Dashboard.ApplyFiltersMembers` | src/app/admin/dashboard.tsx:73-95 | A record is shown iff it was fetched and all three criteria admit it. |
| `Dashboard.ApplyFiltersNoCriteria` | src/app/admin/dashboard.tsx:74-92 | With term "", clearance "all" and experience "all", the result is the fetched list itself. |
| `Dashboard.ApplyFiltersIdempotent` | src/app/admin/dashboard.tsx:73-95 | Filtering the result again with the same criteria returns the same list. |
| `Dashboard.StagesCommute` | src/app/admin/dashboard.tsx:76-92 | Running clearance, then experience, then skill gives the list the dashboard shows. |
| `Dashboard.SkillClearanceCommute` | src/app/admin/dashboard.tsx:76-87 | The skill and clearance stages give the same list in either order. |
| `Dashboard.SkillExperienceCommute` | src/app/admin/dashboard.tsx:76-92 | The skill and experience stages give the same list in either order. |
| `Dashboard.ClearanceExperienceCommute` | src/app/admin/dashboard.tsx:83-92 | The clearance and experience stages give the same list in either order. With the two lemmas above, all six orders of the three stages agree. |
| `Dashboard.ClearingACriterionRestores` | src/app/admin/dashboard.tsx:73-95 | Setting any one criterion back to "all" returns a supersequence of the current result. Records only come back, in their original places. A fetched record is then shown iff the two remaining criteria admit it. |
| `Dashboard.ClearanceFilterExact` | src/app/admin/dashboard.tsx:83-87 | Under "yes" a fetched record remains iff it is clearance-eligible. Under "no" it remains iff it is not. |
| `Dashboard.ExperienceFilterThreshold` | src/app/admin/dashboard.tsx:89-92 | Under threshold `n` a fetched record remains iff its years are at least `n`. A record with 5 years passes "3+" and fails "6+". |
| `Dashboard.SkillSearchIgnoresCase` | src/app/admin/dashboard.tsx:76-79 | Skill matching gives the same answer for a term and for its lower-cased form. |
| `Dashboard.SkillSearchExample` | src/app/admin/dashboard.tsx:76-81 | A record listing "TypeScript" matches the terms "script" and "SCRIPT". |
| `Dashboard.SelectExperience` | src/app/admin/dashboard.tsx:89-92 | The experience select offers only "all", "3", "6" and "10". "all" and only "all" means no restriction. Each of "3", "6" and "10" means the minimum of that many years, as `parseInt(value, 10)` gives. |
| `Dashboard.SelectClearance` | src/app/admin/dashboard.tsx:83-87 | The clearance select offers only "all", "yes" and "no". "all" keeps every record, "yes" requires eligibility and "no" requires its absence, each for exactly that value. |
| `Dashboard.ResumeFileName` | src/app/admin/dashboard.tsx:118 | The download name is exactly the full name with each whitespace run replaced by `_`, then `_resume.`, then the storage key's last dot-separated segment. So its own last segment is the key's. |
| `Dashboard.DownloadResume` | src/app/admin/dashboard.tsx:106-121 | A download happens iff the signed URL is present and non-empty. It uses that URL, and its file name is the name `ResumeFileName` builds, so it keeps the key's extension. |
| `Dashboard.ShowsLoading` | src/app/admin/dashboard.tsx:123-129 | The "Loading..." view replaces the listing while the session check has not passed or the query is pending. `Mount` shows it stays up without a session and is gone after a successful gate. |
| `Dashboard.CheckAuth` | src/app/admin/dashboard.tsx:37-49 | Without a session, the only effect is the redirect to login, and `authChecked` stays as it was. With a session, it sets `authChecked` and has no effect at all. Either way the lists, the criteria and `loading` are unchanged. |
| `Dashboard.LoadTalents` | src/app/admin/dashboard.tsx:51-70 | Before `authChecked`, nothing happens and nothing changes. After it, the query is issued and `loading` clears, and it never redirects. On success the query is the only effect, and both `talents` and `filtered` become `data \|\| []`. A failed query is only logged and leaves both lists unchanged. The criteria and the gate are never touched. |
| `Dashboard.SetCriteria` | src/app/admin/dashboard.tsx:72-99 | Changing a filter never changes `talents`, `authChecked` or `loading`. The new `filtered` is exactly `talents` filtered by the conjunction of the new criteria: a subsequence that keeps every admitted record, duplicates included, in order. |
| `Dashboard.Mount` | src/app/admin/dashboard.tsx:36-70 | The listing query is issued iff there is a session, and the redirect happens iff there is none. Without a session the redirect is the only effect, the gate stays closed and the loading screen stays up. A failed fetch leaves the list empty. A successful fetch shows every fetched row. |
| `Wrappers.Option.GetOr` | src/app/admin/dashboard.tsx:64-65 | `data \|\| []`: the rows when the query returned them, the empty list for null. `LoadTalents` and `Mount` state that null data becomes the empty list. |
| `Seqs.Filter` | src/app/admin/dashboard.tsx:78-91 | `Array.prototype.filter`. Every kept element satisfies the predicate, and the result is no longer than the input. |
| `Seqs.FilterFuse` | src/app/admin/dashboard.tsx:74-92 | Two successive filters equal one filter by the conjunction of their predicates. |
| `Seqs.FilterCommute` | src/app/admin/dashboard.tsx:74-92 | Two filters applied in either order give the same list. |
| `Seqs.FilterMonotone` | src/app/admin/dashboard.tsx:73-95 | A weaker predicate keeps a supersequence of what a stronger one keeps. |
| `Seqs.FilterIsSubsequence` | src/app/admin/dashboard.tsx:74-94 | A filter's result is a subsequence of its input. |
| `Text.Lower` | src/app/admin/dashboard.tsx:77-79 | Lower-casing keeps the length. Each of 'A'..'Z' becomes the letter 32 code points on, and every other character is kept. No upper-case ASCII letter is left. |
| `Text.Contains` | src/app/admin/dashboard.tsx:79 | `includes`, defined recursively: the term is a prefix of the text or of one of its tails. `ContainsIff` ties it to an index where the term occurs. |
| `Text.ContainsIff` | src/app/admin/dashboard.tsx:79 | The recursive `includes` holds iff the term occurs at some index of the text. |
| `Text.CollapseWhitespace` | src/app/admin/dashboard.tsx:118 | The result of replacing whitespace runs with `_` has no whitespace and is no longer than the input. |
| `Text.CollapseWithoutWhitespace` | src/app/admin/dashboard.tsx:118 | A name without whitespace is unchanged. |
| `Text.CollapseAppend` | src/app/admin/dashboard.tsx:118 | The replacement works piece by piece on any split that does not cut a whitespace run. |
| `Text.CollapseRun` | src/app/admin/dashboard.tsx:118 | A whitespace run between non-whitespace neighbours becomes exactly one `_`. |
| `Text.LastSegment` | src/app/join/talent-form.tsx:55 | `split(".").pop()` is a dot-free suffix of the text. It is either the whole text or is preceded by a dot. |
| `Text.LastSegmentUnique` | src/app/join/talent-form.tsx:55 | Those three properties determine the last segment uniquely. |
| `Text.LastSegmentAfter` | src/app/admin/dashboard.tsx:118 | For a dot-free `b`, the last segment of `a + "." + b` is `b`. |
| `Text.NullIfEmpty` | src/app/join/talent-form.tsx:75-80 | `s \|\| null` is null exactly for the empty string, and otherwise is `s`. |
| `Tags.Toggle` | src/app/join/talent-form.tsx:17-21 | Toggling flips the membership of the toggled tag and leaves the membership of every other tag unchanged. |
| `Tags.Without` | src/app/join/talent-form.tsx:19 | `filter(t => t !== tag)` leaves no occurrence of the tag. |
| `Tags.ToggleAbsentAppends` | src/app/join/talent-form.tsx:19 | An absent tag is appended at the end. |
| `Tags.TogglePresentRemoves` | src/app/join/talent-form.tsx:19 | A present tag is removed with all its occurrences. The result is a strictly shorter subsequence of the selection. |
| `Tags.ToggleKeepsOthersInOrder` | src/app/employers/employer-form.tsx:13-17 | Either way, the other tags keep their relative order. |
| `Tags.TogglePreservesNoDuplicates` | src/app/employers/employer-form.tsx:15 | A duplicate-free selection stays duplicate-free. |
| `Tags.ToggleTwiceAbsent` | src/app/join/talent-form.tsx:17-21 | Toggling an absent tag twice restores the selection exactly. |
| `Tags.ToggleTwicePresent` | src/app/join/talent-form.tsx:17-21 | Toggling a present tag twice moves it to the end. |
| `Tags.ToggleTracksParity` | src/app/join/talent-form.tsx:17-21 | One more click on a tag flips the parity of that tag's click count and no other. So if the selection held exactly the odd-count tags before the click, it still does after. |
| `Tags.SelectionAfter` | src/app/join/talent-form.tsx:15-21 | After any sequence of clicks from the empty selection, the selection is duplicate-free. It holds exactly the tags clicked an odd number of times. |
| `TalentForm.HasResume` | src/app/join/talent-form.tsx:54 | A resume is uploaded only when a file is present and its size is above zero. `HandleSubmit` issues an upload iff this holds and tags are selected. |
| `TalentForm.FileExtension` | src/app/join/talent-form.tsx:55 | The extension has no dot, and it is the whole file name when the name has no dot. |
| `TalentForm.ResumeKey` | src/app/join/talent-form.tsx:55-56 | The key starts with `uuid + "."`. When the identifier has no dot, the key's last segment is the file's extension. |
| `TalentForm.InsertErrorMessage` | src/app/join/talent-form.tsx:84-89 | The shown message is never empty. It is the duplicate-email message iff the store's message contains "duplicate". |
| `TalentForm.RowOf` | src/app/join/talent-form.tsx:72-82 | Every column of the row is the field as entered: name, email, years, clearance, work preference, the selection and the resume path. `linkedin` and `accommodation_preferences` are null iff their fields are empty, and otherwise hold the field. |
| `TalentForm.InsertStep` | src/app/join/talent-form.tsx:71-95 | The insert is issued after the earlier calls. The form ends settled, and it is submitted iff the insert succeeded. |
| `TalentForm.HandleSubmit` | src/app/join/talent-form.tsx:23-96 | Every path ends with `loading` false and an error shown iff not submitted. At most one upload and one insert are issued, upload first. An upload happens iff tags are selected and a non-empty file is present. An insert happens iff tags are selected and no upload failed. The form is submitted iff the insert was issued and succeeded. |
| `TalentForm.EmptySelectionIsRejected` | src/app/join/talent-form.tsx:45-49 | With no tag selected: the validation message, `loading` false, and no upload or insert. |
| `TalentForm.UploadFailureStopsInsert` | src/app/join/talent-form.tsx:54-66 | A failed upload was issued under the generated key. It shows `Resume upload failed: ` plus its message, and no insert follows. |
| `TalentForm.ResumePathIsUploadedKey` | src/app/join/talent-form.tsx:51-81 | The inserted `resume_path` is null iff nothing was uploaded. Otherwise it is the uploaded key, `uuid + "." + ext`. |
| `TalentForm.InsertedRowMatchesForm` | src/app/join/talent-form.tsx:72-82 | The inserted row's tech stack is the selection. Name, email, years, clearance and work preference are copied, and the two optional fields are `field \|\| null`. |
| `TalentForm.InsertFailureMessage` | src/app/join/talent-form.tsx:84-92 | A failed insert is not submitted. It shows the duplicate message if the store's message contains "duplicate", and `Submission failed: ` plus the message otherwise. |
| `TalentForm.DownloadKeepsUploadedExtension` | src/app/join/talent-form.tsx:55-56 | The dashboard's download name ends in the extension of the file that was uploaded, because the identifier holds no dot. |
| `EmployerForm.HandleSubmit` | src/app/employers/employer-form.tsx:19-54 | Every path ends settled, and no upload is issued. One insert is issued iff skills are selected, and its `required_skills` is exactly the selection. The form is submitted iff that insert succeeded. |
| `EmployerForm.EmptySelectionIsRejected` | src/app/employers/employer-form.tsx:31-35 | With no skill selected: the validation message, `loading` false, and no insert. |
| `EmployerForm.InsertFailureMessage` | src/app/employers/employer-form.tsx:46-50 | Every failed insert shows `Submission failed: ` plus the store's message, including one that mentions a duplicate. |

## Left out

- The hosted backend's SDK calls are left out: session lookup, sign-in, sign-out, storage upload, signed-URL creation, and row insert and select. Only their outcomes are modelled, as parameters.
- `crypto.randomUUID()` is an opaque string parameter. The one fact used about it is that it holds no dot.
- Text.Lower: folds only the ASCII letters A-Z. Unicode case mapping is not modelled.
- Text.CollapseWhitespace: treats only ASCII space, tab, line feed, vertical tab, form feed and carriage return as whitespace. The Unicode spaces that JavaScript's `\s` also matches are not modelled.
- `parseInt` is not modelled. Years of experience and thresholds are natural numbers. The `NaN` that a non-numeric years field would produce cannot occur in the model.
- `FormData` extraction and the browser's enforcement of `required` fields are not modelled. The fields arrive already read.
- The download anchor element is not modelled. A download is the value `Download(url, fileName)`.
- `router.push` navigation is the `RedirectToLogin` effect token. `handleSignOut` is only a sign-out call followed by navigation, so it is left out.
- React hooks and re-rendering are not modelled. `useEffect` and `useCallback` recomputation is a call to `SetCriteria`.
- A handler's intermediate `loading = true` state is not modelled, nor is the disabled submit button while a call is pending. Handlers return only their final state.
- The server's ordering of the listing by `created_at`, newest first, is not modelled. The fetched order is an input, and the filters keep it.
- Rendering is not modelled: the profile cards, the counts, the date formatting and the "Loading..." view. The one exception is `ShowsLoading`, which tells when the placeholder is shown.
- The login form is left out. It signs in through the SDK and then navigates to the dashboard, and on any sign-in failure it shows the fixed text "Invalid email or password.". It has no logic that can be stated apart from the SDK call.
- The navigation bar is left out. Its one piece of state is whether the mobile menu is open, and that is presentation.
- The home page, the footer, the page wrappers and the build configuration are left out. They are layout and configuration.

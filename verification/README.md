# A verified model of the Croar hiring backend's algorithms

The backend automates hiring. This project models the parts of it that decide something over unbounded inputs or
runs, and proves what they guarantee:

- **JSON extraction from model replies** (`JsonGrammar`, `JsonScan`, `JsonExtract`, `JsonExtractLaws`). JSON texts
  follow RFC 8259: a value of the `Json` datatype is one way of writing one JSON value, with its white space and its
  escapes (sections 2 to 7). The scanner is a loop proved against a fold of the text; the search is proved against a
  declarative definition of the run it must return. `json.loads` is a parameter, and laws that need it to accept JSON
  say so with `LoadsJson`.
- **The lazily built agent graph** (`AgentExecutor`). Any number of calls share three globals behind a double-checked
  lock. One transition is one statement of one call; an initialisation may work, fail at any point, or be cancelled.
- **Template rendering** (`TemplateRender`, `ScheduledEmail`). The one-pass substitution and the loop of whole-string
  replaces, with templates as token sequences that are printed to text.
- **Weights and answers** (`WeightNormalisation`, `AnswerResolution`, `AnswerTiers`, `AptitudeQuestions`).
- **Interview slots and candidate sourcing** (`TimeSlots`, `StableOrder`, `Sourcing`, `SourcingLaws`).
- **Building and deleting a hiring pipeline** (`Sessions`, `HiringRows`, `HiringPipeline`, `HiringPipelineLaws`,
  `HiringFunnel`, `HiringPipelineRuns`, `JobDeletion`, `JobDeletionLaws`). `Sessions.Session` is a database session
  without autoflush; any database call may fail.
- **360-degree assessments** (`X360Relations`, `X360Assignments`, `X360AssignmentLaws`, `X360Report`,
  `X360ReportLaws`).
- **Permissions** (`Permissions`, `GroupAccess`, `GroupAccessLaws`).

`PyText` holds the Python string operations these need and `Sequences` filters and index lists.

Each loop or object that the code changes step by step is a method or a class here, proved against a function of its
inputs or of the old state; the laws are lemmas about those functions.

## Where the code differs from what is said about it

- The docstring of `render_template` says that substitution behaves identically on every send path. The scheduled
  email path does not call it. `ScheduledEmail.LoopAgreesExactly` gives the exact condition under which the two agree,
  and `ScheduledEmail.LoopRescans` a case in which the replace loop depends on the order of the variables.
- `_extract_json` promises the first balanced run that parses. It gives that run up exactly when twenty or more openers
  precede it (`JsonExtractLaws.FirstRunExactly`): twenty stray braces lose any object behind them
  (`JsonExtractLaws.TwentyStrayBraces`). Objects are tried before arrays, so a reply that is an
  array of objects yields its first object (`JsonExtractLaws.ArrayOfObjectsYieldsFirst`). A fenced reply whose closing
  fence is missing is cut short when the object, or the prose before it, contains a fence
  (`JsonExtractLaws.FencedObjectExact`).
- Normalised weights can become negative, from seventeen weights on (`WeightNormalisation.SixteenIsTheLimit`).
- A resolved answer need not resolve to itself (`AnswerResolution.FixedPointFails`); the exact condition is
  `AnswerResolution.FixedPointExactly`.
- `_create_assignment` checks for an existing row "to avoid doubles". The check does not see rows that wait to be
  flushed, so doubles do appear when one start requests the same assignment twice
  (`X360AssignmentLaws.FirstStartExactly`, for example `X360AssignmentLaws.TwiceNamedIsDoubled`), and the next start
  then raises (`X360AssignmentLaws.SecondStartRaisesExactly`).
- `start_cycle` has no caller in the repository: the router writes its own assignments
  (app/router/enterprise/x360.py:279-305).
- The docstring of `start_cycle` mentions random peers of the same department. None are picked: peers come from the
  configured raters only.
- A rating of zero counts as no answer (`X360Report.Counted`). The overall average includes reports' ratings, although
  no average of theirs is shown.
- The profile lists the permissions of direct roles only, while the permission check also accepts those of groups
  (`Permissions.ListedExactly`).

## Model

| member | source | states |
|---|---|---|
| JsonScan.CharsStayInside | app/core/anthropic_llm.py:96-103 | scanning the characters of any JSON string literal, escapes included, never leaves the string and never moves the depth |
| JsonScan.JsonNeutral | app/core/anthropic_llm.py:94-110 | the scan of any JSON text ends at the depth and outside strings where it began and never dips below |
| JsonScan.ValueCloses | app/core/anthropic_llm.py:94-111 | started at an object's (array's) opener, the depth first returns to zero at that value's last character, whatever surrounds it |
| JsonExtract.BalancedEnd | app/core/anthropic_llm.py:91-116 | the character loop returns the end of the run that is balanced there and nowhere before, or -1 exactly when there is none |
| JsonExtract.OpenKeepsPositive | app/core/anthropic_llm.py:104-110 | until the run closes, the depth is positive |
| JsonExtract.TryPass | app/core/anthropic_llm.py:86-117 | the retry loop returns the earliest of the first twenty openers' balanced runs that parses, None exactly when none does, in at most twenty scans |
| JsonExtract.ExtractJson | app/core/anthropic_llm.py:61-118 | the result is the winning object run, else the winning array run, else the unwrapped text or "{}"; at most forty scans |
| JsonExtractLaws.ExtractsUnique | app/core/anthropic_llm.py:85-118 | that description has one answer only |
| JsonExtractLaws.FirstRunExactly | app/core/anthropic_llm.py:71-117 | of any text, the first balanced run that parses is yielded with fewer than twenty openers before it; with more, nothing is |
| JsonExtractLaws.FirstValueWins | app/core/anthropic_llm.py:85-117 | an object (array) of which no earlier run parses is what its pass yields if fewer than twenty openers precede it, else the pass fails; behind text without its opening bracket it always wins |
| JsonExtractLaws.ObjectExact | app/core/anthropic_llm.py:71-118 | behind any unfenced prose, stray braces included, of which no earlier run parses, the object comes back character for character if and only if fewer than twenty opening braces precede it; always behind prose without one |
| JsonExtractLaws.TwentyStrayBraces | app/core/anthropic_llm.py:87-90 | an input that loses any object at all, though it is the first balanced run that parses |
| JsonExtractLaws.ArrayExact | app/core/anthropic_llm.py:85-118 | an array comes back if and only if no object run of the text parses |
| JsonExtractLaws.BraceFreeArrayKept | app/core/anthropic_llm.py:85-118 | a reply without any opening brace gives its array back |
| JsonExtractLaws.ArrayWithObjectLost | app/core/anthropic_llm.py:85-118 | an array that holds an object at any depth is lost if the reply has at most twenty opening braces |
| JsonExtractLaws.ArrayOfObjectsYieldsFirst | app/core/anthropic_llm.py:85-116 | an array that starts with an object yields that object, not the array |
| JsonExtractLaws.ObjectPassIdempotent | app/core/anthropic_llm.py:75-118 | extracting again from an object result gives it back, for any parser |
| JsonExtractLaws.ArrayPassIdempotent | app/core/anthropic_llm.py:75-118 | the same for an array result, provided the text held at most twenty opening braces |
| JsonExtractLaws.ArrayIdempotenceFails | app/core/anthropic_llm.py:85-118 | that bound is needed: behind twenty stray braces an array of objects comes back, and then its first object |
| JsonExtractLaws.FencedObjectExact | app/core/anthropic_llm.py:77-118 | a fenced reply, any newline-free tag, prose without an opening brace: with a fence after the object it comes back; without one, a fence in the object loses it, and so does one in the prose unless the object is empty; with no brace in the tag and no fence in the prose it comes back if and only if a fence follows it or it contains none |
| JsonExtractLaws.ClosedFenceBody | app/core/anthropic_llm.py:79-83 | a closed fence: the whole tag line goes, whatever it says, and a value inside stays whole |
| JsonExtractLaws.ClosedFenceObject | app/core/anthropic_llm.py:79-118 | a closed fence with any newline-free tag: its object comes back under the same exact condition as an unfenced one, stray braces included |
| JsonExtractLaws.ClosedFenceArray | app/core/anthropic_llm.py:79-118 | and its array if and only if no object run inside the fence parses |
| JsonExtractLaws.OneLineFenceObject | app/core/anthropic_llm.py:79-118 | a fenced reply of one line is not unwrapped: behind the fence and a tag without an opening brace its object comes back |
| JsonExtractLaws.OneLineFenceArray | app/core/anthropic_llm.py:79-118 | and, behind a tag without an opening bracket, its array if and only if no object run of the line parses |
| JsonExtractLaws.ProseKept | app/core/anthropic_llm.py:75-118 | prose without brackets and backquotes comes back stripped, and as "{}" exactly when it is blank |
| JsonExtractLaws.NoReply | app/core/anthropic_llm.py:75-118 | no reply at all yields "{}" |
| AgentExecutor.DecisionStable | app/agents/agent.py:306-313 | once initialisation was tried and is over, no step changes the graph that calls return |
| AgentExecutor.InvStep | app/agents/agent.py:274-313 | the invariant over globals, lock and program counters is kept by every step, failure and cancellation |
| AgentExecutor.InitAtMostOnce | app/agents/agent.py:310-312 | in every run the initialiser is started at most once |
| AgentExecutor.NeverNone | app/agents/agent.py:300-313 | no call returns None, and a persistent graph is returned only over an open saver after one start |
| AgentExecutor.Agreement | app/agents/agent.py:300-313 | any two calls of a run that return, at any times, return the same graph |
| AgentExecutor.StoredIsReturned | app/agents/agent.py:310-313 | a graph the initialiser built and the call stored is what every call of the run returns, whenever it returns |
| AgentExecutor.ResultHasCause | app/agents/agent.py:274-313 | a call returns the in-memory graph only after the initialiser gave none or was cut short, and another graph only after the initialiser built that very graph |
| AgentExecutor.FastPath | app/agents/agent.py:307-308 | a call that starts once a graph is stored never waits for the lock and returns that graph |
| AgentExecutor.PersistentReached | app/agents/agent.py:300-313 | a run in which a call that meets no failure returns the persistent graph |
| AgentExecutor.FallbackReached | app/agents/agent.py:276-297 | for each statement of the initialiser, a run in which it fails and the call returns the in-memory graph |
| AgentExecutor.StepDescends | app/agents/agent.py:300-313 | each step brings its call closer to the end and moves no other call |
| AgentExecutor.SomeoneCanAdvance | app/agents/agent.py:309-313 | while a call is unfinished some call can take its next statement |
| AgentExecutor.MaximalRunFinishes | app/agents/agent.py:300-313 | a run with n calls has at most 11 n + 1 states, and a run in which nothing more can be done has finished every call |
| TemplateRender.MatchSound | app/utils/template_render.py:18 | a match found is a match of the pattern, with its key and length |
| TemplateRender.MatchComplete | app/utils/template_render.py:18 | however the pattern can match at a position, that is the match found |
| TemplateRender.RenderMeaning | app/utils/template_render.py:21-42 | rendering gives the tokens' meanings in order, for any padding, case and values; unknown placeholders stay and inserted text is not rescanned |
| TemplateRender.LeftmostFirst | app/utils/template_render.py:42 | any text: what stands before the leftmost match is copied, the match is replaced and the rest is rendered on its own; without a match nothing changes |
| TemplateRender.LookupExactly | app/utils/template_render.py:33 | a key is known exactly when some variable has it in lower case, and the last such variable gives the value, "" when it is None |
| TemplateRender.RenderExactly | app/utils/template_render.py:21-42 | for variables with any names: each placeholder becomes the value of the last variable of its lower-case name, or "", or stays; no text at all renders as "" |
| TemplateRender.PlaceholderFilled | app/utils/template_render.py:32-42 | one placeholder, any padding and letter case on either side, becomes the value of the last variable of that name |
| TemplateRender.PlaceholderKept | app/utils/template_render.py:39-40 | one placeholder that no variable answers to stays as it is written |
| TemplateRender.TwoStages | app/utils/template_render.py:26-42 | two renderings, the first with values that hold no doubled opening brace and end in none, equal one in which the first table has priority |
| ScheduledEmail.FillTemplate | app/tasks/email_tasks.py:76-80 | the loop leaves in subject and body all variables' replaces, in order |
| ScheduledEmail.ReplaceLeftmost | app/tasks/email_tasks.py:79-80 | any text: the first occurrence is replaced, what stands before it is copied, and the rest is treated on its own; without an occurrence nothing changes |
| ScheduledEmail.ReplacePrint | app/tasks/email_tasks.py:79-80 | one whole-string replace on a template fills exactly the unpadded placeholders spelt like the key |
| ScheduledEmail.LoopFillsTokens | app/tasks/email_tasks.py:76-80 | with values that hold no doubled opening brace and end in none, the loop fills the template token by token |
| ScheduledEmail.LoopAgreesExactly | app/utils/template_render.py:8-9 | the loop and `render_template` agree if and only if every known placeholder is unpadded and spelt exactly as its variable |
| ScheduledEmail.ReplaceExpands | app/tasks/email_tasks.py:79-80 | a value that is a template itself: one replace expands the placeholder into its tokens |
| ScheduledEmail.LoopUnfolds | app/tasks/email_tasks.py:76-80 | if no value holds a later variable's unpadded placeholder, the loop expands each placeholder once |
| ScheduledEmail.NestedValuesAgree | app/utils/template_render.py:8-9 | then, on templates whose known placeholders are unpadded and spelt as their variables, loop and `render_template` agree, whatever other placeholders the values hold |
| ScheduledEmail.OrderIrrelevant | app/tasks/email_tasks.py:78-80 | then the order of the variables makes no difference |
| ScheduledEmail.LoopRescans | app/tasks/email_tasks.py:78-80 | a value that is a placeholder is replaced again or not depending on the order, and `render_template` never does it |
| WeightNormalisation.RoundClose | app/core/ai.py:84 | rounding gives the one integer that is off by at most a half, and by exactly a half on either side only if it is even |
| WeightNormalisation.Total | app/core/ai.py:82 | the sum of the weights |
| WeightNormalisation.RoundAll | app/core/ai.py:84-85 | every share rounded half to even, and the sum of the results |
| WeightNormalisation.CorrectLargest | app/core/ai.py:86-88 | the first largest value absorbs the difference and no other value changes |
| WeightNormalisation.NormaliseWeights | app/core/ai.py:82-88 | the code keeps the keys and their order and computes the specified weights |
| WeightNormalisation.NormalisedExactly | app/core/ai.py:83-88 | every weight becomes the nearest integer to its share of 100, ties to even, and the first largest one makes up what is missing from 100 |
| WeightNormalisation.LeftAlone | app/core/ai.py:83 | weights that add up to 100, or to nothing positive, stay as they are |
| WeightNormalisation.TiesToEven | app/core/ai.py:84 | weights 3 and 5 become 38 and 62: ties go to the even neighbour, up and down |
| WeightNormalisation.SumsToHundred | app/core/ai.py:82-88 | the result adds up to exactly 100 if and only if the total is positive |
| WeightNormalisation.StaysCloseToShares | app/core/ai.py:84-88 | the correction is at most n/2 and every other weight is within 1/2 of its exact share |
| WeightNormalisation.SixteenSafe | app/core/ai.py:82-88 | up to sixteen non-negative weights stay non-negative |
| WeightNormalisation.SeventeenFails | app/core/ai.py:85-88 | for every n from seventeen on, n weights of which the largest becomes -1 |
| WeightNormalisation.SixteenIsTheLimit | app/core/ai.py:82-88 | all inputs of size n stay non-negative if and only if n is at most 16 |
| AnswerResolution.LastIndexOf | app/core/ai.py:127 | where the dictionary comprehension leaves a repeated normal form: its last occurrence |
| AnswerResolution.ResolvesToOption | app/core/ai.py:103-144 | a resolved answer is one of the options |
| AnswerResolution.FixedPointExactly | app/core/ai.py:116-130 | an option resolves to itself if and only if it is visible and either unpadded, or its stripped text is no option and it is the last option with its normal form |
| AnswerResolution.FixedPointFails | app/core/ai.py:121-139 | options " B " and "B": answer "A" resolves to the first, the first to the second |
| AnswerResolution.OptionResolves | app/core/ai.py:116-130 | an option resolves to some option if and only if it is not blank |
| AnswerResolution.NormDecides | app/core/ai.py:121-130 | with distinct normal forms, an answer with an option's normal form resolves to that option |
| AnswerResolution.ContainmentIsUnique | app/core/ai.py:140-144 | the last tier answers if and only if exactly one option overlaps the answer |
| AnswerTiers.NormForm | app/core/ai.py:124-125 | the normal form of any text: outer white space and then outer full stops go, case is folded, the words stand one blank apart |
| AnswerTiers.ExactTier | app/core/ai.py:113-122 | a blank answer, or no options, resolves to nothing; an answer that is an option up to its outer space to that option |
| AnswerTiers.NormTier | app/core/ai.py:127-130 | an answer that is no option resolves to the last option with its normal form, for any options |
| AnswerTiers.LetterRead | app/core/ai.py:132-137 | the answer is read as the k-th of A to H if and only if that letter is left of it once parentheses, closing punctuation and at most one leading word are gone |
| AnswerTiers.LetterTier | app/core/ai.py:131-139 | if the first two tiers have nothing and that letter is the k-th with k below the number of options, the answer resolves to option k |
| AnswerTiers.OverlapTier | app/core/ai.py:140-144 | if they have nothing and no letter names an option, the answer resolves if and only if exactly one option's normal form contains the answer's or lies in it, and then to that option |
| AptitudeQuestions.Settle | app/core/ai.py:215-224 | one turn rewrites the question's answer to the resolved option, or leaves it and drops the question |
| AptitudeQuestions.ValidateQuestions | app/core/ai.py:212-234 | exactly the resolvable questions are kept, in order, cut to the count; kept plus dropped is the total; nothing is kept if options cannot be iterated over |
| AptitudeQuestions.KeptAnswersAreOptions | app/core/ai.py:213-224 | a question is kept if and only if it is complete and its answer resolves; its answer is then what it resolves to, one of its options, and no other question is rewritten |
| AptitudeQuestions.KeptAgain | app/core/ai.py:218-224 | a second run keeps a kept question if and only if its answer is not blank |
| AptitudeQuestions.SliceToBounds | app/core/ai.py:230 | the cut is a prefix, of the expected length also for negative counts |
| TimeSlots.ParseShown | app/agents/tools.py:94-105 | printing a time and parsing it is the identity, for every number of minutes |
| TimeSlots.FitsIff | app/agents/tools.py:102-104 | a slot fits the window if and only if its index is below floor((end-start)/interval) |
| TimeSlots.EmitSlots | app/agents/tools.py:101-106 | the loop emits max(0, min(limit, floor((end-start)/interval))) slots |
| TimeSlots.GenerateTimeSlots | app/agents/tools.py:90-106 | the slots of the window, or none when a time does not parse |
| TimeSlots.SlotsInside | app/agents/tools.py:101-105 | slots rise by the interval and lie inside the window |
| TimeSlots.PackingBound | app/agents/tools.py:99-105 | no set of disjoint intervals of that length in the window is larger than the quotient |
| TimeSlots.SlotsAreMaximal | app/agents/tools.py:99-105 | if the limit does not bind, no packing has more intervals than the slots emitted |
| TimeSlots.ScheduleResumes | app/agents/tools.py:90-106 | slot k fed back as the start with limit-k reproduces the schedule from k on |
| TimeSlots.ScheduleSpelled | app/agents/tools.py:98-106 | the k-th time is the start plus k durations, or k half hours for a duration that is not positive; it is there if and only if the limit allows it and it ends in the window |
| TimeSlots.ShownOnClock | app/agents/tools.py:105 | below a hundred hours a time is printed as two digits, a colon and two digits |
| TimeSlots.TimeRead | app/agents/tools.py:94-98 | digits on both sides of one colon are read as hours and minutes |
| TimeSlots.TimeRejected | app/agents/tools.py:94-97 | no time is read without a colon, with two, or from None |
| TimeSlots.NumeralExactly | app/agents/tools.py:94-95 | what `int` reads between signs and white space: digits with single underscores between them |
| TimeSlots.SignsRead | app/agents/tools.py:94-95 | white space around the numeral and one sign in front of it are accepted |
| StableOrder.SortOrderInOrder | app/agents/tools.py:801 | the sort lists every index once, by key and by position among equal keys |
| StableOrder.OrderUnique | app/agents/tools.py:801 | there is only one such order |
| StableOrder.FilterThenSort | app/agents/tools.py:796-802 | filtering and sorting lists the surviving indices in sort order |
| Sourcing.RankProfilesByRelevance | app/agents/tools.py:772-802 | the loop and the sort compute the specified ranking |
| Sourcing.RankingOrder | app/agents/tools.py:787-802 | exactly the profiles with a role hit or two skill hits, by score, then email, then input order |
| Sourcing.CleanRows | app/agents/tools.py:923-927 | the dictionary loop keeps the first real row of each key |
| Sourcing.CleanedDistinct | app/agents/tools.py:923-927 | kept rows are real and have pairwise distinct keys |
| Sourcing.RealRowRepresented | app/agents/tools.py:924-927 | every real row's key is represented; a junk row never shadows it |
| Sourcing.StoredRowsWin | app/agents/tools.py:966 | scraped rows appended behind stored ones leave every stored survivor as and where it was |
| Sourcing.StoredCopyKept | app/agents/tools.py:923-966 | of a key that a stored real row has, the stored copy is kept |
| Sourcing.CleanRank | app/agents/tools.py:920-929 | the ranking of the cleaned rows, or the cleaned rows when the ranking is empty |
| Sourcing.PickCandidates | app/agents/tools.py:946-984 | as many as asked for if there are; nobody without an email is shown while somebody with one is dropped; stored rows first, scraped ones only on a shortfall |
| Sourcing.ShownArePreferred | app/agents/tools.py:920-984 | with a backfill that only fills in contacts, whoever is shown is what it made of a found row, which is a real row of one of the searches, and the stored copy wherever the store has one |
| Sourcing.EmailsFirst | app/agents/tools.py:972-973 | the second sort groups profiles by email and keeps the ranking order inside each group |
| Sourcing.CutKeepsEmails | app/agents/tools.py:973-983 | the cut never keeps a profile without email while dropping one with it |
| SourcingLaws.NextToken | app/agents/tools.py:768 | keywords are read from left to right: what cannot start one is skipped and each runs as far as it can |
| SourcingLaws.QuerySpelled | app/agents/tools.py:769-783 | what is searched for: keywords of two characters or more that are not generic, a keyword of the role never counting as a skill |
| SourcingLaws.FieldsCount | app/agents/tools.py:789-793 | a keyword counts if it occurs in headline, summary, title, raw title or address; the name never counts |
| SourcingLaws.HitsExactly | app/agents/tools.py:794-796 | one hit means some keyword occurs, two hits that two different ones do |
| SourcingLaws.JunkSpelled | app/agents/tools.py:757-763 | which rows are kept: with an identity, and a name of two characters or more that is no listed word, path or file |
| SourcingLaws.StoreSuffices | app/agents/tools.py:950 | if the stored rows are enough, the live search changes nothing |
| SourcingLaws.ShortfallFilled | app/agents/tools.py:950-966 | on a shortfall every real scraped row is represented under its key, and found if it has a role hit |
| SourcingLaws.NothingRelevant | app/agents/tools.py:928-929 | if nothing found is relevant, everything found is shown in the order of the searches |
| Sessions.Session.Flush | app/core/database.py:43-46 | a flush makes the added rows visible to selects and changes nothing else |
| Sessions.Session.Commit | app/core/database.py:43-46 | a commit stores everything or, when it fails, nothing |
| Sessions.Session.Rollback | app/core/database.py:48-57 | a rollback returns to the committed rows |
| HiringPipeline.EnsureEmailTemplate | app/agents/tools.py:109-129 | find or create by company and name, tied to the specification; succeeds exactly when every call is answered |
| HiringPipeline.EnsureOnboardingTemplate | app/agents/tools.py:212-248 | the same, an existing template being updated in place |
| HiringPipeline.AddJob | app/agents/tools.py:1360-1374 | the new job is flushed under a fresh identifier |
| HiringPipeline.AddMail | app/agents/tools.py:1388-1402 | a mail stage: its template and its automation |
| HiringPipeline.AddRound | app/agents/tools.py:1404-1504 | an assessment or interview stage: email template, own template, automation |
| HiringPipeline.AddOnboarding | app/agents/tools.py:1523-1552 | the onboarding stage: both templates and the automation |
| HiringPipeline.RunBuild | app/agents/tools.py:1360-1555 | the whole build commits the specified rows, or nothing is committed; identifiers are only used up |
| HiringPipeline.BuildPipeline | app/agents/tools.py:1283-1590 | built exactly when there is a title, the questions are generated and every call is answered; otherwise the stored rows are as before, a successful rollback leaves the session clean, and without a title nothing at all changes |
| HiringPipelineLaws.LookupsStay | app/agents/tools.py:118-125 | growth never changes what a lookup by company and name has found |
| HiringPipelineLaws.OneEachExactly | app/agents/tools.py:118-125 | the uniqueness kept is: at most one email and one onboarding template for a company and a name |
| HiringPipelineLaws.EmailEnsured | app/agents/tools.py:118-129 | find-or-create keeps templates unique, touches nothing else, and later lookups find its result |
| HiringPipelineLaws.OnboardingEnsured | app/agents/tools.py:225-248 | the same for onboarding templates |
| HiringPipelineLaws.PlanArmed | app/agents/tools.py:1387-1552 | arming a stage adds exactly its automation, wired to the templates that lookups find |
| HiringPipelineLaws.ArmedStays | app/agents/tools.py:1387-1552 | a build for any company and role leaves an armed stage armed |
| HiringPipelineLaws.BuildArms | app/agents/tools.py:1356-1555 | a build keeps templates unique, loses no row, adds its job, and arms exactly one automation for each of five stages |
| HiringPipelineLaws.BuildAddsOneJob | app/agents/tools.py:1360-1555 | apart from templates and its own automations a build adds its job only |
| HiringFunnel.BuildIsFunnel | app/agents/tools.py:1387-1552 | the five automations of the new job: acknowledgement 1, assessment 2 and interview 3 each linked to a template of its own kind, offer 4, onboarding 5, each with the email template of its name; only onboarding moves nobody on |
| HiringFunnel.BuildWritesTexts | app/agents/tools.py:1387-1545 | every email template a build adds carries the text of its name, and the role's onboarding template carries its checklist line, new or not |
| HiringPipelineRuns.RunsKeepTemplates | app/agents/tools.py:109-129 | over any run of builds and deletions, committed or not, templates stay unique and a lookup always finds the same one |
| HiringPipelineRuns.RunsKeepAutomations | app/agents/tools.py:1389-1555 | builds and deletions of other jobs leave a job's automations alone |
| HiringPipelineRuns.RunsKeepArmed | app/agents/tools.py:1389-1555 | until it is deleted a job stays fully armed: its five automations stay, wired to the templates that lookups find |
| HiringPipelineRuns.DeletedStaysDisarmed | app/agents/tools.py:600-648 | after its deletion no run ever gives a job an automation again |
| HiringPipelineRuns.RebuildsShareTemplates | app/agents/tools.py:1389-1552 | two committed builds of a company, with builds and deletions of other jobs between them, use the same email templates, and the same onboarding template for the same role |
| HiringPipelineRuns.RunOne | app/agents/tools.py:1333-1590 | one call of a tool on an idle session is one recorded event, and leaves the session idle unless its rollback failed |
| HiringPipelineRuns.RunRequests | app/agents/tools.py:600-1590 | any sequence of build and delete calls leaves exactly the stored rows and the next identifier of the recorded run, so the laws about runs are about the tools |
| HiringPipelineLaws.DeleteUndoesBuild | app/agents/tools.py:600-648 | deleting a job right after its build leaves, of everything but templates, the old rows and the deleted job |
| JobDeletion.DeleteAutomations | app/agents/tools.py:623-624 | the four delete statements, all or a failure |
| JobDeletion.RunStatements | app/agents/tools.py:617-636 | the statements in order; a failure commits nothing, a missing job changes nothing |
| JobDeletion.DeleteJob | app/agents/tools.py:600-648 | deleted exactly when the job is live in the company and all seven calls are answered; otherwise the stored rows are as before |
| JobDeletion.LiveJobSpelled | app/agents/tools.py:619-621 | a job can be deleted if and only if the company has a row of it that is not deleted |
| JobDeletion.DeletionExactly | app/agents/tools.py:622-635 | all four kinds of automation of the job go, its live non-hired applications and the job are marked, all else stays in order |
| JobDeletion.UntouchedRows | app/agents/tools.py:623-635 | after a deletion the rows of other jobs, the templates and the hired applications are exactly those there were, in order; already deleted applications are still there; no live application of the job is left but hired ones |
| JobDeletionLaws.DeletionKeepsSound | app/agents/tools.py:622-635 | a deletion keeps templates unique and identifiers unused |
| JobDeletionLaws.DeletionKeepsLookups | app/agents/tools.py:622-635 | a deletion changes no lookup of a template |
| JobDeletionLaws.DeletionKeepsArmed | app/agents/tools.py:622-635 | another job that was fully armed still is |
| JobDeletionLaws.DeletionDisarms | app/agents/tools.py:623-624 | the deleted job has no automation left |
| X360Assignments.CreateAssignment | app/services/x360_service.py:116-150 | adds the row if the flushed rows have none; fails exactly on two matches or an unanswered call |
| X360Assignments.AssignOwn | app/services/x360_service.py:91-98 | the self assignment, and the manager's if there is a manager |
| X360Assignments.AssignMapped | app/services/x360_service.py:103-106 | one assignment for each configured rater, in order |
| X360Assignments.AssignRatee | app/services/x360_service.py:84-106 | self, manager, then configured raters; nothing for an unknown ratee |
| X360Assignments.AssignAll | app/services/x360_service.py:83-106 | all ratees' requests in order |
| X360Assignments.CommitActive | app/services/x360_service.py:108-109 | the status and all added rows are stored together or not at all |
| X360Assignments.StartCycle | app/services/x360_service.py:67-114 | commits the active cycle and the additions, or raises and commits nothing; when it raises is stated exactly |
| X360AssignmentLaws.AddedExactly | app/services/x360_service.py:124-150 | what is added is exactly what is requested and absent |
| X360AssignmentLaws.RequestsSpelled | app/services/x360_service.py:83-106 | requested is, about each named and known ratee, the ratee itself, its manager, and exactly its configured raters |
| X360AssignmentLaws.CompanyExactly | app/services/x360_service.py:77-81 | a start finds no cycle if and only if there is none, and takes the company the cycle is under |
| X360AssignmentLaws.RowsAfterStart | app/services/x360_service.py:108-150 | row by row: the cycle is active, every other row is as it was, each new row is an uncompleted assignment of the cycle under its company |
| X360AssignmentLaws.TableIsUnion | app/services/x360_service.py:83-109 | the new table holds the old assignments and the requested ones |
| X360AssignmentLaws.DuplicateFreeExactly | app/services/x360_service.py:124-150 | the table is free of duplicates afterwards if and only if it was and repeated requests were already answered |
| X360AssignmentLaws.SecondStartAddsNothing | app/services/x360_service.py:124-135 | the same start again adds nothing and changes nothing |
| X360AssignmentLaws.SecondStartRaisesExactly | app/services/x360_service.py:133-134 | after a start from a clean table the same start gets through its checks if and only if no new request was repeated |
| X360AssignmentLaws.RequestsDistinctExactly | app/services/x360_service.py:83-106 | requests are distinct if and only if no known ratee is named twice and no configured rater repeats another, the self or the manager assignment |
| X360AssignmentLaws.FirstStartExactly | app/services/x360_service.py:83-109 | for a cycle without rows that condition decides whether duplicates appear |
| X360AssignmentLaws.TwiceNamedIsDoubled | app/services/x360_service.py:83-92 | an input: a known ratee named twice on a table that holds only the cycle is assigned twice |
| X360Report.AddRating | app/services/x360_service.py:245-249 | the dictionary update touches one bucket of one category |
| X360Report.TallyNext | app/services/x360_service.py:243-249 | it keeps every bucket equal to the values given in that category and relation, and categories in order of first rating |
| X360Report.CollectFrom | app/services/x360_service.py:242-263 | the inner loop adds one assignment's ratings and comments |
| X360Report.Collect | app/services/x360_service.py:240-263 | the nested loops tally all ratings and collect all comments |
| X360Report.AllValues | app/services/x360_service.py:278 | chaining the buckets in any order gives the average of all values |
| X360Report.FormatScores | app/services/x360_service.py:269-288 | one score for each rated category, in order of first rating |
| X360Report.GetReport | app/services/x360_service.py:226-288 | the scores of the rated categories and the comments |
| X360Report.OverallIsWeightedMean | app/services/x360_service.py:278-286 | the overall average is the count-weighted mean of the four relations' averages |
| X360Report.AverageBetween | app/services/x360_service.py:275-276 | an average lies between any bounds of its values |
| X360Report.EveryRatingCountsOnce | app/services/x360_service.py:244-249 | the categories' counts add up to the number of ratings |
| X360ReportLaws.ScoresExactly | app/services/x360_service.py:242-288 | over the responses themselves: a category is listed once if and only if some response gives it points; its self, manager and peer scores are the means of the points from those raters, its overall score of all raters |
| X360ReportLaws.CategoriesInOrder | app/services/x360_service.py:245-246 | categories come in the order of their first rating |
| X360ReportLaws.RatingsInOrder | app/services/x360_service.py:240-249 | which responses are ratings, in the order of assignments and responses; zero and missing values are none |
| X360ReportLaws.CommentsInOrder | app/services/x360_service.py:250-263 | which responses are comments, in order, and how the rater is named: peers and reports anonymously |
| Permissions.EffectiveRoles | app/core/dependencies.py:160-163 | the extended list grants what direct roles and live groups' roles grant |
| Permissions.CheckPermission | app/core/dependencies.py:160-180 | accepted if and only if some direct role or some role of a live group carries the permission |
| Permissions.ListPermissions | app/router/auth.py:734-742 | the listed strings are those of the direct roles' permissions |
| Permissions.ListedExactly | app/router/auth.py:734-742 | every listed permission is accepted; accepted and not listed are exactly those only groups give |
| GroupAccess.CheckDecides | app/core/dependencies.py:160-172 | the answer does not depend on the order in which groups are loaded |
| GroupAccess.LossExactly | app/core/dependencies.py:153-156 | a change to a group takes a permission away if and only if that group alone gave it and no longer does |
| GroupAccess.GainExactly | app/core/dependencies.py:153-156 | and gives one if and only if the changed group gives it |
| GroupAccess.ReassignExactly | app/router/enterprise/team.py:264-287 | reassigning a user's direct roles leaves what groups give alone and touches nobody else |
| GroupAccess.RemoveExactly | app/router/enterprise/team.py:290-303 | a removed user may do nothing and nobody else is affected |
| GroupAccess.DirectStep | app/models/enterprise/user_group.py:8-12 | any request keeps a direct permission if and only if it does not reassign that user to other roles without it or remove the user |
| GroupAccess.DirectSurvives | app/models/enterprise/user_group.py:8-12 | a direct permission survives any run of requests of which none takes it away directly |
| GroupAccess.TenancyKept | app/router/enterprise/user_groups.py:187-348 | no run lets a role or a membership reach into another company |
| GroupAccess.NoForeignPermission | app/router/enterprise/user_groups.py:268-322 | whatever a user may do after any run comes from a role of the own company or of the system, held directly or through a live group of that company the user is a member of; the user has no role and no group of another company |
| GroupAccess.MembersRestored | app/router/enterprise/user_groups.py:89-97 | replacing the membership is idempotent; putting the old members back restores everything if and only if none of them was deleted |
| GroupAccessLaws.MaySpelled | app/core/dependencies.py:147-172 | a permission is held through a role of the user or a role of a live group the user is a member of |
| GroupAccessLaws.OfferedExactly | app/router/enterprise/user_groups.py:307-324 | of the roles named, those of the company and of the system are granted |
| GroupAccessLaws.DeleteExactly | app/router/enterprise/user_groups.py:332-348 | a deleted group gives nothing and is out of reach; direct roles and other groups are not affected |
| GroupAccessLaws.SetRolesExactly | app/router/enterprise/user_groups.py:295-322 | afterwards the group gives its members exactly what the new roles on offer give |
| GroupAccessLaws.SetMembersExactly | app/router/enterprise/user_groups.py:255-292 | afterwards the group gives what it gave to exactly the listed live users of the company |
| GroupAccessLaws.CreateExactly | app/router/enterprise/user_groups.py:187-218 | a new group gives nobody anything and is in reach |
| GroupAccessLaws.AddUserExactly | app/router/enterprise/team.py:184-247 | a new user may do what the roles on offer give, and what a group that lists the identifier already gives; nobody else is affected |
| GroupAccessLaws.ReassignSpelled | app/router/enterprise/team.py:264-287 | the new roles on offer replace the direct ones, spelled out by company; what groups give stays, and nobody else is affected |
| GroupAccessLaws.RefusedChangesNothing | app/router/enterprise/user_groups.py:70-84 | a request for a group or user out of reach, for roles none of which is on offer, or to remove oneself changes nothing |

## Left out

- Model calls, prompts, token metering, SMTP, notifications, logging and progress messages: no decidable result.
- `json.loads` is a parameter; its recursion limit and its limit on digits are not modelled.
- `\w`, `str.lower`, `str.casefold` and `str.upper`: parameters. Laws that need more say so (`Lawful` for `\w`).
- RenderMeaning: templates are well-formed placeholders and literals that hold no doubled opening brace and end in none; any other text is covered match by match by `LeftmostFirst`.
- LetterRead: an answer from which more than one of the three leading words is dropped is not covered.
- FieldsCount: for a lower-casing that works piece by piece; it is stated for keywords without a blank, as all of them are.
- LoopAgreesExactly: values that hold no doubled opening brace and end in none. For values that hold placeholders `NestedValuesAgree` gives a sufficient condition, and `LoopRescans` an input on which the agreement breaks.
- NormaliseWeights: exact rationals instead of floating point, with Python's rounding half to even.
- OverallIsWeightedMean: exact rationals instead of floating point.
- ValidateQuestions: questions are distinct objects, as parsing makes them; options and answers are strings already; how other JSON values are turned into strings is not modelled.
- GenerateTimeSlots: numerals in ASCII digits; other Unicode digits and the limit on digits of `int` are not modelled.
- PickCandidates: the searches, the content identity of a row, the contact backfill and the lists of junk names, file endings and generic role terms are parameters.
- AgentExecutor: compiled graphs count as true, as Python objects do without a `__bool__`.
- EnsureEmailTemplate: a select with limit 1 takes the first row; with unique templates there is no other. Subject and body are one text, and the category is not kept.
- BuildPipeline: location, experience, skills, question texts, durations, dates and slots are not part of the rows. Tool inputs that are clamped or normalised are not modelled. Reading the company identifier cannot fail.
- DeleteJob: deletion times are a flag.
- StartCycle: the notification after the commit is not modelled; an error there reaches the caller after the rows are stored. Employees and cycles are unique by primary key.
- GetReport: the lookups of cycle and template, the assignment counts and the evaluation of comments by a model are not modelled.
- CheckPermission: authentication before the check and the text of the 403 answer are not modelled.
- GroupAccess: email addresses and group names, whose clashes refuse a request, are not modelled; new identifiers are new. The endpoints that create, edit and delete roles (app/router/enterprise/team.py:56-160) are not among the requests.
- Two sessions at a time: builds, deletions and starts run one after another.
- Migrations, schemas, payroll, attendance, surveys, onboarding flows and the other routers: declarations or thin wrappers.

# FithubFast backend rules in Dafny

This project models the rules inside the FithubFast backend, an actix-web
service behind a fitness-tracking app. Users log workouts, earn EXP and levels,
raise pets, keep login and training streaks, claim a 14-day login reward, browse
exercises, gyms and gear, and send contact messages.

Every handler in the service is wrapped in database and session I/O. The model
lifts out the sequential rules those handlers apply. Query results are inputs
(sequences, maps and `Option`s); the rows a handler writes are its outputs.
Dates are day numbers (day 0 is 1970-01-01), and "today" is a parameter.

Modules, one per source file:

- `Models` — the cumulative EXP curve and its binary-search inverse, and the pet stage, mood and label tables (`src/db/models.rs`).
- `Config` — the EXP configuration (`src/config.rs`).
- `AppErrors` — the error type and its HTTP mapping (`src/error.rs`).
- `AuthGuard` — the session guards (`src/middleware/auth_guard.rs`).
- `BasicAuth` — the Basic-authentication gate of section 2 of RFC 7617 (`src/middleware/basic_auth.rs`).
- `Auth` — registration, login hash dispatch, OAuth login ids and profile refresh (`src/api/auth.rs`).
- `Admin` — the special administrator and level assignment (`src/api/admin.rs`).
- `Streak` — the login bonus, the streak transition as a function and as the `StreakRow` class, and the recount (`src/api/streak.rs`).
- `UserApi` — level info, week windows, the current-streak counter, muscle condition, and the name and password checks (`src/api/user.rs`).
- `Workout` — tags, the date check, difficulty, the set-saving loop, the daily cap and the deduction on delete (`src/api/workout.rs`).
- `Pets` — images, unlock rules, barn classification, EXP gain, and the `PetStore` class that keeps at most one pet active (`src/api/pet.rs`).
- `DailyReward` — the reward table, the next day, the fourteen statuses and claiming (`src/api/daily_reward.rs`).
- `Dashboard` — activity and heat levels, muscle groups, the heatmap and the per-group aggregation (`src/api/dashboard.rs`).
- `Exercise` — id lists, the target filter, manual paging, video URLs and the sorted target list (`src/api/exercise.rs`).
- `Gym` — filter parsing, the dynamically built queries with their bound values, and the paged response (`src/api/gym.rs`).
- `Gear` — the merit/demerit split (`src/api/gear.rs`).
- `Contact` — validators, truncation, labels, banned words, image limits and the submission checks (`src/api/contact.rs`).
- Shared helpers:
  - `Paging` — the page count computed through `f64`, and `has_next`.
  - `Text` — Rust's `trim`, byte `len`, `split`, `to_lowercase` on ASCII, and integer parsing and printing.
  - `Common` — `Option`, the i32 range, wrap-around and truncating division.

Where the source works by changing state, the model does too:
- `Models.CalculateLevel` is a `while` loop;
- `Streak.StreakRow` and `Pets.PetStore` are classes;
- the set-saving, recount, aggregation, unlock and query-building loops are methods with invariants.

Each such method is proved against a function, and the function's properties are lemmas.

## Model

| member | source | states |
|---|---|---|
| Admin.IsSpecialAdmin | src/api/admin.rs:13-19 | a login id is the special administrator exactly when it is "220618" |
| Admin.ListUsers | src/api/admin.rs:51-92 | non-administrators get Forbidden; otherwise one entry per user row in order, with level 1 and total EXP 0 when the user has no stats row |
| Admin.UpdateLevel | src/api/admin.rs:96-170 | checks in order: Forbidden for non-administrators, BadRequest for a level outside 1..1000, NotFound for a missing user; success stores the level with the cumulative EXP the level requires, creating the stats row when absent, and touches no other user; the pet-unlock check it then runs (admin.rs:158-160) is Pets.CheckAndUnlock, not composed here |
| Admin.StoredExpGivesLevel | src/api/admin.rs:114-121 | the total EXP written for a level is mapped back to that same level by the level formula |
| Admin.AssignedExpIsLeast | src/api/admin.rs:120-121 | one EXP fewer than the assigned total gives the level below, so the assigned total is the least EXP of the level |
| AuthGuard.RequireAuth | src/middleware/auth_guard.rs:20-34 | succeeds exactly when a session user exists and returns that user; otherwise Unauthorized "Not authenticated" |
| AuthGuard.RequireAdmin | src/middleware/auth_guard.rs:14-55 | no session gives Unauthorized, a non-"ADMIN" role gives Forbidden "Admin access required", an "ADMIN" user is returned |
| AuthGuard.AdminRefinesAuth | src/middleware/auth_guard.rs:20-55 | the admin guard fails wherever the auth guard fails, with the same error; it succeeds exactly for admins; its failures are 401 without a session and 403 with one |
| AuthGuard.RoleIsCaseSensitive | src/middleware/auth_guard.rs:16-18 | a user whose role is lower-case "admin" is refused |
| BasicAuth.Enabled | src/middleware/basic_auth.rs:35-40 | an unset variable leaves the gate off |
| BasicAuth.EnabledValues | src/middleware/basic_auth.rs:35-40 | "true" in any letter case and "1" switch the gate on; "yes", "0", "" and an unset variable do not |
| BasicAuth.HealthzBypasses | src/middleware/basic_auth.rs:22-107 | exclusion is by prefix: every path that extends an excluded path bypasses the gate, "/healthz" and "/api/auth/github/callback" among them |
| BasicAuth.SplitOnce | src/middleware/basic_auth.rs:121 | splits at the first separator: none exactly when the separator is absent, and otherwise the left part holds no separator and the parts rebuild the input |
| BasicAuth.CredentialsExact | src/middleware/basic_auth.rs:121-122 | decoded credentials are accepted exactly when they equal "fithub:timpo" |
| BasicAuth.SplitUnique | src/middleware/basic_auth.rs:121-122 | a user name without ':' is recovered uniquely from "user:pass" |
| BasicAuth.Gate | src/middleware/basic_auth.rs:94-140 | the request passes exactly when the gate is off, the path is excluded, or the header is "Basic " followed by text that decodes to the credentials; every other request gets the 401 with the FithubFast realm |
| BasicAuth.GateAcceptsOnlyTheCredentials | src/middleware/basic_auth.rs:114-131 | on a protected path with the gate on, a header passes exactly when it is "Basic " plus an encoding of "fithub:timpo" |
| BasicAuth.DisabledOrMissing | src/middleware/basic_auth.rs:99-139 | with the gate off everything passes; with it on, a protected path without a header is challenged |
| Auth.RedirectUrl | src/api/auth.rs:25-32 | an empty frontend URL yields the bare path; otherwise the frontend URL without trailing '/' followed by the path |
| Auth.RedirectIgnoresTrailingSlashes | src/api/auth.rs:25-32 | the redirect always ends with the path, and an extra trailing '/' on the frontend URL changes nothing |
| Auth.Register | src/api/auth.rs:76-105 | registration proceeds exactly when the passwords match, the login id is 4 to 20 UTF-8 bytes and the id is not taken, keeping the requested id |
| Auth.RegisterCheckOrder | src/api/auth.rs:82-93 | a password mismatch is reported before a bad login-id length |
| Auth.SchemeOf | src/api/auth.rs:279-282 | a stored hash is checked with bcrypt exactly when it starts with "$2a$", "$2b$" or "$2y$" |
| Auth.Login | src/api/auth.rs:244-305 | login succeeds exactly when the user exists with a non-empty stored hash that the selected scheme verifies (Argon2 also needing a parseable hash); an unknown user gets the bad-credentials message |
| Auth.LoginMessages | src/api/auth.rs:259-299 | a user with no or an empty password gets the social-login message, and every refusal carries one of the two messages |
| Auth.LocalPart | src/api/auth.rs:690 | the text before the first '@': a prefix of the email holding no '@' |
| Auth.Filter | src/api/auth.rs:698-701 | a character is kept exactly when it occurs in the input and passes the test, and the result is no longer than the input |
| Auth.FilterConcat | src/api/auth.rs:698-701 | filtering distributes over concatenation and keeps one character exactly when it passes the test, so the kept characters are all the passing ones, in input order |
| Auth.Take | src/api/auth.rs:706 | the first n characters, or the whole string when shorter |
| Auth.GenerateLoginId | src/api/auth.rs:687-708 | a generated id is always at least 6 UTF-8 bytes |
| Auth.TakeKeepsBytes | src/api/auth.rs:703-707 | taking n characters keeps at least min(n, length) bytes |
| Auth.LoginIdShape | src/api/auth.rs:687-708 | with a non-empty email, a local part of 6 or more bytes is the id unchanged and a shorter one is padded with '0' to six characters; without one, the alphanumeric characters of provider and OAuth id are cut to their first 20 when they take 6 bytes or more, and padded with '0' to six characters otherwise |
| Auth.AsciiLoginIdLength | src/api/auth.rs:687-708 | for ASCII input the id has at least six characters |
| Auth.FirstFree | src/api/auth.rs:729-740 | the least suffix from the start up to 999 whose candidate is free, or none when all are taken |
| Auth.GenerateUniqueLoginId | src/api/auth.rs:710-745 | a free base id is kept; otherwise the first free "base_i" for i in 1..999, else "base_" plus the UUID prefix; a suffixed result is not taken |
| Auth.RefreshProfile | src/api/auth.rs:581-611 | each supplied email, name or image replaces the stored one, and the update flag is set exactly when the profile changed |
| Auth.RefreshIdempotent | src/api/auth.rs:581-596 | refreshing twice with the same data equals refreshing once; supplying nothing changes nothing |
| Config.FloatToI32 | src/config.rs:40 | the float-to-i32 cast: always an i32, truncating toward zero inside the i32 range |
| Config.DailyLimit | src/config.rs:36-44 | a current record gets the configured daily limit; a past record gets the scaled limit cast to an i32 |
| Config.ExpMultiplier | src/config.rs:46-53 | 1.0 for a current record, the past multiplier for a past record |
| Config.DefaultLimits | src/config.rs:23-53 | with the defaults, past records are capped at 25000 per day, current ones at 50000, and past EXP is scaled by 0.25 |
| Config.PastLimitWithinCurrent | src/config.rs:36-44 | with an i32 limit and a past multiplier in [0, 1], the past limit lies between 0 and the current limit |
| AppErrors.StatusCode | src/error.rs:37-47 | NotFound is 404, BadRequest 400, Unauthorized 401, Forbidden 403, and exactly the internal and database errors are 500 |
| AppErrors.ErrorResponse | src/error.rs:49-72 | the response carries the error's status code and its message verbatim |
| AppErrors.ErrorTypeInjective | src/error.rs:49-66 | two errors get the same type string exactly when they are the same variant, and the same response exactly when they are equal |
| AppErrors.FromDatabase | src/error.rs:75-79 | a database failure becomes a 500 database error carrying the driver's text |
| AppErrors.FromEnvVar | src/error.rs:81-85 | an environment-variable failure becomes a 500 internal error with the "Environment variable error: " prefix |
| Contact.ValidateRequired | src/api/contact.rs:127-136 | accepted exactly when the trimmed text is min..max UTF-8 bytes, returning the trimmed text; otherwise BadRequest |
| Contact.ValidateOptional | src/api/contact.rs:138-155 | a missing or blank value becomes None; otherwise the trimmed value, accepted exactly when it is at most max bytes |
| Contact.RequiredIsStable | src/api/contact.rs:127-136 | validating an accepted value again accepts it unchanged |
| Contact.OptionalIsStable | src/api/contact.rs:138-155 | validating an accepted optional value again accepts it unchanged |
| Contact.ValidateEmailMeaning | src/api/contact.rs:157-171 | an email passes exactly when its trimmed form is 5..200 bytes and has exactly one '@' followed by a non-empty domain containing '.' |
| Contact.EmptyEmailInvalid | src/api/contact.rs:157-161 | the empty email is rejected, so contact without an email fails |
| Contact.EmptyLocalPartAccepted | src/api/contact.rs:157-171 | nothing is required before the '@': "@" followed by any domain of 4..199 bytes that holds a '.', no '@' and no trailing white space passes |
| Contact.SecondAtRejected | src/api/contact.rs:157-171 | any email whose trimmed form holds two '@' is rejected, wherever they stand |
| Contact.Truncate | src/api/contact.rs:173-181 | text within the limit is kept; longer text becomes its first max-1 characters (at least none) and '…' |
| Contact.TruncateFits | src/api/contact.rs:173-181 | for a positive limit the result fits the limit, and truncating again changes nothing |
| Contact.KindLabel | src/api/contact.rs:183-190 | a label exists exactly for "bug", "request" and "other" |
| Contact.ExtensionOfAllowed | src/api/contact.rs:192-200 | the extension is something other than "bin" exactly for the four allowed image types |
| Contact.ContainsBannedWord | src/api/contact.rs:51-75 | reports exactly whether some listed word, lowered unless the list is case-sensitive, occurs in the text lowered the same way; an empty list finds nothing |
| Contact.VerbatimWordCaught | src/api/contact.rs:51-75 | a listed word occurring verbatim in the text is always caught, whatever the case setting |
| Contact.Collect | src/api/contact.rs:216-294 | the multipart result keeps at most four images, each of an allowed type and at most 2 MB |
| Contact.CollectErrorSticks | src/api/contact.rs:220-294 | the first error of the part loop is the result, whatever parts follow |
| Contact.CollectParts | src/api/contact.rs:216-294 | the loop over the parts computes the multipart result |
| Contact.FifthImageRefused | src/api/contact.rs:243-249 | with four images collected, another image part fails with the four-image message |
| Contact.ParseFields | src/api/contact.rs:305-314 | accepted fields hold the kind's label, the trimmed summary of 3..120 bytes, the trimmed detail of 5..3000 bytes, the reproduction of at most 3000 bytes and the email of at most 200 bytes |
| Contact.ParseFieldsOrder | src/api/contact.rs:305-314 | the fields parse exactly when all five checks pass, into the values those checks return; otherwise the error is that of the first failing check, in the order kind, summary, detail, reproduction, email |
| Contact.AcceptedHasValidEmail | src/api/contact.rs:305-348 | a submission is accepted exactly when its fields parse, no banned word is in summary, detail or reproduction and, when contact is allowed, the email is valid; an accepted one carries the parsed fields |
| Contact.ScreenAccepted | src/api/contact.rs:316-348 | screening accepts the fields unchanged exactly when no checked field holds a banned word and a required email is valid; a banned word is reported on summary first, then detail |
| DailyReward.RewardsTable | src/api/daily_reward.rs:18-36 | fourteen rewards: day 7 pays 500, day 14 pays 1000, every other day 200; exactly days 7 and 14 are flagged big |
| DailyReward.NextRewardDay | src/api/daily_reward.rs:91-114 | the next reward day lies in 1..14 |
| DailyReward.CycleRepeats | src/api/daily_reward.rs:103-113 | after n consecutive claims from a fresh start the reward day is n mod 14 + 1, so the cycle repeats every fourteen claims |
| DailyReward.FindDay | src/api/daily_reward.rs:195 | the first history row with the given reward day, or none exactly when no row has it |
| DailyReward.CycleStart | src/api/daily_reward.rs:121-129 | the latest date on which day 14 was claimed, or none exactly when day 14 was never claimed |
| DailyReward.After | src/api/daily_reward.rs:131-143 | exactly the claimed rows dated after the cycle start |
| DailyReward.CycleHistory | src/api/daily_reward.rs:116-158 | the current cycle's rows come from the history and hold no day-14 claim once a cycle has completed |
| DailyReward.DayStatuses | src/api/daily_reward.rs:192-205 | the status list has fourteen entries |
| DailyReward.DayStatusesMeaning | src/api/daily_reward.rs:192-205 | entry i is day i+1 with its reward and big flag; it is claimed exactly when some row of the cycle has that day, and then carries the date of the first such row |
| DailyReward.Claim | src/api/daily_reward.rs:217-326 | a second claim on the same day earns nothing and reports the stored total; otherwise the next reward day is claimed with the boosted reward, failing only when EXP is due and the user has no stats row |
| DailyReward.ClaimAddsEarned | src/api/daily_reward.rs:226-294 | a claim adds its positive reward to the total, and a repeated claim on the same day reports that total and earns nothing |
| Dashboard.ActivityLevel | src/api/dashboard.rs:103-121 | the level is in 0..4 and is 0 exactly for a zero volume |
| Dashboard.ActivityLevelMonotone | src/api/dashboard.rs:103-121 | more non-negative volume never lowers the level; the thresholds sit at 1000, 2500 and 5000, and a negative volume counts as a light day |
| Dashboard.YearStartCheckpoints | src/api/dashboard.rs:47-48 | day numbers of January 1 agree with the calendar at 1970, 2000, 2024 and 2025, and chrono's first and last dates are fixed |
| Dashboard.YearStartStep | src/api/dashboard.rs:47-48 | each year starts the day after the previous year's December 31, with 366 days exactly in Gregorian leap years |
| Dashboard.LeapCountStep | src/api/dashboard.rs:47-48 | counting one more year adds one leap year exactly when that year is a Gregorian leap year |
| Dashboard.YearStartMonotone | src/api/dashboard.rs:47-48 | a year ends before any later year starts |
| Dashboard.YearWithinRange | src/api/dashboard.rs:47-48 | every year chrono supports lies between its first and last date |
| Dashboard.YearRange | src/api/dashboard.rs:46-48 | the year's January 1 and December 31, a year-length apart and inside chrono's range; none (the `unwrap` panic) exactly outside chrono's years |
| Dashboard.SuccOpt | src/api/dashboard.rs:91 | the next day, none exactly on chrono's last date |
| Dashboard.StepsStayWithinRange | src/api/dashboard.rs:91 | stepping with `succ_opt().unwrap_or(current)` never passes chrono's last date, however many steps |
| Dashboard.LastYearLoopsForever | src/api/dashboard.rs:82-92 | as written: for chrono's last year the end date is the last date, the step stays on it, and the loop guard holds after every number of iterations |
| Dashboard.BuildHeatmap | src/api/dashboard.rs:78-92 | corrected to stop after chrono's last date: both maps hold exactly the days of the range; each day's volume is its summed volume or 0 and its level is that volume's activity level |
| Dashboard.HeatmapCoversRange | src/api/dashboard.rs:46-92 | a heatmap over a range has one entry per day of the range |
| Dashboard.GroupOf | src/api/dashboard.rs:236-247 | a muscle maps to one of the six groups or to none |
| Dashboard.GroupOfIdempotent | src/api/dashboard.rs:236-247 | each group name maps to itself, so mapping twice equals mapping once; an unlisted name maps to none |
| Dashboard.HeatTenths | src/api/dashboard.rs:249-260 | heat in tenths lies in 0..10 |
| Dashboard.HeatNonIncreasing | src/api/dashboard.rs:249-260 | more days since training never raises the heat; a day or less gives full heat, over 30 days none |
| Dashboard.LastDateIsMax | src/api/dashboard.rs:196-205 | the last training date of a group is the greatest date among its records, none exactly when it has no record |
| Dashboard.CountSinceBounds | src/api/dashboard.rs:206-209 | the seven-day count is at most the number of records and is 0 when no record of the group is that recent |
| Dashboard.AggregateOne | src/api/dashboard.rs:197-211 | one loop step keeps every group's last date and count in step with the records seen so far |
| Dashboard.AggregateGroups | src/api/dashboard.rs:190-213 | after the loop each group holds its last date and seven-day count over all records |
| Dashboard.MuscleHeatmap | src/api/dashboard.rs:154-234 | one item per group in the fixed order, with its last date, the days since it, the matching heat and the count of records in the last seven days |
| Exercise.DefaultBaseIsAbsolute | src/api/exercise.rs:116-118 | the default video host is an absolute https URL |
| Exercise.BuildVideoUrl | src/api/exercise.rs:108-122 | no URL exactly for a missing or blank path; an http(s) path is kept; any other path becomes the base, '/', and the path without its leading slashes |
| Exercise.AbsoluteUrlKept | src/api/exercise.rs:112-113 | an absolute URL passes through unchanged |
| Exercise.BuildVideoUrlIdempotent | src/api/exercise.rs:108-122 | with an absolute base, building the URL of a built URL changes nothing |
| Exercise.BuiltIsAbsolute | src/api/exercise.rs:108-122 | with an absolute base, every non-blank path yields an absolute URL |
| Exercise.IdsOfMembership | src/api/exercise.rs:142-160 | an id is in the parsed list exactly when some comma piece, trimmed, parses as an i32 to it |
| Exercise.IdsOfAreI32 | src/api/exercise.rs:142-160 | every parsed id fits an i32 |
| Exercise.IdsOfConcat | src/api/exercise.rs:142-160 | parsing is piecewise: pieces parsed together give the concatenation of the pieces parsed apart |
| Exercise.ParsesBack | src/api/exercise.rs:147 | an i32 written in decimal parses back to itself |
| Exercise.IdsOfShown | src/api/exercise.rs:142-160 | a list of i32 ids written in decimal parses back to the same list |
| Exercise.KeepTargeted | src/api/exercise.rs:252-266 | keeps exactly the rows one of whose trimmed comma-separated targets is a selected muscle |
| Exercise.FilterByTargets | src/api/exercise.rs:252-269 | no selection keeps every row; otherwise exactly the rows targeting a selected muscle remain |
| Exercise.KeepTargetedConcat | src/api/exercise.rs:252-266 | the filter works row by row and keeps the order |
| Exercise.Page | src/api/exercise.rs:271-292 | a page never holds more rows than the list |
| Exercise.PageIsSlice | src/api/exercise.rs:274-292 | for i32 paging within range the page is the slice from page*size of up to size rows, or empty when it starts past the end |
| Exercise.NegativeStartIsEmpty | src/api/exercise.rs:274-292 | a negative page start is cast to an index past the end, so the page is empty, as the `from_index < len` test makes it |
| Exercise.NegativeSizeCrosses | src/api/exercise.rs:274-278 | a negative size wraps so that the end bound falls below a start inside the list whenever start + size is not negative; the slice then panics and no page is produced |
| Exercise.ToDtos | src/api/exercise.rs:279-289 | one response entry per row, in order |
| Exercise.Paged | src/api/exercise.rs:128-302 | the response counts every row left after the target filter, holds no more of them, and echoes page and size with defaults 0 and 16 |
| Exercise.PagedMeaning | src/api/exercise.rs:138-301 | for every non-negative page and positive size within i32, the response shows exactly the filtered rows from page*size, up to size of them; total pages is the ceiling of the filtered total over the size; has-next holds exactly when rows remain after the page |
| Exercise.DefaultPageShowsFirstSixteen | src/api/exercise.rs:138-301 | with no paging parameters the response shows the first sixteen filtered rows and has a next page exactly when more than sixteen remain |
| Exercise.LexIrreflexive | src/api/exercise.rs:331 | the string order used to sort is irreflexive |
| Exercise.LexTransitive | src/api/exercise.rs:331 | the string order is transitive |
| Exercise.LexTotal | src/api/exercise.rs:331 | two different strings are ordered one way or the other |
| Exercise.SortDedup | src/api/exercise.rs:331-332 | sorting then removing duplicates gives a strictly increasing list of exactly the input's members |
| Exercise.SortedUnique | src/api/exercise.rs:331-332 | two strictly sorted lists with the same members are equal, so the result is determined by its members |
| Exercise.TargetMuscleList | src/api/exercise.rs:304-335 | the target-muscle list is strictly sorted and holds no empty name |
| Exercise.TargetMuscleListMeaning | src/api/exercise.rs:313-333 | a name is listed exactly when it is non-empty and a trimmed comma piece of some row's targets, and no name is listed twice |
| Paging.TotalPages | src/api/exercise.rs:273 | the page count is an i32; for a positive size and an i32 total it is the least count of pages that holds every row |
| Paging.CeilDiv | src/api/exercise.rs:273 | the ceiling of total over a positive size: the least c with total <= c*size, never above total |
| Paging.HasNextMeansMore | src/api/exercise.rs:300 | for a positive size and a non-negative page, "page < total_pages - 1" holds exactly when rows remain after the page |
| Gear.DescriptionsOf | src/api/gear.rs:107-117 | the descriptions of one kind never outnumber the features |
| Gear.DescriptionsOfMembership | src/api/gear.rs:107-117 | a description is listed exactly when some feature of that kind, compared in lower case, carries it |
| Gear.DescriptionsOfConcat | src/api/gear.rs:107-117 | the filter keeps the features' order |
| Gear.DescriptionsOfLength | src/api/gear.rs:107-117 | one description per feature of the kind |
| Gear.MeritsDemeritsPartition | src/api/gear.rs:107-117 | merits and demerits together number the features minus those of any other type, so no feature is in both lists |
| Gear.CountPartition | src/api/gear.rs:107-117 | the merit and demerit counts add up to the features that are one or the other |
| Gear.UpperCaseCounts | src/api/gear.rs:107-117 | a feature whose type lowers to "merit" ("MERIT" and "Merit" among them) is listed as a merit and not as a demerit |
| Gym.SearchPattern | src/api/gym.rs:138-142 | no pattern exactly for a missing or blank search |
| Gym.SearchPatternShape | src/api/gym.rs:138-142 | the pattern is '%', the trimmed search in lower case (already lowered, same length), and '%' |
| Gym.LowerIdempotent | src/api/gym.rs:142 | lowering twice equals lowering once |
| Gym.ParseFilters | src/api/gym.rs:115-144 | the filters carry the search pattern and the maximum price unchanged; absent tag or area parameters give empty lists |
| Gym.ParsedEntriesAreClean | src/api/gym.rs:116-136 | every parsed tag and area is non-empty, trimmed and free of commas |
| Gym.Placeholders | src/api/gym.rs:183-193 | a list of n placeholders holds n parameters |
| Gym.ClauseCounts | src/api/gym.rs:170-178 | the price clause takes one parameter and the search clause two |
| Gym.AreaClause | src/api/gym.rs:180-185 | the area clause takes one parameter per area |
| Gym.HavingClause | src/api/gym.rs:189-195 | the tag clause takes one parameter per tag plus the tag count |
| Gym.FilterBindsCount | src/api/gym.rs:202-221 | the filter values bound number 1 per price, 2 per search, one per area and tag, and 1 more with tags; none are bound exactly when no filter is given |
| Gym.AppendWhere | src/api/gym.rs:170-185 | the appended conditions add exactly the price, search and area parameters |
| Gym.BindEach | src/api/gym.rs:211-217 | binds the values in order after those already bound |
| Gym.BindFilters | src/api/gym.rs:202-221 | binds the filter values in the order price, search twice, areas, tags, tag count |
| Gym.FilteredIdQuery | src/api/gym.rs:161-197 | the filtered id query has one parameter per filter value plus LIMIT and OFFSET |
| Gym.BuildIdQuery | src/api/gym.rs:149-227 | the id query has exactly as many placeholders as bound values: the filter values, then size and offset; only size and offset are bound exactly when no filter is given |
| Gym.CountSubquery | src/api/gym.rs:262-295 | the tag-filtered count subquery has one parameter per filter value |
| Gym.BuildCountQuery | src/api/gym.rs:229-321 | the count query has exactly as many placeholders as bound values, and binds the same filter values as the id query |
| Gym.TagsOfCount | src/api/gym.rs:367-375 | a gym gets one tag per tag row of that gym |
| Gym.GymIdsMembership | src/api/gym.rs:367-375 | a gym appears among the grouped ids exactly when some tag row names it |
| Gym.TagsOfAbsent | src/api/gym.rs:390 | a gym with no tag row gets no tags |
| Gym.GroupTags | src/api/gym.rs:367-375 | the grouping has an entry exactly for each gym with tag rows, holding that gym's tags in row order |
| Gym.Offset | src/api/gym.rs:113 | the offset is an i32, equal to page*size whenever that fits |
| Gym.Respond | src/api/gym.rs:323-406 | an empty id page reports zero total, zero pages and no next page; otherwise one entry per gym with the counted total; "has previous" holds exactly for a positive page |
| Gym.EmptyPageHidesTotal | src/api/gym.rs:323-334 | a page past the end reports total 0 even when gyms match |
| Gym.NonEmptyPageMeaning | src/api/gym.rs:377-406 | on a non-empty page "has next" holds exactly when rows remain after it, and each gym carries the tags of its rows |
| Gym.TagsLookup | src/api/gym.rs:390 | looking a gym up in the grouping yields its tags, or none when it has no rows |
| Gym.PlanSearch | src/api/gym.rs:103-321 | page and size default to 0 and 24; each query's placeholders match its bound values; the id query binds the count query's values plus size and offset |
| Models.RequiredExp | src/db/models.rs:40-49 | level 1 and below need no EXP; every higher level needs at least 220 |
| Models.RequiredExpCheckpoints | src/db/models.rs:41-42 | the documented values: levels 1, 2, 5, 10, 50 and 100 need 0, 220, 1360, 4860, 104860 and 409860 |
| Models.RequiredExpStep | src/db/models.rs:51-52 | going from level L to L+1 costs 80L + 140 more EXP |
| Models.RequiredExpStrictlyIncreasing | src/db/models.rs:40-49 | the EXP needed strictly increases with the level |
| Models.ExpToNext | src/db/models.rs:53-57 | the cost of the next level is cast to an i32 |
| Models.ExpToNextFormula | src/db/models.rs:51-57 | for levels where it fits an i32 the cost is 80L + 140, and adding it to the level's requirement gives the next level's |
| Models.LevelOf | src/db/models.rs:59-76 | the level lies in 1..1000 |
| Models.LevelOfSpec | src/db/models.rs:59-76 | no EXP gives level 1; otherwise the level's requirement is met and no higher level up to 1000 is reached |
| Models.LevelOfUnique | src/db/models.rs:59-76 | any level whose requirement is met while the next one's is not is the computed level |
| Models.LevelOfRequiredExp | src/db/models.rs:43-76 | exactly a level's required EXP gives that level back |
| Models.LevelOfMonotone | src/db/models.rs:59-76 | more EXP never gives a lower level |
| Models.CalculateLevel | src/db/models.rs:59-76 | the binary search returns the highest level in 1..1000 whose requirement the EXP meets |
| Models.PetStage | src/db/models.rs:416-423 | the stage lies in 1..3 |
| Models.PetStageMonotone | src/db/models.rs:416-423 | for positive levels the stage never decreases with the level, and it is the adult stage exactly from level 31 |
| Models.StageOfExpMonotone | src/db/models.rs:416-428 | the stage reached with some EXP never decreases as EXP grows |
| Models.StageName | src/db/models.rs:430-438 | "Unknown" exactly for a stage outside 1..3 |
| Models.StageNamesDistinct | src/db/models.rs:430-438 | the three stages have different names |
| Models.Mood | src/db/models.rs:440-456 | 50 exactly when there is no training date; otherwise one of 100, 80, 60, 40, 20 |
| Models.MoodNonIncreasing | src/db/models.rs:440-456 | as days pass the mood never rises, and it is 20 exactly after more than seven days |
| Models.MoodLabel | src/db/models.rs:458-468 | the "weak" label is given exactly to scores other than 100, 80, 60, 50 and 40 |
| Models.MoodLabelsDistinct | src/db/models.rs:440-468 | different moods get different labels |
| Pets.ImageForStage | src/api/pet.rs:227-235 | no image for a stage outside 1..3 |
| Pets.ImageOfComputedStage | src/api/pet.rs:227-235 | with the stage computed from EXP, the egg image is shown up to level 10, the child image up to 30 and the adult image beyond |
| Pets.ShouldUnlock | src/api/pet.rs:793-805 | a "user_level" type unlocks once the user reaches its level (default 1), a "pet_growth" type once its required pet code is adult, a "default" or untyped one always, any other type never |
| Pets.UnlockProgress | src/api/pet.rs:313-334 | the progress reads "unlockable" exactly when the type would unlock or its unlock type is unknown |
| Pets.AdultCodesMembership | src/api/pet.rs:770-780 | a code is listed exactly when some owned pet whose EXP gives level 31 or more has that type code |
| Pets.AdultCodes | src/api/pet.rs:770-780 | the loop collects the adult pets' type codes in order |
| Pets.ClassifyBarn | src/api/pet.rs:445-475 | the loop yields the unlocked-but-unowned types and the locked types with their progress |
| Pets.BarnPartition | src/api/pet.rs:445-475 | a type is offered exactly when it is unlocked (by record, starter flag or "default" type) and not owned; it is listed as locked exactly when not unlocked, with the progress for the user |
| Pets.Ids | src/api/pet.rs:783-784 | the ids of the types, in order |
| Pets.CheckAndUnlock | src/api/pet.rs:755-822 | reports the names and records the ids of exactly the newly unlocked types, in order |
| Pets.NewUnlocksMembership | src/api/pet.rs:786-818 | a type is newly unlocked exactly when it is listed, not yet unlocked, not a starter and its condition holds |
| Pets.UnlockCheckSettles | src/api/pet.rs:755-822 | running the check again right after finds nothing new, and every newly unlocked type is then unlocked |
| Pets.ValidatePetName | src/api/pet.rs:517-526 | a name is accepted exactly when its trimmed form is non-empty and at most 50 UTF-8 bytes, and the trimmed form is kept |
| Pets.CreationName | src/api/pet.rs:516-527 | no name gives "パートナー"; a given name is validated |
| Pets.AcceptedNameIsStable | src/api/pet.rs:517-526 | an accepted name is accepted again unchanged |
| Pets.DefaultNameIsValid | src/api/pet.rs:526 | the default name would itself pass validation |
| Pets.GainExp | src/api/pet.rs:708-751 | nothing happens exactly when the amount is not positive or no pet is active; otherwise the new total is the old plus the amount, with the level and stage it gives |
| Pets.GainNeverLowersLevel | src/api/pet.rs:722-729 | a gain never lowers the level; "level up" means a higher level, "matured" means crossing from level 30 or below to 31 or above |
| Pets.DeactivateAll | src/api/pet.rs:529-533 | every pet is kept with its active flag cleared |
| Pets.SetActive | src/api/pet.rs:579-583 | only the pets with the given id get the flag; the others are unchanged |
| Pets.FindActive | src/api/pet.rs:160-170 | the position of an active pet, or none exactly when no pet is active |
| Pets.FindById | src/api/pet.rs:184-195 | the position of the pet with the id, or none exactly when there is none |
| Pets.CreateLeavesOnlyNew | src/api/pet.rs:528-543 | after creation the new pet is the only active one |
| Pets.ActivateLeavesOnlyTarget | src/api/pet.rs:572-583 | after activation exactly the target pet is active |
| Pets.DeactivateLeavesNone | src/api/pet.rs:689-694 | with at most one pet active, deactivating it leaves none active |
| Pets.CreateCheck | src/api/pet.rs:496-527 | an unknown type is refused first; creation passes exactly when the type exists, is unlocked, is not owned yet and the name passes, and yields the name |
| Pets.PetStore.constructor | src/api/pet.rs:172-182 | the store starts with the user's pets, at most one active and ids distinct |
| Pets.PetStore.Create | src/api/pet.rs:488-554 | a refused creation changes nothing; otherwise the new level-1 pet with no EXP is appended as the only active one, keeping at most one active |
| Pets.PetStore.Activate | src/api/pet.rs:559-598 | an unknown pet is refused and nothing changes; otherwise all pets are deactivated and the target activated |
| Pets.PetStore.Deactivate | src/api/pet.rs:681-704 | without an active pet it is refused; otherwise the active pet is deactivated and no pet stays active |
| Pets.PetStore.AddExp | src/api/pet.rs:708-751 | the gain is computed from the active pet's EXP, which alone gets the new total, level and stage |
| Pets.PetStore.Rename | src/api/pet.rs:600-678 | by id or by the active pet, a missing target is refused with that handler's own message ("パートナーが見つかりません" or "アクティブなパートナーがいません"); without a name nothing changes; otherwise a refused name is reported and an accepted one is stored trimmed on that pet only |
| Streak.LoginBonus | src/api/streak.rs:178-187 | a non-negative streak earns at least 100: 100 plus 10 per day up to 100, plus 50 per full week |
| Streak.LoginBonusMonotone | src/api/streak.rs:178-187 | a longer streak never earns less; a seven-day streak earns 220 |
| Streak.ClampGrace | src/api/streak.rs:469-470 | the stored grace days are the request clamped into 0..3 |
| Streak.NextStreak | src/api/streak.rs:189-237 | the activity date becomes the last active date; the same date changes nothing; a first activity starts both streaks at 1; otherwise the best streak becomes the larger of the old best and the new current |
| Streak.NextStreakConsistent | src/api/streak.rs:189-237 | the current streak never exceeds the best one after an update when it did not before |
| Streak.ExtendOrRestart | src/api/streak.rs:213-228 | a new date extends the streak by one exactly when the gap is within grace + 1 days, recording gap - 1 grace days, and otherwise restarts it at 1 with no grace used |
| Streak.NextStreakIdempotent | src/api/streak.rs:208-211 | recording the same activity twice is the same as recording it once |
| Streak.GraceUsedWithinAllowance | src/api/streak.rs:213-228 | for a later date the grace days used stay within the allowance |
| Streak.BrokenStreakRestarts | src/api/streak.rs:224-235 | a gap above the allowance restarts the streak at 1 and keeps the best streak |
| Streak.StreakRow.constructor | src/api/streak.rs:151-175 | a new row has no streak, no best streak, no last date and no grace used |
| Streak.StreakRow.Update | src/api/streak.rs:189-254 | the row afterwards is the transition of the row before |
| Streak.StreakRow.ClaimLoginBonus | src/api/streak.rs:307-416 | an already claimed day earns nothing and leaves the row alone; otherwise the login streak advances to today and the bonus of the new streak is earned |
| Streak.StreakRow.RecordTraining | src/api/streak.rs:490-505 | corrected: a workout dated before the training row's last active date leaves the row unchanged; any other date updates it as `update_streak` does |
| Streak.StreakRow.ApplyRecount | src/api/streak.rs:557-566 | only the current streak and the last date are overwritten by the recount |
| Streak.RunLength | src/api/streak.rs:538-553 | a run over some dates counts between 1 and all of them |
| Streak.Recount | src/api/streak.rs:525-555 | the last date is the most recent date, none without dates; the streak is at most the number of dates and is 0 exactly without dates or when the most recent one is beyond the grace window |
| Streak.RecountTraining | src/api/streak.rs:509-555 | the loop computes the recount |
| Streak.ReplayRun | src/api/streak.rs:538-553 | replaying ascending dates one by one gives the run length the recount loop counts, and ends on the latest date |
| Streak.ReplayAgreesWithRecount | src/api/streak.rs:509-555 | for ascending dates still within the grace window, recounting from scratch gives the same streak and last date as recording each date in order |
| Streak.BackfillBreaksStreak | src/api/streak.rs:213-235 | as written, an earlier activity date extends the streak and becomes the last date, so the next day's activity restarts the streak |
| Streak.NextStreakIgnoringPast | src/api/streak.rs:189-237 | the corrected transition: a date before the last active date leaves the row alone; any other date is handled as before |
| Streak.IgnoringPastIsMonotone | src/api/streak.rs:189-237 | under the corrected transition a back-filled date does not affect later updates, the last date never moves back, and grace used stays non-negative |
| UserApi.UserLevelInfo | src/api/user.rs:135-146 | without a stats row the triple is level 1, 0 EXP, 1000 to next; with one, the stored level, the EXP above that level's requirement and that level's EXP-to-next cost |
| UserApi.LevelInfoInRange | src/api/user.rs:135-146 | when the stored level is the one the EXP gives, the EXP within the level is non-negative and, below the top level, less than the cost of the next level |
| UserApi.DaysFromMonday | src/api/user.rs:229 | the weekday offset lies in 0..6 |
| UserApi.Weeks | src/api/user.rs:228-235 | the current week starts on the Monday not after today and spans seven days through today; the previous week is the seven days before it |
| UserApi.WeeksPartition | src/api/user.rs:228-235 | every day of a week yields the same week, and the day a week earlier falls in the previous week |
| UserApi.WeeklyWorkoutsChange | src/api/user.rs:257-258 | the change added to last week's count gives this week's, and is positive exactly when this week has more |
| UserApi.StatsGraceDays | src/api/user.rs:308-316 | grace days default to 2 when there is no settings row or the column is NULL |
| UserApi.CurrentStreak | src/api/user.rs:318-351 | the streak is the recount over the 30 most recent training dates, so it lies in 0..30 |
| UserApi.DaysSinceTrained | src/api/user.rs:472-478 | 999 without a training date, otherwise the days since it |
| UserApi.MuscleCondition | src/api/user.rs:480-486 | "recovering" exactly up to 2 days, "ready" from 3 to 6, "stale" beyond |
| UserApi.NeverTrainedIsStale | src/api/user.rs:477-486 | a muscle never trained is stale |
| UserApi.MuscleStatuses | src/api/user.rs:454-494 | one status per listed muscle in order, with its last date, days since and condition |
| UserApi.WeeklyVolumeHistory | src/api/user.rs:430-452 | seven consecutive days ending today, each with its volume or 0 |
| UserApi.DisplayNameAccepted | src/api/user.rs:531-536 | an accepted display name has 1 to 20 characters |
| UserApi.DisplayNameAsciiLimit | src/api/user.rs:531-536 | for ASCII names acceptance is exactly 1 to 20 characters |
| UserApi.KanjiNamesRefused | src/api/user.rs:531-536 | as written: every name of 7 to 20 three-byte characters is refused, such as the seven-kanji name "山田太郎左衛門" |
| UserApi.CharacterLimitExtendsByteLimit | src/api/user.rs:531-536 | corrected: the 1-20 character check accepts every name the byte check accepts, agrees with it on ASCII names and accepts the seven-kanji name |
| UserApi.UpdatePassword | src/api/user.rs:569-639 | social accounts are refused first; the password changes exactly for a local account whose stored hash parses and verifies the current password and whose new password has at least 6 bytes; the length refusal comes only after a correct current password |
| Text.Trim | src/api/contact.rs:128 | the trimmed text neither starts nor ends with white space, and is empty exactly for all-white-space text |
| Text.TrimIdempotent | src/api/contact.rs:128 | trimming twice equals trimming once |
| Text.Utf8Len | src/api/contact.rs:129 | a string's byte length lies between its character count and four times it |
| Text.Split | src/api/exercise.rs:146 | splitting yields at least one piece and no piece holds the separator |
| Text.JoinSplit | src/api/exercise.rs:146 | joining the pieces with the separator gives the text back |
| Text.SplitCount | src/api/exercise.rs:146 | there is one piece more than separators |
| Text.CommaListEntries | src/api/gym.rs:119-124 | the list holds exactly the non-empty trimmed comma pieces, none with a comma |
| Text.ParseShowI32 | src/api/exercise.rs:147 | every i32 written in decimal parses back to itself |
| Text.DigitsParseNonNegative | src/api/exercise.rs:147 | a string of digits never parses to a negative number |
| Workout.MasterTags | src/api/workout.rs:220-229 | master tags are the comma parts of `target_muscles` that are non-empty after trimming; each is already trimmed and holds no comma; a missing column gives no tags |
| Workout.UserAddedTags | src/api/workout.rs:231-239 | a user tag is shown as user-added exactly when it is one of the user's tags and not a master tag |
| Workout.TagsPartition | src/api/workout.rs:219-239 | master and user-added tags are disjoint and together cover exactly the master tags plus the user's tags |
| Workout.UserAddedTagsConcat | src/api/workout.rs:235-239 | the filter distributes over concatenation of the user's tag list |
| Workout.UserAddedTagsOrder | src/api/workout.rs:235-239 | when no user tag is a master tag, the user-added tags are the user's tags unchanged, in their original order |
| Workout.CheckRecordDate | src/api/workout.rs:596-607 | a date after today is a BadRequest with the future-date message; otherwise the record is "past" exactly when days_ago >= the past-days threshold |
| Workout.DifficultyCoefficient | src/api/workout.rs:665-681 | the coefficient is one of 10, 15, 20, 30; a custom exercise or one without a difficulty gets 15 |
| Workout.DifficultyValue | src/api/workout.rs:675-680 | every difficulty string maps to one of 10, 15, 20, 30 |
| Workout.DifficultyTable | src/api/workout.rs:675-680 | for a catalogue exercise the coefficient is 30, 20 or 10 exactly for the Japanese or English hard, medium or easy label |
| Workout.SetError | src/api/workout.rs:742-754 | a set is rejected exactly when its weight is outside 0..500 or its reps outside 0..20; the weight error wins when both are wrong |
| Workout.ValidPrefix | src/api/workout.rs:742-754 | the number of sets stored before the first bad set: all sets before it are valid and the set at it is not |
| Workout.ValidPrefixAt | src/api/workout.rs:742-754 | any index with only valid sets before it and an invalid set (or the end) at it is the valid prefix |
| Workout.FlatPrefix | src/api/workout.rs:654-779 | the sets of the first i exercises are a prefix of the sets of all of them |
| Workout.NumberedAppend | src/api/workout.rs:732-739 | appending a set numbered max+1 (or 1) for its record-exercise keeps the numbering rule and bumps that record-exercise's maximum |
| Workout.NumberedInOrderAt | src/api/workout.rs:732-777 | each stored set's number is one more than the maximum set number of its record-exercise before it, or 1 if there was none |
| Workout.MaxSetAfterConcat | src/api/workout.rs:732-777 | folding the maximum set numbers over two batches is the same as folding over their concatenation |
| Workout.NumberedConcat | src/api/workout.rs:732-777 | two correctly numbered batches, the second numbered after the first, form one correctly numbered batch |
| Workout.SetExp | src/api/workout.rs:767-776 | each set adds between 1 and max_exp_per_set EXP; a raw value already in that range is added unchanged |
| Workout.SetStep | src/api/workout.rs:742-777 | inserting one valid set with the next set number keeps the inserted rows mirroring the input sets and correctly numbered |
| Workout.InsertSets | src/api/workout.rs:739-778 | inserts the input sets up to the first bad one, each with its record-exercise id and with set numbers continuing from the maximum; fails exactly when some set is invalid, with that set's error; adds between 1 and max_exp_per_set EXP per inserted set |
| Workout.FindOrCreate | src/api/workout.rs:683-730 | the lookup map stays the stored ids plus the created rows' ids, and the ids it already knew keep their values; the returned id is the one the map gives the exercise's key; a known key creates nothing and leaves the next id and order index alone; otherwise one row is created with the next id, the key and the next order index, and both advance by one |
| Workout.BatchStep | src/api/workout.rs:654-779 | appending one exercise's inserted sets to the earlier ones keeps mirroring and numbering |
| Workout.ExerciseDone | src/api/workout.rs:654-779 | after an exercise whose sets are all valid, the stored sets are exactly the sets of the exercises so far |
| Workout.FlatStep | src/api/workout.rs:654-779 | the sets of the first i+1 exercises are those of the first i followed by exercise i's sets |
| Workout.FailedAt | src/api/workout.rs:742-754 | when exercise i holds the first bad set, that set is the first bad set of the whole request and the stored sets are exactly those before it |
| Workout.FailedIn | src/api/workout.rs:742-754 | a bad set inside a block that follows only valid sets is the first bad set of the whole sequence |
| Workout.SaveExercises | src/api/workout.rs:640-779 | the request succeeds exactly when every set is valid; the stored sets are the input sets before the first bad one, numbered per record-exercise from max+1; each stored set carries the row id of its own exercise's key, stored or created; the created rows are exactly the rows for the keys absent from the record, in order of first appearance among the exercises the loop reached (all of them on success), with consecutive ids from the next auto-increment id and order indexes from max+1 (or 0); the base EXP lies between 1 and max_exp_per_set per set |
| Workout.SaveExercise | src/api/workout.rs:654-778 | one pass finds or creates the exercise's row and stores its sets up to the first bad one under that row: it fails exactly when the exercise holds a bad set, with that set's error, and afterwards the created rows are those for the exercises up to this one and every stored set carries its exercise's row id |
| Workout.OwnersPrefix | src/api/workout.rs:654-779 | the exercise keys of the sets of the first i exercises are a prefix of those of all the sets |
| Workout.OwnersStep | src/api/workout.rs:654-779 | one exercise more adds its key once per set it holds |
| Workout.NewKeysMembership | src/api/workout.rs:683-730 | a key is among the new keys exactly when some exercise has it and the record does not; no key is listed twice |
| Workout.AllValidParts | src/api/workout.rs:742-754 | when every set of the first i exercises is valid, so is every set of each of them |
| Workout.ExercisesRunAt | src/api/workout.rs:654-779 | the loop reaches every exercise when all are valid, and stops after exercise i when that is the first one holding a bad set |
| Workout.RowKeys | src/api/workout.rs:702-730 | the keys of the created rows, position by position |
| Workout.RowIdsDomain | src/api/workout.rs:702-730 | the created rows' ids are known for exactly the created rows' keys |
| Workout.RowIdsAt | src/api/workout.rs:702-730 | with distinct keys each created row's key looks up that row's id |
| Workout.IdsStep | src/api/workout.rs:702-730 | creating a row for a key the record lacks extends the lookup map by that key alone |
| Workout.CreatedRowsKeys | src/api/workout.rs:702-730 | the rows created for the exercises carry the new keys in order, with consecutive ids and order indexes |
| Workout.CreatedRowsMeaning | src/api/workout.rs:683-730 | the created rows have fresh, distinct keys and consecutive order indexes, and the lookup map built from them knows every stored and created key with its own row id |
| Workout.CreatedStep | src/api/workout.rs:683-730 | one exercise more creates a row exactly when its key is neither stored nor new among the exercises before it |
| Workout.LookupKeys | src/api/workout.rs:683-701 | a key is in the lookup map exactly when it is stored or new among the exercises so far |
| Workout.LookupStep | src/api/workout.rs:683-730 | a find-or-create of exercise i leaves the rows created for the exercises up to i |
| Workout.AttachStep | src/api/workout.rs:732-778 | the sets of one more exercise, inserted under that exercise's row id, keep every stored set under the row of its own exercise |
| Workout.AttachedExtend | src/api/workout.rs:654-779 | what holds of the first sets' exercise keys holds of the same positions in a longer list of keys |
| Workout.CappedExp | src/api/workout.rs:806-808 | the awarded EXP is the boosted EXP or the remaining daily budget (floored at 0), whichever is smaller, so it never exceeds either |
| Workout.CappedExpRespectsLimit | src/api/workout.rs:806-808 | after the award the day's EXP stays within the daily limit (or where it already was), and a spent budget awards 0 |
| Workout.AwardUserExp | src/api/workout.rs:818-849 | with stats the new total is max(0, total + award) and the old level is kept for comparison; without stats the total is the award and the old level 1; the new level is the level of the new total |
| Workout.AwardNeverLowersLevel | src/api/workout.rs:818-855 | for a consistent user and a non-negative award the new level is never below the old one |
| Workout.DeductExp | src/api/workout.rs:956 | the deducted total is never negative, never above the old total for a non-negative deduction, and exactly total - exp when that is non-negative |
| Workout.DeductUndoesAward | src/api/workout.rs:822-823 | deleting a record takes back exactly the EXP that saving it added |
| Workout.DeleteRecord | src/api/workout.rs:912-989 | a record not owned or missing is NotFound("Record not found"); otherwise user and active-pet totals drop by the record's EXP with a floor at 0, and their levels (and the pet's stage) are recomputed from the new totals |

## Left out

- Database access, sessions, the HTTP server and the connection pool are not modelled. Query results are parameters and written rows are results. The SQL text of the gym queries is a list of pieces and placeholders, not the exact strings with their whitespace.
- Clock reads and the JST offset are not modelled: "today" is a parameter.
- Floating point is not modelled: per-set EXP rounding, the level and streak multipliers, `level_progress`, the weekly volume change percentage and the boosted daily reward. Per-set raw EXP and the boosted reward are parameters, heat levels are integer tenths, and volumes are only compared.
- Workout.SaveExercises: the base EXP total is bounded (1 to `max_exp_per_set` per stored set), not computed, because each set's raw EXP is a rounded float supplied as a parameter.
- Workout.InsertSets: the same bound on the EXP it adds, for the same reason.
- Paging.TotalPages: the `f64` division is modelled as exact, which holds for totals below 2^53.
- Password hashing and verification (bcrypt, Argon2), base64 decoding, UTF-8 decoding, UUID generation, Unicode `is_alphanumeric` and loading the banned-word file are not modelled. They are parameters.
- `to_lowercase` is modelled on ASCII letters only. It is exact for the comparisons with "true", "merit" and "demerit". Gym.SearchPattern and Contact.ContainsBannedWord: non-ASCII letters are not lowered.
- The OAuth provider clients and linking an OAuth login to an existing account by email are network I/O and are not modelled. Only the profile-refresh rule and login-id generation are modelled.
- Contact: the Discord webhook post, JSON parsing of the form field and the webhook-URL check are not modelled. Multipart streaming is reduced to a list of parts with their type and size.
- Pets.PetStore.Rename: returns the stored row rather than the response built by `build_pet_response`; the re-read that could fail with "ペットの取得に失敗しました" cannot fail in the model, because the pet is still there.
- UserApi.UpdatePassword: the internal-error message omits the hashing library's own error text.
- Dashboard.YearRange: a year outside chrono's years gives None where the handler's `unwrap` panics (dashboard.rs:47-48). Outside the heatmap, dates are unbounded day numbers and chrono's date range is not modelled.
- Dashboard.BuildHeatmap: models the loop corrected to stop after chrono's last date. The loop as written is Dashboard.LastYearLoopsForever (see Findings).
- Exercise.Page: a negative size can make the slice bounds cross, and the handler then panics; the model gives no page there (`None`). A negative page start is not a panic: it gives an empty page.
- Integer overflow in `page * size` and `from_index + size` (exercise.rs:273-274, gym.rs:113) is modelled as the wrap-around of a release build. A debug build panics there instead; that behaviour is not modelled.
- Follow-on calls between handlers are modelled as separate operations and not composed. `update_user_level` (admin.rs:158-160), `save_record` (workout.rs:873-886) and `claim_daily_reward` (daily_reward.rs:297-305) run the pet EXP gain and unlock check, which are Pets.GainExp, Pets.PetStore.AddExp and Pets.CheckAndUnlock. `save_record` records the training day (workout.rs:869-870), which is Streak.StreakRow.RecordTraining. `delete_record` recounts the streak (workout.rs:993-994), which is Streak.RecountTraining and Streak.StreakRow.ApplyRecount.
- The supplement and public-config handlers and `AppConfig::from_env` are not modelled. They only read SQL and environment values.
- The integration tests call a live server and hold no logic to model.
- The two default grace-day values are both modelled as written. `streak.rs:84` inserts 1 (`Streak.DefaultGraceDays`); `user.rs:309-316` falls back to 2 (`UserApi.StatsGraceDays`).
- Pets.UnlockProgress: a type with an unknown unlock type reads "unlockable" although it never unlocks. This follows the code.

## Findings

| source | as written | input that shows it | evidently intended | confidence | as-written member | corrected member |
|---|---|---|---|---|---|---|
| src/api/streak.rs:213-235 | Saving a workout for an earlier date (streak.rs:490-505 passes the record date) gives a non-positive gap. That gap falls into the grace branch, so the streak is extended and `last_active_date` moves back to the earlier date. | row (current 5, best 5, last day 10, grace used 0), activity on day 5, grace 1: the streak and best become 6, grace used becomes -6 and the last day 5, so activity on day 11 restarts the streak at 1 | a date before the last active date leaves the streak unchanged | not executed | Streak.BackfillBreaksStreak | Streak.NextStreakIgnoringPast, used by Streak.StreakRow.RecordTraining, with Streak.IgnoringPastIsMonotone |
| src/api/dashboard.rs:82-92 | The heatmap loop advances with `succ_opt().unwrap_or(current_date)`. On chrono's last date `succ_opt` gives None, so the date stays put while `current_date <= end_date` still holds. | `year=262143`: December 31 of that year is `NaiveDate::MAX` in the chrono 0.4 releases, so the request never finishes | the loop stops after December 31 | low, not executed: the chrono release is not pinned in these sources, and the database layer may refuse that date before the loop | Dashboard.LastYearLoopsForever | Dashboard.BuildHeatmap, with Dashboard.HeatmapCoversRange |
| src/api/user.rs:531-536 | The display-name check compares `len()`, which counts UTF-8 bytes, with 20. The refusal says "Display name must be 1-20 characters". | "山田太郎左衛門": 7 characters, 21 bytes, refused | names of 1 to 20 characters are accepted | medium, not executed: the message may be loose wording for a byte limit | UserApi.KanjiNamesRefused | UserApi.DisplayNameFits, with UserApi.CharacterLimitExtendsByteLimit |

# NutriScan in Dafny

NutriScan is a mobile calorie diary. The user photographs a meal. An AI
provider names the food and estimates its calories and macros, and the
result can be edited and added to a local diary. The app also computes a
daily calorie target from the user's body data. Its screens show:

- today's totals and a greeting;
- a history grouped by day;
- a logging streak and a month calendar.

A build script keeps the Android version name and version code in step
with the package version.

This project models the deterministic core of that app and proves
properties of the model. Each source file is one Dafny module:

| module | source | what it holds |
|---|---|---|
| `AiService` (ai_service.dfy) | services/aiService.ts | the response cleaner, base-URL normalisation, the first-success race, the Gemini retry policy, the HTTP error classifier and the orchestrator |
| `MealQueries` (meal_queries.dfy) | shared list logic | filter, newest-first sort, replace and remove by id, group by date |
| `MealService` (meal_service.dfy) | services/mealService.ts | the `localStorage` diary as a class over a stored value |
| `MealStorage` (meal_storage.dfy) | hooks/useMealStorage.ts | the meal-store hook as a class with `meals`, `isLoaded` and the persisted value |
| `Nutrition` (nutrition.dfy) | services/nutritionService.ts | BMR, activity multiplier, goal adjustment and the gender floor |
| `Dashboard` (dashboard.dfy) | pages/Dashboard.tsx | macro totals, remaining calories, macro targets, greeting |
| `History` (history.dfy) | pages/History.tsx | date ordering, per-day sections, the edit merge and the screen's editing state |
| `ScanResult` (scan_result.dfy) | pages/ScanResult.tsx | the meal built from a scan, the food edit, the confidence badge, the chart values |
| `Camera` (camera.dfy) | pages/Camera.tsx | the resize arithmetic, the permission transitions, the constraint fallback, the capture and processing decisions |
| `Profile` (profile.dfy) | pages/Profile.tsx | the streak loop, the calendar loop, the progress clamp, the weight and body-data editors |
| `UpdateVersion` (update_version.dfy) | update-version.js | the version code and the first-match rewrites of `versionName` and `versionCode` |
| `Dates`, `JsStrings`, `JsNumbers`, `Seqs`, `Types`, `Wrappers` | — | calendar dates, the JavaScript string and number built-ins the core relies on, `Array.prototype.filter`, the record types of types.ts, `Option`/`Result` |

Modelling choices:

- **Dates.** A meal's `date` is an integer day number (days since 1970-01-01).
  `Dates.FormatDate` is the `YYYY-MM-DD` text the source compares.
  `Dates.FormatDateInjective` proves that comparing texts is comparing days.
- **Numbers.** Weights, calories and macros are `real`.
  `Math.round` is `Nutrition.RoundHalfUp`, which is `floor(x + 0.5)`.
- **Outside inputs.** Network replies, the SDK, `JSON.parse`, storage outcomes,
  permission answers, "today" and the hour are parameters.
- **The race.** The order in which the provider promises settle is a parameter.
  `promiseAny` is a loop over that order.
- **State.** State that the source updates in place is a class whose methods
  say exactly what they change:
  - the meal store;
  - the `localStorage` diary;
  - the editing states of the History, ScanResult, Profile and Camera screens;
  - the Android build file.

## Model

| member | source | states |
|---|---|---|
| AiService.StripFencesFenceFree | services/aiService.ts:8 | removing every three-backtick fence, with or without its "json" tag and newline, leaves no fence behind |
| AiService.StripFencesNoFence | services/aiService.ts:8 | a text without fences passes through the fence removal unchanged |
| AiService.CleanJsonString | services/aiService.ts:6-16 | a fence-free, trimmed reply without both braces passes through; with a '{' before a '}' the result runs from the first '{' to the last '}' of the unfenced reply |
| AiService.BraceSpanCases | services/aiService.ts:10-14 | the brace cut is the text itself when a brace is missing; otherwise it runs from the first '{' to the last '}'; with the braces reversed, `substring` swaps its bounds |
| AiService.BraceSpanEnds | services/aiService.ts:10-14 | with a '{' before a '}', the cut starts with '{', ends with '}', has length last − first + 1 and is a piece of the text |
| AiService.BraceSpanReversed | services/aiService.ts:10-14 | when the last '}' precedes the first '{', the swapped cut holds no brace at all |
| AiService.BraceSpanIdempotent | services/aiService.ts:10-14 | cutting twice is cutting once, unless the braces are reversed |
| AiService.CleanJsonFenceFree | services/aiService.ts:6-16 | the cleaned text never contains a fence |
| AiService.CleanJsonOfSpan | services/aiService.ts:6-16 | a fence-free text from '{' to '}' is already clean |
| AiService.CleanJsonIdempotent | services/aiService.ts:6-16 | cleaning a cleaned text changes nothing, unless the braces are reversed |
| AiService.CleanJsonOfFencedObject | services/aiService.ts:6-16 | an object inside a three-backtick "json" fence cleans to exactly that object |
| AiService.ParseResponseOfFencedObject | services/aiService.ts:18-25 | parsing a fenced object is parsing the object itself; a parse failure is `None`, never an exception |
| AiService.ParseResponse | services/aiService.ts:18-25 | the parser is handed the cleaned reply, which never holds a fence; its failure is `None` |
| AiService.DropTrailingSlashes | services/aiService.ts:29 | the result is a prefix of the input, everything cut off is '/', and it does not end in '/' |
| AiService.NormalizeBlankUrl | services/aiService.ts:27-35 | a URL of only white space is not empty, so it normalises to "" rather than to the default |
| AiService.NormalizeBaseUrl | services/aiService.ts:27-35 | an empty URL becomes "https://api.deepseek.com"; any other URL only loses characters |
| AiService.NormalizeSlashedBase | services/aiService.ts:27-35 | a base URL with any run of trailing slashes normalises to the bare base |
| AiService.NormalizePastedEndpoint | services/aiService.ts:27-35 | a pasted full endpoint, with or without trailing slashes, normalises to the same base as the base itself and yields the same endpoint |
| AiService.DropSlashRun | services/aiService.ts:29 | removing trailing slashes from a text plus a run of slashes gives back the text |
| AiService.Endpoint | services/aiService.ts:152-153 | the request URL is the normalised base URL followed by "/chat/completions", so it always ends with that path; with no base URL it is the default host's completions URL |
| AiService.PromiseAny | services/aiService.ts:38-61 | the loop over the settlements settles exactly as `RaceResult`: the empty-list error, the first fulfilment, or the rejection messages joined by "\n" |
| AiService.RaceOkIff | services/aiService.ts:38-61 | the race succeeds if and only if some task is fulfilled |
| AiService.RaceFirstSuccessWins | services/aiService.ts:38-61 | the earliest fulfilment in settlement order is the result, whatever settles after it |
| AiService.RaceAllRejected | services/aiService.ts:38-61 | when every task rejects, the error lists every message once, in settlement order, joined by "\n" |
| AiService.NoFulfilmentAllRejected | services/aiService.ts:48-58 | without a fulfilment every settlement is a rejection, and its message is collected at its own position |
| AiService.FirstFulfilledIsEarliest | services/aiService.ts:48-50 | the value kept is the one of the first fulfilled settlement |
| AiService.CallGeminiModel | services/aiService.ts:65-126 | a model call succeeds if and only if it generated non-empty text that parses; the value is the parsed food with the image and the model stamped |
| AiService.Stamped | services/aiService.ts:121-125 | stamping sets `image` to the data URL and `sourceModel` to the model, and keeps name, calories, confidence and macros |
| AiService.CallGemini | services/aiService.ts:128-147 | a primary success is returned without a retry; a primary error without "429", "RESOURCE_EXHAUSTED", "quota" or "Empty response" is reported as "Gemini Error: " with its first 100 characters; an error with one of them calls the fallback model once, whose success is returned, and when it also fails the report is "Gemini 识别失败: " with the first 50 characters of the primary error |
| AiService.CallGeminiReport | services/aiService.ts:128-147 | a success names the last model called; a failure starts with "Gemini Error: " or "Gemini 识别失败: " |
| AiService.GeminiEmptyReplyFallsBack | services/aiService.ts:111-116 | an empty primary reply triggers the fallback model |
| AiService.GeminiParseFailureNotRetried | services/aiService.ts:118-119 | an unparsable primary reply is reported at once with the 100-character cut and no fallback |
| AiService.GeminiFallbackWins | services/aiService.ts:135-140 | a quota-like primary error followed by a fallback success returns the fallback's food, stamped with the fallback model |
| AiService.FallbackOnTriggerWord | services/aiService.ts:137 | an error holding "429", "RESOURCE_EXHAUSTED", "quota" or "Empty response" anywhere, case-sensitively, triggers the fallback |
| AiService.NoFallbackWithoutLeadChars | services/aiService.ts:137 | an error with none of the letters '4', 'R', 'q' and 'E' never triggers the fallback |
| AiService.GeminiBothFail | services/aiService.ts:141-143 | when both fail, the report keeps exactly the first 50 characters of the primary's error (all of it when shorter), after both models were called |
| AiService.HttpErrorClassified | services/aiService.ts:193-217 | each failing status selects exactly one failure kind (key, balance, forbidden, path, no vision, other), and the message is that kind's |
| AiService.HttpErrorMessage | services/aiService.ts:193-216 | the message for a failing status is the message of the failure kind that status, body and model select |
| AiService.ChatResult | services/aiService.ts:219-239 | a 2xx body succeeds if and only if it is JSON with a non-empty first choice that parses; the value is stamped with the model and image |
| AiService.CallOpenAI | services/aiService.ts:151-243 | a thrown `fetch` error fails with its message; a non-2xx status fails with the classified HTTP message built from the body, its detail and the model; a 2xx body gives `ChatResult` of the decoded body; so a success means a 2xx answer from the normalised endpoint, carrying the configured model and the image |
| AiService.FirstSet | services/aiService.ts:256-257 | the setting is the process variable when set, else the build variable when set, else the default |
| AiService.ResolvedModel | services/aiService.ts:257 | the model name is never empty |
| AiService.ProviderCalls | services/aiService.ts:262-272 | one call per eligible provider (`GeminiEligible`: a Gemini key longer than 5 characters without "AIzaSy..."; `OpenAIEligible`: an OpenAI key longer than 5 characters), with Gemini first when eligible |
| AiService.StartProviders | services/aiService.ts:259-272 | the attempted labels match the calls one for one: "Gemini" and "OpenAI(model)" |
| AiService.SettleOrder | services/aiService.ts:280-281 | the settlement order is a permutation of the provider outcomes |
| AiService.IdentifyFood | services/aiService.ts:247-289 | with no eligible key it fails with the no-key message before any call; otherwise it reports the race over the providers' outcomes |
| AiService.IdentifySucceedsIff | services/aiService.ts:280-288 | identification succeeds if and only if some provider succeeds, and its value is one provider's result, in either settlement order |
| AiService.AggregateFailure | services/aiService.ts:284-287 | the total-failure message always starts with "所有模型识别失败:\n- " |
| AiService.AggregateListsMessages | services/aiService.ts:284-287 | for one-line provider messages, the non-blank ones come out one per bullet, in order, and blank ones are dropped; when every message is blank, the joined text is kept as it is |
| AiService.AllFailedReport | services/aiService.ts:280-288 | when every provider fails with a one-line message, the report is the prefix followed by the non-blank messages joined by "\n- " (the joined messages as they are when all are blank) |
| MealQueries.SortNewestFirst | services/mealService.ts:62 | the sort returns a permutation of its input ordered by non-increasing timestamp |
| MealQueries.SumSortNewestFirst | hooks/useMealStorage.ts:115-119 | sorting does not change the calorie sum |
| MealQueries.TodayMeals | services/mealService.ts:59-63 | today's meals are exactly the meals dated today, newest first |
| MealQueries.TodayMealsExact | services/mealService.ts:62 | every listed meal is dated today, and every meal dated today is listed |
| MealQueries.TodayMealsAddUp | hooks/useMealStorage.ts:109-119 | the sorted list and the unsorted filter have the same calorie total |
| MealQueries.SumCaloriesAppend | services/mealService.ts:77-79 | the calorie sum of a concatenation is the sum of the sums |
| MealQueries.ReplaceById | hooks/useMealStorage.ts:87-90 | the update keeps length and order, replaces every meal with the id, and leaves every other meal alone |
| MealQueries.ReplaceKeepsIds | hooks/useMealStorage.ts:87-90 | the ids are unchanged by an update |
| MealQueries.ReplaceIdempotent | hooks/useMealStorage.ts:87-90 | applying the same update twice is applying it once |
| MealQueries.RemoveByIdExact | hooks/useMealStorage.ts:93-96 | removal drops every meal with the id and keeps every other meal as often as before |
| MealQueries.RemoveById | hooks/useMealStorage.ts:93-96 | a meal survives removal if and only if it was in the list and has another id |
| MealQueries.RemoveUndoesAdd | hooks/useMealStorage.ts:81-96 | removing a freshly added meal with a new id restores the previous list |
| MealQueries.GroupByDate | services/mealService.ts:65-75 | the loop puts every meal in the bucket of its date, in input order, makes no empty bucket, and lists each key once, ordered by the position of the first meal of that date |
| MealQueries.GroupNewDate | services/mealService.ts:69-72 | a meal with an unseen date opens a bucket holding just that meal |
| MealQueries.GroupKnownDate | services/mealService.ts:72 | a meal with a known date is appended to its bucket |
| MealService.InferMealType | services/mealService.ts:81-86 | hours 5–10 are breakfast, 11–14 lunch, 17–21 dinner, and every other hour a snack, each if and only if |
| MealService.CalculateDailyCalories | services/mealService.ts:77-79 | the total is the calorie sum: 0 for no meals, and adding a meal adds its calories |
| MealService.ServiceSeed | services/mealService.ts:15-36 | the seed holds two meals, both dated the load day |
| MealService.ReadMealsStable | services/mealService.ts:38-51 | the seeding happens at most once, and a second read returns what the first returned |
| MealService.ReadMeals | services/mealService.ts:38-51 | a stored list is returned as it is; otherwise the result is either no meals or the seed that the read also stored |
| MealService.LocalMealDb.GetMeals | services/mealService.ts:38-51 | nothing stored: the seed is written and returned; stored meals are returned; an unreadable value gives [] |
| MealService.LocalMealDb.AddMeal | services/mealService.ts:38-57 | the seeding write inside `getMeals` and the final write may fail separately: a successful final write stores the new meal followed by what the read returned (the seed only if seeding succeeded); a failed one fails the call and leaves storage as the read left it |
| MealService.LocalMealDb.GetTodayMeals | services/mealService.ts:59-63 | the read meals dated today, newest first |
| MealService.LocalMealDb.GetHistory | services/mealService.ts:65-75 | the read meals grouped by date |
| MealService.AddToUnreadableKeepsOnlyNew | services/mealService.ts:53-57 | adding to an unreadable diary overwrites it with the new meal alone |
| MealService.AddToMissing | services/mealService.ts:38-57 | adding when nothing is stored puts the new meal in front of the seed, or stores it alone when the seeding write failed |
| MealStorage.StoreSeed | hooks/useMealStorage.ts:17-40 | the hook's seed is two meals dated the load day, both with macros |
| MealStorage.SeedsAgreeButMacros | hooks/useMealStorage.ts:17-40 | the two seeds agree on every field except the macros, which only the hook's seed has |
| MealStorage.MealStore.constructor | hooks/useMealStorage.ts:43-44 | the store starts empty and not loaded |
| MealStorage.MealStore.Load | hooks/useMealStorage.ts:47-61 | stored meals are loaded; a missing value is seeded; a failed read or seed keeps the list; `isLoaded` becomes true in every case |
| MealStorage.MealStore.Save | hooks/useMealStorage.ts:68-78 | the list and the stored value change together, and only after a successful write, whether or not the store has loaded |
| MealStorage.MealStore.Add | hooks/useMealStorage.ts:81-84 | the new meal goes first and the rest stay in order, in memory and in storage; on a store whose load has not run the stored diary is replaced by the new meal alone |
| MealStorage.MealStore.Update | hooks/useMealStorage.ts:87-90 | after a successful write the list and the stored value both become `ReplaceById` of the old list; a failed write changes neither |
| MealStorage.MealStore.Remove | hooks/useMealStorage.ts:93-96 | after a successful write the list and the stored value both become `RemoveById` of the old list; a failed write changes neither |
| MealStorage.MealStore.Clear | hooks/useMealStorage.ts:99-106 | a successful removal leaves the store and its storage empty; a failed one changes nothing |
| MealStorage.MealStore.GetTodayMeals | hooks/useMealStorage.ts:109-112 | a permutation of the meals dated today, newest first |
| MealStorage.MealStore.GetDailyCalories | hooks/useMealStorage.ts:115-119 | today's calories equal the sum over the listed meals of the day |
| MealStorage.AddBeforeLoad | hooks/useMealStorage.ts:43-84 | an add on a fresh store before its load has run leaves storage and memory holding only the new meal, whatever diary was stored |
| MealStorage.AddedMealCounted | hooks/useMealStorage.ts:81-84 | adding a meal dated today raises today's total by its calories; any other meal leaves the total alone |
| MealStorage.RemoveThenReplaceNoop | hooks/useMealStorage.ts:87-96 | an update that arrives after its meal was removed does not bring it back |
| Nutrition.RoundHalfUp | services/nutritionService.ts:57 | the rounded value is within half a unit of the input, with halves going up |
| Nutrition.BmrGenderGap | services/nutritionService.ts:12-18 | `Bmr`, the Mifflin-St Jeor rate: a male BMR exceeds the female BMR of the same body by exactly 166 |
| Nutrition.BmrMonotone | services/nutritionService.ts:12-18 | `Bmr` grows with weight and height and falls with age |
| Nutrition.ActivityMultiplier | services/nutritionService.ts:21-38 | the multipliers are 1.2, 1.375, 1.55, 1.725 and 1.9 from sedentary to very active, and 1.2 only for sedentary |
| Nutrition.MultiplierIncreasing | services/nutritionService.ts:21-38 | a more active level has a strictly larger multiplier |
| Nutrition.GoalAdjustment | services/nutritionService.ts:44-52 | −500 if and only if the goal is more than 0.5 below current, +300 if and only if more than 0.5 above, 0 otherwise |
| Nutrition.MinCalories | services/nutritionService.ts:55 | the floor is 1500 kcal for a man and 1200 kcal for a woman |
| Nutrition.CalorieTarget | services/nutritionService.ts:40-58 | the target is the larger of the gender floor and the rounded raw target |
| Nutrition.TargetAboveFloor | services/nutritionService.ts:55-57 | above the floor, the target is the raw target rounded |
| Nutrition.MaintenanceTarget | services/nutritionService.ts:40-52 | within half a kilogram of the goal, the raw target is BMR times the multiplier |
| Nutrition.LoseVersusGain | services/nutritionService.ts:48-52 | a gain goal allows exactly 800 kcal more than a loss goal |
| Nutrition.TargetMonotoneInActivity | services/nutritionService.ts:21-57 | for a positive BMR, raising the activity level never lowers the target |
| Nutrition.GetActivityLabel | services/nutritionService.ts:60-69 | an unknown level reads as the sedentary label |
| Nutrition.LabelsDistinct | services/nutritionService.ts:60-69 | the five levels have five different labels |
| Dashboard.MacroTotalsAreSums | pages/Dashboard.tsx:41-47 | each total of `MacroTotals` is the sum over the meals, counting missing macros as 0 |
| Dashboard.TotalsOfSwap | pages/Dashboard.tsx:41-47 | the totals do not depend on the order of the meals |
| Dashboard.Remaining | pages/Dashboard.tsx:61 | remaining is never negative, and consumed plus remaining is the larger of consumed and target |
| Dashboard.RemainingShrinks | pages/Dashboard.tsx:61 | eating more never raises the remaining calories, and remaining is 0 once the target is reached |
| Dashboard.DailyTarget | pages/Dashboard.tsx:25-32 | 1800 until the user is loaded, then the user's computed calorie target, and never below 1200 |
| Dashboard.MacroTargets | pages/Dashboard.tsx:75-77 | each gram target is the rounded quarter, 45 % and 30 % share of the calories, divided by 4, 4 and 9 kcal per gram |
| Dashboard.MacroTargetsEnergy | pages/Dashboard.tsx:75-77 | the energy of the three gram targets is within 8.5 kcal of the calorie target |
| Dashboard.Greeting | pages/Dashboard.tsx:52-59 | each hour gets exactly one greeting: morning 5–10, noon 11–12, afternoon 13–17, evening otherwise |
| History.SortDatesDesc | pages/History.tsx:31 | the dates come out strictly descending and are a permutation of the keys |
| History.SortedDatesSameSet | pages/History.tsx:31 | sorting keeps the same dates and their number |
| History.Section | pages/History.tsx:96 | a day's section is a permutation of its meals, newest first |
| History.HistoryView | pages/History.tsx:20-31 | every logged date is listed once, newest first, each with its non-empty section of that date's meals |
| History.SortedDates | pages/History.tsx:20-31 | the headers are exactly the logged dates, in descending order |
| History.SectionsNonEmpty | pages/History.tsx:20-28 | no section is empty |
| History.EditorData | pages/History.tsx:71-75 | the editor receives name and calories, and zero macros when a meal has none |
| History.EditedMeal | pages/History.tsx:49-56 | an edit replaces name, calories and macros and keeps every other field |
| History.UntouchedEdit | pages/History.tsx:49-75 | saving the editor unchanged changes nothing, except that missing macros become zeros |
| History.EditKeepsIdentity | pages/History.tsx:49-57 | after an edit the meal keeps its id, date, time, type, image and timestamp in the store |
| History.HistoryScreen.StartEditing | pages/History.tsx:99 | a click selects the meal for editing |
| History.HistoryScreen.HandleEditSave | pages/History.tsx:49-60 | with a meal selected, the store's list and stored value receive the merged meal (both unchanged when the write fails) and the editor closes; without one nothing changes |
| ScanResult.MealFromScan | pages/ScanResult.tsx:41-63 | the new meal takes the name or "未知食物", the calories or 0, the macros or zeros, the image unchanged, the type from the hour and the date, time and timestamp of the first clock reading, and an id that parses back to the second clock reading |
| ScanResult.ScannedMealCountsToday | pages/ScanResult.tsx:41-65 | adding the scanned meal raises today's total by its calories |
| ScanResult.UpdateFood | pages/ScanResult.tsx:70-80 | an edit changes name, calories and macros and keeps confidence, image and model |
| ScanResult.EditedScanToMeal | pages/ScanResult.tsx:41-80 | a meal built after an edit carries the edited name, calories and macros |
| ScanResult.ConfidenceLabel | pages/ScanResult.tsx:9-13 | High, Medium and Low are shown as "高", "中" and "低"; any other non-empty value as it is; a missing one as "中" |
| ScanResult.KnownLevelsDistinct | pages/ScanResult.tsx:9-13 | High, Medium and Low have three different labels |
| ScanResult.ChartValues | pages/ScanResult.tsx:82-87 | three values: the macros, or zeros when missing |
| ScanResult.ScanResultScreen.HandleUpdateFood | pages/ScanResult.tsx:70-80 | the shown food takes the edit and the editor closes |
| ScanResult.ScanResultScreen.HandleAddToDiary | pages/ScanResult.tsx:41-68 | the store gains the meal built from the scan at its head, in memory and in storage, whether or not it has loaded, and saving ends |
| Camera.ResizeDims | pages/Camera.tsx:114-129 | sides at most 1024 are kept; otherwise the longer side becomes 1024 and the other is scaled and rounded; both results are at most 1024 |
| Camera.ScaledBelowMax | pages/Camera.tsx:119-128 | the scaled shorter side never rounds above 1024 |
| Camera.ResizeKeepsPositive | pages/Camera.tsx:114-129 | a positive frame keeps non-negative sides |
| Camera.PermissionAfterCheck | pages/Camera.tsx:32-52 | off-native it is granted; a granted check grants; otherwise the request decides; an exception denies |
| Camera.NextAfter | pages/Camera.tsx:144-159 | a result leads to the result screen and an error to an alert with "分析失败: " and the message |
| Camera.CameraScreen.constructor | pages/Camera.tsx:15-17 | loading, not streaming, not processing, no stream |
| Camera.CameraScreen.CheckAndRequestPermission | pages/Camera.tsx:32-52 | the permission becomes `PermissionAfterCheck` and nothing else changes |
| Camera.CameraScreen.ManualRequestPermission | pages/Camera.tsx:54-67 | an answer sets granted or denied; an exception leaves the state alone |
| Camera.CameraScreen.StopStream | pages/Camera.tsx:69-75 | the stream is released and streaming stops |
| Camera.CameraScreen.StartStream | pages/Camera.tsx:77-112 | the first accepted constraint set, in order, is kept, if the video element exists; none is kept if and only if all are refused or there is no video; streaming starts when playback does |
| Camera.CameraScreen.ProcessImage | pages/Camera.tsx:144-159 | the outcome is `NextAfter` of the recognition result, and processing is off afterwards |
| Camera.CameraScreen.HandleCapture | pages/Camera.tsx:161-186 | ignored while processing; without a stream or a frame size it opens the file picker; otherwise it submits the resized frame |
| Profile.StreakStart | pages/Profile.tsx:52-72 | the streak starts at today if logged, else at yesterday if logged, else there is none |
| Profile.CurrentStreak | pages/Profile.tsx:49-82 | the loop returns 0 without a start; otherwise the length of the maximal run of logged days ending at the start, at least 1 and at most the number of logged dates |
| Profile.StreakUnique | pages/Profile.tsx:74-79 | the maximal run from a start has only one length |
| Profile.RunWithinLogged | pages/Profile.tsx:74-79 | a run of logged days is no longer than the number of logged dates |
| Profile.CalendarCell | pages/Profile.tsx:94-100 | each cell carries its day, its date text, whether a meal is logged that day and whether it is today |
| Profile.CalendarData | pages/Profile.tsx:85-103 | the loop yields one cell per day of the month in order, and the weekday of the first day |
| Profile.OneTodayPerMonth | pages/Profile.tsx:99 | at most one cell of a month is marked today |
| Profile.ProgressPercent | pages/Profile.tsx:200-202 | the progress lies between 0 and 100 and is undefined only when start, goal and current are all equal |
| Profile.ProgressEnds | pages/Profile.tsx:200-202 | the progress is 0 at the start weight and 100 at the goal weight |
| Profile.ProgressMonotone | pages/Profile.tsx:200-202 | when losing weight, a lower current weight never shows less progress |
| Profile.WithWeight | pages/Profile.tsx:161-167 | a weight save changes the chosen weight and nothing else |
| Profile.FormForReadsBack | pages/Profile.tsx:173-181 | the opened body-data form reads back as the profile, with 25 and 165 in place of a zero age or height |
| Profile.ApplyBodyForm | pages/Profile.tsx:183-198 | a form whose age and height do not both parse to positive numbers leaves the profile unchanged; an accepted form sets exactly gender, age, height and activity from it |
| Profile.OpenAndSaveFillsDefaults | pages/Profile.tsx:173-198 | opening and saving the form unchanged only fills in the default age and height |
| Profile.ProfileScreen.OpenWeightModal | pages/Profile.tsx:152-159 | the editor opens on the chosen weight |
| Profile.ProfileScreen.SaveWeight | pages/Profile.tsx:161-170 | a positive value replaces the edited weight, or the current weight when none is recorded; the editor always closes |
| Profile.ProfileScreen.OpenBodyDataModal | pages/Profile.tsx:173-181 | the form opens with the profile's values and defaults |
| Profile.ProfileScreen.SaveBodyData | pages/Profile.tsx:183-198 | the profile becomes `ApplyBodyForm` of the form, so it is unchanged unless both numbers are positive, and the editor always closes |
| Dates.DaysInMonth | pages/Profile.tsx:88 | a month has 30 days exactly for April, June, September and November, 29 for a leap February, 28 for any other February, and 31 otherwise |
| Dates.NextDayInMonth | pages/Profile.tsx:94-96 | the next day of a month has the next day number |
| Dates.Weekday | pages/Profile.tsx:89 | the weekday lies in 0..6 |
| Dates.WeekdayNext | pages/Profile.tsx:89 | consecutive day numbers have consecutive weekdays, Saturday followed by Sunday, and the weekday repeats every seven days |
| Dates.EpochWeek | pages/Profile.tsx:89 | 1970-01-01 is day 0 and a Thursday, and 1970-01-04 a Sunday |
| Dates.YearLength | pages/Profile.tsx:88 | a March-to-February year has 366 days when its February is a leap February and 365 otherwise |
| Dates.MonthLength | pages/Profile.tsx:88-89 | from January to November, the first of the next month is as many days after the first of this month as this month is long |
| Dates.YearTurn | pages/Profile.tsx:88-89 | the first of January is 31 days after the first of the previous December |
| Dates.DayInMonth | pages/Profile.tsx:94-96 | the day number of a date is its month's first day number plus the day minus one |
| Dates.LaterMonthStartsAfter | pages/Profile.tsx:94-96 | every later month starts after the last day of an earlier month |
| Dates.DayNumberInjective | pages/Profile.tsx:94-98 | two valid dates with the same day number are the same date |
| Dates.FormatDateLayout | services/mealService.ts:6-12 | the text of `FormatDate` ends in "-MM-DD" with two zero-padded digits that read back as month and day |
| Dates.FormatDateInjective | pages/Profile.tsx:41-46 | two valid dates with the same text are the same date |
| Dates.PaddedTwoDigits | pages/Profile.tsx:43-44 | a number below 100 pads to two digits that read back as the number |
| JsStrings.Trim | services/aiService.ts:8 | the trimmed text is a piece of the input without white space at either end |
| JsStrings.TrimIdempotent | services/aiService.ts:29 | trimming twice is trimming once |
| JsStrings.IndexOf | services/aiService.ts:10 | the first position of the character, or −1 when it is absent |
| JsStrings.LastIndexOf | services/aiService.ts:11 | the last position of the character, or −1 when it is absent |
| JsStrings.IndexOfString | services/aiService.ts:32 | the first occurrence of the text, or −1 |
| JsStrings.ContainsIff | services/aiService.ts:137 | `includes` holds if and only if the text occurs at some position |
| JsStrings.Take | services/aiService.ts:142-145 | `substring(0, n)` is the prefix of length min(n, length) |
| JsStrings.SplitJoin | services/aiService.ts:55 | splitting a join on a separator that no part contains gives back the parts |
| JsStrings.JoinSplit | services/aiService.ts:284 | joining a split with its separator gives back the text |
| JsStrings.PadStart2 | services/mealService.ts:9-10 | `padStart(2, '0')` keeps the text at its end and fills with zeros to two characters |
| JsStrings.ToLowerAscii | services/aiService.ts:201 | lower-casing maps 'A'..'Z' to 'a'..'z' and keeps everything else |
| JsNumbers.NatToString | services/mealService.ts:8-11 | a number's text is one or more digits |
| JsNumbers.ParseIntOfString | pages/Profile.tsx:185-186 | `ParseInt` (`parseInt`) reads back any integer's text |
| JsNumbers.ParseIntOfNat | update-version.js:11 | `parseInt` reads back a natural number's digits |
| Seqs.Filter | hooks/useMealStorage.ts:94 | the kept elements are exactly those satisfying the test |
| Seqs.FilterAppend | hooks/useMealStorage.ts:94 | filtering distributes over concatenation, so the order is kept |
| Seqs.FilterMultiset | hooks/useMealStorage.ts:94 | each kept element keeps its count, and each dropped one has count 0 |
| Seqs.FilterIdempotent | services/aiService.ts:284 | filtering twice is filtering once |
| UpdateVersion.VersionParts | update-version.js:11 | one part per dot-separated piece |
| UpdateVersion.PartsOfTriple | update-version.js:11-14 | "a.b.c" splits into the three numbers |
| UpdateVersion.VersionCodeOfTriple | update-version.js:9-16 | `VersionCode` of "a.b.c" is a·10000 + b·100 + c |
| UpdateVersion.VersionCodeExample | update-version.js:10 | "2.0.2" gives 20002 |
| UpdateVersion.VersionCodeInjective | update-version.js:16 | with minor and patch below 100, different versions get different codes |
| UpdateVersion.AttemptNameIff | update-version.js:26 | a `versionName` match at a position is exactly the key, optional white space and '=', and a quoted run without quotes closed by the same quote |
| UpdateVersion.AttemptCodeIff | update-version.js:46 | a `versionCode` match at a position is exactly the key, optional white space and '=', and a maximal run of digits |
| UpdateVersion.SearchIs | update-version.js:28-29 | the first match starts at the first position where the pattern matches |
| UpdateVersion.SearchMissesBefore | update-version.js:28-29 | no position before the first match matches |
| UpdateVersion.First | update-version.js:29-31 | a name match is quoted at both ends by the same quote character |
| UpdateVersion.NameStep | update-version.js:26-42 | the text changes if and only if the first name differs from the version; only the text between its quotes is replaced, so the key and quote kind stay |
| UpdateVersion.CodeStep | update-version.js:46-61 | the text changes if and only if the first code's value differs; only its digits are replaced |
| UpdateVersion.NameStepSettles | update-version.js:33-34 | after the name step the first name reads the version |
| UpdateVersion.CodeStepSettles | update-version.js:52-53 | after the code step the first code reads the computed code |
| UpdateVersion.CodeStepKeepsName | update-version.js:46-61 | the code step does not disturb an already settled name |
| UpdateVersion.Sync | update-version.js:20-66 | the script changes the file if and only if the name or the code is not yet in step |
| UpdateVersion.SyncSettles | update-version.js:20-66 | after one run both name and code are in step |
| UpdateVersion.SyncIdempotent | update-version.js:20-66 | a second run changes nothing |
| UpdateVersion.AndroidProject.SyncVersion | update-version.js:19-69 | without a build file nothing happens; otherwise the file becomes the synced text and is written only when it changed |
| UpdateVersion.SyncTwice | update-version.js:63-66 | running the script twice writes the file at most once |

## Left out

- Network and SDK calls (`fetch`, `GoogleGenAI.generateContent`), request bodies, prompts, headers and safety settings: replies are abstract values passed in, because no checkable logic lives in them.
- `JSON.parse` and `JSON.stringify`: parsing is a parameter returning an `Option`, because a JSON parser is outside the core.
- Concurrency in `promiseAny`: the settlement order is a parameter, and interleavings and timing are not modelled.
- Storage I/O (`localStorage`, Capacitor `Preferences`) and the React hook and effect machinery: a storage outcome is a value or a success flag passed in, and the store is a class field.
- Canvas, video and file work (`getUserMedia`, `drawImage`, `toDataURL`, `FileReader`, JPEG encoding): only the dimension and capture decisions are modelled.
- `handleFileChange` in pages/Camera.tsx: it reads a picked file and calls the same resize and `processImage` that are modelled.
- The avatar resize and the name and avatar editor in pages/Profile.tsx: unrounded float arithmetic on a canvas, with no checkable outcome.
- Locale and time zone (`toLocaleDateString`, `toLocaleTimeString`, the month name): "today", the hour and the clock text are parameters.
- History's `getRelativeDate`: it compares local date keys against UTC `toISOString` dates, so its result depends on the time zone, which is not modelled.
- History's `handleDelete`: the `confirm` dialog is a side effect; the deletion itself is `MealStorage.MealStore.Remove`.
- Profile's `changeMonth` and month navigation: the calendar takes the viewed year and month as parameters.
- `alert`, `confirm` and console logging: user-facing side effects with no state.
- IEEE-754 behaviour: numbers are `real`, so NaN, Infinity and float rounding are not modelled, including `progressPercent` when start equals goal, which `Profile.ProgressPercent` returns as `None`.
- `parseFloat` in `saveWeight`: the parsed value is a parameter, because JavaScript float parsing is not modelled.
- `parseInt` on texts with more digits than a double holds exactly: integers are unbounded.
- JsNumbers.ParseInt reads decimal digits only: `parseInt` without a radix (the age and height fields in pages/Profile.tsx) reads a "0x" prefix as hexadecimal, which a number input does not produce.
- ScanResult.ConfidenceLabel: the `CONFIDENCE_MAP` lookup is modelled over its own three keys only; a confidence that names an inherited object member ("toString", "constructor", "__proto__") would find that member in the source, and the model shows the text instead.
- `toLowerCase` beyond ASCII: `JsStrings.ToLowerAscii` lowers only 'A'..'Z', which covers the words the classifier looks for.
- UTF-16: `length` and `substring` count Dafny characters, not UTF-16 code units.
- components/EditMealModal.tsx and hooks/useUserStorage.ts are not part of this model: the modal only coerces text with `parseFloat(x) || 0`, and the user store is persistence glue. The editor's output is a `NutritionData` parameter, and the profile is a field of `Profile.ProfileScreen`.
- `gender` and `activityLevel` are typed values, so a stored profile without them does not occur; only a zero age or height reaches the body-data defaults.
- The replacement texts of `versionName` and `versionCode` are inserted literally: a version containing `$` patterns, which `String.prototype.replace` would expand, is not modelled.
- UpdateVersion.SyncSettles, UpdateVersion.SyncIdempotent and UpdateVersion.SyncTwice require a version without quotes that does not mention `versionCode` and whose code is not negative; for other versions a rewrite can create or hide a match, and the script gives no guarantee there.
- MealStorage.MealStore.GetTodayMeals, MealQueries.TodayMeals and History.Section state order and contents but not where meals with equal timestamps end up relative to each other, which `Array.prototype.sort`'s stability decides.
- MealStorage.MealStore: whole operations run one after another, so the interleavings of the asynchronous load with a concurrent add are not modelled; `MealStorage.AddBeforeLoad` shows the order in which the add completes first.

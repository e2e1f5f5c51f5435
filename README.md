# ForraNova study app: a Dafny model of its rules

ForraNova is a browser study companion. It keeps its files, lesson notes and
student profile in IndexedDB, and it builds quizzes and a three-phase final
exam from the student's notes. A second page (`www/app.js`) runs a small
tutor. That tutor tracks per-subject mastery, experience points and a
preferred speech voice.

This project models the sequential rules under the interface:

- **`NeuralDB`** (`persistence.dfy`) wraps the database "ForraNovaVault"
  at version 1.
  - `init` creates the `vault` and `gallery` stores, each keyed on `id`,
    and only when they are missing.
  - Every operation opens the database lazily.
  - `save` is an upsert. It gives a record with a falsy id the current time
    as its id.
  - `getAll` lists a store in IndexedDB key order.
  - `delete` removes the key `Number(id)`.
  - The pure functions `SaveOp`, `GetAllOp` and `DeleteOp` give the meaning
    of each operation. The class `NeuralDB` changes its fields in place and
    is proved to agree with them.
- **`NeuralStudio`** (`studio.dfy`): how a vault file is named, and how
  `currentOpenedId` follows saves, deletes and closing the editor.
- **`QuantumCalc.runBaseN`** (`calc.dfy`): a decimal integer shown in
  binary, upper-case hexadecimal and octal.
- **`QuizEngine.generateQuestions`** and **`NeuralQuiz.submitScore`**
  (`quiz.dfy`): questions drawn from the text, and the mastery points and
  level-up that are saved as the profile.
- **`AIGenerator.generateFullExam`** (`examgen.dfy`): the exam built from
  the vault's lesson notes.
- **`ExamEngine`** and **`getStanding`** (`exam.dfy`): the phase machine,
  and the band a grade falls in.
- **`NeuralAnalytics.refreshData`** (`analytics.dfy`): per-subject tallies
  and capped bars.
- **The tutor state of `www/app.js`** (`tutor.dfy`): `updateMastery`,
  `grantXP`, `loadVoices`, and the guard and updates of `processQuery`.

Two support modules hold what these rules use from JavaScript:

- `text.dfy` has `trim`, `toLowerCase`, `includes`, `indexOf`, `replace`,
  `split`, `join` and `filter` on strings.
- `filters.dfy` has a reference `Array.prototype.filter`, proved to keep
  order and repetitions; the app's filters are proved equal to it.
- `numerals.dfy` has `parseInt(s, 10)`, `Number(s)` and `toString(radix)`.

`wrappers.dfy` holds `Option`, `Result` and `Outcome`.

Where the store's intended contract and its code differ, the model follows
the code:

- A delete of an absent id is meant to succeed with no change. In the code,
  `delete` passes `Number(id)` to IndexedDB. A string id that is not a
  number, such as "missing-id" or "a.txt", is NaN. IndexedDB rejects it
  with `DataError`, so the promise rejects.
- A save is meant to fail on an aborted transaction. In the code, the
  promises of `save`, `getAll` and `delete` reject only when something
  throws synchronously: a store that does not exist (`NotFoundError`), a NaN
  key (`DataError`), or a failing open (`VersionError`).
- A read-one operation is described, but the code defines none.
  `NeuralDB.get` is called and never defined.
- Overlapping `init` calls are meant to coalesce. The code does not
  coalesce them, and the model runs operations one after another.

## Model

| member | source | states |
|---|---|---|
| Text.Trim | app.js:551 | the trimmed text has no white space at either end, is no longer than the input and occurs in it |
| Text.IndexOf | app.js:2842 | the result is the first index where the pattern occurs, or None exactly when it occurs nowhere |
| Text.ContainsIff | www/app.js:211 | `includes` holds exactly when the pattern occurs at some index |
| Text.ContainsTransitive | app.js:2839 | a piece of a piece of a string occurs in the string |
| Text.ToLowerIdempotent | app.js:2848 | lower-casing twice is lower-casing once, and leaves no upper-case ASCII letter |
| Text.Split | app.js:1928 | `split` on a set of separators gives at least one piece, and no piece holds a separator |
| Text.SplitCount | app.js:1928 | there is one piece more than there are separators |
| Text.SplitPiecesOccur | app.js:2839 | the first piece is a prefix of the string, and every piece occurs in it |
| Text.JoinSplitOn | app.js:2834 | joining the pieces of a split on a set of separators with one of them gives back the string with every separator replaced by that one; as no piece holds a separator, this fixes each piece as a run between separators |
| Text.JoinSplit | app.js:2839 | joining the pieces of a split on one character with that character gives back the string |
| Filters.Filter | app.js:1928 | `filter` keeps exactly the elements the test accepts and adds none |
| Filters.KeptFrom | app.js:1928 | the accepted indices from a bound on, strictly ascending, each accepted and every accepted one listed |
| Filters.FilterKeepsOrder | app.js:1928 | the k-th element `filter` keeps is the element at the k-th accepted index: order and repetitions are kept |
| Text.LongerThan | app.js:1928 | the pieces whose trimmed length exceeds the bound, all of them, in their order with their repetitions: the reference `Filter` with that test |
| Text.LongSentences | app.js:2834 | every sentence kept holds no '.', '!' or '?' and is longer than the bound once trimmed; every such piece of the split is kept, in order: the reference `Filter` over the split |
| Numerals.DigitsRoundTrip | app.js:813-815 | the digits `toString(radix)` writes for a natural number are digits of the radix and denote that number |
| Numerals.ToRadixRoundTrip | app.js:813-815 | the numeral `toString(radix)` writes, sign included, denotes the integer it was given |
| Numerals.ValueInUpper | app.js:814 | upper-casing a numeral does not change the integer it denotes |
| Numerals.DecimalPrefix | app.js:811 | `parseInt` reads the longest run of decimal digits at the front and stops at the first non-digit |
| Numerals.ParseIntOfDecimal | app.js:811 | `parseInt` of the decimal numeral of n is n |
| Numerals.NumberOfDecimal | app.js:1515 | `Number` of the decimal numeral of n is n, so a numeric key passed back as text converts back |
| Numerals.NamedIdIsNaN | app.js:1515 | a string holding a character that is not a digit, sign or white space is NaN to `Number` |
| Persistence.KeyLessIsStrictTotalOrder | app.js:1504 | the IndexedDB key order (numbers first by value, then strings character by character) is irreflexive, transitive and total |
| Persistence.LeastKeyExists | app.js:1504 | every non-empty set of keys has a least key |
| Persistence.WithId | app.js:1494 | a falsy id (absent, 0 or "") is replaced by the time as a numeric key; a truthy id is kept as is |
| Persistence.Put | app.js:1495 | `put` stores the record under its id, replacing any earlier one, and every other key keeps its record |
| Persistence.Remove | app.js:1515 | `delete` fails exactly when `Number(id)` is NaN; otherwise only the key `Number(id)` is removed |
| Persistence.ListInKeyOrder | app.js:1504-1505 | `getAll` lists every record of the store once, each under its own key, in ascending key order |
| Persistence.Upgrade | app.js:1473-1478 | the upgrade adds `vault` and `gallery` only when missing, and every existing store keeps its contents |
| Persistence.OperationsKeepWellFormed | app.js:1476-1477 | after save, getAll or delete, every record is still stored under its own id, and an open connection is at version 1 |
| Persistence.InitOnlyWhenDisconnected | app.js:1470-1485 | an operation opens the database only when no connection is held; the open fails only on a newer on-disk version; the stores already on disk survive |
| Persistence.SaveIsUpsert | app.js:1488-1498 | after a save, the store maps the record's id to the record; every other key and every other store is unchanged |
| Persistence.SaveTwiceSecondWins | app.js:1495 | two saves under one truthy id leave one record with that id, the second |
| Persistence.SaveThenGetAll | app.js:1501-1508 | a later `getAll` on the store lists the saved record |
| Persistence.StoresAreIsolated | app.js:1491-1495 | a save or delete on one store leaves every other store as it was |
| Persistence.UndeclaredStoreRejects | app.js:1491 | save and getAll on a store the schema never created reject with NotFoundError |
| Persistence.DeleteIsIdempotent | app.js:1511-1518 | a second delete of the same id succeeds and changes nothing; deleting an absent numeric key changes nothing |
| Persistence.DeleteHitsRenderedNumericId | app.js:1569-1571 | an auto-numbered record, deleted by the id text the page shows, is removed |
| Persistence.DeleteKeepsStringKeys | app.js:1515 | `delete` never removes a record whose key is a string |
| Persistence.DeleteOfNamedIdRejects | app.js:1515 | a named id such as "a.txt" makes `delete` reject with DataError and leaves the database as opened |
| Persistence.RemoveRendered | app.js:1515 | the corrected removal drops every record whose id is shown as the given text, and keeps every other record |
| Persistence.DeleteRenderedRemovesTheRecord | app.js:1511-1518 | the corrected delete removes the record whatever kind of key it has |
| Persistence.NeuralDB.constructor | app.js:1464-1467 | a page load holds no connection over whatever database is on disk |
| Persistence.NeuralDB.Init | app.js:1470-1485 | `init` opens version 1, upgrading an older database and rejecting a newer one |
| Persistence.NeuralDB.EnsureOpen | app.js:1489 | the lazy open runs `init` only when no connection is held |
| Persistence.NeuralDB.Save | app.js:1488-1498 | the new state and result are those of the upsert `SaveOp` |
| Persistence.NeuralDB.GetAll | app.js:1501-1508 | the result lists the store's records in key order, or carries the error |
| Persistence.NeuralDB.Delete | app.js:1511-1518 | the new state and result are those of `DeleteOp`, which removes `Number(id)` |
| Persistence.NeuralDB.DeleteRendered | app.js:1511-1518 | the corrected delete in place, agreeing with `DeleteRenderedOp` |
| Studio.ChooseFileName | app.js:551-556 | an update takes the open file's id, and fails with no file open; otherwise the name argument when non-empty, else the trimmed field when that is non-blank, else the prompt answer when non-empty, else no name |
| Studio.VaultId | app.js:558 | a vault id starts with the file name and contains '.': the name itself when it has a '.', otherwise the name, '.' and the format |
| Studio.Entry | app.js:561-568 | the entry is stored under its id, with exactly the attributes type (the kind), mime (the format), data (the content) and timestamp |
| Studio.SaveOpensTheSavedFile | app.js:570-572 | a successful save stores the entry under an id containing '.', and that id becomes the open file |
| Studio.UpdateKeepsTheOpenId | app.js:551 | an update rewrites the open file under its own id and keeps it open |
| Studio.VaultIdIsNaN | app.js:558 | `Number` of a vault id is NaN |
| Studio.DeleteOfSavedFileFails | app.js:660-664 | as written, deleting a file the studio saved rejects with DataError and leaves the studio as it was: the file stays stored and open |
| Studio.DeleteOfATxtFails | app.js:660-664 | as written, with "a.txt" stored and open, a confirmed delete rejects with DataError and changes nothing |
| Studio.IntendedDeleteRemovesSavedFile | app.js:660-664 | the corrected delete of a saved file removes its record and closes it |
| Studio.DeleteItemResetsOpenId | app.js:663 | a delete that goes through leaves the deleted id closed and any other open file open; an unconfirmed delete changes nothing |
| Studio.NeuralStudio.constructor | app.js:537 | the studio starts with no open file |
| Studio.NeuralStudio.SaveToVault | app.js:542-582 | the new state and outcome are those of `SaveToVaultOp` |
| Studio.NeuralStudio.DeleteItem | app.js:660-666 | the new state and outcome are those of `DeleteItemOp`, as written |
| Studio.NeuralStudio.DeleteItemIntended | app.js:660-666 | the corrected `deleteItem` in place, agreeing with `DeleteItemIntendedOp` |
| Studio.NeuralStudio.CloseEditor | app.js:689-692 | no file is open afterwards |
| Calc.BaseN | app.js:813-815 | the binary, hexadecimal and octal numerals all denote the integer, and the hexadecimal one has no lower-case letter |
| Calc.BaseNOfTypedDecimal | app.js:810-816 | typing the decimal numeral of n shows three numerals that all denote n |
| Calc.BaseNPanel.RunBaseN | app.js:810-816 | a NaN parse leaves the panel as it was; otherwise the panel shows `BaseN` of the parsed integer |
| Quiz.QuotedAsk | app.js:1931 | the question quotes exactly the trimmed sentence |
| Quiz.Questions | app.js:1926-1936 | one question for each of the first five long sentences, numbered from 0, quoting its sentence, with the three fixed options and "Absolutely" as the answer |
| Quiz.QuestionsQuoteLongSentences | app.js:1928-1931 | every question quotes a sentence of the text with no sentence end in it and more than 20 characters once trimmed |
| Quiz.QuizEngine.GenerateQuestions | app.js:1926-1937 | the current questions become `Questions(text)` |
| Quiz.LevelAfter | app.js:1990-1991 | the level rises by exactly one when the points reach `level * 500`, and is otherwise kept |
| Quiz.LevelKeepsUp | app.js:1987-1991 | when each award is at most 500, the points stay below the next level's threshold |
| Quiz.Profile | app.js:28-37 | the profile record has the constant id "user_profile", which is truthy, and holds the level and points |
| Quiz.ProfileSavedOnce | app.js:56-59 | saving the profile again replaces the one record under "user_profile" |
| Quiz.Student.constructor | app.js:28-37 | the student starts as "Scholar" at level 1 with no points, coached |
| Quiz.Student.SubmitScore | app.js:1986-1996 | the points are added, the level follows `LevelAfter`, and the database is that of saving the profile |
| ExamGen.Notes | app.js:2827-2830 | the contents of exactly the selected lesson notes, in vault order: the k-th is the content of the k-th record the reference `Filter` keeps; a numeric subject makes the filter throw |
| ExamGen.WordOccurs | app.js:2839 | every word of a sentence occurs in it |
| ExamGen.Permute | app.js:2841 | the shuffled options are a permutation of the four |
| ExamGen.FirstIndex | app.js:2842 | `indexOf` gives the first index holding the value, or -1 when none does |
| ExamGen.MakeObjective | app.js:2839-2842 | the options are a permutation of the middle word and the three distractors, and the answer index points at the middle word |
| ExamGen.FirstLong | app.js:2847 | `find` gives the first word longer than six characters (every earlier word is at most six), or none when every word is at most six |
| ExamGen.FillTarget | app.js:2847 | the target is a word of the sentence: the first one longer than six characters, else the first word when none is |
| ExamGen.MakeFillIn | app.js:2846-2848 | the expected answer is the target lower-cased and trimmed, with no upper-case letter |
| ExamGen.LongWords | app.js:2854 | the keywords are exactly the words longer than five characters, in order with repetitions: the reference `Filter` with that test |
| ExamGen.MakeTheory | app.js:2851-2855 | the prompt quotes the trimmed sentence after the fixed request; the keywords are all the words of the untrimmed sentence longer than five characters, and only those, in order |
| ExamGen.Slice | app.js:2838 | `slice(lo, hi)` gives the elements from lo below hi that exist, in order |
| ExamGen.ExamFrom | app.js:2832-2857 | no exam exactly when the context is shorter than 200; otherwise at most 10 objectives, 5 fill-ins and 2 theory prompts |
| ExamGen.BlankAt | app.js:2842 | blanking an occurrence and filling the blank with the word gives back the sentence |
| ExamGen.BlankRoundTrip | app.js:2842 | blanking the first occurrence and filling the blank with the word gives back the sentence |
| ExamGen.ObjectivesAnswerable | app.js:2838-2843 | the answer option is the blanked word, and putting it in the blank restores the sentence |
| ExamGen.FillInsAnswerable | app.js:2845-2849 | putting the fill-in target in the blank restores the sentence |
| ExamGen.ExamQuestionsFollowSentences | app.js:2838-2856 | the i-th objective, fill-in and theory prompt come from long sentences i, 10 + i and 15 + i |
| ExamGen.ShortContextNoExam | app.js:2832 | a context shorter than 200 characters gives no exam |
| Exam.StartNext | app.js:2994-3022 | the phase goes up by exactly one; phases 1 to 3 are shown and a later one finishes; no score changes |
| Exam.Submit | app.js:3055-3076 | only the current phase's score slot is written; from phase 3 on the exam finishes, before it the next phase starts |
| Exam.ExamRunsThreePhases | app.js:2958-2961 | starting and submitting three times shows phases 1, 2, 3 in turn, then finishes with each score in its slot |
| Exam.NoFourthPhase | app.js:3070-3075 | whatever starts and submissions follow, the phase shown lies in 1 to 3 |
| Exam.InitResult | app.js:2955-2956 | the exam starts exactly when generation gave an exam |
| Exam.ExamEngine.constructor | app.js:2950-2952 | the engine starts at phase 0 with empty exam data and zero scores |
| Exam.ExamEngine.StartNextPhase | app.js:2994-3022 | the engine's state becomes `StartNext` of the old one |
| Exam.ExamEngine.SubmitCurrentPhase | app.js:3055-3076 | the engine's state becomes `Submit` of the old one and the score |
| Exam.Generate | app.js:2955-2956 | the outcome and exam data are those `generateFullExam` gives on some key-order listing of the vault |
| Exam.ExamEngine.Begin | app.js:2958-2961 | the generated exam is kept, the counter restarts at 0 and phase 1 is started |
| Exam.ExamEngine.Init | app.js:2954-2962 | with an exam from the vault, the phase is reset to 0 and phase 1 starts; without one nothing changes |
| Exam.Band | app.js:3350-3355 | the band is 3 from 90 up, at least 2 from 70, at least 1 from 50 |
| Exam.Standing | app.js:3350-3355 | the standing is the name of the grade's band |
| Exam.StandingIsMonotone | app.js:3350-3355 | a higher grade never falls in a lower band, and two grades share a standing exactly when they share a band |
| Analytics.CountOf | app.js:2152-2157 | a subject is counted at most once per record |
| Analytics.Tallies | app.js:2145-2157 | the tallies cover exactly biology, chemistry and physics, with ten points per session |
| Analytics.Percentage | app.js:2162 | the bar never passes 100, is full exactly when the score reaches 100, and is otherwise the score |
| Analytics.Tally | app.js:2144-2158 | the `forEach` tally equals `Tallies` of the records |
| Analytics.Bars | app.js:2161-2167 | there is one bar per subject, none above 100 |
| Analytics.BarFullIffTenSessions | app.js:2156-2162 | a subject's bar is full exactly when it has ten sessions or more, and otherwise shows ten per session |
| Analytics.CountAppend | app.js:2152-2157 | one more record adds at most one session, to its own subject |
| Analytics.VaultFilesNotTallied | app.js:2153 | files saved by the studio carry no subject, so they never count |
| Analytics.RefreshData | app.js:2143-2168 | the bars shown are those of the vault's records in key order, or the read's error |
| Tutor.Bump | www/app.js:210-214 | subjects mentioned in the text gain 5, capped at 100; others keep their value; no subject is added or removed |
| Tutor.GrantXP | www/app.js:222-228 | reaching 5000 raises the level by one and resets the points to 0; otherwise the points are added; the points stay below 5000 |
| Tutor.SessionStaysBounded | www/app.js:170-171 | over any number of answered queries, no mastery passes 100, the subjects stay the same, the points stay below 5000 and the level never drops |
| Tutor.InitialStateBounded | www/app.js:15 | the starting mastery is at most 100 everywhere, over the five subjects |
| Tutor.FirstPreferred | www/app.js:95-99 | the index found holds a preferred voice, and no earlier voice is preferred |
| Tutor.SelectVoice | www/app.js:91-101 | the first preferred voice is chosen, else the first voice, and none only when there are no voices |
| Tutor.RaiseMentioned | www/app.js:208-215 | the `for...in` loop yields `Bump` of the mastery, and reports an update exactly when some subject is mentioned |
| Tutor.TutorState.constructor | www/app.js:12-21 | the page starts with the five subjects at their initial mastery, level 1 and 4200 points, and no voices |
| Tutor.TutorState.UpdateMastery | www/app.js:206-220 | with no chart nothing changes; otherwise the mastery becomes `Bump` and the chart is redrawn when any subject was mentioned |
| Tutor.TutorState.GrantXPTo | www/app.js:222-228 | level and points become `GrantXP` of the old ones |
| Tutor.TutorState.LoadVoices | www/app.js:91-101 | the voices are stored and the selected voice is `SelectVoice` of them |
| Tutor.TutorState.ProcessQuery | www/app.js:143-176 | empty trimmed input or an unloaded model changes nothing; a failed call changes no progress and no chart; an answer raises mastery and grants 15 points; mastery stays at most 100 and the points below 5000 |

## Left out

- Concurrency: the store's operations run one after another. Overlapping `init` calls and racing saves are not modelled.
- Rendering, speech and alerts are not modelled. This covers `renderTrove`, `VoiceCore.speak`, `appendMessage`, the exam overlay and its renderers, the chart library and the timer.
- The inputs the code takes from the page or the environment are parameters. These are `Date.now()`, `new Date().toISOString()`, `prompt`, `confirm`, the file-name field, the model's reply, the synthesiser's voices, and whether a chart exists.
- `setTimeout` renders of the exam phases take effect at once.
- `finishExam`'s weighted grade is floating point and is left out. The model records only that the exam finished. The phase scores come from `calculateScore`, which is not part of this model, so they are parameters.
- Exam.Submit: the `this.logs.phase1` write in `submitCurrentPhase` is left out. `logs` is never initialised, so as written that write throws a TypeError in phase 1 (app.js:3060), after the phase-1 score is stored and before the next phase starts. The page as written never reaches phase 2; the model follows the evident flow without the log.
- Exam.ExamRunsThreePhases: holds of that flow. As written, the first submission throws at app.js:3060 and the exam stays in phase 1.
- `saveToVault`'s `blob` argument and the `size` attribute are left out, since Blob sizes are a browser facility. The entry stores the content as text.
- `NeuralDB.get` and `NeuralDB.open` are called but never defined. So `downloadFile`, `loadItem` and the vault viewer built on them have no model.
- sw.js is not part of this model.
- JavaScript numbers are doubles, but this model uses unbounded integers. Record keys are integers or strings; other key kinds (dates, arrays, fractions) are left out.
- Record attributes are flat and hold text or integers only. `metadata.subject` is named by its path. Blobs, objects and booleans are left out, and so is the profile's empty `subjects` object.
- Numerals.StringToNumber: reads decimal fractions, exponents, hexadecimal, binary and octal prefixes, and `Infinity` as NaN. JavaScript reads "1.5" as 1.5 and "1." as 1.
- Numerals.NamedIdIsNaN: holds in JavaScript only for strings that are not such numerals. "3.14", "5." and "1e3" hold a character other than a digit, sign or space, yet `Number` reads them as numbers.
- Persistence.DeleteOfNamedIdRejects: holds in JavaScript only for ids that are not such numerals, like "a.txt". For "3.14" the delete resolves and removes nothing; for "5." it removes the numeric key 5.
- Studio.VaultIdIsNaN: holds in JavaScript only for vault ids that are not such numerals, like "a.txt" or "notes.md".
- Studio.DeleteOfSavedFileFails: holds in JavaScript only for such ids too. For a saved file named "3.14" the delete resolves, the file stays stored, and `currentOpenedId` is reset.
- Persistence.SaveOp, Persistence.GetAllOp and Persistence.DeleteOp: the promises of `save` and `delete` settle only in `tx.oncomplete` (app.js:1496, app.js:1516), and that of `getAll` only in `request.onsuccess` (app.js:1506). A transaction that aborts after its request is queued leaves the promise pending for ever. The model assumes every queued transaction commits.
- Text.ToLower: maps ASCII letters only, and so does `Text.ToUpper`. Lengths and the string order count code points, where JavaScript counts UTF-16 code units. They differ only outside the Basic Multilingual Plane.
- Analytics.Tally: a subject that names an `Object.prototype` member, such as "constructor", is passed over. JavaScript writes a stray property onto that member, which no bar shows.
- ExamGen.Selects: a subject that is neither text nor a number (an object, a boolean) is left out. A numeric subject makes the filter throw.
- ExamGen.Permute: `sort` with a random comparator is taken as an arbitrary permutation. That permutation is a parameter, given as a sequence of exchanges.
- Tutor.TutorState.ProcessQuery: an exception thrown by `appendMessage` or `speak` inside the `try` is not modelled. The persona prompt text is left out.
- app.js does not parse as written, for example `cconst` at app.js:2949 and `finishExam` outside its object at app.js:3293. Each rule is modelled as its body reads.

## Findings

| source | as written | input that shows it | evidently intended | confidence | as-written member | corrected member |
|---|---|---|---|---|---|---|
| app.js:1515, app.js:662-663 | `NeuralDB.delete` removes the key `Number(id)`, a number, while every vault id that `saveToVault` writes is a string key, so no delete ever removes a vault file (`Persistence.DeleteKeepsStringKeys`). For an id that is not a numeral, such as "a.txt", `Number` gives NaN, IndexedDB throws DataError, and `deleteItem` rejects before resetting `currentOpenedId`, so the file also stays open. For an id such as "3.14" or "5.", `Number` gives a number: the delete resolves and the open id is reset, though the file stays stored ("5." even removes a record under the numeric key 5). | `deleteItem("a.txt")`, confirmed, with "a.txt" stored and open | remove the record whose id the page shows, and close it when it is open | not executed | Studio.DeleteOfATxtFails | Studio.IntendedDeleteRemovesSavedFile |

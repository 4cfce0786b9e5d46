# TypeScript learning site: verified model of the quiz engine and topic pages

This project models the quiz engine of a small TypeScript-learning web site,
and the text logic of its two topic pages, in Dafny. It proves what the code
promises.

- **Catalogue** (`catalogue.dfy`, from `src/data/quiz.ts`). The 28 questions are
  kept in definition order. The four queries are modelled:
  - `getQuizById`;
  - `getQuizzesByDifficulty`;
  - `getRandomQuizzes`, with the shuffle given as an arbitrary ordering;
  - `getQuizzesByCategory`.

  The model proves that the ids are distinct, that every correct answer is
  one of the options, and that the basics and advanced selections split the
  catalogue 20 + 8.
- **Quiz session** (`quiz_page.dfy`, from `src/pages/Quiz.tsx`). The page's
  seven pieces of React state become the fields of a class, `QuizSession`.
  The handlers become methods:
  - `startQuiz`, `handleAnswer`, `nextQuestion` and `resetQuiz`;
  - the guarded buttons that call those handlers.

  The value-level predicate `Invariant` holds in every state the buttons can
  reach. It says:
  - the score equals the number of correct answers;
  - the index stays inside the list;
  - the answered questions are exactly the ones already passed.

  `TakeQuiz` covers a whole run: the menu, one option and one next click per
  question, then the result view. It ends with every choice recorded and the
  score equal to the number of matching choices.
- **Result view** (`quiz_result.dfy`). It covers the correct, incorrect and
  unanswered tiles, the rounded percentage and the grade. Exact score
  thresholds are proved for the three list sizes.
- **Topic pages** (`topic_pages.dfy`, `basics_page.dfy`, `advanced_page.dfy`,
  from `src/pages/Basics.tsx` and `src/pages/Advanced.tsx`). They cover:
  - the topic named by the route;
  - the split of its content into paragraphs;
  - each page's paragraph rules: heading, bold item, numbered line, plain;
  - the bold-item title and body extraction;
  - the previous and next buttons with their fallback links.
- **Supporting modules.** `seqs.dfy` models the JavaScript array operations
  `find`, `findIndex`, `filter` and `slice`. `jsstring.dfy` models the string
  operations `startsWith`, `indexOf`, `split`, `replace` and `/^\d+\./`.

Integers are unbounded. The only arithmetic is counts and the percentage.
The percentage is done in integers: `(200 * score + n) / (2 * n)`, which
rounds halves up as `Math.round` does.

Some behaviours of the code are easy to miss. The model keeps each one as
the code has it:

- **Answering twice.** `handleAnswer` (src/pages/Quiz.tsx:31-39) overwrites
  the recorded answer and scores again. Only the option buttons'
  `!isAnswered` guard (src/pages/Quiz.tsx:271-272) stops a second answer.
  - `QuizSession.HandleAnswer` models the handler as written.
  - `QuizSession.AnswerTwice` shows the score running one ahead of the
    correct count.
  - `QuizSession.SelectOption` is the guarded button, and it keeps the
    invariant.
- **Unknown categories.** `getQuizzesByCategory` (src/data/quiz.ts:363-371)
  has no unknown-category case: any value other than `'basics'` selects the
  advanced list.
- **Non-positive counts.** In `getRandomQuizzes` (src/data/quiz.ts:358-361),
  `slice(0, count)` with a negative count drops questions from the end; a
  count of 0 gives no questions. The shuffle is a sort with a random
  comparator; it is modelled as an arbitrary ordering.
- **Empty selections and stale events.** `startQuiz`
  (src/pages/Quiz.tsx:20-29) does not check for an empty list, and
  `handleAnswer` does not check that the id is the current question's.
  Every selectable list is non-empty (`QuestionListWellFormed`), and the
  option buttons only pass the current question's id.
- **Percentage and unanswered count.** The percentage
  (src/pages/Quiz.tsx:150) divides `score`, not the correct tile; the
  invariant proves the two equal. The unanswered tile
  (src/pages/Quiz.tsx:212) is the list length minus the number of answered
  ids. `CountsPartition` proves this equals total − correct − incorrect
  whenever every answered id is in the list.

## Model

| member | source | states |
|---|---|---|
| Catalogue.CatalogueIdsListed | src/data/quiz.ts:10-348 | the catalogue's ids are `q1` to `q28`, in order |
| Catalogue.CatalogueIdsUnique | src/data/quiz.ts:10-348 | the catalogue has 28 questions with pairwise distinct ids |
| Catalogue.CatalogueAnswersValid | src/data/quiz.ts:10-348 | every question has four options and its correct answer indexes one of them |
| Catalogue.FindQuiz | src/data/quiz.ts:351 | there is no result exactly when no item has the id; a result is the first item of the list with that id (every item before it has another id) |
| Catalogue.GetQuizById | src/data/quiz.ts:350-352 | `getQuizById` never fails: nothing exactly when no catalogue question has the id, otherwise the first catalogue question with that id |
| Catalogue.FindByUniqueId | src/data/quiz.ts:351 | in a list with distinct ids, looking up the id of item `i` finds item `i` |
| Catalogue.GetQuizByIdFindsEach | src/data/quiz.ts:350-352 | every catalogue question is found by its own id |
| Catalogue.FilterByDifficulty | src/data/quiz.ts:355 | exactly the items of the difficulty, as an order-preserving subsequence; each item of the difficulty occurs as often as in the input, any other item not at all |
| Catalogue.GetQuizzesByDifficulty | src/data/quiz.ts:354-356 | exactly the catalogue questions of the difficulty, in catalogue order, with distinct ids, so each of them exactly once |
| Catalogue.SubsequenceKeepsUniqueIds | src/data/quiz.ts:355 | dropping items from a list with distinct ids, as `filter` does, leaves distinct ids |
| Catalogue.GetRandomQuizzes | src/data/quiz.ts:358-361 | for any shuffle: `min(count, 28)` questions for `count >= 0`, `max(28 + count, 0)` for negative `count`; all catalogue questions, with distinct ids; every question when `count >= 28` |
| Catalogue.PermutedCatalogueUnique | src/data/quiz.ts:359 | a reordered copy of the catalogue still has distinct ids |
| Catalogue.PermutedCatalogueComplete | src/data/quiz.ts:359 | a reordered copy of the catalogue holds every catalogue question |
| Catalogue.GetQuizzesByCategory | src/data/quiz.ts:363-371 | exactly the catalogue questions whose id is in the category's list (`'basics'` or else the advanced list), in catalogue order |
| Catalogue.CategoryIdsPartitionCatalogue | src/data/quiz.ts:364-365 | every catalogue id is in exactly one of the two id lists |
| Catalogue.BasicsRuns | src/data/quiz.ts:364 | questions 1-8 and 12-23 are basics, 9-11 and 24-28 are not |
| Catalogue.AdvancedRuns | src/data/quiz.ts:365 | questions 9-11 and 24-28 are advanced, the others are not |
| Catalogue.BasicsRunIds | src/data/quiz.ts:364 | the ids of the two basics runs are `basicsIds`, in order |
| Catalogue.AdvancedRunIds | src/data/quiz.ts:365 | the ids of the two advanced runs are `advancedIds`, in order |
| Catalogue.BasicsSelection | src/data/quiz.ts:367-369 | the basics selection is the two basics runs: 20 questions whose ids are `basicsIds` |
| Catalogue.AdvancedSelection | src/data/quiz.ts:370 | any category other than `'basics'` selects the two advanced runs: 8 questions whose ids are `advancedIds` |
| Catalogue.CategoriesPartitionCatalogue | src/data/quiz.ts:363-371 | each question is in exactly one of the two selections, and their sizes add up to 28 |
| Seqs.FindIndex | src/pages/Basics.tsx:132 | -1 exactly when nothing matches, otherwise the first matching position |
| Seqs.Find | src/data/quiz.ts:351 | nothing exactly when no element matches, otherwise the first matching element |
| Seqs.Filter | src/data/quiz.ts:355 | keeps every matching element and only those, as an order-preserving subsequence |
| Seqs.FilterCounts | src/data/quiz.ts:355 | every value occurs in the filtered list as often as in the input when it matches, and not at all otherwise |
| Seqs.SubsequenceMembers | src/data/quiz.ts:355 | every element of an order-preserving subsequence occurs in the original list |
| Seqs.FilterRuns | src/data/quiz.ts:367-370 | filtering four runs that alternate between kept and dropped keeps exactly the kept runs |
| Seqs.FilterPartition | src/data/quiz.ts:367-370 | two complementary filters put each element in exactly one result, and their lengths add up |
| Seqs.Permute | src/data/quiz.ts:359 | the reordered copy has the same length and takes element `order[i]` at position `i` |
| Seqs.SliceTo | src/data/quiz.ts:360 | `slice(0, end)`: a prefix of length `min(end, n)`, or `max(n + end, 0)` for negative `end` |
| JsString.IndexOf | src/pages/Basics.tsx:47 | -1 or an occurrence at or after `from`, with no occurrence before it |
| JsString.StartsWith | src/pages/Basics.tsx:49 | `s.startsWith(prefix)` holds exactly when the first occurrence of `prefix` found by `indexOf` is at 0 |
| JsString.Join | src/pages/Basics.tsx:47 | `join`, the inverse that `Split` is proved against: the result opens with the first part and is as long as all parts plus one separator between each pair of neighbours |
| JsString.Split | src/pages/Basics.tsx:47 | at least one part; the parts joined with the separator give the string back; no part holds the separator; each part but the last ends at the leftmost next separator |
| JsString.RemoveFirst | src/pages/Basics.tsx:52 | unchanged when the pattern does not occur, otherwise the string with its first occurrence taken out (putting it back restores the string) |
| JsString.RemoveFirstOfPrefix | src/pages/Basics.tsx:52 | `replace('### ', '')` on a paragraph starting with `### ` drops exactly that prefix |
| JsString.LeadingDigits | src/pages/Advanced.tsx:57 | the length of the run of ASCII digits the string starts with |
| JsString.StartsWithNumberDot | src/pages/Advanced.tsx:57 | a match needs at least two characters and a digit in front |
| JsString.StartsWithNumberDotMeaning | src/pages/Advanced.tsx:57 | the greedy reading of `/^\d+\./` holds exactly when some non-empty run of leading digits is followed by a dot |
| JsString.IndexOfExtend | src/pages/Basics.tsx:57 | extending a string does not move its first occurrence of a pattern |
| JsString.IndexOfAfterLead | src/pages/Basics.tsx:61 | a leading character that cannot start the pattern shifts the first occurrence by one |
| JsString.SplitHead | src/pages/Basics.tsx:47 | the first part of a split holds no separator and ends at the first separator |
| QuizResult.IsCorrect | src/pages/Quiz.tsx:195-196 | an answer can only be correct for an id that some question of the list carries |
| QuizResult.IsIncorrect | src/pages/Quiz.tsx:204-205 | an answer is incorrect exactly when the id is listed and the answer is not correct |
| QuizResult.VerdictOfListed | src/pages/Quiz.tsx:195-205 | with distinct ids, an answer to question `i` is correct exactly when it is that question's correct option, and incorrect exactly otherwise |
| QuizResult.CorrectCount | src/pages/Quiz.tsx:194-197 | the "correct" tile never exceeds the number of answers |
| QuizResult.IncorrectCount | src/pages/Quiz.tsx:203-206 | the "incorrect" tile never exceeds the number of answers |
| QuizResult.UnansweredCount | src/pages/Quiz.tsx:212 | at most the list length, equal to it exactly when nothing is answered, and never negative when every answered id is in the list |
| QuizResult.AnsweredAtMostListed | src/pages/Quiz.tsx:212 | when every answered id is in the list there are no more answers than questions |
| QuizResult.CountsPartition | src/pages/Quiz.tsx:194-212 | when every answered id is in the list, correct + incorrect = answers, unanswered ≥ 0, and the three tiles add up to the list length |
| QuizResult.CorrectCountAfterNewAnswer | src/pages/Quiz.tsx:35-38 | recording a first answer raises the correct count by one exactly when the answer is correct, and otherwise leaves it |
| QuizResult.CorrectIdsAfterAnswer | src/pages/Quiz.tsx:32 | recording an answer changes the set of correctly answered ids at that id only |
| QuizResult.OutOfRangeNeverCorrect | src/pages/Quiz.tsx:36 | with valid correct answers, an out-of-range answer never counts as correct |
| QuizResult.Percentage | src/pages/Quiz.tsx:150 | the nearest whole percentage, halves up: `2n·p ≤ 200·score + n < 2n·(p+1)`, and it lies in 0..100 when `0 ≤ score ≤ n` |
| QuizResult.FloorDivision | src/pages/Quiz.tsx:150 | integer division gives the largest multiple count that fits |
| QuizResult.PercentageAtLeast | src/pages/Quiz.tsx:150 | the percentage reaches `k` exactly when `200·score + n ≥ 2k·n` |
| QuizResult.GradeOf | src/pages/Quiz.tsx:151-163 | 优秀 exactly from 90, 良好 exactly from 70 to 89, 及格 exactly from 60 to 69, 继续努力 exactly below 60 |
| QuizResult.GradeLabel | src/pages/Quiz.tsx:151-163 | each grade has its own heading, 优秀!, 良好!, 及格 or 继续努力, and the heading names the grade back |
| QuizResult.GradeMonotone | src/pages/Quiz.tsx:151-163 | a higher percentage never earns a lower grade |
| QuizResult.GradeOfScore | src/pages/Quiz.tsx:150-163 | the grade in terms of the score: thresholds 179, 139 and 119 per 200 questions |
| QuizResult.MinimumScores | src/pages/Quiz.tsx:150-163 | lowest scores for 优秀, 良好 and 及格: 18, 14, 12 of 20; 8, 6, 5 of 8; 26, 20, 17 of 28 |
| QuizResult.Summarize | src/pages/Quiz.tsx:149-212 | the result view's total, score, rounded percentage, the grade of that percentage (优秀 exactly from 90), and tiles adding up to the total when every answer is listed |
| QuizPage.QuestionList | src/pages/Quiz.tsx:22 | the list `startQuiz` loads has the ids of the whole catalogue, the basics list or the advanced list: 28, 20 or 8 questions |
| QuizPage.QuestionListWellFormed | src/pages/Quiz.tsx:22 | every list a session can load is non-empty, has distinct ids and valid correct answers |
| QuizPage.UniqueIdNotBefore | src/pages/Quiz.tsx:59 | in a list with distinct ids, no earlier question carries the current question's id |
| QuizPage.InvariantFresh | src/pages/Quiz.tsx:20-29 | a well-formed list with nothing answered at index 0 satisfies the invariant in the menu and in the quiz view |
| QuizPage.InvariantAfterAnswer | src/pages/Quiz.tsx:31-38 | answering the current, unanswered question keeps the invariant, and scores exactly when the answer is the correct option |
| QuizPage.InvariantAtStart | src/pages/Quiz.tsx:20-29 | the list a category loads, at index 0 with nothing answered and score 0, satisfies the invariant of the quiz view, and is non-empty |
| QuizPage.InvariantAfterAdvance | src/pages/Quiz.tsx:41-43 | moving on from an answered question that is not the last keeps the invariant, and the next question is unanswered |
| QuizPage.InvariantAfterFinish | src/pages/Quiz.tsx:44-45 | leaving the last, answered question for the result view keeps the invariant, with every question answered |
| QuizPage.AdvanceAnswered | src/pages/Quiz.tsx:41-43 | moving on from answered question `i`: the answered ids run up to `i`, and question `i + 1` is unanswered |
| QuizPage.FinishAnswered | src/pages/Quiz.tsx:44-45 | after the last question is answered, every question of the list is |
| QuizPage.FinishedCounts | src/pages/Quiz.tsx:194-212 | with every question answered: nothing is unanswered, and correct + incorrect = the list length |
| QuizPage.Matches | src/pages/Quiz.tsx:36 | the number of matching choices among the first `n` is at most `n` |
| QuizPage.Recording | src/pages/Quiz.tsx:32 | the answers left by answering the first `n` questions in order have exactly the ids of those `n` questions as keys |
| QuizPage.RecordingLookup | src/pages/Quiz.tsx:32 | in a list with distinct ids, each of those choices is found under its question's id |
| QuizPage.CorrectCountOfRecording | src/pages/Quiz.tsx:35-38 | in a list with distinct ids, the correct count of those answers is the number of choices that match the correct option |
| QuizPage.RepeatedCorrectAnswer | src/pages/Quiz.tsx:31-39 | recording the correct answer to an unanswered question twice under its id raises the correct count by one, not two |
| QuizPage.QuizSession.constructor | src/pages/Quiz.tsx:12-18 | the `useState` defaults: the menu, category `all`, an empty list, index 0, no answers, score 0; the invariant holds |
| QuizPage.QuizSession.StartQuiz | src/pages/Quiz.tsx:20-29 | loads the category's list, index 0, empty maps, score 0, the quiz view; the invariant holds and the first question is unanswered |
| QuizPage.QuizSession.IsAnswered | src/pages/Quiz.tsx:59 | in the quiz view of a consistent session, the current question counts as answered exactly when the answers cover the questions up to and including it |
| QuizPage.QuizSession.Load | src/pages/Quiz.tsx:20-29 | the seven state updates of `startQuiz` for a given list: the fields take the new values, the invariant holds and the first question is unanswered |
| QuizPage.QuizSession.HandleAnswer | src/pages/Quiz.tsx:31-39 | overwrites the answer and sets the explanation flag for the id; the score rises by one exactly when the first listed question with that id has this answer as its correct one; nothing else changes |
| QuizPage.QuizSession.NextQuestion | src/pages/Quiz.tsx:41-47 | the index moves on before the last question; on the last the view becomes the result; nothing else changes |
| QuizPage.QuizSession.ResetQuiz | src/pages/Quiz.tsx:49-55 | back to the menu with index 0, no answers and score 0; the list and category stay; the invariant is kept |
| QuizPage.QuizSession.BackToMenu | src/pages/Quiz.tsx:223 | only the view changes, to the menu; the invariant is kept |
| QuizPage.QuizSession.SelectOption | src/pages/Quiz.tsx:271-272 | a click on an answered question changes nothing; otherwise it records the answer and scores exactly when it is correct; the invariant is kept and the question is answered |
| QuizPage.QuizSession.ClickNext | src/pages/Quiz.tsx:329 | does nothing until the question is answered, then moves to the next, unanswered question, or to the result view with the index kept; answers, explanation flags, score, list and category stay; the invariant is kept |
| QuizPage.QuizSession.NextAfterAnswer | src/pages/Quiz.tsx:41-43 | the next button on an answered question before the last moves the index on by one to an unanswered question; answers, explanation flags, score, list and category stay; the invariant is kept |
| QuizPage.QuizSession.FinishAfterAnswer | src/pages/Quiz.tsx:44-45 | the next button on the last, answered question shows the result view; the index, answers, explanation flags, score, list and category stay; the invariant is kept |
| QuizPage.QuizSession.ResultSummary | src/pages/Quiz.tsx:149-212 | in the result view: the correct tile equals the score, nothing is unanswered, correct + incorrect = total, and the percentage is in 0..100 |
| QuizPage.QuizSession.TakeQuiz | src/pages/Quiz.tsx:20-47 | a full run through the buttons ends in the result view with each choice recorded under its question and the score equal to the number of matching choices |
| QuizPage.QuizSession.AnswerAll | src/pages/Quiz.tsx:271-329 | one option and one next click per question reach the result view after exactly as many next clicks as questions, with the answers equal to the choices recorded in order and the score equal to the matches |
| QuizPage.QuizSession.AnswerStep | src/pages/Quiz.tsx:271-329 | answering question `i` of a run with `choices[i]` extends the recorded answers by that one choice, keeps the invariant, and shows question `i + 1`, unanswered, or the result view after the last |
| QuizPage.QuizSession.AnswerAndAdvance | src/pages/Quiz.tsx:271-329 | an option click then a next click record the choice, score it, and move on to the next, unanswered question or finish with the index kept |
| QuizPage.QuizSession.AnswerTwice | src/pages/Quiz.tsx:31-39 | without the button guard, answering correctly twice adds two to the score while the correct count rises by one |
| TopicPages.SelectTopic | src/pages/Basics.tsx:14 | no topic for a missing or empty id; otherwise nothing exactly when no topic has the id, else the first topic with it (src/pages/Advanced.tsx:14 is the same) |
| TopicPages.SelectTopicById | src/pages/Basics.tsx:14 | with distinct ids, a non-empty id selects the one topic carrying it |
| TopicPages.TopicIndex | src/pages/Basics.tsx:132 | -1 exactly when no topic has the id, otherwise the first position carrying it |
| TopicPages.PrevTopic | src/pages/Basics.tsx:133 | none exactly when the first topic carrying the id is the first of the list or no topic carries it; otherwise the topic just before the first one carrying it |
| TopicPages.NextTopic | src/pages/Basics.tsx:134 | none exactly when the list is empty or only its last topic carries the id; otherwise the topic just after the first one carrying it, or the first topic when none carries it |
| TopicPages.NeighboursAt | src/pages/Basics.tsx:132-134 | with distinct ids, the topic at `i` is found at `i`; previous is the one before (none for the first), next the one after (none for the last) |
| TopicPages.NextThenPrev | src/pages/Advanced.tsx:131-133 | going to the next topic and then back returns to the same topic |
| TopicPages.NeighboursOfMissing | src/pages/Basics.tsx:132-134 | a topic not in the list has no previous topic, and the first topic is its next one |
| TopicPages.Paragraphs | src/pages/Basics.tsx:47 | at least one paragraph; none holds a blank line; joined with blank lines they give the content back; each paragraph but the last ends at the leftmost next blank line, so `a\n\n\nb` gives `a` and `\nb` |
| TopicPages.BoldItemOf | src/pages/Basics.tsx:57-62 | the title is the text after the first `**` up to the next `**` or the end; there is a body exactly when a second `**` follows, and it is the next such segment with its first ASCII colon removed |
| TopicPages.BoldParts | src/pages/Basics.tsx:57 | the second and third parts of the split on `**`, read off the text |
| TopicPages.BoldItemOfLayout | src/pages/Advanced.tsx:49-54 | a paragraph laid out as lead, `**`, title, `**`, body yields back that title and the body less its first ASCII colon |
| TopicPages.NumberedBoldMarker | src/pages/Basics.tsx:56-57 | in a paragraph opening with `d. **` the first `**` is at position 3 |
| TopicPages.FullWidthColonKept | src/pages/Basics.tsx:61 | `replace(':', '')` keeps a full-width `：` in front of the body and removes the first ASCII colon after it |
| BasicsPage.ParagraphBlock | src/pages/Basics.tsx:49-69 | a heading exactly for `### `, showing the rest; a bold item exactly for `1. **`-`3. **`; otherwise plain, showing the paragraph; never a numbered line |
| BasicsPage.IsBoldItem | src/pages/Basics.tsx:56 | the three prefixes are the paragraphs of at least five characters that open with a digit from 1 to 3 followed by `. **` |
| BasicsPage.Render | src/pages/Basics.tsx:47 | one block per paragraph of the content, in order |
| BasicsPage.BoldItemRoundTrip | src/pages/Basics.tsx:56-63 | `d. **title**body` with `d` from 1 to 3 renders as that title and that body less its first ASCII colon |
| BasicsPage.NumberedPrefix | src/pages/Basics.tsx:56 | a paragraph opening with `1. **`-`3. **` is a bold item and no heading |
| BasicsPage.FourthItemIsPlain | src/pages/Basics.tsx:56-69 | a paragraph opening with `4. **` renders as plain text, as the generics topic's fourth item does |
| BasicsPage.PrevLink | src/pages/Basics.tsx:138-146 | a topic button always leads to `/basics/{id}` of a listed topic and carries its title; otherwise an empty placeholder |
| BasicsPage.NextLink | src/pages/Basics.tsx:147-161 | a topic button always leads to `/basics/{id}` of a listed topic and carries its title; otherwise the link to `/advanced` |
| BasicsPage.Navigation | src/pages/Basics.tsx:129-164 | previous: the topic before, or nothing on the first; next: the topic after, or `/advanced` on the last; topic links go to `/basics/{id}` |
| BasicsPage.BasicsNavigation | src/pages/Basics.tsx:129-164 | on the six basics topics: `types` has no previous button and leads to `interfaces`; `generics` leads back to `enums` and on to `/advanced` |
| BasicsPage.BasicsIdsUnique | src/data/basics.ts:12-364 | the six basics topic ids are distinct |
| AdvancedPage.ParagraphBlock | src/pages/Advanced.tsx:47-68 | a bold item exactly for `1. **`-`4. **`; a numbered line exactly for other paragraphs matching `/^\d+\./`; otherwise plain; never a heading; numbered and plain show the paragraph |
| AdvancedPage.IsBoldItem | src/pages/Advanced.tsx:48 | the four prefixes are the paragraphs of at least five characters that open with a digit from 1 to 4 followed by `. **` |
| AdvancedPage.Render | src/pages/Advanced.tsx:47 | one block per paragraph of the content, in order |
| AdvancedPage.NumberedLineMeaning | src/pages/Advanced.tsx:57-63 | a non-bold paragraph is a numbered line exactly when a non-empty run of leading ASCII digits is followed by a dot |
| AdvancedPage.BoldItemRoundTrip | src/pages/Advanced.tsx:48-56 | `d. **title**body` with `d` from 1 to 4 renders as that title and that body less its first ASCII colon |
| AdvancedPage.NumberedPrefix | src/pages/Advanced.tsx:48 | a paragraph opening with `1. **`-`4. **` is a bold item |
| AdvancedPage.FifthItemIsNumberedLine | src/pages/Advanced.tsx:48-63 | a paragraph opening with `5. **` renders verbatim as a numbered line, as the type-guards topic's fifth item does |
| AdvancedPage.PrevLink | src/pages/Advanced.tsx:137-149 | a topic button always leads to `/advanced/{id}` of a listed topic and carries its title; otherwise the link back to `/basics` |
| AdvancedPage.NextLink | src/pages/Advanced.tsx:150-164 | a topic button always leads to `/advanced/{id}` of a listed topic and carries its title; otherwise the link to `/quiz` |
| AdvancedPage.Navigation | src/pages/Advanced.tsx:128-167 | previous: the topic before, or `/basics` on the first; next: the topic after, or `/quiz` on the last; topic links go to `/advanced/{id}` |
| AdvancedPage.AdvancedNavigation | src/pages/Advanced.tsx:128-167 | on the six advanced topics: `type-inference` leads back to `/basics` and on to `type-aliases`; `modules` leads back to `decorators` and on to `/quiz` |
| AdvancedPage.AdvancedIdsUnique | src/data/advanced.ts:12-552 | the six advanced topic ids are distinct |

## Left out

- Randomness: the `Math.random` comparator of `getRandomQuizzes` is replaced by an arbitrary ordering passed in by the caller; which orderings a real sort produces is not modelled.
- Floating point: the result percentage is integer arithmetic; it agrees with `Math.round(score / n * 100)` for the 20-, 8- and 28-question lists, where the float quotient never lands near a half by error. The progress bar (src/pages/Quiz.tsx:58) is not modelled.
- React timing: each `setX` is an immediate field assignment; functional updates (`prev => prev + 1`) and batching within one render are not modelled.
- The UI: JSX, CSS classes, icons, option letters, the colour of the grade, the clipboard copy and its `setTimeout` (src/pages/Basics.tsx:12-20, src/pages/Advanced.tsx:12-20), the topic list views, the "back" links at the top of the topic pages and the topic description, code sample and key points, which are shown unprocessed.
- Topic data: topic records carry only id, title and content; the content of src/data/basics.ts and src/data/advanced.ts is not reproduced beyond the ids. The quirk paragraphs are covered by the prefix lemmas.
- The question wording and the explanation text of each question in src/data/quiz.ts are not carried, because only the view displays them; ids, options, correct answers and difficulties are.
- src/pages/Playground.tsx, src/pages/Home.tsx, src/App.tsx and src/components are not part of this model: they evaluate user code or only lay out markup and routes.
- Catalogue.GetRandomQuizzes: takes a whole-number `count`; JavaScript's `slice` would truncate a fractional count toward zero first, which is not modelled.
- QuizPage.QuizSession.ResetQuiz: keeps the invariant only from a state that had it (`old(Consistent()) ==> Consistent()`), because the handler itself checks nothing.
- QuizPage.QuizSession.AnswerTwice: requires only the facts it uses (distinct ids, an unanswered current question and the score equal to the correct count), not the whole invariant.

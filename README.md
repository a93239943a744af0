# SmartStudy in Dafny

SmartStudy is a Streamlit study app. A user keeps courses. Each course holds a list of content items, each content item holds a list of topics, and each topic has a Markdown note. An external language model turns notes into flashcard decks and decks into multiple-choice quizzes. Everything is persisted as files under one `SmartStudy` directory.

This project models the core of that app:

- the file store and its layout;
- the home page: courses and the API key;
- the course page: content items and the cascading delete of a content item;
- the topic page and the topic editor;
- the flashcard revision page: deck aggregation, generate-or-load, splitting a deck into cards, card navigation;
- the quiz page: deck resolution, the quiz cache gated by an MD5 fingerprint, the quiz state machine;
- `find_smartstudy_path`.

Modules and files:

- `Store` (`store.dfy`) models the SmartStudy directory as a map from folder and file name to a decoded document.
- A `Disk` object holds that map. Its methods are the file operations the pages use: `os.path.exists`, read, overwrite, `os.remove`, `os.listdir`, the listdir-and-remove clean-up loop, and `shutil.rmtree`.
- `SessionState.Session` holds the entries of `st.session_state` that the pages read and write.
- Each page is a module whose methods run the page's logic on a `Disk` and a `Session`.
- Each such method is proved equal to a pure function of the old store (`ContentDeleted`, `TopicDeleted`, `CourseDeleted`, `ReviseVisit`, `AggregateOf`, `WriteBack` and others).
- The properties the app relies on are proved about those functions as lemmas.
- `Text` models the Python string behaviour the pages depend on: `str.strip` with Python's whitespace set, `sorted` on strings, `"sep".join`.
- `Cards` models `re.split(r'\n(?=### )', text)`.

External services are parameters of the methods that use them:

- the flashcard generator: `gen: string -> Reply<string>`;
- the quiz generator: `gen: string -> Reply<seq<Question>>`;
- `hashlib.md5(...).hexdigest()`: `md5: string -> HexDigest`, where HexDigest is 32 lower-case hex digits;
- `random.sample(q, len(q))`: any `shuffle` that returns a permutation;
- `psutil.disk_partitions()` is a sequence of device names, and whether `os.makedirs` succeeds on a device is `canCreate: string -> bool`;
- `os.getenv("OPENAI_API_KEY")` is `env: Option<string>`;
- `uuid.uuid4()` and `datetime.now()` are the `id` and `createdAt` arguments of `AddCourse`.

Behaviours of the code that the model keeps as written:

- Submitting twice on the same question scores twice (`SessionState.RepeatedSubmitScoresTwice`).
- "Next Question" does not require the answer to be revealed (`SessionState.NextWithoutAnswer`).
- Generated quizzes are not validated: nothing checks four options or an answer among them.
- Revising a topic stops on a blank note even when the topic's deck already exists. The blank check comes before the deck load.
- Content revision rewrites the aggregate deck on every visit (`RevisePage.ContentVisitRewritesDeck`). Only the quiz page builds it once.
- A failed quiz generation leaves no file written. A successful one writes the quiz file and then the fingerprint file.
- The topic-deck test is a plain prefix test on `<content>_`. Aggregating content `A` therefore takes in every deck of a content named `A_B` (`Decks.PrefixReachesLongerContent`).
- Likewise, deleting content `A` removes the notes, decks, quiz and fingerprint of `A_B` (`CoursePage.DeleteReachesLongerContent`).

## Model

| member | source | states |
|---|---|---|
| Text.Strip | pages/revise_flashcards.py:131 | `s.strip()` is the slice of `s` from its first to its last non-whitespace character (Python's whitespace set). Everything cut off is whitespace. The result is empty exactly when `s` is all whitespace, and a string with no whitespace at either end is returned unchanged. |
| Text.Join | pages/quiz_page.py:63 | `sep.join(parts)`: the parts in order with `sep` between neighbours, a single part as it is, and "" for no parts. |
| Text.Below | pages/quiz_page.py:59 | Python's string comparison: the first differing code point decides, and a proper prefix comes first. |
| Text.SortListingIsAscending | pages/quiz_page.py:59 | `sorted` of any listing of distinct names equals the unique ascending sequence of that set of names, so the order of `os.listdir` does not matter. |
| Text.SortedUnique | pages/revise_flashcards.py:73-76 | Two strictly ascending sequences with the same elements are equal. |
| Text.SortNames | pages/revise_flashcards.py:73-76 | The sorted list is strictly ascending and holds the same names as its input. |
| Text.BelowTransitive | pages/quiz_page.py:59 | Python's string order is transitive. |
| Text.BelowTotal | pages/quiz_page.py:59 | Any two different strings are ordered one way or the other. |
| Lists.Filter | pages/course_page.py:153 | The list comprehension keeps exactly the elements that pass the test. |
| Lists.FilterKeepsDistinct | pages/course_page.py:153 | Filtering a list without duplicates gives a list without duplicates. |
| Lists.AddName | pages/course_page.py:77-78 | The guarded append grows the list by one exactly when the name is non-empty and not yet listed. The old list stays a prefix, no other name appears, and a duplicate-free list stays duplicate-free. |
| Store.QuizFileKinds | pages/quiz_page.py:76-77 | The quiz file and the fingerprint file of a content item are told apart by their suffix, so they never collide. |
| Store.ContentListFile | pages/course_page.py:31-32 | The content list of a course is `revisions/<course>/content_list.json`. |
| Store.TopicsFile | pages/topic_page.py:32-39 | The topic list of a content item is `revisions/<course>/topics/<content>.json`. |
| Store.NoteFile | pages/topic_editor.py:34-36 | A topic's note is `revisions/<course>/notes/<content>_<topic>.md`. |
| Store.DeckFile | pages/quiz_page.py:48 | A content item's deck is `revisions/<course>/flashcards/<content>.md`. |
| Store.TopicDeckFile | pages/revise_flashcards.py:56 | A topic's deck is `revisions/<course>/flashcards/<content>_<topic>.md`. |
| Store.QuizFile | pages/quiz_page.py:76 | A content item's quiz is `revisions/<course>/quiz/<content>.json`. |
| Store.HashFile | pages/quiz_page.py:77 | A quiz's fingerprint is `revisions/<course>/quiz/<content>_hash.txt`. |
| Store.Disk.Exists | pages/course_page.py:37 | `os.path.exists` is true exactly when the file is in the store. |
| Store.Disk.ReadText | pages/topic_editor.py:40-42 | Reading a text file returns the text stored there. |
| Store.Disk.ReadDoc | pages/course_page.py:37-39 | Loading a JSON file returns the value stored there. |
| Store.Disk.Write | pages/topic_editor.py:57-59 | Writing replaces that one file and leaves every other file as it was. |
| Store.Disk.Remove | pages/topic_page.py:164-165 | `os.remove` drops that one file and leaves every other file as it was. |
| Store.Pruned | pages/course_page.py:165-169 | The store after one clean-up loop keeps every file the test spares, unchanged, and no file of that folder the test accepts. |
| Store.Disk.ListDir | pages/quiz_page.py:53 | `os.listdir` returns each name of the folder exactly once. |
| Store.Disk.RemoveWhere | pages/course_page.py:165-169 | The listdir-and-remove loop leaves exactly `Pruned` of the old store. |
| Store.Disk.RemoveTree | streamlit_app.py:188 | `shutil.rmtree` removes every file of the course and keeps all others unchanged. |
| Decks.ListedTopicDecks | pages/quiz_page.py:51-55 | Filtering a full listing of the flashcards folder with the prefix and suffix test finds exactly the topic decks of the content item. |
| Decks.IsTopicDeckName | pages/quiz_page.py:54 | The topic-deck test shared with pages/revise_flashcards.py:75: the name starts with `<content>_` and ends with `.md`. |
| Decks.AggregateOf | pages/revise_flashcards.py:73-84 | The aggregate deck: every topic deck of the content, in ascending name order, stripped, joined with a blank line. The quiz page builds the same text at pages/quiz_page.py:58-63. |
| Decks.CombineTopicDecks | pages/revise_flashcards.py:71-82 | The loop over the sorted topic decks produces the aggregate deck: each deck stripped, in ascending name order, joined with a blank line. It reports whether there was any topic deck. |
| Decks.TwoTopicExample | pages/quiz_page.py:58-63 | The topic decks `C_A.md` = "### A\n- x" and `C_B.md` = "### B\n- y" combine to "### A\n- x\n\n### B\n- y". |
| Decks.AggregateIsNotATopicDeck | pages/revise_flashcards.py:68-75 | `<content>.md` never passes the topic-deck test, so the aggregate is never one of its own sources. |
| Decks.PrefixReachesLongerContent | pages/quiz_page.py:54 | The topic-deck test of content `a` accepts the aggregate deck and every topic deck of content `a_b`. |
| Decks.AggregateDependsOnDecksOnly | pages/revise_flashcards.py:72-82 | The aggregate deck depends only on the course's flashcards folder. |
| Decks.AscendingPair | pages/quiz_page.py:59 | Two names in order sort to themselves. |
| QuizPage.DigestIsTrimmed | pages/quiz_page.py:128-135 | Stripping a stored hex digest gives the digest back. |
| QuizPage.QuizStale | pages/quiz_page.py:125-129 | The cache is stale when the quiz file is missing, the fingerprint file is missing, or the stripped fingerprint differs from the deck's digest. |
| QuizPage.WriteBack | pages/quiz_page.py:131-135 | The store after a regeneration: the quiz file holds the new quiz and the fingerprint file the digest. The store stays well formed. |
| QuizPage.CachedQuiz | pages/quiz_page.py:137-138 | The quiz loaded from the quiz file when the cache is fresh. |
| QuizPage.WriteBackIsFresh | pages/quiz_page.py:125-135 | Right after the quiz file and then the fingerprint are written, the cache test finds the cache fresh for the same deck. |
| QuizPage.OtherDigestIsStale | pages/quiz_page.py:125-129 | A cache that is fresh for one digest is stale for any other digest, so a changed deck whose digest differs forces regeneration. |
| QuizPage.DeckWriteKeepsCache | pages/quiz_page.py:64-77 | Writing the aggregate deck changes neither the cache test nor the cached quiz. |
| QuizPage.ResolveDeck | pages/quiz_page.py:48-72 | An existing `<content>.md` is read as it is and nothing is written. Without it and without topic decks there is no deck and nothing is written. Otherwise the aggregate is written to `<content>.md` and returned. |
| QuizPage.RefreshQuiz | pages/quiz_page.py:125-138 | The generator is called exactly when the cache is stale. A fresh cache loads the stored quiz without writing. A failed call writes nothing. A successful call writes the quiz file and then the fingerprint. |
| QuizPage.RunQuizPage | pages/quiz_page.py:26-150 | The page stops on a missing API key or a missing deck and changes nothing. Otherwise it resolves the deck, refreshes the cache for the deck's digest, and starts the quiz with a permutation of the quiz only when none is running. The question shown is the one at the session's index; an empty quiz has none, which is the page's `IndexError`. |
| QuizPage.SecondVisitMakesNoCall | pages/quiz_page.py:125-138 | After a successful visit, a second visit makes no generator call and shows the same deck and quiz. |
| SessionState.ApiKeyFor | pages/quiz_page.py:26 | The key in the session wins; otherwise the environment's key; otherwise the empty key, which makes the pages stop. |
| SessionState.Session.StartQuizIfAbsent | pages/quiz_page.py:141-146 | A quiz is set up only when none is running: the shuffled questions, index 0, score 0, nothing selected or revealed. |
| SessionState.Session.Submit | pages/quiz_page.py:172-176 | Records the choice and reveals the answer. The score grows by one exactly when the choice is the answer. |
| SessionState.Session.RevealAnswer | pages/quiz_page.py:178-179 | Only the reveal flag changes. |
| SessionState.Session.NextQuestion | pages/quiz_page.py:193-198 | Before the last question, moves to the next one with nothing selected or revealed. On the last question, nothing changes. |
| SessionState.Session.RestartQuiz | pages/quiz_page.py:203-206 | On the last question, clears the five quiz keys. |
| SessionState.Session.PreviousCard | pages/revise_flashcards.py:152-154 | Steps back unless already on the first card. |
| SessionState.Session.NextCard | pages/revise_flashcards.py:156-158 | Steps on unless already on the last card, so an index that names a card keeps naming one. |
| SessionState.Session.LeaveFlashcards | pages/revise_flashcards.py:163-164 | Forgets the card position. |
| SessionState.RepeatedSubmitScoresTwice | pages/quiz_page.py:172-176 | On a one-question quiz, submitting the right answer twice gives score 2 of 1. |
| SessionState.NextWithoutAnswer | pages/quiz_page.py:193-198 | "Next Question" without an answer moves on with score 0 and nothing revealed. |
| Cards.NextBreak | pages/revise_flashcards.py:139 | Finds the first newline followed by `### ` at or after a position. |
| Cards.SplitCards | pages/revise_flashcards.py:139 | `re.split(r'\n(?=### )', text)`: cut at every newline followed by `### `, dropping that newline; the result always has at least one card. |
| Cards.JoinSplit | pages/revise_flashcards.py:139 | Joining the cards with the newlines the split dropped gives the deck back. |
| Cards.SplitIsValid | pages/revise_flashcards.py:139 | There is at least one card, every card after the first starts with `### `, and no card contains a newline followed by `### `. |
| Cards.SplitJoin | pages/revise_flashcards.py:139 | Splitting the join of valid cards gives those cards back. |
| Cards.NoCardsIffEmpty | pages/revise_flashcards.py:139-142 | The split is `[""]` exactly when the deck is empty. |
| RevisePage.ShowCards | pages/revise_flashcards.py:139-147 | "No flashcards" exactly for an empty deck. Otherwise the cards are a valid split that joins back to the deck, and a card is shown exactly when the index is below the number of cards. |
| RevisePage.FromNotes | pages/revise_flashcards.py:91-136 | Blank notes stop the page. An existing deck is read and stripped. Otherwise the generator is called once, and its reply is stripped, stored and shown. |
| RevisePage.ReviseVisit | pages/revise_flashcards.py:26-136 | One visit: no key stops the page. A topic visit needs the note file and revises the note. A content visit first rewrites `<content>.md` with the aggregate deck and revises that. |
| RevisePage.RunRevisePage | pages/revise_flashcards.py:26-147 | The page run produces exactly the outcome, store and generator use of `ReviseVisit`. |
| RevisePage.GeneratesOnlyForNewTopicDeck | pages/revise_flashcards.py:50-136 | The generator runs exactly on a topic visit with an API key, a non-blank note and no deck yet. Content revision never calls it. |
| RevisePage.MissingNoteStops | pages/revise_flashcards.py:58-60 | A topic visit whose note is missing stops with a warning, makes no call and writes nothing. |
| RevisePage.GeneratedDeckIsStoredStripped | pages/revise_flashcards.py:132-139 | A newly generated topic deck is stored stripped, and the cards shown join back to that stored text. |
| RevisePage.ContentVisitRewritesDeck | pages/revise_flashcards.py:64-86 | Content revision leaves the store with `<content>.md` overwritten by the aggregate deck and nothing else changed. |
| RevisePage.ContentVisitWithoutTopicDecks | pages/revise_flashcards.py:70-93 | With no topic deck, content revision writes an empty `<content>.md` and stops on blank notes. |
| RevisePage.TopicRevisitMakesNoCall | pages/revise_flashcards.py:129-136 | A visit that got as far as the deck, repeated on the store it left, makes no generator call and gives the same outcome and store. |
| RevisePage.DeckIgnoresNoteEdits | pages/revise_flashcards.py:58-131 | Once a topic deck exists, editing the note to any other non-blank text does not change what the page shows. |
| CoursePage.LoadContentList | pages/course_page.py:37-41 | The stored content list, or the empty list when there is none. |
| CoursePage.AddContent | pages/course_page.py:76-80 | A non-empty, unlisted name is appended and the list written. Otherwise the store is unchanged. |
| CoursePage.DeletedWithContent | pages/course_page.py:159-182 | The files a content delete removes: its topic list, notes starting with `<item>_`, the deck `<item>.md` and decks starting with `<item>_`, and the quiz `<item>.json` and quiz files starting with `<item>_`. |
| CoursePage.NoteDoomed | pages/course_page.py:164-169 | The note clean-up test: the name starts with `<item>_`. |
| CoursePage.DeckDoomed | pages/course_page.py:171-176 | The deck clean-up test: the name is `<item>.md` or starts with `<item>_`. |
| CoursePage.QuizDoomed | pages/course_page.py:178-182 | The quiz clean-up test: the name is `<item>.json` or starts with `<item>_`. |
| CoursePage.ContentDeleted | pages/course_page.py:152-182 | After deleting an item: the content list is written without it; no topic list, note, deck, quiz or fingerprint named after it remains; every other file is kept unchanged. |
| CoursePage.DeleteContent | pages/course_page.py:152-182 | The list write, the topic-list removal and the three clean-up loops leave exactly `ContentDeleted`. |
| CoursePage.DeleteReachesLongerContent | pages/course_page.py:160-182 | Deleting `item` also deletes the note, decks, quiz and fingerprint of any content named `item_...`, while its list entry and topic list stay. |
| TopicPage.LoadTopics | pages/topic_page.py:43-47 | The stored topic list, or the empty list when there is none. |
| TopicPage.AddTopic | pages/topic_page.py:106-110 | A non-empty, unlisted topic is appended and the list written. Otherwise the store is unchanged. |
| TopicPage.TopicDeleted | pages/topic_page.py:158-165 | After deleting a topic: the topic list is written without it and its note is gone; every other file, its deck included, is unchanged. |
| TopicPage.DeleteTopic | pages/topic_page.py:158-165 | The page's delete leaves exactly `TopicDeleted`. |
| TopicPage.DeletedTopicStillAggregated | pages/topic_page.py:158-165 | A deleted topic's deck stays and the content's aggregate deck is the same as before. |
| TopicEditor.LoadNote | pages/topic_editor.py:39-42 | The note's text, or `""` when there is no note. |
| TopicEditor.NoteText | pages/topic_editor.py:39-42 | The editor's initial text: the note's text, or "" when there is no note file. |
| TopicEditor.SaveNote | pages/topic_editor.py:57-59 | The note is overwritten with the editor's text. |
| TopicEditor.SaveThenLoad | pages/topic_editor.py:39-59 | A saved note loads back as saved, and no other file changes. |
| TopicEditor.NoteNamesCollide | pages/topic_editor.py:36 | Two different content and topic pairs can name the same note file. |
| Locator.FindSmartStudyPath | streamlit_app.py:9-20 | The result is the first device, in partition order, that does not start with "C:" and where the folder can be created. The local folder is the result exactly when there is no such device. |
| Locator.Eligible | streamlit_app.py:11-12 | A partition is tried unless its device name starts with `C:`. |
| Locator.SystemDriveOnly | streamlit_app.py:10-12 | With only a system drive, the local folder is used. |
| Locator.SkipsUnwritableDrive | streamlit_app.py:13-18 | A drive where `makedirs` fails is skipped for the next one. |
| App.LoadCourses | streamlit_app.py:31-35 | The stored course list, or the empty list when there is none. |
| App.CoursesIn | streamlit_app.py:31-35 | The course list of a store: the stored list, or the empty list when there is no course file. |
| App.SaveCourses | streamlit_app.py:37-39 | The course file is overwritten with the list. |
| App.SaveThenLoadCourses | streamlit_app.py:31-39 | Saving then loading the course list returns it. |
| App.AddCourse | streamlit_app.py:138-147 | A non-empty name appends a course with the given id and creation time; an empty one changes nothing. A fresh id keeps the ids pairwise different. |
| App.CourseDeleted | streamlit_app.py:184-188 | After deleting a course: the list holds no course with that id and nothing remains under `revisions/<id>`; every other file is unchanged. |
| App.DeleteCourse | streamlit_app.py:184-188 | The list write and the tree removal leave exactly `CourseDeleted`. |
| App.SaveApiKey | streamlit_app.py:98-113 | A non-empty input is stripped, written to `api_key.txt` and put in the session; an empty one changes nothing. |
| App.RestoreApiKey | streamlit_app.py:60-62 | With no key in the session, the stored key, stripped, is put there; otherwise nothing changes. |
| App.BlankKeyStopsPages | streamlit_app.py:108-113 | Saving a whitespace-only key stores the empty key. The pages then find no key, even when the environment has one. |
| App.SavedKeyIsRestored | streamlit_app.py:60-113 | A key saved in one session is restored, stripped, in a new session. |

## Left out

- JSON encoding and decoding are not modelled. A JSON file holds its decoded value, so a corrupt file and the `json.load` error it raises are not modelled.
- A JSON value of the wrong shape in a file is not modelled either. Each folder holds documents of one kind.
- Folders are implicit. `os.makedirs(..., exist_ok=True)` is not modelled, and a missing folder lists as empty. The quiz page would raise on `os.listdir` of a missing flashcards folder; the model instead stops with "no flashcards" and writes nothing in both cases.
- The prompts, the model name, the temperature and the OpenAI client are not modelled. Each generator is a parameter returning a reply or a failure.
- A failure is any exception of the call, including `json.loads` of a quiz reply. The page raising is modelled as the `GeneratorError` outcome.
- MD5 is an uninterpreted function to 32-character lower-case hex digests. Collisions are not excluded.
- `random.sample` is any permutation. Uniformity is not modelled.
- `psutil`, the real `os.makedirs` and `os.path.abspath` are not modelled. Each is an input of `Locator.FindSmartStudyPath`.
- Path joining is not modelled. Files are keyed by folder and name, so path separators and unusual characters in names are not modelled.
- The session checks for a selected course, content or topic are not modelled. The selection is given as arguments.
- Streamlit rendering is not modelled: widgets, markdown, reruns, page switches and the confirm/cancel flags of the delete dialogs. The radio default of the quiz page is not modelled either.
- Concurrency between browser sessions sharing the directory is not modelled.
- QuizPage.RunQuizPage: the display of `len(quiz_data)` is not modelled. When a running session quiz differs from a regenerated file, only the outcome records both quizzes.
- Text-mode newline translation is not modelled. Python reads "\r\n" and "\r" back as "\n", and on Windows writes "\n" as "\r\n". The store keeps text exactly as written (`Store.Disk.ReadText`, `Store.Disk.Write`).
- TopicEditor.SaveThenLoad: in Python a note holding "\r" loads back with "\n" in its place, so the round trip holds only for notes without "\r". The reason is that newline translation is not modelled.
- RevisePage.TopicRevisitMakesNoCall: the second visit reads the stored deck back through newline translation. The same outcome therefore holds in Python only for a generated deck without "\r". For example, "### A\r\n### B" shows `["### A\r", "### B"]` on the first visit and `["### A", "### B"]` on the second.
- App.SavedKeyIsRestored: a key holding "\r" inside would come back with "\n", for the same reason.
- Text.SortNames: models `sorted` only on duplicate-free lists, as `os.listdir` returns. The pages never sort anything else.
- RevisePage.RunRevisePage: the `not cards` test is not modelled, because `re.split` never returns an empty list.

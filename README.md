# PDF question answering and productivity screens, modelled in Dafny

The system has three parts, and this project models the core logic of each.

- **The question-answering backend** (`backend/app/main.py`).
  - `chunk_text` splits an uploaded document into paragraphs at blank lines. It packs them greedily into chunks under a token budget. Each time a chunk is flushed, a share of its last paragraphs (the overlap) is carried into the next chunk.
  - `truncate_chunks` keeps the longest prefix of the retrieved chunks that fits the prompt budget.
  - `get_answer` then decides whether to summarise the kept chunks before it builds the prompt.
- **The Pomodoro screen** (`app/screens/PomodoroScreen.tsx`). It shows a 25-minute countdown as `MM:SS`. The countdown can be started, stopped and reset, and a scroll gesture moves it by ten minutes.
- **The task screen** (`app/screens/TasksScreen.tsx`). It holds a list of tasks and the input form that creates them. Each task can be marked complete or not complete.

Files:

- `text.dfy`: whitespace as Python's `strip` and JavaScript's `trim` see it, trimming, and `sep.join`.
- `tokens.dfy`: token sums over an abstract tokenizer.
- `chunking.dfy`: `chunk_text`.
  - `PackParagraphs` is the source's loop, kept as a loop. It is proved to return exactly the chunks that a reference fold `Pack`/`Segments` describes.
  - Properties of the chunking are proved about that fold: coverage, order, the overlap, the budget, the empty chunk, and the chunk count.
- `truncation.dfy`: `truncate_chunks`, proved against the recursive reference `Truncated`, and the prompt branch of `get_answer`.
- `pomodoro.dfy`: `formatTime` with a parser proving that it round-trips, and a class `PomodoroTimer` for the screen's state and event handlers.
- `tasks.dfy`: a class `TaskManager` for the screen's state, with `addTask` and `toggleCompletion`, and lemmas about the pure list update `Toggled`.

The token counter `count_tokens` is a parameter `count: string -> nat` of every operation that needs it. Every property proved holds for any tokenizer.

## Model

| member | source | states |
|---|---|---|
| Text.Trim | backend/app/main.py:79 | `strip`: the result is the slice of the input between an all-whitespace prefix and an all-whitespace suffix. It neither starts nor ends with whitespace. It is empty exactly when the input is all whitespace. |
| Text.Join | backend/app/main.py:86 | `sep.join`: no parts give the empty string, and otherwise the result begins with the first part. |
| Chunking.SplitBlankLines | backend/app/main.py:79 | `text.split("\n\n")` always yields at least one piece, even for the empty text. |
| Chunking.SplitBlankLinesJoin | backend/app/main.py:79 | Joining the pieces of `text.split("\n\n")` back with `"\n\n"` gives the original text, so the split loses nothing. |
| Chunking.SplitPiecesHaveNoBlankLine | backend/app/main.py:79 | The text is cut at every separator, taking the leftmost one in a longer run of newlines: no piece contains `"\n\n"`, and no piece but the last ends in a newline. With `SplitBlankLinesJoin` this pins the pieces down. |
| Chunking.SplitBlankLinesAllSpace | backend/app/main.py:79 | A text is all whitespace exactly when every piece of its split is. |
| Chunking.NonBlank | backend/app/main.py:79 | The comprehension `[p.strip() for p in pieces if p.strip()]` yields at most one paragraph per piece, each non-empty with no whitespace at either end. It yields nothing exactly when every piece is blank. |
| Chunking.NonBlankSingle | backend/app/main.py:79 | A single piece yields its stripped text when that is not empty, and nothing otherwise. |
| Chunking.NonBlankConcat | backend/app/main.py:79 | The comprehension works piece by piece and keeps their order: the paragraphs of `a + b` are those of `a` followed by those of `b`. With `NonBlankSingle` this determines the paragraphs of any list of pieces. |
| Chunking.Paragraphs | backend/app/main.py:79 | A document has at most as many paragraphs as its split has pieces, and every paragraph is non-empty with no whitespace at either end. |
| Chunking.ParagraphsEmpty | backend/app/main.py:79 | A document has no paragraph exactly when it is empty or all whitespace. |
| Chunking.OverlapLenIsTruncation | backend/app/main.py:87 | `int(len(current) * overlap)` is the exact product truncated toward zero, for negative overlaps too. |
| Chunking.OverlapLenBounds | backend/app/main.py:87 | The `overlap_len` of a non-negative overlap is never negative, and one of at most 1 is at most `len(current)`. |
| Chunking.DefaultOverlapLen | backend/app/main.py:78-87 | With the default overlap 0.2, the carried length is `len(current) // 5`. |
| Chunking.Kept | backend/app/main.py:87-88 | The number of paragraphs carried over never exceeds the length of the flushed chunk. |
| Chunking.Carry | backend/app/main.py:87-88 | After a flush, `current` is the last `Kept` paragraphs of the flushed chunk: the last `int(len*overlap)` of them, all of them when that exceeds the length, and none when it is not positive. |
| Chunking.Pack | backend/app/main.py:83-91 | After `i` paragraphs, the open chunk starts at or before `i`, and strictly before it once a paragraph has been read. At most `i` chunks have been flushed. |
| Chunking.PackShapeHolds | backend/app/main.py:83-91 | After every paragraph, the flushed chunks are well-formed ranges that start at paragraph 0 and are chained through the overlap, and the open chunk starts where the last flushed chunk's overlap begins. |
| Chunking.PackAdvance | backend/app/main.py:84-91 | One loop pass on the reference fold. Over budget: the open chunk is flushed, and the new open chunk is the carried suffix plus the paragraph. Otherwise the paragraph joins the open chunk. |
| Chunking.Segments | backend/app/main.py:83-93 | The chunks as paragraph ranges lie within the paragraphs, and there are at most paragraphs + 1 of them. |
| Chunking.Render | backend/app/main.py:86-93 | Rendering gives one string per range; `RenderIndex` states what each string is. |
| Chunking.SegmentsTile | backend/app/main.py:83-93 | The chunks, as paragraph ranges, tile the document: there are chunks exactly when there are paragraphs, the first starts at paragraph 0, the last ends at the last paragraph, and neighbours overlap exactly by the carried paragraphs. |
| Chunking.TilesCover | backend/app/main.py:83-93 | Every paragraph lies in some chunk, and chunk starts never move back, so paragraphs keep their original order across chunks. |
| Chunking.RenderIndex | backend/app/main.py:86 | Each chunk is `"\n".join` of a contiguous run of paragraphs, so paragraphs keep their order within a chunk. |
| Chunking.SegmentsBudget | backend/app/main.py:84-90 | Every chunk either fits the token budget or ends at most one paragraph after the previous chunk: it is only the carried overlap plus the one paragraph that overflowed. |
| Chunking.SegmentsEmpty | backend/app/main.py:81-86 | Only the first chunk can be an empty range, and one is empty exactly when the first paragraph alone exceeds the budget. |
| Chunking.RenderEmpty | backend/app/main.py:79-86 | Because paragraphs are never empty, a chunk is `""` exactly when its range is empty. |
| Chunking.PassKeeps | backend/app/main.py:84-91 | One pass keeps the chunks already appended and appends at most one. The new `current` is a tail of the old one followed by the paragraph. `current_tokens` stays the token sum of `current`. |
| Chunking.ExpectedStep | backend/app/main.py:84-91 | One pass of the loop takes the variables the reference fold predicts after `i` paragraphs to those it predicts after `i + 1`. |
| Chunking.RunExpected | backend/app/main.py:83-91 | After any number of passes, the loop's `chunks`, `current` and `current_tokens` are the rendered flushed chunks, the open chunk and its token count. |
| Chunking.RunInvariants | backend/app/main.py:84-91 | After every pass, `current_tokens` equals the token sum of `current`, and `current` is the open range of the fold, which is non-empty once a paragraph has been read. |
| Chunking.RunDone | backend/app/main.py:92-93 | After the last paragraph, appending the open chunk, when there is one, gives exactly the reference chunks. |
| Chunking.PackParagraphs | backend/app/main.py:81-93 | The loop of `chunk_text` returns exactly the reference chunks `Render(Segments(...))` of its paragraphs. |
| Chunking.ChunksShape | backend/app/main.py:85-94 | The reference chunks of a text: none exactly when the text is blank, at most one more than the paragraphs, and a `""` chunk exactly when the first paragraph alone exceeds the budget. |
| Chunking.ChunkText | backend/app/main.py:78-94 | `chunk_text` returns the reference chunks of its paragraphs. It returns none exactly when the text is blank, at most paragraphs + 1 chunks, and contains `""` exactly when the first paragraph exceeds the budget. |
| Tokens.SumTokensBound | backend/app/main.py:89 | `sum(count_tokens(p) for p in xs)` is at least the count of each element. |
| Tokens.SumTokensConcat | backend/app/main.py:89 | The token sum of a concatenation is the sum of the two parts' sums. |
| Truncation.Truncated | backend/app/main.py:148-157 | The reference truncation never returns more chunks than it is given. |
| Truncation.TruncatedPrefix | backend/app/main.py:148-157 | The result is a prefix of the input that fits the budget, or is empty. When it is shorter than the input, the next chunk would overflow, even if later chunks would fit. |
| Truncation.TruncatedFits | backend/app/main.py:148-157 | With a non-negative budget, the kept chunks' token sum is at most the budget. |
| Truncation.TruncatedLongest | backend/app/main.py:148-157 | No longer prefix fits the budget: the result is the longest fitting prefix. |
| Truncation.TruncatedIdempotent | backend/app/main.py:148-157 | Truncating an already truncated list with the same budget changes nothing. |
| Truncation.TruncateChunks | backend/app/main.py:148-157 | The loop with its `break` returns exactly the reference truncation. |
| Truncation.PlanPrompt | backend/app/main.py:173-180 | After `truncate_chunks` with the default 3000, the test `sum(...) > 3000` is always false. The prompt is always the kept chunks joined by blank lines, followed by the question. |
| Pomodoro.Decimal | app/screens/PomodoroScreen.tsx:14 | JavaScript's decimal notation of a non-negative integer: digits only, no leading zero, one digit exactly below 10, and at most two exactly below 100. |
| Pomodoro.ParseDecimalOfDecimal | app/screens/PomodoroScreen.tsx:14 | Reading the decimal notation of `n` back gives `n`. |
| Pomodoro.Pad2Digits | app/screens/PomodoroScreen.tsx:14 | A field padded with `'0'` below 10 is at least two digits long, exactly two below 100, has no leading `'0'` from 10 on, and reads back as its value. |
| Pomodoro.FormatTime | app/screens/PomodoroScreen.tsx:11-15 | The string is minutes `s / 60`, a colon, and seconds `s % 60`. Each field has at least two digits, and the seconds field starts with 0 to 5. From ten minutes on the minutes field has no leading zero, so `100:00` is never `0100:00`. The string is exactly five characters `MM:SS` iff `s < 6000`. |
| Pomodoro.ParseFormatTime | app/screens/PomodoroScreen.tsx:11-15 | Every displayed time parses back to the number of seconds it shows. |
| Pomodoro.FormatTimeInjective | app/screens/PomodoroScreen.tsx:11-15 | Two different times never look the same. |
| Pomodoro.PomodoroTimer.constructor | app/screens/PomodoroScreen.tsx:5-8 | Initial state: 1500 seconds, not running, not scrolling. |
| Pomodoro.PomodoroTimer.ToggleTimer | app/screens/PomodoroScreen.tsx:18-36 | Running becomes stopped and stopped becomes running. The time is unchanged, and `timer >= 0` is kept. |
| Pomodoro.PomodoroTimer.Tick | app/screens/PomodoroScreen.tsx:23-31 | A tick from a positive time decrements it by exactly 1 and keeps it running. A tick at `timer <= 0` sets it to 0 and stops it. |
| Pomodoro.PomodoroTimer.ResetTimer | app/screens/PomodoroScreen.tsx:39-45 | Whatever the state before, the timer is stopped at 1500 seconds. |
| Pomodoro.PomodoroTimer.HandleScroll | app/screens/PomodoroScreen.tsx:48-63 | The first event of a gesture sets `max(timer - 600, 0)` for a positive offset and `timer + 600` otherwise, with no ceiling. Later events of the same gesture change nothing, so a gesture makes at most one adjustment, and `timer >= 0` is kept. |
| Pomodoro.PomodoroTimer.HandleScrollEnd | app/screens/PomodoroScreen.tsx:65-67 | Only `isScrolling` is cleared, and this ends the gesture. |
| Tasks.SequentialIdsDistinct | app/screens/TasksScreen.tsx:23 | Under the invariant that the task at index `i` has id `i + 1`, no two tasks share an id. |
| Tasks.Toggled | app/screens/TasksScreen.tsx:40-45 | The `map` keeps the length and every id. It negates `isCompleted` of the tasks whose id matches and leaves their other fields alone. Every other task is unchanged. |
| Tasks.ToggledTwice | app/screens/TasksScreen.tsx:41-43 | Toggling the same id twice restores the original list. |
| Tasks.ToggledMissing | app/screens/TasksScreen.tsx:41-43 | An id that no task has leaves the list unchanged. |
| Tasks.ToggledSequential | app/screens/TasksScreen.tsx:41-43 | With sequential ids, toggling an id in range changes only the task at position `id - 1`. |
| Tasks.TaskManager.constructor | app/screens/TasksScreen.tsx:10-17 | Initial state: no tasks, empty inputs, category Work, priority Medium, progress 0. |
| Tasks.TaskManager.AddTask | app/screens/TasksScreen.tsx:20-37 | A title that `trim` reduces to nothing changes nothing. Otherwise exactly one task is appended behind the unchanged old tasks. It has id `length + 1`, the untrimmed title, the current description, category, priority, due date and progress, and `isCompleted == false`. Title, description and due date are cleared; category, priority and progress stay. Sequential ids are kept. |
| Tasks.TaskManager.ToggleCompletion | app/screens/TasksScreen.tsx:40-45 | The list becomes `Toggled(tasks, id)`, and sequential ids are kept. |
| Tasks.TaskManager.SetTaskTitle | app/screens/TasksScreen.tsx:77 | The title field takes the typed text. |
| Tasks.TaskManager.SetTaskDescription | app/screens/TasksScreen.tsx:83 | The description field takes the typed text. |
| Tasks.TaskManager.SetDueDate | app/screens/TasksScreen.tsx:89 | The due-date field takes the typed text. |
| Tasks.TaskManager.SelectCategory | app/screens/TasksScreen.tsx:103 | The selected category becomes the pressed one. |
| Tasks.TaskManager.SelectPriority | app/screens/TasksScreen.tsx:122 | The selected priority becomes the pressed one. |

## Left out

- `count_tokens` (the GPT-2 encoding through tiktoken) is not modelled. It is a parameter from strings to natural numbers, and every property holds for any such function.
- `count_tokens` never fails in the model. tiktoken's `encode` raises `ValueError` on text that contains a special token such as `<|endoftext|>`. So `chunk_text` raises on a document with such a paragraph, where the model returns chunks.
- The float `overlap` is the exact ratio `Ratio(num, den)`, and the default 0.2 is `Ratio(1, 5)`. Floating-point rounding of `len(current) * overlap` is not modelled. For 0.2 it makes no difference at any realistic length, because the double nearest 0.2 lies slightly above it.
- Python's `strip` and JavaScript's `trim` are modelled by their whitespace sets over single code points. Strings are sequences of Dafny characters, with no surrogate pairs.
- The rest of `get_answer` is not modelled: the PDF-id lookup, the embedding search, the error results, the `try`/`except` and the call to the language model. `PlanPrompt` covers only the branch after truncation. The `get_summary_cached` call in the summarising branch is kept abstract, as the plan `Summarise(chunks, question)`, because that branch is never taken.
- The HTTP routes, CORS, PDF text extraction, the embedding model, the faiss index, the sqlite summary cache with its SHA-256 keys, and `ask_llama` are not modelled. They are I/O and foreign libraries.
- `app/index.tsx` is not part of this model. It is a network client with a file picker and a view switch.
- Pomodoro.PomodoroTimer.Tick: the interval timer of `setInterval`/`clearInterval` and the `intervalId` handle are not modelled. A tick is a discrete event, and its precondition `isRunning` stands for the interval being live, which it is exactly while the timer runs.
- Pomodoro.PomodoroTimer.HandleScroll: the offset is a Dafny `real`, so a NaN offset is not modelled. React batches state updates, and events that arrive before a re-render are not modelled either; each handler sees the state its predecessor left.
- Pomodoro.FormatTime: takes a natural number. The timer is never negative and never fractional, so JavaScript's formatting of negative, fractional and very large numbers is not modelled.
- The dark-mode switch, the styles and all rendering of both screens are not modelled. The task screen never calls `setTaskProgress`, so no progress setter is modelled.
- Text.Join: its contract states only the empty case and that the result begins with the first part. The full joined string is what the chunking and truncation proofs use, through `SplitBlankLinesJoin` and `RenderIndex`.

# BlazingBoard typing trainer — a Dafny model of its core

BlazingBoard shows the user a story fifteen words at a time, records each word
the user types (a word is committed when the input field ends with a space),
marks the words typed so far as correct or wrong, runs a sixty-second clock and,
when the text or the time runs out, shows the score. The story comes from the
server function `get_story`, which keeps the last story in memory and asks the
database for the latest one at most once an hour.

The model has five modules:

- `Wrappers` — `Option` and `Result`.
- `Models` — the `Story` record and `Story::default()`.
- `Backend` — the body filter on a fetched story (`FilterBody`, checked against
  the one-pass definition `Normalized`), the pure transition `ServeAt` of one
  `get_story` call, and the class `StoryCache`. Its two fields are the two
  mutex-guarded globals; `GetStory` is proved equal to `ServeAt`.
- `TypingText` — `split_whitespace` (`Words`), `chunks(15)` (`Chunks`), the
  current and next chunk, and `str::trim`.
- `Typing` — the session state as a value (`Session`) with its transitions:
  `AfterInput` (the `oninput` handler), `AfterTick` (one second of the timer
  loop), `AfterRender` and `ViewOf` (the per-render classification, counting,
  input gating and final tallies). The class `TypingWords` holds the
  component's signals as fields; its methods `Input`, `Tick` and `Render` are
  proved equal to those transitions. The render's counting loop is the method
  `TallyChunk`.
- `Scenarios` — runs over the text "alpha beta gamma" as lemmas, and client
  methods that drive the classes through a timed-out session and a cache
  timeline.

Behaviour of the code that the model keeps (where an idealised description of
the system would say otherwise):

- A refresh returns the story with its body filtered, but stores it raw. A read
  served from the cache therefore returns the unfiltered body
  (`Backend.CachedBodyIsRaw`).
- A failed refresh returns an error and still keeps the new refresh time. The
  page then shows `Story::default()`, not the cached story. Later reads within
  the hour return the story stored before the failure
  (`Backend.NoRetryAfterFailure`).
- The input handler adds to the totals the counts taken at the last render,
  before the word being committed. So the last word of every chunk is never
  scored. Typing "alpha beta gamma" perfectly scores 2 out of 2, not 3 out of 3
  (`Scenarios.PerfectRun`, and the invariant `Typing.Session.Valid`).
- An entry made only of spaces commits the empty word, which is then marked
  wrong (`Scenarios.EmptyCommit`).
- The timer loop does not stop at 0. The clock stays non-negative only because
  the render that shows a finished session stops the clock
  (`Typing.TickThenRender`).

## Model

| member | source | states |
|---|---|---|
| `Backend.StoryCache.constructor` | blazing_board/src/backend.rs:33-54 | the cache starts never refreshed (time 0) and holds the default story |
| `Backend.StoryCache.GetStory` | blazing_board/src/backend.rs:57-111 | one call's new refresh time, new stored story, reply and whether the database was queried are exactly those of `ServeAt` on the old state |
| `Backend.NeverRefreshedQueries` | blazing_board/src/backend.rs:61-63 | with refresh time 0 a call always queries the database and stamps the time to `now` |
| `Backend.RefreshWindow` | blazing_board/src/backend.rs:60-70 | a call queries iff the refresh time is 0 or more than 3600 seconds old; a call that does not query changes nothing and returns the stored story unchanged; a call that queries stamps `now` |
| `Backend.HourBoundary` | blazing_board/src/backend.rs:66 | exactly 3600 seconds after a refresh is still fresh, 3601 seconds is stale |
| `Backend.FailedRefresh` | blazing_board/src/backend.rs:77-106 | when the query fails or finds no story, the reply is an error (the query's own message for a failed query, "No stories found" for the empty stream), the refresh time stays at `now` and the stored story is unchanged |
| `Backend.SuccessfulRefresh` | blazing_board/src/backend.rs:89-104 | on success the fetched story is stored raw; the reply has the same title, sources and time, and its body is the filtered body, which is clean |
| `Backend.SecondCallWithinHour` | blazing_board/src/backend.rs:60-110 | after a refresh at a nonzero time, a call within the next hour does not query and returns the stored story; a successful first reply is that story with its body filtered |
| `Backend.NoRetryAfterFailure` | blazing_board/src/backend.rs:62-110 | after a failed refresh, a call within the hour does not retry and returns the story stored before the failure, though the failing call returned an error |
| `Backend.CachedBodyIsRaw` | blazing_board/src/backend.rs:91-109 | after a successful refresh a cached read returns the raw story, and it equals the refresh's reply iff the raw body was already clean |
| `Backend.QueriesAreAnHourApart` | blazing_board/src/backend.rs:66-68 | of two consecutive calls, the first at a nonzero time, both query only if the second is more than 3600 seconds after the first |
| `Backend.AtMostOneQueryPerHour` | blazing_board/src/backend.rs:60-70 | over any run of calls at nonzero times, any two database queries are more than 3600 seconds apart, and every query is more than 3600 seconds after the refresh the run started from |
| `Backend.ReplaceCharAppend` | blazing_board/src/backend.rs:93-97 | a single-character `replace` distributes over concatenation |
| `Backend.FilterBodyOne` | blazing_board/src/backend.rs:91-97 | the replacement chain maps one character as the one-pass filter does: newline to one space, `,` `.` `:` `;` to nothing, anything else to itself |
| `Backend.FilterBodyAppend` | blazing_board/src/backend.rs:91-97 | the replacement chain distributes over concatenation |
| `Backend.FilterBodyIsNormalized` | blazing_board/src/backend.rs:91-97 | the chain of five replacements equals the one-pass, character-by-character filter |
| `Backend.NormalizedIsClean` | blazing_board/src/backend.rs:91-97 | the one-pass filter's output has no newline, comma, period, colon or semicolon |
| `Backend.NormalizedOfClean` | blazing_board/src/backend.rs:91-97 | the one-pass filter leaves a clean body unchanged |
| `Backend.FilterBodyIsClean` | blazing_board/src/backend.rs:91-97 | the filtered body contains none of `\n` `,` `.` `:` `;` |
| `Backend.FilterBodyIdempotent` | blazing_board/src/backend.rs:91-97 | filtering twice equals filtering once |
| `Backend.FilterBodySplit` | blazing_board/src/backend.rs:91-97 | around any character, the filter output is the filtered prefix, that character's image (itself, one space for a newline, nothing for stripped punctuation) and the filtered suffix, so other characters keep their order |
| `TypingText.FlattenAppend` | blazing_board/src/main.rs:76-79 | flattening distributes over concatenation of chunk lists |
| `TypingText.WordsFromAreTokens` | blazing_board/src/main.rs:68-72 | scanning from a word in progress with no whitespace yields only non-empty words without whitespace |
| `TypingText.WordsAreTokens` | blazing_board/src/main.rs:68-72 | every word from `split_whitespace` is non-empty and has no whitespace |
| `TypingText.WordsFromKeepText` | blazing_board/src/main.rs:68-72 | the scan's words concatenated are the word in progress followed by the input's non-whitespace characters |
| `TypingText.WordsKeepText` | blazing_board/src/main.rs:68-72 | the words concatenated are exactly the body's non-whitespace characters, in order |
| `TypingText.WordsFromSkipToken` | blazing_board/src/main.rs:68-72 | a run of non-whitespace is carried into the word in progress |
| `TypingText.WordsFromSplit` | blazing_board/src/main.rs:68-72 | from a word in progress, a whitespace character ends the scan's words of the left part, and the right part is split on its own |
| `TypingText.WordsSplit` | blazing_board/src/main.rs:68-72 | the words of a body split at any whitespace character are the words of the part before it followed by the words of the part after it |
| `TypingText.WordsOfJoin` | blazing_board/src/main.rs:68-72 | splitting a list of tokens joined by single spaces gives back the list |
| `TypingText.ChunksFlatten` | blazing_board/src/main.rs:76-79 | the chunks concatenated are the word list |
| `TypingText.ChunkAt` | blazing_board/src/main.rs:76-81 | there are ceil(n/15) chunks and chunk k is the words from 15k to 15k+15 (or the end) |
| `TypingText.ChunkSizes` | blazing_board/src/main.rs:76-81 | no chunk is empty or longer than 15, and all but the last have exactly 15 words |
| `TypingText.ChunkProjection` | blazing_board/src/main.rs:100-115 | the current chunk is the 15-word slice at 15i when words remain there, else empty; the next chunk is the current chunk of i+1 |
| `TypingText.TrimStartDrops` | blazing_board/src/main.rs:167 | `trim_start` keeps a suffix, drops only whitespace, and stops at a non-whitespace character |
| `TypingText.TrimEndDrops` | blazing_board/src/main.rs:167 | `trim_end` keeps a prefix, drops only whitespace, and stops at a non-whitespace character |
| `TypingText.TrimIsCore` | blazing_board/src/main.rs:167 | the committed text is the slice of the entry between leading and trailing whitespace, empty or bounded by non-whitespace characters |
| `TypingText.TrimTypedWord` | blazing_board/src/main.rs:165-167 | a word without whitespace followed by a space commits exactly that word, including the empty word |
| `TypingText.TrimSpaceOnly` | blazing_board/src/main.rs:165-167 | an entry of whitespace only commits the empty string |
| `Typing.NewlinesToSpacesKeepWordsFrom` | blazing_board/src/backend.rs:93 | replacing newlines with spaces does not change the scan's words |
| `Typing.NewlinesToSpacesKeepWords` | blazing_board/src/backend.rs:93 | the server's newline-to-space replacement keeps the words the page splits the body into |
| `Typing.MarkMeaning` | blazing_board/src/main.rs:123-137 | a position is marked correct iff it is before the cursor, has an entry and the entry equals the word exactly; wrong iff the entry differs; current iff it is at the cursor |
| `Typing.CountJudged` | blazing_board/src/main.rs:123-137 | when the judged marks are exactly the first n, correct plus wrong counts is n |
| `Typing.JudgedCount` | blazing_board/src/main.rs:123-137 | a chunk's correct plus wrong count is the least of the cursor, the number of entries and the chunk length |
| `Typing.TallyChunk` | blazing_board/src/main.rs:123-137 | the render loop's two counters end as the numbers of words marked correct and wrong |
| `Typing.ClosingAChunk` | blazing_board/src/main.rs:170-175 | closing a chunk at its last word adds counts that bring the totals to all but the last word of each closed chunk |
| `Typing.NewSessionValid` | blazing_board/src/main.rs:52-58 | the initial signals over the chunks of a body satisfy the session invariant and the clock is settled |
| `Typing.InputKeepsValid` | blazing_board/src/main.rs:157-183 | an input keeps the invariant (one entry per word before the cursor, the cursor inside the chunk, totals covering all but each closed chunk's last word) and keeps the clock settled |
| `Typing.InputIgnoredWhenClosed` | blazing_board/src/main.rs:154 | input while the field is hidden changes nothing |
| `Typing.InputWithoutCommit` | blazing_board/src/main.rs:160-163 | an accepted input runs the clock and records the first input time, never changing it later; without a trailing space only the live text changes (main.rs:180-182) |
| `Typing.InputCommit` | blazing_board/src/main.rs:165-179 | a commit clears the live text and either appends the trimmed entry and moves the cursor by one, or closes the chunk: cursor 0, next chunk, entries cleared, totals grown by the chunk's counts before the commit |
| `Typing.InputAdvancesAtMostOneChunk` | blazing_board/src/main.rs:170-177 | the chunk index never decreases and grows by at most one per input |
| `Typing.TickThenRender` | blazing_board/src/main.rs:91-98 | a tick lowers the clock by one iff it runs; from a settled clock it stays non-negative and the next render settles it again (main.rs:192) |
| `Typing.RenderOnlyStopsClock` | blazing_board/src/main.rs:188-192 | a render changes only the running flag, clearing it exactly when the session is over, so re-rendering never scores again |
| `Typing.ScoreCountsJudgedWords` | blazing_board/src/main.rs:193-199 | the final judged count is all but the last word of each closed chunk plus the words before the cursor, the correct count is the totals plus the current chunk's, and correct never exceeds judged |
| `Typing.ViewShowsScoreWhenOver` | blazing_board/src/main.rs:154 | the view holds a score, and lists the story's sources, exactly when no chunk or no time is left (main.rs:154, 200-212), and one mark per word of the current chunk |
| `Typing.TypingWords.constructor` | blazing_board/src/main.rs:52-89 | a session over the loaded story (the default one when loading failed), split and chunked, in the initial state; the invariant holds |
| `Typing.TypingWords.Input` | blazing_board/src/main.rs:157-183 | the new signals are `AfterInput` of the old ones, and the invariant is kept |
| `Typing.TypingWords.Tick` | blazing_board/src/main.rs:94-96 | the new clock is `AfterTick` of the old state |
| `Typing.TypingWords.Render` | blazing_board/src/main.rs:100-199 | the view is `ViewOf` the state before the render (title, timer, tip, the marked current chunk, the next chunk, and the score and sources once the session is over) and the new state is `AfterRender` of it |
| `Scenarios.TextIsOneChunk` | blazing_board/src/main.rs:68-79 | "alpha beta gamma" is one chunk of three words |
| `Scenarios.PerfectRun` | blazing_board/src/main.rs:157-199 | typing the three words correctly closes the only chunk and scores 2 correct out of 2 judged, the last word unscored |
| `Scenarios.RunWithTypo` | blazing_board/src/main.rs:123-137 | typing "gmma" for "beta" scores one correct and one wrong |
| `Scenarios.EmptyCommit` | blazing_board/src/main.rs:165-168 | a lone space commits the empty word, which is then marked wrong |

## Left out

- Rendering: the rsx markup, CSS, assets, the GitHub link and the `App` component (main.rs lines 14-48 and the markup in 117-216). What a render shows is modelled as a `View` value: the title, the timer, whether the tip is shown, the current chunk with each word's mark, the next chunk, and, once the session is over, the score and the story's sources. The links' labels and the page layout are not.
- Concurrency: the `OnceCell`, `Arc` and `Mutex` globals of backend.rs (lines 20-54) become two fields of one object. Calls are sequential, so single-flight refresh under the lock is not modelled.
- Async scheduling: `use_resource`, `use_coroutine` and the one-second `sleep` loop. The loop body is the method `Tick`. Ticks, inputs and renders are interleaved sequentially by the caller.
- The render before the story has loaded: it shows the default story (main.rs line 64). The model starts the session from the loaded result.
- Typing.TypingWords.Input: the counts it adds at a chunk's close are those of the last render. The model computes them from the state before the input, which assumes the page re-rendered after the previous input.
- The database: the Firestore client, its query and the environment configuration (backend.rs lines 74-86 and 113-143). The query's outcome is a parameter of `GetStory`.
- Backend.StoryCache.GetStory: uses one clock reading. In the stale branch the source reads the clock twice (lines 65 and 67), so the stored time may be a later reading than the one compared.
- The clock: `Timestamp::now` and `Utc::now` are parameters (`now`). `DateTime<Utc>` is kept as whole epoch seconds.
- Integer widths: `i64` times, `i32` timer and counters are unbounded integers. Their wrap-around is not modelled and cannot arise over a session.
- Floating point: the accuracy ratio and words per minute (main.rs lines 193-198) are not computed. `Score` exposes their integer numerators and denominators: correct words, judged words and elapsed seconds. The source does not guard these divisions, so zero judged words gives NaN accuracy.
- `Story::default()`: the bundled text (`include_str!`) and its time are parameters of `Models.DefaultStory`.
- content_updater/src/main.rs is not part of this model: it scrapes pages with a headless browser, which is pure I/O.

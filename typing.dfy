/**
 * The typing component without its markup: the session state held in
 * signals, the input handler that commits words, the second-by-second timer,
 * and the per-render work that classifies the words of the current chunk,
 * counts them, gates the input field and, once the session is over, computes
 * the final tallies.
 */
module Typing {
  import opened Wrappers
  import opened Models
  import opened TypingText
  import Backend

  /** Seconds on the clock when a session starts. */
  const SessionSeconds := 60

  /** Title shown when the story has none. */
  const DefaultTitleShown := ""

  lemma {:induction false} NewlinesToSpacesKeepWordsFrom(s: string, current: string)
    ensures WordsFrom(Backend.ReplaceChar(s, '\n', " "), current) == WordsFrom(s, current)
    decreases |s|
  {
    if s != [] {
      var h: string := if s[0] == '\n' then " " else [s[0]];
      var rest := Backend.ReplaceChar(s[1..], '\n', " ");
      assert Backend.ReplaceChar(s, '\n', " ") == h + rest;
      assert (h + rest)[0] == h[0] && (h + rest)[1..] == rest;
      assert IsWhitespace(h[0]) <==> IsWhitespace(s[0]);
      NewlinesToSpacesKeepWordsFrom(s[1..], []);
      NewlinesToSpacesKeepWordsFrom(s[1..], current + [s[0]]);
    }
  }

  /**
   * The server's first replacement, newline to space, keeps the word
   * boundaries: the typed words of a body are the same before and after it.
   */
  lemma NewlinesToSpacesKeepWords(s: string)
    ensures Words(Backend.ReplaceChar(s, '\n', " ")) == Words(s)
  {
    NewlinesToSpacesKeepWordsFrom(s, []);
  }

  // ---------------------------------------------------------------------------
  // Classifying the words of the current chunk
  // ---------------------------------------------------------------------------

  /**
   * How a word of the current chunk is rendered: a word before the cursor is
   * marked correct or wrong against what the user committed for it (it is not
   * rendered at all if nothing was committed for it), the word at the cursor is
   * the current one, and later words are plain.
   */
  datatype WordMark = PreviousCorrect | PreviousWrong | NotShown | CurrentWord | Upcoming

  function MarkAt(chunk: seq<string>, userWords: seq<string>, wordIndex: nat, i: nat): WordMark
  {
    if i < wordIndex then
      if |userWords| > i then
        if i < |chunk| && userWords[i] == chunk[i] then PreviousCorrect else PreviousWrong
      else NotShown
    else if i == wordIndex then CurrentWord
    else Upcoming
  }

  function Marks(chunk: seq<string>, userWords: seq<string>, wordIndex: nat): (ms: seq<WordMark>)
    ensures |ms| == |chunk|
  {
    seq(|chunk|, i requires 0 <= i < |chunk| => MarkAt(chunk, userWords, wordIndex, i))
  }

  /** How many of `ms` are `m`. */
  function Count(ms: seq<WordMark>, m: WordMark): nat
  {
    if ms == [] then 0
    else Count(ms[..|ms| - 1], m) + (if ms[|ms| - 1] == m then 1 else 0)
  }

  function CorrectIn(chunk: seq<string>, userWords: seq<string>, wordIndex: nat): nat
  {
    Count(Marks(chunk, userWords, wordIndex), PreviousCorrect)
  }

  function WrongIn(chunk: seq<string>, userWords: seq<string>, wordIndex: nat): nat
  {
    Count(Marks(chunk, userWords, wordIndex), PreviousWrong)
  }

  /**
   * Position `i` is marked correct exactly when it lies before the cursor, an
   * entry was committed for it and that entry equals the word (exact,
   * case-sensitive equality), and wrong exactly when the entry differs.
   */
  lemma MarkMeaning(chunk: seq<string>, userWords: seq<string>, wordIndex: nat, i: nat)
    requires i < |chunk|
    ensures Marks(chunk, userWords, wordIndex)[i] == PreviousCorrect <==>
      i < wordIndex && i < |userWords| && userWords[i] == chunk[i]
    ensures Marks(chunk, userWords, wordIndex)[i] == PreviousWrong <==>
      i < wordIndex && i < |userWords| && userWords[i] != chunk[i]
    ensures Marks(chunk, userWords, wordIndex)[i] == CurrentWord <==> i == wordIndex
  {
  }

  predicate IsJudged(m: WordMark)
  {
    m == PreviousCorrect || m == PreviousWrong
  }

  lemma {:induction false} CountJudged(ms: seq<WordMark>, n: nat)
    requires n <= |ms|
    requires forall i :: 0 <= i < |ms| ==> (IsJudged(ms[i]) <==> i < n)
    ensures Count(ms, PreviousCorrect) + Count(ms, PreviousWrong) == n
  {
    if ms != [] {
      var init := ms[..|ms| - 1];
      var n' := if n == |ms| then n - 1 else n;
      forall i | 0 <= i < |init| ensures IsJudged(init[i]) <==> i < n' {
        assert init[i] == ms[i];
      }
      CountJudged(init, n');
    }
  }

  /**
   * The counts of a chunk cover exactly the positions before the cursor that
   * have an entry: correct plus wrong is the smallest of the cursor, the number
   * of entries and the chunk length.
   */
  lemma JudgedCount(chunk: seq<string>, userWords: seq<string>, wordIndex: nat)
    ensures CorrectIn(chunk, userWords, wordIndex) + WrongIn(chunk, userWords, wordIndex) ==
      Min(Min(wordIndex, |userWords|), |chunk|)
  {
    var ms := Marks(chunk, userWords, wordIndex);
    var n := Min(Min(wordIndex, |userWords|), |chunk|);
    forall i | 0 <= i < |ms| ensures IsJudged(ms[i]) <==> i < n {
      assert ms[i] == MarkAt(chunk, userWords, wordIndex, i);
    }
    CountJudged(ms, n);
  }

  /**
   * The counting done while rendering the current chunk: one pass over its
   * words, adding one to the correct or the wrong counter for each word before
   * the cursor that has an entry.
   */
  method TallyChunk(chunk: seq<string>, userWords: seq<string>, wordIndex: nat) returns (nbCorrect: nat, nbWrong: nat)
    ensures nbCorrect == CorrectIn(chunk, userWords, wordIndex)
    ensures nbWrong == WrongIn(chunk, userWords, wordIndex)
  {
    ghost var ms := Marks(chunk, userWords, wordIndex);
    nbCorrect, nbWrong := 0, 0;
    var i := 0;
    while i < |chunk|
      invariant 0 <= i <= |chunk|
      invariant nbCorrect == Count(ms[..i], PreviousCorrect)
      invariant nbWrong == Count(ms[..i], PreviousWrong)
    {
      assert ms[..i + 1][..i] == ms[..i];
      assert ms[i] == MarkAt(chunk, userWords, wordIndex, i);
      if i < wordIndex {
        if |userWords| > i {
          if userWords[i] == chunk[i] {
            nbCorrect := nbCorrect + 1;
          } else {
            nbWrong := nbWrong + 1;
          }
        }
      }
      i := i + 1;
    }
    assert ms[..i] == ms;
  }

  // ---------------------------------------------------------------------------
  // Session state and its transitions
  // ---------------------------------------------------------------------------

  /**
   * Words judged in the first `k` chunks once they are closed: all but the
   * last word of each, since a chunk's counts are captured before its last
   * word is entered.
   */
  function ClosedJudged(chunks: seq<seq<string>>, k: nat): int
    requires k <= |chunks|
  {
    if k == 0 then 0 else ClosedJudged(chunks, k - 1) + |chunks[k - 1]| - 1
  }

  /**
   * Closing chunk `k` when its last word is committed adds the counts of the
   * words before it: the totals then cover all but the last word of each of
   * the first `k + 1` chunks.
   */
  lemma ClosingAChunk(chunks: seq<seq<string>>, k: nat, userWords: seq<string>, totals: int)
    requires k < |chunks| && |userWords| + 1 == |chunks[k]|
    requires totals == ClosedJudged(chunks, k)
    ensures totals + CorrectIn(chunks[k], userWords, |userWords|) + WrongIn(chunks[k], userWords, |userWords|)
      == ClosedJudged(chunks, k + 1)
  {
    JudgedCount(chunks[k], userWords, |userWords|);
  }

  /** `ends_with(" ")`. */
  predicate EndsWithSpace(s: string)
  {
    |s| > 0 && s[|s| - 1] == ' '
  }

  /**
   * The signals of the typing component, with the chunks of the story they
   * are about: the chunk and the word in it the cursor is at, the live text of
   * the input field, the entries committed in this chunk, the time of the
   * first input, the totals of the closed chunks and the clock.
   */
  datatype Session = Session(
    chunks: seq<seq<string>>, chunkIndex: nat, wordIndex: nat, currentText: string,
    userWords: seq<string>, startTypingAt: Option<int>, allCorrect: nat, allWrong: nat,
    timerValue: int, timerActive: bool)
  {
    function Current(): seq<string>
    {
      CurrentChunk(chunks, chunkIndex)
    }

    function Next(): seq<string>
    {
      NextChunk(chunks, chunkIndex)
    }

    /** The input field exists (and so input is accepted) while a chunk is left and time remains. */
    predicate Accepting()
    {
      chunkIndex < |chunks| && timerValue > 0
    }

    /**
     * The session invariant: no empty chunk, one entry per word before the
     * cursor, the cursor inside the current chunk, and the totals covering all
     * but the last word of each closed chunk.
     */
    ghost predicate Valid()
    {
      (forall k :: 0 <= k < |chunks| ==> |chunks[k]| > 0) &&
      chunkIndex <= |chunks| &&
      |userWords| == wordIndex &&
      (chunkIndex < |chunks| ==> wordIndex < |chunks[chunkIndex]|) &&
      (chunkIndex == |chunks| ==> wordIndex == 0) &&
      allCorrect + allWrong == ClosedJudged(chunks, chunkIndex)
    }

    /** The clock never shows a negative value, and runs only while it is positive. */
    predicate TimerSettled()
    {
      timerValue >= 0 && (timerActive ==> timerValue > 0)
    }
  }

  /** The signals' initial values, over the chunks of the story. */
  function NewSession(chunks: seq<seq<string>>): Session
  {
    Session(chunks, 0, 0, [], [], None, 0, 0, SessionSeconds, false)
  }

  /**
   * The `oninput` handler given the field's whole new value. It does nothing
   * while the input is closed. Otherwise it starts the clock (recording the
   * first input time), and if the value ends with a space it commits the
   * trimmed value and moves the cursor, closing the chunk when the cursor
   * passes its last word; the chunk's totals are the counts of the state
   * before this input, as the last render computed them.
   */
  function AfterInput(st: Session, data: string, now: int): Session
  {
    if !st.Accepting() then st
    else
      var started := st.(timerActive := true,
        startTypingAt := if st.startTypingAt.None? then Some(now) else st.startTypingAt);
      if !EndsWithSpace(data) then
        started.(currentText := data)
      else if st.wordIndex + 1 >= |st.Current()| then
        started.(wordIndex := 0, chunkIndex := st.chunkIndex + 1,
          allCorrect := st.allCorrect + CorrectIn(st.Current(), st.userWords, st.wordIndex),
          allWrong := st.allWrong + WrongIn(st.Current(), st.userWords, st.wordIndex),
          userWords := [], currentText := [])
      else
        started.(wordIndex := st.wordIndex + 1, userWords := st.userWords + [Trim(data)], currentText := [])
  }

  /** One second of the timer loop: down by one while running, with no floor. */
  function AfterTick(st: Session): Session
  {
    if st.timerActive then st.(timerValue := st.timerValue - 1) else st
  }

  /** The one change a render makes: rendering a finished session stops the clock. */
  function AfterRender(st: Session): Session
  {
    if st.Accepting() then st else st.(timerActive := false)
  }

  /** The tallies shown once the session is over. */
  datatype Score = Score(correct: nat, judged: nat, seconds: int)

  /**
   * What one render shows: the title, the current and the next chunk, how each
   * word of the current chunk is marked, the clock, whether the typing tip is
   * shown, and either the input field (no score, no sources) or the final
   * score followed by the story's sources.
   */
  datatype View = View(
    title: string, current: seq<string>, next: seq<string>, marks: seq<WordMark>,
    timer: int, showTips: bool, score: Option<Score>, sources: seq<string>)

  /**
   * The score of a finished session at time `now`: the closed chunks' totals
   * plus the current chunk's counts, and the seconds since the first input (0
   * when there was none).
   */
  function ScoreOf(st: Session, now: int): Score
  {
    var correct := st.allCorrect + CorrectIn(st.Current(), st.userWords, st.wordIndex);
    var wrong := st.allWrong + WrongIn(st.Current(), st.userWords, st.wordIndex);
    Score(correct, correct + wrong, if st.startTypingAt.Some? then now - st.startTypingAt.value else 0)
  }

  function ViewOf(story: Story, st: Session, now: int): View
  {
    View(story.title.UnwrapOr(DefaultTitleShown), st.Current(), st.Next(),
      Marks(st.Current(), st.userWords, st.wordIndex), st.timerValue, st.timerValue == SessionSeconds,
      if st.Accepting() then None else Some(ScoreOf(st, now)),
      if st.Accepting() then [] else story.sources)
  }

  // ---------------------------------------------------------------------------
  // Properties of the transitions
  // ---------------------------------------------------------------------------

  /** A new session over the chunks of a story is valid and its clock is settled. */
  lemma NewSessionValid(body: string)
    ensures NewSession(Chunks(Words(body))).Valid() && NewSession(Chunks(Words(body))).TimerSettled()
  {
    ChunkSizes(Words(body));
  }

  /** Input never breaks the session invariant, nor the clock's. */
  lemma InputKeepsValid(st: Session, data: string, now: int)
    requires st.Valid()
    ensures AfterInput(st, data, now).Valid()
    ensures st.TimerSettled() ==> AfterInput(st, data, now).TimerSettled()
  {
    if st.Accepting() && EndsWithSpace(data) && st.wordIndex + 1 >= |st.Current()| {
      ClosingAChunk(st.chunks, st.chunkIndex, st.userWords, st.allCorrect + st.allWrong);
    }
  }

  /** Input while the field is hidden (the session is over) changes nothing. */
  lemma InputIgnoredWhenClosed(st: Session, data: string, now: int)
    requires !st.Accepting()
    ensures AfterInput(st, data, now) == st
  {
  }

  /**
   * An accepted input runs the clock and records the first input time, never
   * changing it later; an entry without a trailing space changes only the live
   * text, and no word, index or total.
   */
  lemma InputWithoutCommit(st: Session, data: string, now: int)
    requires st.Accepting()
    ensures var st' := AfterInput(st, data, now);
      st'.timerActive && st'.timerValue == st.timerValue && st'.chunks == st.chunks &&
      st'.startTypingAt == (if st.startTypingAt.None? then Some(now) else st.startTypingAt)
    ensures !EndsWithSpace(data) ==>
      AfterInput(st, data, now).currentText == data &&
      AfterInput(st, data, now).(currentText := st.currentText, timerActive := st.timerActive,
        startTypingAt := st.startTypingAt) == st
  {
  }

  /**
   * A commit clears the live text and either appends the trimmed entry (the
   * empty one included) and moves the cursor by one, or, at the chunk's last
   * word, closes the chunk: cursor back to 0, next chunk, entries cleared and
   * the totals grown by the chunk's counts before the commit.
   */
  lemma InputCommit(st: Session, data: string, now: int)
    requires st.Accepting() && EndsWithSpace(data)
    ensures var st' := AfterInput(st, data, now);
      st'.currentText == [] &&
      (if st.wordIndex + 1 < |st.Current()| then
        st'.chunkIndex == st.chunkIndex && st'.wordIndex == st.wordIndex + 1 &&
        st'.userWords == st.userWords + [Trim(data)] &&
        st'.allCorrect == st.allCorrect && st'.allWrong == st.allWrong
      else
        st'.chunkIndex == st.chunkIndex + 1 && st'.wordIndex == 0 && st'.userWords == [] &&
        st'.allCorrect == st.allCorrect + CorrectIn(st.Current(), st.userWords, st.wordIndex) &&
        st'.allWrong == st.allWrong + WrongIn(st.Current(), st.userWords, st.wordIndex))
  {
  }

  /** The chunk index never decreases and grows by at most one per input. */
  lemma InputAdvancesAtMostOneChunk(st: Session, data: string, now: int)
    ensures st.chunkIndex <= AfterInput(st, data, now).chunkIndex <= st.chunkIndex + 1
  {
  }

  /**
   * The clock goes down by one per tick while running and stays put
   * otherwise; from a settled clock it never goes below 0, and the next render
   * settles it again.
   */
  lemma TickThenRender(st: Session)
    requires st.TimerSettled()
    ensures AfterTick(st).timerValue == if st.timerActive then st.timerValue - 1 else st.timerValue
    ensures AfterTick(st).timerValue >= 0
    ensures AfterRender(AfterTick(st)).TimerSettled()
  {
  }

  /**
   * A render changes nothing but the clock's running flag, which it clears
   * exactly when the session is over: re-rendering never scores a word again.
   */
  lemma RenderOnlyStopsClock(st: Session)
    ensures AfterRender(st).timerActive == (st.timerActive && st.Accepting())
    ensures AfterRender(st).(timerActive := st.timerActive) == st
  {
  }

  /**
   * A finished session's score: the judged words are all but the last of each
   * closed chunk plus those before the cursor in the current one, and at most
   * all of them are correct.
   */
  lemma ScoreCountsJudgedWords(st: Session, now: int)
    requires st.Valid()
    ensures ScoreOf(st, now).judged == ClosedJudged(st.chunks, st.chunkIndex) + st.wordIndex
    ensures ScoreOf(st, now).correct <= ScoreOf(st, now).judged
    ensures ScoreOf(st, now).correct == st.allCorrect + CorrectIn(st.Current(), st.userWords, st.wordIndex)
  {
    JudgedCount(st.Current(), st.userWords, st.wordIndex);
  }

  /**
   * The view shows a score, and the story's sources, exactly when the input
   * field is gone, and marks each word of the current chunk.
   */
  lemma ViewShowsScoreWhenOver(story: Story, st: Session, now: int)
    ensures ViewOf(story, st, now).score.Some? <==> !(st.chunkIndex < |st.chunks| && st.timerValue > 0)
    ensures ViewOf(story, st, now).sources == if st.Accepting() then [] else story.sources
    ensures |ViewOf(story, st, now).marks| == |st.Current()|
  {
  }

  // ---------------------------------------------------------------------------
  // The component
  // ---------------------------------------------------------------------------

  /**
   * The typing component. The signals become fields; the story and its chunks
   * are fixed once the story has loaded.
   */
  class TypingWords {
    const story: Story
    const chunks: seq<seq<string>>
    var chunkIndex: nat
    var wordIndex: nat
    var currentText: string
    var userWords: seq<string>
    var startTypingAt: Option<int>
    var allCorrect: nat
    var allWrong: nat
    var timerValue: int
    var timerActive: bool

    function State(): Session
      reads this
    {
      Session(chunks, chunkIndex, wordIndex, currentText, userWords, startTypingAt,
        allCorrect, allWrong, timerValue, timerActive)
    }

    ghost predicate Valid()
      reads this
    {
      State().Valid() && chunks == Chunks(Words(story.body))
    }

    /**
     * A session over the loaded story, or over the default story when loading
     * failed: the body split into words and chunked, nothing typed, sixty
     * seconds on a stopped clock.
     */
    constructor (loaded: Result<Story, Backend.ServerFnError>, defaultStory: Story)
      ensures story == loaded.UnwrapOr(defaultStory)
      ensures State() == NewSession(Chunks(Words(story.body)))
      ensures Valid() && State().TimerSettled()
    {
      var shown := loaded.UnwrapOr(defaultStory);
      story := shown;
      chunks := Chunks(Words(shown.body));
      chunkIndex, wordIndex := 0, 0;
      currentText, userWords := [], [];
      startTypingAt := None;
      allCorrect, allWrong := 0, 0;
      timerValue, timerActive := SessionSeconds, false;
      new;
      assert State() == NewSession(chunks);
      NewSessionValid(shown.body);
    }

    /** `oninput`, as `AfterInput` describes it. */
    method Input(data: string, now: int)
      requires Valid()
      modifies this
      ensures State() == AfterInput(old(State()), data, now)
      ensures Valid()
    {
      InputKeepsValid(State(), data, now);
      if !(chunkIndex < |chunks| && timerValue > 0) {
        return;
      }
      var chunk := CurrentChunk(chunks, chunkIndex);
      var nbCorrect, nbWrong := TallyChunk(chunk, userWords, wordIndex);
      timerActive := true;
      if startTypingAt.None? {
        startTypingAt := Some(now);
      }
      if EndsWithSpace(data) {
        userWords := userWords + [Trim(data)];
        var nextWordIndex := wordIndex + 1;
        if nextWordIndex >= |chunk| {
          wordIndex := 0;
          chunkIndex := chunkIndex + 1;
          allCorrect := allCorrect + nbCorrect;
          allWrong := allWrong + nbWrong;
          userWords := [];
        } else {
          wordIndex := nextWordIndex;
        }
        currentText := [];
      } else {
        currentText := data;
      }
    }

    /** One second of the timer loop. */
    method Tick()
      modifies this`timerValue
      ensures State() == AfterTick(old(State()))
    {
      if timerActive {
        timerValue := timerValue - 1;
      }
    }

    /**
     * One render at time `now`: the current chunk's words are classified and
     * counted, and when the input is closed the clock is stopped and the score
     * computed and shown with the sources.
     */
    method Render(now: int) returns (v: View)
      requires Valid()
      modifies this`timerActive
      ensures State() == AfterRender(old(State()))
      ensures v == ViewOf(story, old(State()), now)
      ensures Valid()
    {
      var chunk := CurrentChunk(chunks, chunkIndex);
      var nbCorrect, nbWrong := TallyChunk(chunk, userWords, wordIndex);
      var score := None;
      var sources := [];
      if !(chunkIndex < |chunks| && timerValue > 0) {
        timerActive := false;
        var seconds := 0;
        if startTypingAt.Some? {
          seconds := now - startTypingAt.value;
        }
        score := Some(Score(allCorrect + nbCorrect, allCorrect + nbCorrect + allWrong + nbWrong, seconds));
        sources := story.sources;
      }
      v := View(story.title.UnwrapOr(DefaultTitleShown), chunk, NextChunk(chunks, chunkIndex),
        Marks(chunk, userWords, wordIndex), timerValue, timerValue == SessionSeconds, score, sources);
    }
  }
}

/**
 * Short runs of the two components: lemmas over the session transitions for
 * the text "alpha beta gamma", and client code driving the classes whose
 * assertions follow from the methods' contracts alone.
 */
module Scenarios {
  import opened Wrappers
  import opened Models
  import opened TypingText
  import opened Typing
  import Backend

  const Text := "alpha beta gamma"
  const TextWords := ["alpha", "beta", "gamma"]

  lemma TextIsOneChunk()
    ensures Chunks(Words(Text)) == [TextWords]
  {
    assert Join(TextWords) == Text;
    WordsOfJoin(TextWords);
    assert Chunks(TextWords) == [TextWords];
  }

  /** What the entries typed below commit. */
  lemma TypedEntries()
    ensures Trim("alpha ") == "alpha" && Trim("beta ") == "beta" && Trim("gamma ") == "gamma"
    ensures Trim("gmma ") == "gmma" && Trim(" ") == ""
  {
  }

  /** The counts of three marks, unfolded from the end. */
  lemma CountThree(a: WordMark, b: WordMark, c: WordMark, m: WordMark)
    ensures Count([a, b, c], m) == (if a == m then 1 else 0) + (if b == m then 1 else 0) + (if c == m then 1 else 0)
  {
    var ms := [a, b, c];
    assert ms[..2] == [a, b] && [a, b][..1] == [a] && [a][..0] == [];
    assert Count(ms, m) == Count([a, b], m) + (if c == m then 1 else 0);
    assert Count([a, b], m) == Count([a], m) + (if b == m then 1 else 0);
    assert Count([a], m) == Count([], m) + (if a == m then 1 else 0);
  }

  lemma TwoCorrect()
    ensures CorrectIn(TextWords, ["alpha", "beta"], 2) == 2 && WrongIn(TextWords, ["alpha", "beta"], 2) == 0
  {
    assert Marks(TextWords, ["alpha", "beta"], 2) == [PreviousCorrect, PreviousCorrect, CurrentWord];
    CountThree(PreviousCorrect, PreviousCorrect, CurrentWord, PreviousCorrect);
    CountThree(PreviousCorrect, PreviousCorrect, CurrentWord, PreviousWrong);
  }

  lemma OneCorrectOneWrong()
    ensures CorrectIn(TextWords, ["alpha", "gmma"], 2) == 1 && WrongIn(TextWords, ["alpha", "gmma"], 2) == 1
  {
    assert Marks(TextWords, ["alpha", "gmma"], 2) == [PreviousCorrect, PreviousWrong, CurrentWord];
    CountThree(PreviousCorrect, PreviousWrong, CurrentWord, PreviousCorrect);
    CountThree(PreviousCorrect, PreviousWrong, CurrentWord, PreviousWrong);
  }

  /**
   * The text typed perfectly. Committing the last word closes the chunk with
   * the counts taken before it, so the finished session scores 2 out of 2.
   */
  lemma PerfectRun()
    ensures var s0 := NewSession(Chunks(Words(Text)));
      var s1 := AfterInput(s0, "alpha ", 100);
      var s2 := AfterInput(s1, "beta ", 101);
      var s3 := AfterInput(s2, "gamma ", 102);
      s3.chunkIndex == 1 && s3.allCorrect == 2 && s3.allWrong == 0 && !s3.Accepting() &&
      ScoreOf(s3, 130) == Score(2, 2, 30)
  {
    TextIsOneChunk();
    TypedEntries();
    var s0 := NewSession([TextWords]);
    var s1 := AfterInput(s0, "alpha ", 100);
    assert s1.userWords == ["alpha"] && s1.wordIndex == 1 && s1.startTypingAt == Some(100);
    var s2 := AfterInput(s1, "beta ", 101);
    assert s2.userWords == ["alpha", "beta"] && s2.wordIndex == 2 && s2.startTypingAt == Some(100);
    TwoCorrect();
    var s3 := AfterInput(s2, "gamma ", 102);
    assert s3.chunkIndex == 1 && s3.allCorrect == 2 && s3.allWrong == 0;
    assert s3.Current() == [] && Marks([], [], 0) == [];
  }

  /** The same text with a typo in the second word: one correct, one wrong. */
  lemma RunWithTypo()
    ensures var s0 := NewSession(Chunks(Words(Text)));
      var s3 := AfterInput(AfterInput(AfterInput(s0, "alpha ", 0), "gmma ", 1), "gamma ", 2);
      s3.allCorrect == 1 && s3.allWrong == 1 && !s3.Accepting()
  {
    TextIsOneChunk();
    TypedEntries();
    var s1 := AfterInput(NewSession([TextWords]), "alpha ", 0);
    var s2 := AfterInput(s1, "gmma ", 1);
    assert s2.userWords == ["alpha", "gmma"] && s2.wordIndex == 2;
    OneCorrectOneWrong();
  }

  /** An entry of spaces only commits the empty word, which is then marked wrong. */
  lemma EmptyCommit()
    ensures var s1 := AfterInput(NewSession(Chunks(Words(Text))), " ", 0);
      s1.userWords == [""] && s1.wordIndex == 1 &&
      Marks(s1.Current(), s1.userWords, s1.wordIndex)[0] == PreviousWrong
  {
    TextIsOneChunk();
    TypedEntries();
  }

  /** Sixty seconds of a running clock close the input whatever the progress. */
  method ClockRunsOut(defaultStory: Story)
  {
    TextIsOneChunk();
    TypedEntries();
    var session := new TypingWords(Ok(Story([], Text, None, 0)), defaultStory);
    session.Input("al", 0);
    var n := 0;
    while n < 60
      invariant 0 <= n <= 60
      invariant session.Valid() && session.timerActive
      invariant session.timerValue == 60 - n
      invariant session.chunkIndex == 0
    {
      session.Tick();
      n := n + 1;
    }
    assert session.timerValue == 0 && !session.State().Accepting();
    var view := session.Render(60);
    assert view.score.Some? && !session.timerActive && session.State().TimerSettled();
    session.Tick();
    assert session.timerValue == 0;
  }

  /**
   * The cache on its first request queries the database and stamps the time;
   * a request an hour later is served the stored raw story; a second later a
   * failed refresh returns an error but keeps the stored story.
   */
  method CacheTimeline(defaultStory: Story, latest: Story)
  {
    var cache := new Backend.StoryCache(defaultStory);
    var r, queried := cache.GetStory(1000, Backend.Streamed(Some(latest)));
    assert queried && cache.lastTime == 1000 && cache.lastStory == latest;
    var r2, queried2 := cache.GetStory(4600, Backend.QueryFailed("unreachable"));
    assert !queried2 && r2 == Ok(latest);
    var r3, queried3 := cache.GetStory(4601, Backend.QueryFailed("unreachable"));
    assert queried3 && r3.Err? && cache.lastTime == 4601 && cache.lastStory == latest;
  }
}

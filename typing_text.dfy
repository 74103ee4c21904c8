/**
 * The pure text handling of the typing component: splitting the story body
 * into words, grouping the words into chunks of fifteen, choosing the current
 * and the next chunk, and trimming a committed entry.
 */
module TypingText {

  // ---------------------------------------------------------------------------
  // Whitespace and words
  // ---------------------------------------------------------------------------

  /** `char::is_whitespace`: the characters with the Unicode White_Space property. */
  predicate IsWhitespace(c: char)
  {
    ('\t' <= c <= '\r') || c == ' ' || c == '\U{85}' || c == '\U{A0}' || c == '\U{1680}' ||
    ('\U{2000}' <= c <= '\U{200A}') || c == '\U{2028}' || c == '\U{2029}' ||
    c == '\U{202F}' || c == '\U{205F}' || c == '\U{3000}'
  }

  predicate NoWhitespace(s: string)
  {
    forall i :: 0 <= i < |s| ==> !IsWhitespace(s[i])
  }

  /** What `split_whitespace` yields: a non-empty run of non-whitespace characters. */
  predicate IsToken(w: string)
  {
    |w| > 0 && NoWhitespace(w)
  }

  /**
   * `split_whitespace`, scanning left to right with the word read so far in
   * `current`: a whitespace character ends the current word, if any.
   */
  function WordsFrom(s: string, current: string): seq<string>
    decreases |s|
  {
    if s == [] then
      (if current == [] then [] else [current])
    else if IsWhitespace(s[0]) then
      (if current == [] then [] else [current]) + WordsFrom(s[1..], [])
    else
      WordsFrom(s[1..], current + [s[0]])
  }

  function Words(s: string): seq<string>
  {
    WordsFrom(s, [])
  }

  function Flatten<T>(ss: seq<seq<T>>): seq<T>
  {
    if ss == [] then [] else ss[0] + Flatten(ss[1..])
  }

  /** The non-whitespace characters of `s`, in order. */
  function NonWhitespace(s: string): string
  {
    if s == [] then []
    else (if IsWhitespace(s[0]) then [] else [s[0]]) + NonWhitespace(s[1..])
  }

  /** The words joined with one space between neighbours. */
  function Join(ws: seq<string>): string
  {
    if ws == [] then []
    else if |ws| == 1 then ws[0]
    else ws[0] + " " + Join(ws[1..])
  }

  lemma {:induction false} FlattenAppend<T>(a: seq<seq<T>>, b: seq<seq<T>>)
    ensures Flatten(a + b) == Flatten(a) + Flatten(b)
  {
    if a == [] {
      assert a + b == b;
    } else {
      assert (a + b)[1..] == a[1..] + b;
      FlattenAppend(a[1..], b);
    }
  }

  lemma {:induction false} WordsFromAreTokens(s: string, current: string)
    requires NoWhitespace(current)
    ensures forall k :: 0 <= k < |WordsFrom(s, current)| ==> IsToken(WordsFrom(s, current)[k])
    decreases |s|
  {
    if s == [] {
    } else if IsWhitespace(s[0]) {
      WordsFromAreTokens(s[1..], []);
    } else {
      var next := current + [s[0]];
      assert NoWhitespace(next) by {
        forall i | 0 <= i < |next| ensures !IsWhitespace(next[i]) {
          if i < |current| { assert next[i] == current[i]; }
        }
      }
      WordsFromAreTokens(s[1..], next);
    }
  }

  /** Every word of a body is non-empty and holds no whitespace. */
  lemma WordsAreTokens(s: string)
    ensures forall k :: 0 <= k < |Words(s)| ==> IsToken(Words(s)[k])
  {
    WordsFromAreTokens(s, []);
  }

  lemma {:induction false} WordsFromKeepText(s: string, current: string)
    ensures Flatten(WordsFrom(s, current)) == current + NonWhitespace(s)
    decreases |s|
  {
    if s == [] {
      if current != [] {
        assert Flatten([current]) == current + Flatten<char>([]);
      }
    } else if IsWhitespace(s[0]) {
      WordsFromKeepText(s[1..], []);
      var head: seq<string> := if current == [] then [] else [current];
      FlattenAppend(head, WordsFrom(s[1..], []));
      if current != [] {
        assert Flatten(head) == current + Flatten<char>([]);
      }
    } else {
      WordsFromKeepText(s[1..], current + [s[0]]);
    }
  }

  /** Splitting drops exactly the whitespace: the words, concatenated, are the other characters in order. */
  lemma WordsKeepText(s: string)
    ensures Flatten(Words(s)) == NonWhitespace(s)
  {
    WordsFromKeepText(s, []);
  }

  lemma {:induction false} WordsFromSkipToken(w: string, rest: string, current: string)
    requires NoWhitespace(w)
    ensures WordsFrom(w + rest, current) == WordsFrom(rest, current + w)
    decreases |w|
  {
    if w != [] {
      assert (w + rest)[0] == w[0];
      assert (w + rest)[1..] == w[1..] + rest;
      assert NoWhitespace(w[1..]) by {
        forall i | 0 <= i < |w[1..]| ensures !IsWhitespace(w[1..][i]) { assert w[1..][i] == w[i + 1]; }
      }
      WordsFromSkipToken(w[1..], rest, current + [w[0]]);
      assert current + [w[0]] + w[1..] == current + w;
    } else {
      assert w + rest == rest;
      assert current + w == current;
    }
  }

  lemma {:induction false} WordsFromSplit(a: string, c: char, b: string, current: string)
    requires IsWhitespace(c)
    ensures WordsFrom(a + [c] + b, current) == WordsFrom(a, current) + Words(b)
    decreases |a|
  {
    var head: seq<string> := if current == [] then [] else [current];
    if a == [] {
      assert a + [c] + b == [c] + b;
      assert ([c] + b)[1..] == b;
    } else {
      assert (a + [c] + b)[0] == a[0];
      assert (a + [c] + b)[1..] == a[1..] + [c] + b;
      if IsWhitespace(a[0]) {
        WordsFromSplit(a[1..], c, b, []);
        assert head + (WordsFrom(a[1..], []) + Words(b)) == (head + WordsFrom(a[1..], [])) + Words(b);
      } else {
        WordsFromSplit(a[1..], c, b, current + [a[0]]);
      }
    }
  }

  /**
   * The words split exactly at whitespace: a whitespace character always ends
   * a word, so the words around it are the words of either side.
   */
  lemma WordsSplit(a: string, c: char, b: string)
    requires IsWhitespace(c)
    ensures Words(a + [c] + b) == Words(a) + Words(b)
  {
    WordsFromSplit(a, c, b, []);
  }

  /** Splitting undoes joining with single spaces, for a list of tokens. */
  lemma {:induction false} WordsOfJoin(ws: seq<string>)
    requires forall k :: 0 <= k < |ws| ==> IsToken(ws[k])
    ensures Words(Join(ws)) == ws
  {
    if |ws| == 1 {
      WordsFromSkipToken(ws[0], [], []);
      assert ws[0] + [] == ws[0];
    } else if |ws| > 1 {
      var rest := " " + Join(ws[1..]);
      assert Join(ws) == ws[0] + rest;
      WordsFromSkipToken(ws[0], rest, []);
      assert [] + ws[0] == ws[0];
      assert rest[0] == ' ' && rest[1..] == Join(ws[1..]);
      WordsOfJoin(ws[1..]);
      assert ws == [ws[0]] + ws[1..];
    }
  }

  // ---------------------------------------------------------------------------
  // Chunks
  // ---------------------------------------------------------------------------

  /** Words shown together: `chunks(15)`. */
  const ChunkSize := 15

  /** `slice::chunks(15)`: consecutive groups of fifteen, the last one possibly shorter. */
  function Chunks<T>(ws: seq<T>): seq<seq<T>>
    decreases |ws|
  {
    if ws == [] then []
    else if |ws| <= ChunkSize then [ws]
    else [ws[..ChunkSize]] + Chunks(ws[ChunkSize..])
  }

  function Min(a: int, b: int): int
  {
    if a <= b then a else b
  }

  /** Chunking loses and reorders nothing. */
  lemma {:induction false} ChunksFlatten<T>(ws: seq<T>)
    ensures Flatten(Chunks(ws)) == ws
    decreases |ws|
  {
    if ws != [] {
      if |ws| <= ChunkSize {
        assert Flatten([ws]) == ws + Flatten<T>([]);
      } else {
        ChunksFlatten(ws[ChunkSize..]);
        FlattenAppend([ws[..ChunkSize]], Chunks(ws[ChunkSize..]));
        assert Flatten([ws[..ChunkSize]]) == ws[..ChunkSize] + Flatten<T>([]);
        assert ws == ws[..ChunkSize] + ws[ChunkSize..];
      }
    }
  }

  /** A slice of a suffix is a slice of the whole, shifted. */
  lemma SliceOfDrop<T>(ws: seq<T>, d: nat, lo: nat, hi: nat)
    requires d <= |ws| && lo <= hi <= |ws| - d
    ensures ws[d..][lo..hi] == ws[d + lo .. d + hi]
  {
    forall i | 0 <= i < hi - lo
      ensures ws[d..][lo..hi][i] == ws[d + lo .. d + hi][i]
    {
    }
  }

  /**
   * Chunk `k` is the slice of the words from `15 k` to `15 k + 15` (or the
   * end), and there are ceil(n / 15) chunks.
   */
  lemma {:induction false} ChunkAt<T>(ws: seq<T>)
    ensures |Chunks(ws)| == (|ws| + ChunkSize - 1) / ChunkSize
    ensures forall k :: 0 <= k < |Chunks(ws)| ==>
      ChunkSize * k < |ws| && Chunks(ws)[k] == ws[ChunkSize * k .. Min(ChunkSize * k + ChunkSize, |ws|)]
    decreases |ws|
  {
    if |ws| > ChunkSize {
      var tail := ws[ChunkSize..];
      ChunkAt(tail);
      var cs := Chunks(ws);
      assert cs == [ws[..ChunkSize]] + Chunks(tail);
      forall k | 0 <= k < |cs|
        ensures ChunkSize * k < |ws| && cs[k] == ws[ChunkSize * k .. Min(ChunkSize * k + ChunkSize, |ws|)]
      {
        if k > 0 {
          assert cs[k] == Chunks(tail)[k - 1];
          var lo := ChunkSize * (k - 1);
          var hi := Min(lo + ChunkSize, |tail|);
          assert ChunkSize * k == ChunkSize + lo;
          assert Min(ChunkSize * k + ChunkSize, |ws|) == ChunkSize + hi;
          SliceOfDrop(ws, ChunkSize, lo, hi);
        }
      }
    }
  }

  /** No chunk is empty, none holds more than fifteen words, and all but the last hold exactly fifteen. */
  lemma ChunkSizes<T>(ws: seq<T>)
    ensures forall k :: 0 <= k < |Chunks(ws)| ==> 0 < |Chunks(ws)[k]| <= ChunkSize
    ensures forall k :: 0 <= k < |Chunks(ws)| - 1 ==> |Chunks(ws)[k]| == ChunkSize
  {
    ChunkAt(ws);
    var cs := Chunks(ws);
    forall k | 0 <= k < |cs| ensures 0 < |cs[k]| <= ChunkSize && (k < |cs| - 1 ==> |cs[k]| == ChunkSize) {
      if k < |cs| - 1 {
        assert ChunkSize * (k + 1) < |ws| by { assert (|ws| + ChunkSize - 1) / ChunkSize > k + 1; }
      }
    }
  }

  /** The chunk the user is typing: chunk `i` while there is one, else none. */
  function CurrentChunk<T>(chunks: seq<seq<T>>, i: nat): seq<T>
  {
    if i < |chunks| then chunks[i] else []
  }

  /** The chunk shown below, for look-ahead. */
  function NextChunk<T>(chunks: seq<seq<T>>, i: nat): seq<T>
  {
    if i + 1 < |chunks| then chunks[i + 1] else []
  }

  /**
   * The two projections over the words themselves: the current chunk is the
   * slice at `15 i` when there are words there, else empty, and the next chunk
   * is the current chunk of index `i + 1`.
   */
  lemma ChunkProjection<T>(ws: seq<T>, i: nat)
    ensures CurrentChunk(Chunks(ws), i) ==
      if ChunkSize * i < |ws| then ws[ChunkSize * i .. Min(ChunkSize * i + ChunkSize, |ws|)] else []
    ensures NextChunk(Chunks(ws), i) == CurrentChunk(Chunks(ws), i + 1)
  {
    ChunkAt(ws);
    if ChunkSize * i < |ws| {
      assert i < (|ws| + ChunkSize - 1) / ChunkSize;
    }
  }

  // ---------------------------------------------------------------------------
  // Trimming a committed entry
  // ---------------------------------------------------------------------------

  /** `str::trim_start`: the suffix left once leading whitespace is dropped. */
  function TrimStart(s: string): (r: string)
    ensures |r| <= |s|
  {
    if s != [] && IsWhitespace(s[0]) then TrimStart(s[1..]) else s
  }

  /** `str::trim_end`: the prefix left once trailing whitespace is dropped. */
  function TrimEnd(s: string): (r: string)
    ensures |r| <= |s|
  {
    if s != [] && IsWhitespace(s[|s| - 1]) then TrimEnd(s[..|s| - 1]) else s
  }

  /** `str::trim`. */
  function Trim(s: string): string
  {
    TrimEnd(TrimStart(s))
  }

  /** `TrimStart` drops a run of whitespace and stops at the first other character. */
  lemma {:induction false} TrimStartDrops(s: string)
    ensures |TrimStart(s)| <= |s| && TrimStart(s) == s[|s| - |TrimStart(s)|..]
    ensures forall k :: 0 <= k < |s| - |TrimStart(s)| ==> IsWhitespace(s[k])
    ensures TrimStart(s) == [] || !IsWhitespace(TrimStart(s)[0])
  {
    if s != [] && IsWhitespace(s[0]) {
      TrimStartDrops(s[1..]);
      forall k | 0 < k < |s| - |TrimStart(s)| ensures IsWhitespace(s[k]) {
        assert s[k] == s[1..][k - 1];
      }
    }
  }

  /** `TrimEnd` drops a run of whitespace at the end and stops at the last other character. */
  lemma {:induction false} TrimEndDrops(s: string)
    ensures |TrimEnd(s)| <= |s| && TrimEnd(s) == s[..|TrimEnd(s)|]
    ensures forall k :: |TrimEnd(s)| <= k < |s| ==> IsWhitespace(s[k])
    ensures TrimEnd(s) == [] || !IsWhitespace(TrimEnd(s)[|TrimEnd(s)| - 1])
  {
    if s != [] && IsWhitespace(s[|s| - 1]) {
      TrimEndDrops(s[..|s| - 1]);
      forall k | |TrimEnd(s)| <= k < |s| - 1 ensures IsWhitespace(s[k]) {
        assert s[k] == s[..|s| - 1][k];
      }
    }
  }

  /** Where the trimmed text starts in `s`. */
  function TrimOffset(s: string): nat
  {
    |s| - |TrimStart(s)|
  }

  /**
   * What a commit appends: `Trim(s)` is the slice of `s` at `TrimOffset(s)`
   * with only whitespace before and after it; it is empty, or it starts and
   * ends with a non-whitespace character.
   */
  lemma TrimIsCore(s: string)
    ensures TrimOffset(s) + |Trim(s)| <= |s|
    ensures Trim(s) == s[TrimOffset(s) .. TrimOffset(s) + |Trim(s)|]
    ensures forall k :: 0 <= k < TrimOffset(s) ==> IsWhitespace(s[k])
    ensures forall k :: TrimOffset(s) + |Trim(s)| <= k < |s| ==> IsWhitespace(s[k])
    ensures Trim(s) == [] || (!IsWhitespace(Trim(s)[0]) && !IsWhitespace(Trim(s)[|Trim(s)| - 1]))
  {
    var t := TrimStart(s);
    var i := |s| - |t|;
    var r := TrimEnd(t);
    TrimStartDrops(s);
    TrimEndDrops(t);
    assert t == s[i..];
    assert r == t[..|r|];
    assert r == s[i .. i + |r|];
    forall k | i + |r| <= k < |s| ensures IsWhitespace(s[k]) {
      assert s[k] == t[k - i];
    }
    if r != [] {
      assert r[0] == t[0];
    }
  }

  /** A word typed and followed by a space commits exactly that word. */
  lemma TrimTypedWord(w: string)
    requires NoWhitespace(w)
    ensures Trim(w + " ") == w
  {
    var s := w + " ";
    if w == [] {
      assert TrimStart(s) == TrimStart(s[1..]);
      assert s[1..] == [];
    } else {
      assert !IsWhitespace(s[0]);
      assert TrimStart(s) == s;
      assert s[..|s| - 1] == w;
      assert TrimEnd(w) == w;
    }
  }

  /** A space alone commits the empty word: empty commits are not suppressed. */
  lemma TrimSpaceOnly(s: string)
    requires forall k :: 0 <= k < |s| ==> IsWhitespace(s[k])
    ensures Trim(s) == []
  {
    TrimIsCore(s);
  }
}

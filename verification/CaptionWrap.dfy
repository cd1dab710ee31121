/** Breaking a claim into caption lines: greedy, on word boundaries, and with the fewest lines. */
module CaptionWrap {
  import opened Text

  const MAX_CUE_CHARS := 160

  // ---- Words ----

  predicate IsWord(w: string) { w != [] && forall c | c in w :: !IsSpace(c) }

  /** How many characters `s` starts with before its first whitespace. */
  function WordEnd(s: string): (n: nat)
    ensures n <= |s| && forall c | c in s[..n] :: !IsSpace(c)
    ensures n < |s| ==> IsSpace(s[n])
    ensures s != [] && !IsSpace(s[0]) ==> n > 0
  {
    if s == [] || IsSpace(s[0]) then 0 else 1 + WordEnd(s[1..])
  }

  /** `text.split()`. */
  function Words(text: string): (words: seq<string>)
    ensures forall w | w in words :: IsWord(w)
    decreases |text|
  {
    if text == [] then []
    else if IsSpace(text[0]) then Words(text[1..])
    else [text[..WordEnd(text)]] + Words(text[WordEnd(text)..])
  }

  function Line(run: seq<string>): string { Join(run, ' ') }

  // ---- What the words are ----

  /** The text with its whitespace removed. */
  function Letters(text: string): string {
    if text == [] then [] else (if IsSpace(text[0]) then [] else [text[0]]) + Letters(text[1..])
  }

  function Concat(words: seq<string>): string {
    if words == [] then [] else words[0] + Concat(words[1..])
  }

  lemma LettersStep(text: string)
    requires text != []
    ensures Letters(text) == (if IsSpace(text[0]) then [] else [text[0]]) + Letters(text[1..])
  {
  }

  lemma {:induction false} LettersAppend(a: string, b: string)
    ensures Letters(a + b) == Letters(a) + Letters(b)
  {
    if a == [] {
      assert a + b == b;
    } else {
      LettersAppend(a[1..], b);
      assert (a + b)[1..] == a[1..] + b && (a + b)[0] == a[0];
      LettersStep(a);
      LettersStep(a + b);
      Associate(if IsSpace(a[0]) then [] else [a[0]], Letters(a[1..]), Letters(b));
    }
  }

  lemma {:induction false} LettersOfWord(w: string)
    requires forall c | c in w :: !IsSpace(c)
    ensures Letters(w) == w
  {
    if w != [] {
      assert w[0] in w;
      LettersOfWord(w[1..]);
      assert w == [w[0]] + w[1..];
    }
  }

  /** Splitting loses nothing but whitespace, and moves nothing. */
  lemma {:induction false} WordsAreTheLetters(text: string)
    ensures Concat(Words(text)) == Letters(text)
    decreases |text|
  {
    if text != [] {
      if IsSpace(text[0]) {
        WordsAreTheLetters(text[1..]);
        assert [] + Letters(text[1..]) == Letters(text[1..]);
      } else {
        var n := WordEnd(text);
        WordsAreTheLetters(text[n..]);
        LettersAppend(text[..n], text[n..]);
        LettersOfWord(text[..n]);
        assert text == text[..n] + text[n..];
        assert ([text[..n]] + Words(text[n..]))[1..] == Words(text[n..]);
      }
    }
  }

  lemma {:induction false} WordEndOf(word: string, tail: string)
    requires (forall c | c in word :: !IsSpace(c)) && (tail == [] || IsSpace(tail[0]))
    ensures WordEnd(word + tail) == |word|
  {
    if word == [] {
      assert word + tail == tail;
    } else {
      assert word[0] in word && (word + tail)[0] == word[0] && (word + tail)[1..] == word[1..] + tail;
      WordEndOf(word[1..], tail);
    }
  }

  lemma WordsOfWordThen(word: string, tail: string)
    requires IsWord(word) && (tail == [] || IsSpace(tail[0]))
    ensures Words(word + tail) == [word] + Words(tail)
  {
    WordEndOf(word, tail);
    assert word[0] in word && (word + tail)[0] == word[0];
    assert (word + tail)[..|word|] == word && (word + tail)[|word|..] == tail;
  }

  /** A text that is one word is that word. */
  lemma WordsOfOne(word: string)
    requires IsWord(word)
    ensures Words(word) == [word]
  {
    WordsOfWordThen(word, []);
    assert word + [] == word && [word] + Words([]) == [word];
  }

  lemma AssociateWords(a: seq<string>, b: seq<string>, c: seq<string>)
    ensures (a + b) + c == a + (b + c)
  {
  }

  /** Any whitespace parts a text in two: the words before it, then the words after it. */
  lemma {:induction false} WordsSplit(a: string, space: char, b: string)
    requires IsSpace(space)
    ensures Words(a + [space] + b) == Words(a) + Words(b)
    decreases |a|
  {
    var s, tail := a + [space] + b, [space] + b;
    if a == [] {
      assert s[0] == space && s[1..] == b && [] + Words(b) == Words(b);
    } else if IsSpace(a[0]) {
      assert s[0] == a[0] && s[1..] == a[1..] + [space] + b;
      WordsSplit(a[1..], space, b);
    } else {
      var n := WordEnd(a);
      var word, left := a[..n], a[n..];
      var after := left + [space] + b;
      assert a == word + left && s == word + after && after == left + tail;
      assert after[0] == if left == [] then space else left[0];
      WordsOfWordThen(word, after);
      WordsOfWordThen(word, left);
      WordsSplit(left, space, b);
      AssociateWords([word], Words(left), Words(b));
    }
  }

  /** Words joined by single spaces are split back into themselves. */
  lemma {:induction false} WordsOfLine(words: seq<string>)
    requires forall w | w in words :: IsWord(w)
    ensures Words(Line(words)) == words
  {
    if words != [] {
      assert words[0] in words && [words[0]] + words[1..] == words;
      WordsOfOne(words[0]);
      if |words| > 1 {
        WordsOfLine(words[1..]);
        WordsSplit(words[0], ' ', Line(words[1..]));
      }
    }
  }

  /** The length of a line of words: their letters and the single spaces between them. */
  function Width(run: seq<string>): nat {
    if run == [] then 0 else if |run| == 1 then |run[0]| else |run[0]| + 1 + Width(run[1..])
  }

  lemma {:induction false} LineWidth(run: seq<string>)
    ensures |Line(run)| == Width(run)
  {
    if |run| > 1 {
      LineWidth(run[1..]);
    }
  }

  lemma {:induction false} WidthSplits(a: seq<string>, b: seq<string>)
    requires a != [] && b != []
    ensures Width(a + b) == Width(a) + 1 + Width(b)
  {
    if |a| > 1 {
      assert (a + b)[1..] == a[1..] + b;
      WidthSplits(a[1..], b);
    } else {
      assert (a + b)[1..] == b;
    }
  }

  // ---- The greedy fill ----

  predicate Overflows(run: seq<string>) { Width(run) > MAX_CUE_CHARS }

  /** The runs the loop leaves: `run` is the line being filled, `rest` the words still to come. */
  function Fill(run: seq<string>, rest: seq<string>): seq<seq<string>>
    requires run != []
    decreases |rest|
  {
    if rest == [] then [run]
    else if Overflows(run + [rest[0]]) then [run] + Fill([rest[0]], rest[1..])
    else Fill(run + [rest[0]], rest[1..])
  }

  function Wrap(words: seq<string>): seq<seq<string>> {
    if words == [] then [] else Fill([words[0]], words[1..])
  }

  function Lines(runs: seq<seq<string>>): (lines: seq<string>)
    ensures |lines| == |runs| && forall k | 0 <= k < |runs| :: lines[k] == Line(runs[k])
  {
    seq(|runs|, k requires 0 <= k < |runs| => Line(runs[k]))
  }

  function Flatten(runs: seq<seq<string>>): seq<string> {
    if runs == [] then [] else runs[0] + Flatten(runs[1..])
  }

  /** A readable split: no empty line, and a line is too long only when it is one word. */
  predicate Readable(runs: seq<seq<string>>) {
    forall r | r in runs :: r != [] && (|r| == 1 || !Overflows(r))
  }

  lemma {:induction false} FillKeepsWords(run: seq<string>, rest: seq<string>)
    requires run != []
    ensures Flatten(Fill(run, rest)) == run + rest
    decreases |rest|
  {
    if rest == [] {
      assert Flatten([run]) == run + [];
    } else {
      var next := run + [rest[0]];
      assert [rest[0]] + rest[1..] == rest;
      if Overflows(next) {
        FillKeepsWords([rest[0]], rest[1..]);
        var runs := Fill([rest[0]], rest[1..]);
        assert ([run] + runs)[1..] == runs;
      } else {
        FillKeepsWords(next, rest[1..]);
        assert next + rest[1..] == run + rest;
      }
    }
  }

  lemma {:induction false} FillIsReadable(run: seq<string>, rest: seq<string>)
    requires run != [] && (|run| == 1 || !Overflows(run))
    ensures Readable(Fill(run, rest))
    decreases |rest|
  {
    if rest != [] {
      if Overflows(run + [rest[0]]) {
        FillIsReadable([rest[0]], rest[1..]);
      } else {
        FillIsReadable(run + [rest[0]], rest[1..]);
      }
    }
  }

  /** The lines are the words in order: none lost, none moved, and each line fits or is one word. */
  lemma WrapIsASplit(words: seq<string>)
    ensures Flatten(Wrap(words)) == words && Readable(Wrap(words))
  {
    if words != [] {
      FillKeepsWords([words[0]], words[1..]);
      FillIsReadable([words[0]], words[1..]);
    }
  }

  lemma {:induction false} JoinedLines(runs: seq<seq<string>>)
    requires forall r | r in runs :: r != []
    ensures Join(Lines(runs), ' ') == Line(Flatten(runs))
  {
    if runs != [] {
      assert runs[0] in runs && forall r | r in runs[1..] :: r in runs;
      JoinedLines(runs[1..]);
      assert Lines(runs)[1..] == Lines(runs[1..]);
      if |runs| > 1 {
        FlattenNonEmpty(runs[1..]);
        JoinAppend(runs[0], Flatten(runs[1..]), ' ');
      } else {
        assert Flatten(runs) == runs[0];
      }
    }
  }

  lemma FlattenNonEmpty(runs: seq<seq<string>>)
    requires runs != [] && forall r | r in runs :: r != []
    ensures Flatten(runs) != []
  {
    assert runs[0] in runs;
  }

  // ---- Greedy ----

  lemma {:induction false} FillStarts(run: seq<string>, rest: seq<string>)
    requires run != []
    ensures Fill(run, rest) != [] && Fill(run, rest)[0] != [] && Fill(run, rest)[0][0] == run[0]
    decreases |rest|
  {
    if rest != [] && !Overflows(run + [rest[0]]) {
      FillStarts(run + [rest[0]], rest[1..]);
    }
  }

  /** Each line is as full as it can be: the first word of the next one would overflow it. */
  predicate Greedy(runs: seq<seq<string>>) {
    |runs| <= 1 || (runs[1] != [] && Overflows(runs[0] + [runs[1][0]]) && Greedy(runs[1..]))
  }

  lemma {:induction false} FillIsGreedy(run: seq<string>, rest: seq<string>)
    requires run != []
    ensures Greedy(Fill(run, rest))
    decreases |rest|
  {
    if rest != [] {
      if Overflows(run + [rest[0]]) {
        FillIsGreedy([rest[0]], rest[1..]);
        FillStarts([rest[0]], rest[1..]);
        assert ([run] + Fill([rest[0]], rest[1..]))[1..] == Fill([rest[0]], rest[1..]);
      } else {
        FillIsGreedy(run + [rest[0]], rest[1..]);
      }
    }
  }

  lemma WrapIsGreedy(words: seq<string>)
    ensures Greedy(Wrap(words))
  {
    if words != [] {
      FillIsGreedy([words[0]], words[1..]);
    }
  }

  // ---- No split is shorter ----

  /** How many words of `rest` the line being filled still takes. */
  function Taken(run: seq<string>, rest: seq<string>): (n: nat)
    ensures n <= |rest|
    decreases |rest|
  {
    if rest == [] || Overflows(run + [rest[0]]) then 0 else 1 + Taken(run + [rest[0]], rest[1..])
  }

  lemma {:induction false} FillFirst(run: seq<string>, rest: seq<string>)
    requires run != []
    ensures Fill(run, rest) == [run + rest[..Taken(run, rest)]] + Wrap(rest[Taken(run, rest)..])
    decreases |rest|
  {
    var n := Taken(run, rest);
    if n == 0 {
      assert run + rest[..0] == run;
      assert rest[0..] == rest;
    } else {
      var next := run + [rest[0]];
      FillFirst(next, rest[1..]);
      assert next + rest[1..][..n - 1] == run + rest[..n];
      assert rest[1..][n - 1..] == rest[n..];
    }
  }

  /** The line takes every word that fits: it goes at least as far as any run that does not overflow. */
  lemma {:induction false} TakesAllThatFits(run: seq<string>, rest: seq<string>, n: nat)
    requires run != [] && n <= |rest| && !Overflows(run + rest[..n])
    ensures Taken(run, rest) >= n
    decreases |rest|
  {
    if n > 0 {
      var next := run + [rest[0]];
      assert run + rest[..n] == next + rest[1..][..n - 1];
      if n > 1 {
        WidthSplits(next, rest[1..][..n - 1]);
      } else {
        assert run + rest[..1] == next;
      }
      TakesAllThatFits(next, rest[1..], n - 1);
    }
  }

  lemma TailNarrower(run: seq<string>, from: nat)
    requires from < |run| && !Overflows(run)
    ensures !Overflows(run[from..])
  {
    if from > 0 {
      assert run[..from] + run[from..] == run;
      WidthSplits(run[..from], run[from..]);
    }
  }

  /** A line takes at least the first `k` words when they fit, and perhaps `n` more. */
  lemma CoversRun(words: seq<string>, k: nat) returns (n: nat)
    requires 0 < k <= |words| && (k == 1 || !Overflows(words[..k]))
    ensures k + n <= |words| && Wrap(words) == [words[..k + n]] + Wrap(words[k + n..])
  {
    var first, rest := [words[0]], words[1..];
    FillFirst(first, rest);
    var taken := Taken(first, rest);
    assert first + rest[..taken] == words[..1 + taken];
    assert rest[taken..] == words[1 + taken..];
    if k > 1 {
      assert first + rest[..k - 1] == words[..k];
      TakesAllThatFits(first, rest, k - 1);
    }
    n := taken + 1 - k;
  }

  /** Greedy stays ahead: from any word on, it needs no more lines than a readable split of a text that
      contains those words needs. */
  lemma {:induction false} StaysAhead(runs: seq<seq<string>>, from: nat)
    requires Readable(runs) && from <= |Flatten(runs)|
    ensures |Wrap(Flatten(runs)[from..])| <= |runs|
    decreases |runs|
  {
    var left := Flatten(runs)[from..];
    if left != [] {
      var first, others := runs[0], runs[1..];
      assert first in runs && Readable(others);
      if from >= |first| {
        assert left == Flatten(others)[from - |first|..];
        StaysAhead(others, from - |first|);
      } else {
        var k := |first| - from;
        assert left[..k] == first[from..];
        TailNarrowerOrOne(first, from);
        var n := CoversRun(left, k);
        assert left[k + n..] == Flatten(others)[n..];
        StaysAhead(others, n);
      }
    }
  }

  lemma TailNarrowerOrOne(run: seq<string>, from: nat)
    requires from < |run| && (|run| == 1 || !Overflows(run))
    ensures |run[from..]| == 1 || !Overflows(run[from..])
  {
    if |run| > 1 {
      TailNarrower(run, from);
    }
  }

  /** No other split into runs of words that is as readable uses fewer lines. */
  lemma WrapIsOptimal(words: seq<string>, runs: seq<seq<string>>)
    requires Readable(runs) && Flatten(runs) == words
    ensures |Wrap(words)| <= |runs|
  {
    StaysAhead(runs, 0);
    assert words[0..] == words;
  }

  // ---- The loop ----

  /** A text that is already words joined by single spaces, as the caller passes it. */
  ghost predicate Normalised(text: string) { forall w | w in SplitOn(text, ' ') :: IsWord(w) }

  lemma LineIsNormalised(words: seq<string>)
    requires words != [] && forall w | w in words :: IsWord(w)
    ensures Normalised(Line(words)) && SplitOn(Line(words), ' ') == words
  {
    forall w | w in words
      ensures ' ' !in w
    {
    }
    SplitJoin(words, ' ');
  }

  /** A text of words and single spaces is its own words, and those joined are the text. */
  lemma NormalisedIsItsWords(text: string)
    requires Normalised(text)
    ensures Words(text) == SplitOn(text, ' ') && Line(Words(text)) == text
  {
    JoinSplit(text, ' ');
    WordsOfLine(SplitOn(text, ' '));
  }

  /** The lines joined by single spaces are the text, when its spacing is already single, and otherwise the
      text that has the same letters in the same order and single spaces between its words. */
  lemma ChunksJoinToText(text: string)
    ensures var joined := Join(Lines(Wrap(Words(text))), ' ');
            && Letters(joined) == Letters(text) && Words(joined) == Words(text)
            && (Words(text) != [] ==> Normalised(joined))
            && (Normalised(text) ==> joined == text)
  {
    var words := Words(text);
    WrapIsASplit(words);
    JoinedLines(Wrap(words));
    WordsOfLine(words);
    WordsAreTheLetters(text);
    WordsAreTheLetters(Line(words));
    if words != [] {
      LineIsNormalised(words);
    }
    if Normalised(text) {
      NormalisedIsItsWords(text);
    }
  }

  lemma StripKeeps(s: string)
    requires s != [] && !IsSpace(s[0]) && !IsSpace(s[|s| - 1])
    ensures Strip(s) == s && Strip(" " + s) == s
  {
    var t := " " + s;
    assert IsSpace(t[0]) && t[1..] == s;
    StripLeftSkips(t);
  }

  lemma StripLeftSkips(t: string)
    requires |t| > 1 && IsSpace(t[0]) && !IsSpace(t[1])
    ensures StripLeft(t) == t[1..]
  {
    assert StripLeft(t[1..]) == t[1..];
  }

  lemma {:induction false} LineEnds(run: seq<string>)
    requires run != [] && forall w | w in run :: IsWord(w)
    ensures var line := Line(run); line != [] && !IsSpace(line[0]) && !IsSpace(line[|line| - 1])
  {
    assert run[0] in run;
    if |run| > 1 {
      LineEnds(run[1..]);
    }
  }

  /** What the loop tries: the line with one more word, stripped of the space an empty line leaves. */
  lemma Candidate(run: seq<string>, word: string)
    requires IsWord(word) && forall w | w in run :: IsWord(w)
    ensures Strip(Line(run) + " " + word) == Line(run + [word])
    ensures |Line(run + [word])| == Width(run + [word]) && (Line(run) == "" <==> run == [])
  {
    LineWidth(run + [word]);
    LineEnds(run + [word]);
    if run == [] {
      assert Line([word]) == word;
      StripKeeps(word);
    } else {
      LineEnds(run);
      JoinAppend(run, [word], ' ');
      StripKeeps(Line(run + [word]));
    }
  }

  /** The loop's invariant: what is done, the line being filled and the words to come are the wrap. */
  ghost predicate Filling(words: seq<string>, done: seq<seq<string>>, run: seq<string>, i: nat)
    requires i <= |words|
  {
    && (forall w | w in run :: IsWord(w))
    && (if i == 0 then done == [] && run == [] else run != [] && Wrap(words) == done + Fill(run, words[i..]))
  }

  lemma FillingStep(words: seq<string>, done: seq<seq<string>>, run: seq<string>, i: nat)
    requires i < |words| && IsWord(words[i]) && Filling(words, done, run, i)
    ensures if run != [] && Overflows(run + [words[i]])
            then Filling(words, done + [run], [words[i]], i + 1)
            else Filling(words, done, run + [words[i]], i + 1)
  {
    if i == 0 {
      assert [] + [words[0]] == [words[0]];
      assert [] + Wrap(words) == Wrap(words);
    } else {
      assert words[i..][1..] == words[i + 1..];
      assert Overflows(run + [words[i]]) ==>
          done + ([run] + Fill([words[i]], words[i + 1..])) == done + [run] + Fill([words[i]], words[i + 1..]);
    }
  }

  /** The first loop of `_split_cue`. */
  method Chunks(text: string) returns (chunks: seq<string>)
    requires Normalised(text)
    ensures chunks == Lines(Wrap(SplitOn(text, ' ')))
  {
    var words := SplitOn(text, ' ');
    chunks := [];
    var current := "";
    ghost var done: seq<seq<string>>, run: seq<string> := [], [];
    for i := 0 to |words|
      invariant chunks == Lines(done) && current == Line(run)
      invariant Filling(words, done, run, i)
    {
      var word := words[i];
      assert word in words;
      Candidate(run, word);
      FillingStep(words, done, run, i);
      var candidate := Strip(current + " " + word);
      if current != "" && |candidate| > MAX_CUE_CHARS {
        chunks := chunks + [current];
        done, run := done + [run], [word];
        current := word;
      } else {
        run := run + [word];
        current := candidate;
      }
    }
    Candidate(run, "-");
    if current != "" {
      chunks := chunks + [current];
    }
    assert words[|words|..] == [];
    assert Wrap(words) == done + [run];
  }
}

/**
 * The character n-gram vocabulary generator (`VocabularyGenerator` in
 * vocabulary_generator.py): input cleaning, training into a table of
 * (context -> next character) counts plus a list of start sequences, and
 * generation of a word of a requested length by walking that table.
 */
module Vocabulary {
  import opened Strings
  import opened Counts

  // ---------------------------------------------------------------------------
  // Input cleaning: `re.sub(r'[^a-z\s]', '', text.lower())`
  // ---------------------------------------------------------------------------

  /** KELVIN SIGN, whose lower-case form is the Latin `k`. */
  const KelvinSign: char := '\U{212A}'
  /** LATIN CAPITAL LETTER I WITH DOT ABOVE, which lower-cases to `i` followed by a combining dot. */
  const CapitalIWithDot: char := '\U{130}'

  /** Only `a`..`z` and white space. */
  predicate IsClean(s: string) {
    forall i :: 0 <= i < |s| ==> IsLowerLetter(s[i]) || IsSpace(s[i])
  }

  /** What lower-casing one character and then dropping everything outside `a-z` and `\s` leaves of it. */
  function CleanChar(c: char): string {
    if 'A' <= c <= 'Z' then [(c as int - 'A' as int + 'a' as int) as char]
    else if IsLowerLetter(c) || IsSpace(c) then [c]
    else if c == KelvinSign then "k"
    else if c == CapitalIWithDot then "i"   // the combining dot that follows is dropped
    else ""
  }

  /** `_clean_text`: the text lower-cased, keeping only `a`..`z` and white space. */
  function CleanText(text: string): (r: string)
    ensures IsClean(r)
    ensures |r| <= |text|
  {
    if text == [] then "" else CleanChar(text[0]) + CleanText(text[1..])
  }

  /** On a text of ASCII letters and white space, cleaning keeps every character and lower-cases
      the capitals `A`..`Z`. */
  lemma {:induction false} CleanTextLowerCases(s: string)
    requires forall i :: 0 <= i < |s| ==> 'A' <= s[i] <= 'Z' || IsLowerLetter(s[i]) || IsSpace(s[i])
    ensures |CleanText(s)| == |s|
    ensures forall i :: 0 <= i < |s| ==>
              CleanText(s)[i] == if 'A' <= s[i] <= 'Z' then (s[i] as int + 32) as char else s[i]
  {
    if s != [] {
      CleanTextLowerCases(s[1..]);
      var r := CleanText(s);
      assert r == CleanChar(s[0]) + CleanText(s[1..]);
      forall i | 0 <= i < |s|
        ensures r[i] == if 'A' <= s[i] <= 'Z' then (s[i] as int + 32) as char else s[i]
      {
        if i > 0 {
          assert r[i] == CleanText(s[1..])[i - 1] && s[i] == s[1..][i - 1];
        }
      }
    }
  }

  /** Every other character is removed, except the two non-ASCII capitals whose lower-case
      forms hold `k` and `i`. */
  lemma CleanTextRemoves(c: char)
    requires !('A' <= c <= 'Z') && !IsLowerLetter(c) && !IsSpace(c)
    ensures c == KelvinSign ==> CleanText([c]) == "k"
    ensures c == CapitalIWithDot ==> CleanText([c]) == "i"
    ensures c != KelvinSign && c != CapitalIWithDot ==> CleanText([c]) == ""
  {
    assert [c][1..] == [];
  }

  /** Cleaning leaves a string unchanged exactly when it is already clean. */
  lemma {:induction false} CleanTextFixesExactlyCleanText(s: string)
    ensures CleanText(s) == s <==> IsClean(s)
  {
    if s != [] && IsClean(s) {
      assert IsClean(s[1..]) by {
        forall i | 0 <= i < |s[1..]| ensures IsLowerLetter(s[1..][i]) || IsSpace(s[1..][i]) {
          assert s[1..][i] == s[i + 1];
        }
      }
      CleanTextFixesExactlyCleanText(s[1..]);
      assert CleanChar(s[0]) == [s[0]];
      assert s == [s[0]] + s[1..];
    }
  }

  /** Cleaning twice is cleaning once. */
  lemma CleanTextIdempotent(s: string)
    ensures CleanText(CleanText(s)) == CleanText(s)
  {
    CleanTextFixesExactlyCleanText(CleanText(s));
  }

  /** Cleaning works character by character, so it distributes over concatenation. */
  lemma {:induction false} CleanTextAppend(a: string, b: string)
    ensures CleanText(a + b) == CleanText(a) + CleanText(b)
  {
    if a != [] {
      assert (a + b)[0] == a[0] && (a + b)[1..] == a[1..] + b;
      CleanTextAppend(a[1..], b);
    } else {
      assert a + b == b;
    }
  }

  // ---------------------------------------------------------------------------
  // Training: `_build_model`, specified on values
  // ---------------------------------------------------------------------------

  /** The window of `n` characters of `w` that starts at `j`: `word[j:j + n]`. */
  function Window(w: string, j: nat, n: nat): (r: string)
    requires j + n <= |w|
    ensures |r| == n
  {
    w[j..j + n]
  }

  /** All of that window but its last character: the context, `ngram[:-1]`. */
  function Context(w: string, j: nat, n: nat): (r: string)
    requires 1 <= n && j + n <= |w|
    ensures |r| == n - 1
  {
    w[j..j + n - 1]
  }

  /** The last character of that window: the target, `ngram[-1]`. */
  function Next(w: string, j: nat, n: nat): char
    requires 1 <= n && j + n <= |w|
  {
    w[j + n - 1]
  }

  /** A window is its context followed by its target, and it spells `ctx` then `c` exactly when
      its context is `ctx` and its target is `c`. */
  lemma WindowSplits(w: string, j: nat, n: nat, ctx: string, c: char)
    requires 1 <= n && j + n <= |w| && |ctx| == n - 1
    ensures Window(w, j, n)[..n - 1] == Context(w, j, n) && Window(w, j, n)[n - 1] == Next(w, j, n)
    ensures Window(w, j, n) == ctx + [c] <==> Context(w, j, n) == ctx && Next(w, j, n) == c
  {
    assert Window(w, j, n) == Context(w, j, n) + [Next(w, j, n)];
    if Window(w, j, n) == ctx + [c] {
      assert Context(w, j, n) == (ctx + [c])[..n - 1];
    }
  }

  /** The windows of `n` characters of `w` that start at `i` or later, in order. */
  function NGramsFrom(w: string, n: nat, i: nat): (r: seq<string>)
    requires n >= 1 && i <= |w|
    ensures |r| == if i + n > |w| then 0 else |w| - n + 1 - i
    decreases |w| - i
  {
    if i + n > |w| then [] else [Window(w, i, n)] + NGramsFrom(w, n, i + 1)
  }

  /** The `k`-th of those is the window that starts at `i + k`. */
  lemma {:induction false} NGramsFromWindows(w: string, n: nat, i: nat)
    requires n >= 1 && i <= |w|
    ensures forall k :: 0 <= k < |NGramsFrom(w, n, i)| ==> NGramsFrom(w, n, i)[k] == Window(w, i + k, n)
    decreases |w| - i
  {
    if i + n <= |w| {
      NGramsFromWindows(w, n, i + 1);
    }
  }

  /** Every window of `n` consecutive characters of `w`; none when `w` is shorter than `n`. */
  function NGrams(w: string, n: nat): (r: seq<string>)
    requires n >= 1
    ensures |r| == if |w| < n then 0 else |w| - n + 1
  {
    NGramsFrom(w, n, 0)
  }

  /** The windows of the first `j` words, word after word. */
  function AllNGramsUpTo(ws: seq<string>, n: nat, j: nat): seq<string>
    requires n >= 1 && j <= |ws|
  {
    if j == 0 then [] else AllNGramsUpTo(ws, n, j - 1) + NGrams(ws[j - 1], n)
  }

  /** The windows of all words, word after word. */
  function AllNGrams(ws: seq<string>, n: nat): seq<string>
    requires n >= 1
  {
    AllNGramsUpTo(ws, n, |ws|)
  }

  /** The table after counting, on top of `m`, the windows of `w` that start at `i` or later: the
      inner loop of `_build_model` from its `i`-th turn on. */
  function AddWindowsFrom(m: Counts, w: string, n: nat, i: nat): Counts
    requires n >= 1 && i <= |w|
    decreases |w| - i
  {
    if i + n > |w| then m
    else AddWindowsFrom(Bump(m, Context(w, i, n), Next(w, i, n)), w, n, i + 1)
  }

  /** The table after one word: all its windows counted, none when it is shorter than `n`. */
  function AddWord(m: Counts, w: string, n: nat): Counts
    requires n >= 1
  {
    AddWindowsFrom(m, w, n, 0)
  }

  /** The table after the first `j` words: the outer loop of `_build_model`. */
  function AddWordsUpTo(m: Counts, ws: seq<string>, n: nat, j: nat): Counts
    requires n >= 1 && j <= |ws|
  {
    if j == 0 then m else AddWord(AddWordsUpTo(m, ws, n, j - 1), ws[j - 1], n)
  }

  /** The table after a list of words, first to last. */
  function AddWords(m: Counts, ws: seq<string>, n: nat): Counts
    requires n >= 1
  {
    AddWordsUpTo(m, ws, n, |ws|)
  }

  /** The start sequence one word contributes: its first `n - 1` characters when it has at least `n`. */
  function SeedOf(w: string, n: nat): (r: seq<string>)
    requires n >= 1
    ensures |r| == if |w| < n then 0 else 1
    ensures forall i :: 0 <= i < |r| ==> |r[i]| == n - 1 && r[i] <= w
  {
    if |w| < n then [] else [w[..n - 1]]
  }

  /** The start sequences the first `j` words contribute, in order. */
  function SeedsUpTo(ws: seq<string>, n: nat, j: nat): (r: seq<string>)
    requires n >= 1 && j <= |ws|
    ensures |r| <= j
    ensures forall i :: 0 <= i < |r| ==> |r[i]| == n - 1
  {
    if j == 0 then [] else SeedsUpTo(ws, n, j - 1) + SeedOf(ws[j - 1], n)
  }

  /** The start sequences a list of words contributes. */
  function Seeds(ws: seq<string>, n: nat): seq<string>
    requires n >= 1
  {
    SeedsUpTo(ws, n, |ws|)
  }

  /** Every context has `n - 1` characters and every recorded count is positive. */
  ghost predicate WellFormed(m: Counts, n: nat) {
    PositiveCounts(m) && forall ctx :: ctx in m ==> |ctx| == n - 1
  }

  /** Contexts and next characters are all `a`..`z`. */
  ghost predicate LetterTable(m: Counts) {
    forall ctx :: ctx in m ==> LettersOnly(ctx) && forall c :: c in m[ctx] ==> IsLowerLetter(c)
  }

  /** The count of a transition is the number of windows spelling the context followed by the character. */
  lemma {:induction false} AddWindowsFromCounts(m: Counts, w: string, n: nat, i: nat, ctx: string, c: char)
    requires n >= 1 && i <= |w| && |ctx| == n - 1
    ensures CountOf(AddWindowsFrom(m, w, n, i), ctx, c) == CountOf(m, ctx, c) + Occurrences(NGramsFrom(w, n, i), ctx + [c])
    decreases |w| - i
  {
    if i + n <= |w| {
      var m' := Bump(m, Context(w, i, n), Next(w, i, n));
      AddWindowsFromCounts(m', w, n, i + 1, ctx, c);
      BumpCount(m, Context(w, i, n), Next(w, i, n), ctx, c);
      WindowSplits(w, i, n, ctx, c);
    }
  }

  /** One word adds to each count the number of its windows that spell the transition. */
  lemma AddWordCounts(m: Counts, w: string, n: nat, ctx: string, c: char)
    requires n >= 1 && |ctx| == n - 1
    ensures CountOf(AddWord(m, w, n), ctx, c) == CountOf(m, ctx, c) + Occurrences(NGrams(w, n), ctx + [c])
  {
    AddWindowsFromCounts(m, w, n, 0, ctx, c);
  }

  /** Training counts every window of every word once, on top of what was there. */
  lemma {:induction false} AddWordsUpToCounts(m: Counts, ws: seq<string>, n: nat, j: nat, ctx: string, c: char)
    requires n >= 1 && j <= |ws| && |ctx| == n - 1
    ensures CountOf(AddWordsUpTo(m, ws, n, j), ctx, c)
            == CountOf(m, ctx, c) + Occurrences(AllNGramsUpTo(ws, n, j), ctx + [c])
  {
    if j > 0 {
      AddWordsUpToCounts(m, ws, n, j - 1, ctx, c);
      OccurrencesConcat(AllNGramsUpTo(ws, n, j - 1), NGrams(ws[j - 1], n), ctx + [c]);
      AddWordCounts(AddWordsUpTo(m, ws, n, j - 1), ws[j - 1], n, ctx, c);
    }
  }

  /** After training, the count of a transition is its count before plus the number of windows
      of the words that spell its context followed by its character. */
  lemma AddWordsCounts(m: Counts, ws: seq<string>, n: nat, ctx: string, c: char)
    requires n >= 1 && |ctx| == n - 1
    ensures CountOf(AddWords(m, ws, n), ctx, c) == CountOf(m, ctx, c) + multiset(AllNGrams(ws, n))[ctx + [c]]
  {
    AddWordsUpToCounts(m, ws, n, |ws|, ctx, c);
    OccurrencesIsMultiplicity(AllNGrams(ws, n), ctx + [c]);
  }

  /** Training on two lists of words, in either order, ends with the same count for every transition. */
  lemma TrainingOrderIrrelevant(m: Counts, a: seq<string>, b: seq<string>, n: nat, ctx: string, c: char)
    requires n >= 1 && |ctx| == n - 1
    ensures CountOf(AddWords(AddWords(m, a, n), b, n), ctx, c) == CountOf(AddWords(AddWords(m, b, n), a, n), ctx, c)
  {
    AddWordsUpToCounts(m, a, n, |a|, ctx, c);
    AddWordsUpToCounts(m, b, n, |b|, ctx, c);
    AddWordsUpToCounts(AddWords(m, a, n), b, n, |b|, ctx, c);
    AddWordsUpToCounts(AddWords(m, b, n), a, n, |a|, ctx, c);
  }

  /** Counting windows adds exactly one to the total per window. */
  lemma {:induction false} AddWindowsFromTotal(m: Counts, w: string, n: nat, i: nat)
    requires n >= 1 && i <= |w|
    ensures Total(AddWindowsFrom(m, w, n, i)) == Total(m) + |NGramsFrom(w, n, i)|
    decreases |w| - i
  {
    if i + n <= |w| {
      BumpTotal(m, Context(w, i, n), Next(w, i, n));
      AddWindowsFromTotal(Bump(m, Context(w, i, n), Next(w, i, n)), w, n, i + 1);
    }
  }

  /** Training on a longer list agrees with training on its prefix for the first `j` words. */
  lemma {:induction false} UpToPrefix(m: Counts, a: seq<string>, b: seq<string>, n: nat, j: nat)
    requires n >= 1 && j <= |a|
    ensures AddWordsUpTo(m, a + b, n, j) == AddWordsUpTo(m, a, n, j)
    ensures SeedsUpTo(a + b, n, j) == SeedsUpTo(a, n, j)
    ensures AllNGramsUpTo(a + b, n, j) == AllNGramsUpTo(a, n, j)
  {
    if j > 0 {
      assert (a + b)[j - 1] == a[j - 1];
      UpToPrefix(m, a, b, n, j - 1);
    }
  }

  /** Training on `a + b` up to `|a| + k` is training on `a`, then on the first `k` words of `b`. */
  lemma {:induction false} UpToAppend(m: Counts, a: seq<string>, b: seq<string>, n: nat, k: nat)
    requires n >= 1 && k <= |b|
    ensures AddWordsUpTo(m, a + b, n, |a| + k) == AddWordsUpTo(AddWords(m, a, n), b, n, k)
    ensures SeedsUpTo(a + b, n, |a| + k) == Seeds(a, n) + SeedsUpTo(b, n, k)
    ensures AllNGramsUpTo(a + b, n, |a| + k) == AllNGrams(a, n) + AllNGramsUpTo(b, n, k)
  {
    if k == 0 {
      UpToPrefix(m, a, b, n, |a|);
    } else {
      UpToAppend(m, a, b, n, k - 1);
      assert (a + b)[|a| + k - 1] == b[k - 1];
      ConcatAssoc(Seeds(a, n), SeedsUpTo(b, n, k - 1), SeedOf(b[k - 1], n));
      ConcatAssoc(AllNGrams(a, n), AllNGramsUpTo(b, n, k - 1), NGrams(b[k - 1], n));
    }
  }

  /** Training is additive: two lists of words in turn give the table, the start sequences and the
      windows that their concatenation gives. */
  lemma TrainingIsAdditive(m: Counts, a: seq<string>, b: seq<string>, n: nat)
    requires n >= 1
    ensures AddWords(m, a + b, n) == AddWords(AddWords(m, a, n), b, n)
    ensures Seeds(a + b, n) == Seeds(a, n) + Seeds(b, n)
    ensures AllNGrams(a + b, n) == AllNGrams(a, n) + AllNGrams(b, n)
  {
    UpToAppend(m, a, b, n, |b|);
  }

  /** Training on one more word is training on the list, then on that word. */
  lemma AddWordsSnoc(m: Counts, ws: seq<string>, w: string, n: nat)
    requires n >= 1
    ensures AddWords(m, ws + [w], n) == AddWord(AddWords(m, ws, n), w, n)
    ensures Seeds(ws + [w], n) == Seeds(ws, n) + SeedOf(w, n)
  {
    UpToPrefix(m, ws, [w], n, |ws|);
    assert (ws + [w])[|ws|] == w;
  }

  /** One word adds one transition per window. */
  lemma AddWordTotal(m: Counts, w: string, n: nat)
    requires n >= 1
    ensures Total(AddWord(m, w, n)) == Total(m) + |NGrams(w, n)|
  {
    AddWindowsFromTotal(m, w, n, 0);
  }

  /** One more word: skipped when shorter than `n`; otherwise one more start sequence, its first
      `n - 1` characters, and `|w| - n + 1` more counted transitions. */
  lemma TrainOneMoreWord(m: Counts, ws: seq<string>, w: string, n: nat)
    requires n >= 1
    ensures |w| < n ==> AddWords(m, ws + [w], n) == AddWords(m, ws, n) && Seeds(ws + [w], n) == Seeds(ws, n)
    ensures |w| >= n ==> Seeds(ws + [w], n) == Seeds(ws, n) + [w[..n - 1]] && |w[..n - 1]| == n - 1
    ensures |w| >= n ==> Total(AddWords(m, ws + [w], n)) == Total(AddWords(m, ws, n)) + (|w| - n + 1)
  {
    AddWordsSnoc(m, ws, w, n);
    AddWordTotal(AddWords(m, ws, n), w, n);
    if |w| < n {
      assert Seeds(ws, n) + [] == Seeds(ws, n);
    }
  }

  /** Training keeps the table well formed, and a non-empty table always comes with start sequences. */
  lemma {:induction false} AddWordsWellFormed(m: Counts, ws: seq<string>, n: nat, j: nat)
    requires n >= 1 && j <= |ws| && WellFormed(m, n)
    ensures WellFormed(AddWordsUpTo(m, ws, n, j), n)
    ensures AddWordsUpTo(m, ws, n, j) != map[] ==> m != map[] || SeedsUpTo(ws, n, j) != []
  {
    if j > 0 {
      var w := ws[j - 1];
      AddWordsWellFormed(m, ws, n, j - 1);
      AddWindowsFromWellFormed(AddWordsUpTo(m, ws, n, j - 1), w, n, 0);
    }
  }

  lemma {:induction false} AddWindowsFromWellFormed(m: Counts, w: string, n: nat, i: nat)
    requires n >= 1 && i <= |w| && WellFormed(m, n)
    ensures WellFormed(AddWindowsFrom(m, w, n, i), n)
    ensures AddWindowsFrom(m, w, n, i) != map[] ==> m != map[] || i + n <= |w|
    decreases |w| - i
  {
    if i + n <= |w| {
      BumpKeepsPositive(m, Context(w, i, n), Next(w, i, n));
      AddWindowsFromWellFormed(Bump(m, Context(w, i, n), Next(w, i, n)), w, n, i + 1);
    }
  }

  /** Training keeps the generator's invariant: a well-formed table, start sequences of `n - 1`
      characters, and start sequences whenever the table is non-empty. */
  lemma TrainingKeepsValid(m: Counts, seeds: seq<string>, ws: seq<string>, n: nat)
    requires n >= 1 && WellFormed(m, n)
    requires forall i :: 0 <= i < |seeds| ==> |seeds[i]| == n - 1
    requires m != map[] ==> seeds != []
    ensures WellFormed(AddWords(m, ws, n), n)
    ensures forall i :: 0 <= i < |seeds + Seeds(ws, n)| ==> |(seeds + Seeds(ws, n))[i]| == n - 1
    ensures AddWords(m, ws, n) != map[] ==> seeds + Seeds(ws, n) != []
  {
    AddWordsWellFormed(m, ws, n, |ws|);
  }

  /** Training on words made of `a`..`z` only records `a`..`z`. */
  lemma {:induction false} AddWordsLetters(m: Counts, ws: seq<string>, n: nat, j: nat)
    requires n >= 1 && j <= |ws| && LetterTable(m)
    requires forall i :: 0 <= i < |ws| ==> LettersOnly(ws[i])
    ensures LetterTable(AddWordsUpTo(m, ws, n, j))
    ensures forall i :: 0 <= i < |SeedsUpTo(ws, n, j)| ==> LettersOnly(SeedsUpTo(ws, n, j)[i])
  {
    if j > 0 {
      var w := ws[j - 1];
      AddWordsLetters(m, ws, n, j - 1);
      AddWindowsFromLetters(AddWordsUpTo(m, ws, n, j - 1), w, n, 0);
    }
  }

  lemma {:induction false} AddWindowsFromLetters(m: Counts, w: string, n: nat, i: nat)
    requires n >= 1 && i <= |w| && LetterTable(m) && LettersOnly(w)
    ensures LetterTable(AddWindowsFrom(m, w, n, i))
    decreases |w| - i
  {
    if i + n <= |w| {
      var ctx := Context(w, i, n);
      assert LettersOnly(ctx) by {
        forall k | 0 <= k < |ctx| ensures IsLowerLetter(ctx[k]) {
          assert ctx[k] == w[i + k];
        }
      }
      AddWindowsFromLetters(Bump(m, ctx, Next(w, i, n)), w, n, i + 1);
    }
  }

  /** Cleaning two texts joined by a space keeps that space between their cleaned forms. */
  lemma CleanTextSpaceJoined(x: string, y: string)
    ensures CleanText(x + [' '] + y) == CleanText(x) + [' '] + CleanText(y)
  {
    CleanTextAppend(x + [' '], y);
    CleanTextAppend(x, [' ']);
    assert CleanText([' ']) == [' '] by {
      assert CleanChar(' ') == [' '];
      assert [' '][1..] == [];
    }
  }

  /** The words of two texts joined by a space are the words of the first, then those of the second. */
  lemma WordsOfCleanJoined(x: string, y: string)
    ensures Words(CleanText(x + [' '] + y)) == Words(CleanText(x)) + Words(CleanText(y))
  {
    CleanTextSpaceJoined(x, y);
    WordsOfSpaceJoined(CleanText(x), ' ', CleanText(y));
  }

  /** Training on two texts one after the other equals training once on the two joined by a space. */
  lemma TrainingOnTextsIsAdditive(m: Counts, x: string, y: string, n: nat)
    requires n >= 1
    ensures AddWords(AddWords(m, Words(CleanText(x)), n), Words(CleanText(y)), n)
            == AddWords(m, Words(CleanText(x + [' '] + y)), n)
    ensures Seeds(Words(CleanText(x)), n) + Seeds(Words(CleanText(y)), n)
            == Seeds(Words(CleanText(x + [' '] + y)), n)
  {
    WordsOfCleanJoined(x, y);
    TrainingIsAdditive(m, Words(CleanText(x)), Words(CleanText(y)), n);
  }

  // ---------------------------------------------------------------------------
  // Generation helpers
  // ---------------------------------------------------------------------------

  /** The last `k` characters of `buf`, or all of them when there are fewer: `res[-k:]` for `k >= 1`,
      and for `k = 0` the empty context a unigram table is keyed by. */
  function LastChars(buf: string, k: nat): (r: string)
    ensures |r| == if |buf| <= k then |buf| else k
    ensures buf == buf[..|buf| - |r|] + r
  {
    if |buf| <= k then buf else buf[|buf| - k..]
  }

  /** `res[-k:]` exactly as Python evaluates it: `-0` is `0`, so for `k = 0` it is the whole buffer. */
  function PythonTail(buf: string, k: nat): (r: string)
    ensures |r| <= |buf| && buf == buf[..|buf| - |r|] + r
    ensures k >= 1 ==> r == LastChars(buf, k)
    ensures k == 0 ==> |r| == |buf|
  {
    if k == 0 then buf else LastChars(buf, k)
  }

  /** As written, a unigram generator (`n = 1`) never finishes a word longer than one character:
      every recorded context is empty, but once the buffer holds a character its context
      `res[-(n-1):]` is the whole buffer, which is never recorded, and the back-off appends a start
      sequence of `n - 1 = 0` characters, so the buffer stops growing. */
  lemma AsWrittenUnigramStalls(m: Counts, seeds: seq<string>, buf: string, s: string)
    requires WellFormed(m, 1) && s in seeds
    requires forall i :: 0 <= i < |seeds| ==> |seeds[i]| == 0
    requires buf != []
    ensures PythonTail(buf, 1 - 1) !in m
    ensures buf + s == buf
  {
    var i :| 0 <= i < |seeds| && seeds[i] == s;
    assert s == [];
  }

  // ---------------------------------------------------------------------------
  // The generator object
  // ---------------------------------------------------------------------------

  class VocabularyGenerator {
    /** The n of the n-grams; contexts have `n - 1` characters. */
    const n: nat
    /** `self.model`: context -> counter of next characters. */
    var model: Counts
    /** `self.start_sequences`: one entry per trained word of length at least `n`, duplicates kept. */
    var startSequences: seq<string>

    ghost predicate Valid()
      reads this
    {
      && n >= 1
      && WellFormed(model, n)
      && (forall i :: 0 <= i < |startSequences| ==> |startSequences[i]| == n - 1)
      && (model != map[] ==> startSequences != [])
    }

    /** Everything recorded is made of `a`..`z`, as training from text guarantees. */
    ghost predicate Alphabetic()
      reads this
    {
      LetterTable(model) && forall i :: 0 <= i < |startSequences| ==> LettersOnly(startSequences[i])
    }

    constructor (n: nat)
      requires n >= 1
      ensures Valid() && Alphabetic()
      ensures this.n == n && model == map[] && startSequences == []
    {
      this.n := n;
      model := map[];
      startSequences := [];
    }

    /** `_build_model`: count the windows of every word of length at least `n` and record its start. */
    method BuildModel(words: seq<string>)
      requires n >= 1
      modifies this
      ensures model == AddWords(old(model), words, n)
      ensures startSequences == old(startSequences) + Seeds(words, n)
      ensures old(Valid()) ==> Valid()
    {
      for j := 0 to |words|
        invariant model == AddWordsUpTo(old(model), words, n, j)
        invariant startSequences == old(startSequences) + SeedsUpTo(words, n, j)
      {
        var word := words[j];
        if |word| < n {
          continue;
        }
        ConcatAssoc(old(startSequences), SeedsUpTo(words, n, j), [word[..n - 1]]);
        startSequences := startSequences + [word[..n - 1]];
        ghost var before := model;
        CountWindows(word);
        assert AddWordsUpTo(old(model), words, n, j + 1) == AddWord(before, word, n);
      }
      if old(Valid()) {
        TrainingKeepsValid(old(model), old(startSequences), words, n);
      }
    }

    /** The inner loop of `_build_model`: count each window of `n` characters of `word`. */
    method CountWindows(word: string)
      requires n >= 1 && |word| >= n
      modifies this`model
      ensures model == AddWord(old(model), word, n)
    {
      for i := 0 to |word| - n + 1
        invariant AddWindowsFrom(model, word, n, i) == AddWord(old(model), word, n)
      {
        var ngram := Window(word, i, n);
        var context := ngram[..n - 1];
        var target := ngram[n - 1];
        WindowSplits(word, i, n, context, target);
        model := Bump(model, context, target);
      }
    }

    /** `train_from_string`: clean the text, split it into words and train on them. */
    method TrainFromString(text: string)
      requires Valid()
      modifies this
      ensures Valid() && (old(Alphabetic()) ==> Alphabetic())
      ensures model == AddWords(old(model), Words(CleanText(text)), n)
      ensures startSequences == old(startSequences) + Seeds(Words(CleanText(text)), n)
    {
      var cleanText := CleanText(text);
      var words := Words(cleanText);
      BuildModel(words);
      if old(Alphabetic()) {
        WordsAreWords(cleanText);
        AddWordsLetters(old(model), words, n, |words|);
      }
    }

    /** One turn of the generation loop: append the chosen next character of the current context,
        or, when the context has no recorded transition, a whole start sequence. */
    ghost predicate Step(buf: string, next: string)
      requires n >= 1
      reads this
    {
      var context := LastChars(buf, n - 1);
      && buf < next
      && if context in model && model[context] != map[] then
           |next| == |buf| + 1 && next[|buf|] in model[context]
         else
           next[|buf|..] in startSequences
    }

    /** The buffers one run of the generation loop goes through, stopping once `length` is reached. */
    ghost predicate IsRun(trace: seq<string>, length: int)
      requires n >= 1
      reads this
    {
      && |trace| > 0
      && trace[0] in startSequences
      && Steps(trace, length)
      && length <= |trace[|trace| - 1]|
    }

    /** Each buffer but the last is shorter than `length` and steps to the next. */
    ghost predicate Steps(trace: seq<string>, length: int)
      requires n >= 1
      reads this
    {
      forall i :: 0 <= i < |trace| - 1 ==> |trace[i]| < length && Step(trace[i], trace[i + 1])
    }

    lemma StepsSnoc(trace: seq<string>, next: string, length: int)
      requires n >= 1 && |trace| > 0 && Steps(trace, length)
      requires |trace[|trace| - 1]| < length && Step(trace[|trace| - 1], next)
      ensures Steps(trace + [next], length)
    {
      var t := trace + [next];
      forall i | 0 <= i < |t| - 1 ensures |t[i]| < length && Step(t[i], t[i + 1]) {
        assert t[i] == trace[i];
        if i < |trace| - 1 {
          assert t[i + 1] == trace[i + 1];
        }
      }
    }

    /** A character that training recorded: part of a start sequence or a next character with a count. */
    ghost predicate Emittable(c: char)
      reads this
    {
      || (exists s :: s in startSequences && c in s)
      || (exists context :: context in model && c in model[context])
    }

    /** Every character of `s` is one training recorded. */
    ghost predicate AllEmittable(s: string)
      reads this
    {
      forall i :: 0 <= i < |s| ==> Emittable(s[i])
    }

    lemma SeedEmittable(s: string)
      requires s in startSequences
      ensures AllEmittable(s)
    {
      forall i | 0 <= i < |s| ensures Emittable(s[i]) {
        assert s[i] in s;
      }
    }

    lemma AllEmittableAppend(a: string, b: string)
      requires AllEmittable(a) && AllEmittable(b)
      ensures AllEmittable(a + b)
    {
      forall i | 0 <= i < |a + b| ensures Emittable((a + b)[i]) {
        if i < |a| {
          assert (a + b)[i] == a[i];
        } else {
          assert (a + b)[i] == b[i - |a|];
        }
      }
    }

    lemma AllEmittablePrefix(a: string, b: string)
      requires AllEmittable(b) && a <= b
      ensures AllEmittable(a)
    {
      forall i | 0 <= i < |a| ensures Emittable(a[i]) {
        assert a[i] == b[i];
      }
    }

    /** When training saw only `a`..`z`, everything it can emit is a letter. */
    lemma EmittableLetters(s: string)
      requires Alphabetic() && AllEmittable(s)
      ensures LettersOnly(s)
    {
      forall i | 0 <= i < |s| ensures IsLowerLetter(s[i]) {
        assert Emittable(s[i]);
        if t :| t in startSequences && s[i] in t {
          var k :| 0 <= k < |t| && t[k] == s[i];
          var j :| 0 <= j < |startSequences| && startSequences[j] == t;
        } else {
          var context :| context in model && s[i] in model[context];
        }
      }
    }

    /** `random.choice(self.start_sequences)`: any one of them. */
    method PickStart() returns (s: string)
      requires Valid() && model != map[]
      ensures s in startSequences && |s| == n - 1
    {
      assert startSequences[0] in startSequences;
      s :| s in startSequences;
      var j :| 0 <= j < |startSequences| && startSequences[j] == s;
    }

    /** A trained unigram table has the empty context, with at least one next character. */
    lemma UnigramContextKnown()
      requires Valid() && n == 1 && model != map[]
      ensures "" in model && model[""] != map[]
    {
      var ctx :| ctx in model;
      assert |ctx| == 0;
    }

    /** One turn of the generation loop: the weighted draw of a next character for the last `n - 1`
        characters, or a whole fresh start sequence when that context has no recorded transition. */
    method Extend(res: string) returns (next: string)
      requires Valid() && model != map[]
      ensures Step(res, next)
      ensures res < next
      ensures AllEmittable(res) ==> AllEmittable(next)
    {
      var context := LastChars(res, n - 1);
      if n == 1 {
        UnigramContextKnown();
      }
      if context !in model || model[context] == map[] {
        var s := PickStart();
        next := res + s;
        assert next[|res|..] == s;
        if AllEmittable(res) {
          SeedEmittable(s);
          AllEmittableAppend(res, s);
        }
      } else {
        var c :| c in model[context];
        next := res + [c];
        assert Emittable(c) by { assert context in model && c in model[context]; }
        if AllEmittable(res) {
          AllEmittableAppend(res, [c]);
        }
      }
    }

    /** The loop of `generate_word`: extend `seed` one step at a time until it is at least `length` long. */
    method GrowFrom(seed: string, length: int) returns (res: string, ghost trace: seq<string>)
      requires Valid() && model != map[] && seed in startSequences
      ensures IsRun(trace, length) && trace[0] == seed && trace[|trace| - 1] == res
      ensures seed <= res
      ensures AllEmittable(seed) ==> AllEmittable(res)
    {
      res := seed;
      trace := [res];
      while |res| < length
        invariant |trace| > 0 && trace[0] == seed && trace[|trace| - 1] == res
        invariant Steps(trace, length)
        invariant seed <= res
        invariant AllEmittable(seed) ==> AllEmittable(res)
        decreases length - |res|
      {
        var next := Extend(res);
        StepsSnoc(trace, next, length);
        trace := trace + [next];
        res := next;
      }
    }

    /** `generate_word`: start from a start sequence and extend it until it is `length` long, then cut it there.
        The random choices are arbitrary ones; `trace` records the buffers the loop goes through. */
    method GenerateWord(length: int) returns (r: string, ghost trace: seq<string>)
      requires Valid()
      ensures model == map[] ==> r == "none"
      ensures model != map[] ==> IsRun(trace, length) && trace[0] <= trace[|trace| - 1]
      ensures model != map[] ==> r == PrefixSlice(trace[|trace| - 1], length)
      ensures model != map[] && length >= 0 ==> |r| == length
      ensures model != map[] ==> AllEmittable(r)
      ensures model != map[] && Alphabetic() ==> LettersOnly(r)
    {
      if model == map[] {
        return "none", [];
      }
      var seed := PickStart();
      SeedEmittable(seed);
      var res;
      res, trace := GrowFrom(seed, length);
      r := PrefixSlice(res, length);
      AllEmittablePrefix(r, res);
      if Alphabetic() {
        EmittableLetters(r);
      }
    }
  }
}

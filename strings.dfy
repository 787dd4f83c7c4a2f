/**
 * The Python string and list built-ins the two core classes lean on:
 * `str.isspace` (what `\s` and `str.split()` treat as white space),
 * `str.split()`, `' '.join(...)`, slicing and `list.reverse()`; and `SplitOn`,
 * Python's `str.split(sep)`, as a reference to count the words of a joined text.
 */
module Strings {

  /** Python's `str.isspace()` on one character: the class `\s` matches and `split()` splits on. */
  predicate IsSpace(c: char) {
    || c == ' '
    || ('\t' <= c <= '\r')                 // \t \n \v \f \r
    || ('\U{1C}' <= c <= '\U{1F}')         // file, group, record and unit separators
    || c == '\U{85}' || c == '\U{A0}' || c == '\U{1680}'
    || ('\U{2000}' <= c <= '\U{200A}')
    || c == '\U{2028}' || c == '\U{2029}' || c == '\U{202F}' || c == '\U{205F}' || c == '\U{3000}'
  }

  predicate IsLowerLetter(c: char) {
    'a' <= c <= 'z'
  }

  /** Every character of `s` is one of `a`..`z`. */
  predicate LettersOnly(s: string) {
    forall i :: 0 <= i < |s| ==> IsLowerLetter(s[i])
  }

  /** A word as `str.split()` yields it: non-empty, without white space. */
  predicate IsWord(w: string) {
    |w| > 0 && forall i :: 0 <= i < |w| ==> !IsSpace(w[i])
  }

  /** Length of the run of non-space characters that starts `s`. */
  function SpanLength(s: string): (k: nat)
    ensures k <= |s|
    ensures forall i :: 0 <= i < k ==> !IsSpace(s[i])
    ensures k < |s| ==> IsSpace(s[k])
  {
    if s == [] || IsSpace(s[0]) then 0 else 1 + SpanLength(s[1..])
  }

  /** Python's `s.split()`: the maximal runs of non-space characters, in order. */
  function Words(s: string): (ws: seq<string>)
    ensures |ws| <= |s|
    decreases |s|
  {
    if s == [] then []
    else if IsSpace(s[0]) then Words(s[1..])
    else
      var k := SpanLength(s);
      [s[..k]] + Words(s[k..])
  }

  /** Every piece `split()` yields is a word, and on a text of letters and white space only, a word of letters. */
  lemma {:induction false} WordsAreWords(s: string)
    ensures forall i :: 0 <= i < |Words(s)| ==> IsWord(Words(s)[i])
    ensures (forall i :: 0 <= i < |s| ==> IsLowerLetter(s[i]) || IsSpace(s[i])) ==>
              forall i :: 0 <= i < |Words(s)| ==> LettersOnly(Words(s)[i])
    decreases |s|
  {
    if s == [] {
    } else if IsSpace(s[0]) {
      WordsAreWords(s[1..]);
    } else {
      var k := SpanLength(s);
      WordsAreWords(s[k..]);
      var ws := Words(s);
      assert ws == [s[..k]] + Words(s[k..]);
      forall i | 0 <= i < |ws| ensures IsWord(ws[i]) {
        if i > 0 {
          assert ws[i] == Words(s[k..])[i - 1];
        }
      }
    }
  }

  /** A single word splits into itself. */
  lemma WordsOfWord(w: string)
    requires IsWord(w)
    ensures Words(w) == [w]
  {
    assert SpanLength(w) == |w|;
    assert w[..|w|] == w && w[|w|..] == [];
  }

  /** Splitting words joined by single spaces gives back those words. */
  lemma {:induction false} WordsOfJoin(ws: seq<string>)
    requires forall i :: 0 <= i < |ws| ==> IsWord(ws[i])
    ensures Words(JoinWith(ws, ' ')) == ws
  {
    if |ws| == 1 {
      WordsOfWord(ws[0]);
    } else if |ws| > 1 {
      WordsOfJoin(ws[1..]);
      WordsOfWord(ws[0]);
      WordsOfSpaceJoined(ws[0], ' ', JoinWith(ws[1..], ' '));
      assert ws == [ws[0]] + ws[1..];
    }
  }

  lemma {:induction false} SpanLengthAppend(a: string, t: string)
    requires SpanLength(a) < |a| || (|t| > 0 && IsSpace(t[0]))
    ensures SpanLength(a + t) == SpanLength(a)
    decreases |a|
  {
    if a == [] {
    } else if IsSpace(a[0]) {
    } else {
      assert (a + t)[1..] == a[1..] + t;
      SpanLengthAppend(a[1..], t);
    }
  }

  /** How `Words` unfolds on a text that starts with a word. */
  lemma WordsUnfold(s: string)
    requires s != [] && !IsSpace(s[0])
    ensures Words(s) == [s[..SpanLength(s)]] + Words(s[SpanLength(s)..])
  {
  }

  /** Splitting two texts glued by any white-space character yields the words of the first, then
      those of the second. */
  lemma {:induction false} WordsOfSpaceJoined(a: string, sep: char, b: string)
    requires IsSpace(sep)
    ensures Words(a + [sep] + b) == Words(a) + Words(b)
    decreases |a|
  {
    var s := a + [sep] + b;
    if a == [] {
      assert s[0] == sep && s[1..] == b;
    } else if IsSpace(a[0]) {
      assert s[0] == a[0] && s[1..] == a[1..] + [sep] + b;
      WordsOfSpaceJoined(a[1..], sep, b);
    } else {
      var k := SpanLength(a);
      WordsOfSpaceJoined(a[k..], sep, b);
      ConcatAssoc(a[k..], [sep], b);
      ConcatAssoc(a, [sep], b);
      FirstWordOfSpaceJoined(a, sep, [sep] + b, b);
    }
  }

  /** The step of that induction when `a` starts with a word: the word is cut off before the separator. */
  lemma FirstWordOfSpaceJoined(a: string, sep: char, t: string, b: string)
    requires a != [] && !IsSpace(a[0]) && IsSpace(sep) && t == [sep] + b
    requires Words(a[SpanLength(a)..] + t) == Words(a[SpanLength(a)..]) + Words(b)
    ensures Words(a + t) == Words(a) + Words(b)
  {
    var k := SpanLength(a);
    SpanLengthAppend(a, t);
    SliceOfAppend(a, t, k);
    WordsUnfold(a + t);
    WordsUnfold(a);
    ConcatAssoc([a[..k]], Words(a[k..]), Words(b));
  }

  lemma SliceOfAppend<T>(a: seq<T>, t: seq<T>, k: nat)
    requires k <= |a|
    ensures (a + t)[..k] == a[..k] && (a + t)[k..] == a[k..] + t
  {
  }

  lemma ConcatAssoc<T>(x: seq<T>, y: seq<T>, z: seq<T>)
    ensures (x + y) + z == x + (y + z)
  {
  }

  /** `sep.join(ws)` for a one-character separator. */
  function JoinWith(ws: seq<string>, sep: char): string
  {
    if ws == [] then ""
    else if |ws| == 1 then ws[0]
    else ws[0] + [sep] + JoinWith(ws[1..], sep)
  }

  /** Python's `s.split(sep)` with an explicit one-character separator: never empty. */
  function SplitOn(s: string, sep: char): (parts: seq<string>)
    ensures |parts| >= 1
    ensures forall p :: p in parts ==> sep !in p
  {
    if s == [] then [""]
    else
      var rest := SplitOn(s[1..], sep);
      if s[0] == sep then [""] + rest
      else [[s[0]] + rest[0]] + rest[1..]
  }

  lemma {:induction false} SplitOnPrefix(a: string, t: string, sep: char)
    requires sep !in a
    ensures SplitOn(a + t, sep) == [a + SplitOn(t, sep)[0]] + SplitOn(t, sep)[1..]
    decreases |a|
  {
    if a != [] {
      var tail := SplitOn(t, sep);
      assert (a + t)[0] == a[0] && (a + t)[1..] == a[1..] + t;
      SplitOnPrefix(a[1..], t, sep);
      var rest := SplitOn(a[1..] + t, sep);
      assert a[0] != sep;
      assert SplitOn(a + t, sep) == [[a[0]] + rest[0]] + rest[1..];
      assert rest[0] == a[1..] + tail[0] && rest[1..] == tail[1..];
      assert [a[0]] + (a[1..] + tail[0]) == a + tail[0];
    } else {
      var tail := SplitOn(t, sep);
      assert a + t == t && a + tail[0] == tail[0];
      assert tail == [tail[0]] + tail[1..];
    }
  }

  /** Splitting a join on its separator gives back the joined pieces, when none holds the separator. */
  lemma {:induction false} SplitJoinRoundTrip(ws: seq<string>, sep: char)
    requires ws != []
    requires forall w :: w in ws ==> sep !in w
    ensures SplitOn(JoinWith(ws, sep), sep) == ws
  {
    if |ws| == 1 {
      SplitOnPrefix(ws[0], "", sep);
      assert ws[0] + "" == ws[0];
    } else {
      var tail := JoinWith(ws[1..], sep);
      SplitJoinRoundTrip(ws[1..], sep);
      assert JoinWith(ws, sep) == ws[0] + ([sep] + tail);
      SplitOnPrefix(ws[0], [sep] + tail, sep);
      assert ([sep] + tail)[0] == sep && ([sep] + tail)[1..] == tail;
      var parts := SplitOn([sep] + tail, sep);
      assert parts == [""] + ws[1..];
      assert parts[0] == "" && parts[1..] == ws[1..];
      assert ws[0] + "" == ws[0];
      assert ws == [ws[0]] + ws[1..];
    }
  }

  /** Joining the pieces of a split restores the text. */
  lemma {:induction false} JoinSplitRoundTrip(s: string, sep: char)
    ensures JoinWith(SplitOn(s, sep), sep) == s
  {
    if s != [] {
      var rest := SplitOn(s[1..], sep);
      JoinSplitRoundTrip(s[1..], sep);
      if s[0] == sep {
        assert SplitOn(s, sep) == [""] + rest;
        assert ([""] + rest)[1..] == rest;
        assert s == [sep] + s[1..];
      } else {
        var parts := SplitOn(s, sep);
        assert parts[0] == [s[0]] + rest[0];
        assert parts[1..] == rest[1..];
        if |rest| == 1 {
          assert rest[0] == s[1..];
        } else {
          assert JoinWith(rest, sep) == rest[0] + [sep] + JoinWith(rest[1..], sep);
        }
      }
    }
  }

  /** Python's slice `s[:k]`: a negative `k` counts from the end, and the slice never overruns. */
  function PrefixSlice(s: string, k: int): (r: string)
    ensures r <= s
    ensures 0 <= k <= |s| ==> |r| == k
    ensures k >= |s| ==> r == s
    ensures k < 0 ==> |r| == if |s| + k >= 0 then |s| + k else 0
  {
    if k >= |s| then s
    else if k >= 0 then s[..k]
    else if |s| + k >= 0 then s[..|s| + k]
    else ""
  }

  /** How many elements of `s` equal `x`: the number of windows that spell a transition, in the
      statements about the counts training records. */
  function Occurrences<T(==)>(s: seq<T>, x: T): (k: nat)
    ensures k <= |s|
  {
    if s == [] then 0 else (if s[0] == x then 1 else 0) + Occurrences(s[1..], x)
  }

  lemma {:induction false} OccurrencesConcat<T>(a: seq<T>, b: seq<T>, x: T)
    ensures Occurrences(a + b, x) == Occurrences(a, x) + Occurrences(b, x)
  {
    if a == [] {
      assert a + b == b;
    } else {
      assert (a + b)[1..] == a[1..] + b;
      OccurrencesConcat(a[1..], b, x);
    }
  }

  /** Counting occurrences is taking the multiplicity in the multiset of the elements. */
  lemma {:induction false} OccurrencesIsMultiplicity<T>(s: seq<T>, x: T)
    ensures Occurrences(s, x) == multiset(s)[x]
  {
    if s != [] {
      OccurrencesIsMultiplicity(s[1..], x);
      assert s == [s[0]] + s[1..];
    }
  }

  /** `list.reverse()`: the element at `i` moves to `|s| - 1 - i`. */
  function Reversed<T>(s: seq<T>): (r: seq<T>)
    ensures |r| == |s|
    ensures forall i :: 0 <= i < |s| ==> r[i] == s[|s| - 1 - i]
  {
    if s == [] then [] else Reversed(s[1..]) + [s[0]]
  }

  lemma ReversedTwice<T>(s: seq<T>)
    ensures Reversed(Reversed(s)) == s
  {
  }
}

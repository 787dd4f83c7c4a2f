# Conlang translator core in Dafny

This project models the two classes at the heart of a toy "constructed language" translator.

`VocabularyGenerator` (vocabulary_generator.py) learns character statistics from English text:
- it cleans the text to lower-case `a`..`z` and white space, and splits it into words;
- for every word of at least `n` characters, it records the word's first `n - 1` characters as a start sequence;
- it counts, for every window of `n` characters, the last character under the context of the `n - 1` characters before it.

It then invents words of a requested length. Each word begins with a start sequence. Next characters are drawn from the counts of the current context. When a context was never seen, it backs off by appending a fresh start sequence. The result is cut to the requested length.

`LanguageTranslator` (translator_core.py) holds a generator and a persistent dictionary from Japanese surface strings to invented words.
- `get_translation` returns the stored word for a known token. For an unknown token, it generates a word of `max(3, ceil(2.5 * len))` characters (or `"none"` while the generator is untrained), stores it and returns it.
- `translate_sentence` translates every token in order, reverses the list and joins it with single spaces.

Modules:
- `Strings` (strings.dfy) holds the Python built-ins the source leans on: `str.isspace`, `str.split()`, `' '.join`, `[:k]` slicing and `list.reverse()`. It also holds `SplitOn`, Python's `str.split(sep)`, which the source never calls. `SplitOn` is a reference function, used only to count the words of a translated sentence.
- `Counts` (counts.dfy) holds the `defaultdict(Counter)` transition table.
- `Vocabulary` (vocabulary_generator.dfy) holds the cleaning, the training specification and the `VocabularyGenerator` class.
- `Translator` (translator_core.dfy) holds the length policy and the `LanguageTranslator` class.

Training is specified on values:
- `AddWords` gives the table after a list of words.
- `Seeds` gives the start sequences that list contributes.

The imperative methods (`BuildModel`, `CountWindows`, `TrainFromString`) are proved to compute exactly these. The lemmas then state what training means:
- every count is the number of windows that spell its context followed by its character;
- training is additive over word lists and over texts joined by a space;
- training order does not change any count;
- the table stays well formed, and only `a`..`z` is recorded.

Random choices are modelled as arbitrary choices among the allowed values. Generation is then proved to:
- walk a legal run of steps;
- stop at exactly the requested length;
- emit only recorded characters, hence only letters.

## Model

| member | source | states |
|---|---|---|
| Strings.IsSpace | vocabulary_generator.py:13-18 | the characters `\s` keeps and `split()` splits on, as `str.isspace()` classifies them; no contract, used by `Words` and `CleanText` |
| Strings.Words | vocabulary_generator.py:18 | `str.split()`: the maximal runs of non-space characters, no more of them than characters; `WordsAreWords`, `WordsOfSpaceJoined`, `WordsOfWord` and `WordsOfJoin` state what they are, and together fix the result on every text |
| Strings.WordsAreWords | vocabulary_generator.py:18 | every piece `split()` yields is non-empty and free of white space; on cleaned text every piece is made of `a`..`z` |
| Strings.WordsOfSpaceJoined | vocabulary_generator.py:18 | splitting two texts joined by any white-space character (space, tab, newline, ...) gives the words of the first followed by those of the second |
| Strings.WordsOfWord | vocabulary_generator.py:18 | a single word splits into itself |
| Strings.WordsOfJoin | vocabulary_generator.py:18 | splitting words joined by single spaces gives back exactly those words |
| Strings.JoinWith | translator_core.py:70 | `' '.join`: the pieces with one separator between neighbours; no contract, `SplitJoinRoundTrip` and `JoinSplitRoundTrip` are its partners |
| Strings.SplitJoinRoundTrip | translator_core.py:70 | for a non-empty list, splitting a `' '.join` on the space gives back the joined words when none contains a space |
| Strings.JoinSplitRoundTrip | translator_core.py:70 | joining the pieces of a split on the separator restores the text |
| Strings.PrefixSlice | vocabulary_generator.py:70 | `s[:k]` is a prefix of `s`; it has exactly `k` characters when `0 <= k <= len(s)`, is all of `s` when `k >= len(s)`, and drops `-k` characters from the end when `k < 0` |
| Strings.Reversed | translator_core.py:68 | `reverse()` moves the element at `i` to `len - 1 - i` and keeps the length |
| Strings.ReversedTwice | translator_core.py:68 | reversing twice restores the list |
| Counts.Bump | vocabulary_generator.py:43 | `model[context][target] += 1` adds one to that count and adds the context to the table's keys |
| Counts.BumpCount | vocabulary_generator.py:43 | an increment changes no other count |
| Counts.BumpKeepsPositive | vocabulary_generator.py:43 | an increment keeps every counter non-empty and every count positive |
| Counts.BumpTotal | vocabulary_generator.py:43 | an increment adds exactly one to the sum of all counts |
| Vocabulary.CleanText | vocabulary_generator.py:11-13 | the cleaned text holds only `a`..`z` and white space and is no longer than the input |
| Vocabulary.CleanTextLowerCases | vocabulary_generator.py:13 | on ASCII letters and white space, cleaning keeps every character and turns `A`..`Z` into `a`..`z` |
| Vocabulary.CleanTextRemoves | vocabulary_generator.py:13 | every other character is removed, except the Kelvin sign and capital I with dot, which leave `k` and `i` |
| Vocabulary.CleanTextFixesExactlyCleanText | vocabulary_generator.py:11-13 | cleaning leaves a text unchanged if and only if it is already made of `a`..`z` and white space |
| Vocabulary.CleanTextIdempotent | vocabulary_generator.py:11-13 | cleaning twice equals cleaning once |
| Vocabulary.CleanTextAppend | vocabulary_generator.py:11-13 | cleaning distributes over concatenation |
| Vocabulary.CleanTextSpaceJoined | vocabulary_generator.py:11-13 | a space between two texts survives cleaning between their cleaned forms |
| Vocabulary.WordsOfCleanJoined | vocabulary_generator.py:17-18 | the words of two cleaned texts joined by a space are the words of each, in order |
| Vocabulary.WindowSplits | vocabulary_generator.py:40-42 | a window is its context `ngram[:n-1]` followed by its target `ngram[n-1]`, and spells `ctx + c` if and only if its context is `ctx` and its target is `c` |
| Vocabulary.NGrams | vocabulary_generator.py:39-40 | a word has `len - n + 1` windows, none when shorter than `n` |
| Vocabulary.NGramsFromWindows | vocabulary_generator.py:39-40 | the `k`-th window of a word is the slice starting at `k` |
| Vocabulary.SeedOf | vocabulary_generator.py:34-37 | a word shorter than `n` contributes no start sequence; a longer one contributes its prefix of `n - 1` characters |
| Vocabulary.SeedsUpTo | vocabulary_generator.py:33-37 | at most one start sequence per word, each of `n - 1` characters |
| Vocabulary.AddWindowsFrom | vocabulary_generator.py:39-43 | the table after the inner loop's turns from `i` on, one increment per window; no contract, `AddWindowsFromCounts` states what it counts |
| Vocabulary.AddWord | vocabulary_generator.py:39-43 | the table after all windows of one word; no contract, `AddWordCounts` and `AddWordTotal` state what it counts |
| Vocabulary.AddWords | vocabulary_generator.py:31-43 | the table `_build_model` leaves after a list of words; no contract, `AddWordsCounts` states each count |
| Vocabulary.Seeds | vocabulary_generator.py:34-37 | the start sequences `_build_model` appends for a list of words, in order; no contract, `SeedsUpTo` and `TrainOneMoreWord` state what they are |
| Vocabulary.AddWindowsFromCounts | vocabulary_generator.py:39-43 | counting the windows from position `i` on raises each count by the number of those windows that spell its context and character |
| Vocabulary.AddWordCounts | vocabulary_generator.py:39-43 | one word raises each count by the number of its windows that spell the transition |
| Vocabulary.AddWordsUpToCounts | vocabulary_generator.py:33-43 | the first `j` words raise each count by the number of their windows that spell the transition |
| Vocabulary.AddWordsCounts | vocabulary_generator.py:31-43 | after training, a transition's count is its count before plus its multiplicity among all windows of all words |
| Vocabulary.AddWindowsFromTotal | vocabulary_generator.py:39-43 | counting windows adds one to the total per window |
| Vocabulary.AddWordTotal | vocabulary_generator.py:39-43 | one word adds one recorded transition per window |
| Vocabulary.TrainOneMoreWord | vocabulary_generator.py:33-43 | a word shorter than `n` changes nothing; a longer one appends its first `n - 1` characters to the start sequences and `len - n + 1` transitions to the total |
| Vocabulary.UpToPrefix | vocabulary_generator.py:31-43 | training on a longer list agrees with training on its prefix for the prefix's words |
| Vocabulary.UpToAppend | vocabulary_generator.py:31-43 | training on `a + b` up to `len(a) + k` is training on `a`, then on the first `k` words of `b` |
| Vocabulary.AddWordsSnoc | vocabulary_generator.py:31-43 | training on one more word is training on the list, then on that word |
| Vocabulary.TrainingIsAdditive | vocabulary_generator.py:31-43 | training on `a + b` equals training on `a` then on `b`, for the table, the start sequences and the windows |
| Vocabulary.TrainingOrderIrrelevant | vocabulary_generator.py:31-43 | training on two word lists in either order ends with the same count for every transition |
| Vocabulary.TrainingOnTextsIsAdditive | vocabulary_generator.py:15-19 | training on two texts in turn equals training once on the two joined by a space |
| Vocabulary.AddWindowsFromWellFormed | vocabulary_generator.py:39-43 | counting windows keeps contexts at `n - 1` characters and counts positive; a non-empty result comes from a non-empty table or a counted window |
| Vocabulary.AddWordsWellFormed | vocabulary_generator.py:31-43 | training keeps the table well formed; a non-empty table after training had entries before or gained a start sequence |
| Vocabulary.TrainingKeepsValid | vocabulary_generator.py:31-43 | training keeps the generator invariant: well-formed table, start sequences of `n - 1` characters, and start sequences whenever the table is non-empty |
| Vocabulary.AddWindowsFromLetters | vocabulary_generator.py:39-43 | counting windows of a letters-only word records only letters |
| Vocabulary.AddWordsLetters | vocabulary_generator.py:31-43 | training on letters-only words records only letters, in the table and in the start sequences |
| Vocabulary.LastChars | vocabulary_generator.py:56 | the context is a suffix of the buffer of `min(len, k)` characters |
| Vocabulary.PythonTail | vocabulary_generator.py:56 | `res[-k:]` as Python evaluates it: a suffix of the buffer, the last `k` characters for `k >= 1` and the whole buffer for `k = 0` |
| Vocabulary.AsWrittenUnigramStalls | vocabulary_generator.py:56-62 | for `n = 1`, once the buffer is non-empty its context as written is never a recorded context, and the back-off appends nothing |
| Vocabulary.VocabularyGenerator.constructor | vocabulary_generator.py:6-9 | a new generator has the given `n`, an empty table and no start sequences, and satisfies its invariant |
| Vocabulary.VocabularyGenerator.CountWindows | vocabulary_generator.py:39-43 | the inner loop leaves the table with every window of the word counted once |
| Vocabulary.VocabularyGenerator.BuildModel | vocabulary_generator.py:31-43 | the table becomes `AddWords` of the old table and the words; the start sequences gain `Seeds` of the words, in order; the generator invariant is kept |
| Vocabulary.VocabularyGenerator.TrainFromString | vocabulary_generator.py:15-19 | training from a string is `BuildModel` on the words of the cleaned text; it keeps the invariant and keeps a letters-only model letters-only |
| Vocabulary.VocabularyGenerator.StepsSnoc | vocabulary_generator.py:55-68 | a legal run extended by one legal step is a legal run |
| Vocabulary.VocabularyGenerator.SeedEmittable | vocabulary_generator.py:51-52 | every character of a start sequence can be emitted |
| Vocabulary.VocabularyGenerator.EmittableLetters | vocabulary_generator.py:45-70 | when training saw only letters, everything the generator can emit is a letter |
| Vocabulary.VocabularyGenerator.UnigramContextKnown | vocabulary_generator.py:56-57 | a trained unigram table has the empty context, with a next character |
| Vocabulary.VocabularyGenerator.PickStart | vocabulary_generator.py:51-52 | `random.choice(self.start_sequences)` yields one of the start sequences, of `n - 1` characters |
| Vocabulary.VocabularyGenerator.Extend | vocabulary_generator.py:56-68 | one turn appends a character recorded under the last `n - 1` characters, or a whole start sequence when that context has no transitions; the buffer strictly grows |
| Vocabulary.VocabularyGenerator.GrowFrom | vocabulary_generator.py:55-68 | the loop ends at a buffer at least `length` long, reached by legal steps from the seed |
| Vocabulary.VocabularyGenerator.GenerateWord | vocabulary_generator.py:45-70 | `"none"` for an untrained model; otherwise the length-prefix of a legal run's final buffer, of exactly `length` characters when `length >= 0`, made only of emittable characters, and letters only after text training |
| Translator.GenLength | translator_core.py:46 | the length is at least 3, at least two and a half per Japanese character, and no longer than either bound needs |
| Translator.GenLengthIsLeast | translator_core.py:46 | no length that meets both bounds is shorter |
| Translator.LookUpAll | translator_core.py:60-65 | the translation list holds, position by position, the dictionary entry of each token |
| Translator.SentenceSplitsBack | translator_core.py:68-70 | for a non-empty list of tokens, when no entry holds a space, splitting the output on spaces gives the translations in reverse token order, one per token |
| Translator.LanguageTranslator.constructor | translator_core.py:7-14 | a new translator has an untrained generator of the given `n` and the table's stored rows |
| Translator.LanguageTranslator.TrainGenerator | translator_core.py:27-29 | training the translator trains its generator on the corpus text |
| Translator.LanguageTranslator.GetTranslation | translator_core.py:35-53 | a stored word is returned with the table unchanged; otherwise a generated word is stored under the token and returned: `"none"` untrained, else the `GenLength`-character prefix of the final buffer of a legal generation run, so exactly `GenLength` characters, each one training recorded, letters only when trained on text |
| Translator.LanguageTranslator.GetTranslationTwice | translator_core.py:35-53 | a second request for a token returns the first answer and changes nothing |
| Translator.LanguageTranslator.TranslateSentence | translator_core.py:55-70 | every token ends up in the table; old entries are kept; exactly the tokens are added; every new entry is `"none"` from an untrained generator, otherwise the `GenLength`-character prefix of a legal generation run's final buffer, made of recorded characters and letters only after text training; the output is the tokens' entries, reversed and joined with single spaces; a space-free table stays space-free |

## Findings

| source | as written | input that shows it | evidently intended | confidence | as-written member | corrected member |
|---|---|---|---|---|---|---|
| vocabulary_generator.py:56 | `res[-(self.n-1):]` is `res[-0:]` for `n = 1`, the whole buffer, so no context after the first character is ever in the table; the back-off appends an empty start sequence and the loop never ends | `VocabularyGenerator(n=1)` trained on `"ab"`, then `generate_word(3)` | the context is the last `n - 1` characters, empty for `n = 1`, so generation always terminates | medium, not executed | Vocabulary.AsWrittenUnigramStalls | Vocabulary.VocabularyGenerator.GenerateWord |

## Left out

- Vocabulary.VocabularyGenerator.GenerateWord: uses the empty context for `n = 1` (see Findings), so it terminates where the code as written loops forever.
- Vocabulary.VocabularyGenerator.constructor: requires `n >= 1`. With `n = 0`, `ngram[self.n-1]` indexes an empty string and raises `IndexError` on the first trained word; that exception is not modelled.
- Translator.LanguageTranslator.constructor: requires `nGram >= 1`, for the same reason.
- Translator.LanguageTranslator.constructor: takes the rows the SQLite table already holds instead of a database path. Connecting, creating the table, committing and `close` are not modelled; the table is a map field.
- Translator.LanguageTranslator.TranslateSentence: takes the token surfaces the janome tokenizer yields. The tokenizer is outside this model.
- Translator.GenLength: computes `ceil(len * 2.5)` exactly in integers. The source's floating-point product gives the same value for any realistic word length.
- Vocabulary.VocabularyGenerator.PickStart and Extend: `random.choice` and the count-weighted `random.choices` are arbitrary choices among the allowed values. The probabilities are not modelled; only that a drawn character has a positive count.
- Vocabulary.CleanText: `str.lower()` is modelled for the characters whose lower-case form contains `a`..`z`. These are `A`..`Z`, the Kelvin sign and capital I with dot above. Every other non-ASCII character that is not white space is dropped by the filter, whatever its lower-case form. Non-ASCII white space, such as U+00A0 or U+3000, is kept, as `\s` keeps it.
- `train_from_file` and `train_generator_from_file`: reading a file and printing messages are I/O. A file's text reaches the model through `TrainFromString`.
- The default arguments `n=3` and `n_gram=3` are not modelled. The constructors take `n` explicitly.
- The `__main__` demonstrations in both files print sample output and are not modelled.
- `list.reverse()` in `translate_sentence` reverses a local list in place. It is modelled as the value `Reversed` of that list.

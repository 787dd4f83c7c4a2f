/**
 * The memoising translator (`LanguageTranslator` in translator_core.py): a dictionary table keyed
 * by the Japanese surface string, filled on demand with words the vocabulary generator invents,
 * and a sentence translation that looks every token up, reverses the order and joins with spaces.
 */
module Translator {
  import opened Strings
  import opened Vocabulary

  /** `max(3, ceil(len(jp_word) * 2.5))`, in exact integer arithmetic. */
  function GenLength(jpLength: nat): (r: nat)
    ensures r >= 3 && 2 * r >= 5 * jpLength
    ensures r == 3 || 2 * (r - 1) < 5 * jpLength
  {
    var scaled := (5 * jpLength + 1) / 2;
    if scaled > 3 then scaled else 3
  }

  /** `GenLength` is the least length that is at least 3 and at least two and a half characters
      per character of the Japanese word. */
  lemma GenLengthIsLeast(jpLength: nat, k: nat)
    requires k >= 3 && 2 * k >= 5 * jpLength
    ensures GenLength(jpLength) <= k
  {
  }

  /** No stored word contains a space. */
  predicate SpaceFree(d: map<string, string>) {
    forall k :: k in d ==> ' ' !in d[k]
  }

  /** The translation of each token, in token order. */
  function LookUpAll(d: map<string, string>, tokens: seq<string>): (r: seq<string>)
    requires forall i :: 0 <= i < |tokens| ==> tokens[i] in d
    ensures |r| == |tokens|
    ensures forall i :: 0 <= i < |tokens| ==> r[i] == d[tokens[i]]
  {
    if tokens == [] then [] else [d[tokens[0]]] + LookUpAll(d, tokens[1..])
  }

  /** When no translation holds a space, splitting the translated sentence on spaces gives back the
      translations in reverse token order: as many words as tokens. */
  lemma SentenceSplitsBack(d: map<string, string>, tokens: seq<string>)
    requires forall i :: 0 <= i < |tokens| ==> tokens[i] in d
    requires SpaceFree(d) && tokens != []
    ensures SplitOn(JoinWith(Reversed(LookUpAll(d, tokens)), ' '), ' ') == Reversed(LookUpAll(d, tokens))
    ensures |SplitOn(JoinWith(Reversed(LookUpAll(d, tokens)), ' '), ' ')| == |tokens|
  {
    var ws := Reversed(LookUpAll(d, tokens));
    forall w | w in ws ensures ' ' !in w {
      var i :| 0 <= i < |ws| && ws[i] == w;
      assert w == d[tokens[|tokens| - 1 - i]];
    }
    SplitJoinRoundTrip(ws, ' ');
  }

  /** A word of letters only holds no space. */
  lemma LettersHaveNoSpace(w: string)
    requires LettersOnly(w)
    ensures ' ' !in w
  {
    forall i | 0 <= i < |w| ensures w[i] != ' ' {
      assert IsLowerLetter(w[i]);
    }
  }

  class LanguageTranslator {
    /** `self.generator`, created by the constructor and trained in place. */
    const generator: VocabularyGenerator
    /** The `dictionary` table: `japanese_word` (the primary key) to `conlang_word`. */
    var dictionary: map<string, string>

    ghost predicate Valid()
      reads this, generator
    {
      generator.Valid()
    }

    /** What a miss stores for `jpWord`: `"none"` from an untrained generator, otherwise the first
        `GenLength` characters of the final buffer of a legal generation run, so a word of exactly
        that length made of recorded characters, all letters when training saw only text. */
    ghost predicate GeneratedFor(jpWord: string, w: string)
      reads this, generator
    {
      && (generator.model == map[] ==> w == "none")
      && (generator.model != map[] && generator.n >= 1 ==>
            exists t :: generator.IsRun(t, GenLength(|jpWord|))
                        && w == PrefixSlice(t[|t| - 1], GenLength(|jpWord|)))
      && (generator.model != map[] ==> |w| == GenLength(|jpWord|) && generator.AllEmittable(w))
      && (generator.model != map[] && generator.Alphabetic() ==> LettersOnly(w))
    }

    /** `__init__`: a fresh generator for `nGram`, and the table as the database already holds it. */
    constructor (nGram: nat, stored: map<string, string>)
      requires nGram >= 1
      ensures Valid() && fresh(generator) && generator.Alphabetic()
      ensures generator.n == nGram && generator.model == map[] && generator.startSequences == []
      ensures dictionary == stored
    {
      generator := new VocabularyGenerator(nGram);
      dictionary := stored;
    }

    /** `train_generator`: train the generator on a corpus text. */
    method TrainGenerator(corpusText: string)
      requires Valid()
      modifies generator
      ensures Valid() && (old(generator.Alphabetic()) ==> generator.Alphabetic())
      ensures generator.model == AddWords(old(generator.model), Words(CleanText(corpusText)), generator.n)
      ensures generator.startSequences
              == old(generator.startSequences) + Seeds(Words(CleanText(corpusText)), generator.n)
    {
      generator.TrainFromString(corpusText);
    }

    /** `get_translation`: the stored word on a hit; on a miss, a freshly generated word of
        `GenLength` characters, stored under `jpWord` before it is returned. */
    method GetTranslation(jpWord: string) returns (w: string)
      requires Valid()
      modifies this`dictionary
      ensures jpWord in old(dictionary) ==> w == old(dictionary)[jpWord] && dictionary == old(dictionary)
      ensures jpWord !in old(dictionary) ==> dictionary == old(dictionary)[jpWord := w]
      ensures jpWord !in old(dictionary) ==> GeneratedFor(jpWord, w)
      ensures jpWord in dictionary && dictionary[jpWord] == w
      ensures SpaceFree(old(dictionary)) && generator.Alphabetic() ==> SpaceFree(dictionary)
    {
      if jpWord in dictionary {
        return dictionary[jpWord];
      }
      var genLength := GenLength(|jpWord|);
      ghost var trace;
      w, trace := generator.GenerateWord(genLength);
      dictionary := dictionary[jpWord := w];
      if generator.model != map[] {
        assert generator.IsRun(trace, genLength) && w == PrefixSlice(trace[|trace| - 1], genLength);
      }
      if SpaceFree(old(dictionary)) && generator.Alphabetic() {
        if generator.model != map[] {
          LettersHaveNoSpace(w);
        }
        assert ' ' !in w;
      }
    }

    /** Asking twice for the same word gives the same answer, and the second call changes nothing. */
    method GetTranslationTwice(jpWord: string) returns (first: string, second: string)
      requires Valid()
      modifies this`dictionary
      ensures first == second
      ensures dictionary == old(dictionary)[jpWord := first]
      ensures jpWord in old(dictionary) ==> first == old(dictionary)[jpWord]
    {
      first := GetTranslation(jpWord);
      ghost var between := dictionary;
      second := GetTranslation(jpWord);
      assert dictionary == between;
    }

    /** `translate_sentence` on the surfaces the tokenizer yields: translate each token in order,
        reverse the list and join it with single spaces. */
    method TranslateSentence(surfaces: seq<string>) returns (out: string)
      requires Valid()
      modifies this`dictionary
      ensures forall i :: 0 <= i < |surfaces| ==> surfaces[i] in dictionary
      ensures forall k :: k in old(dictionary) ==> k in dictionary && dictionary[k] == old(dictionary)[k]
      ensures dictionary.Keys == old(dictionary).Keys + set i | 0 <= i < |surfaces| :: surfaces[i]
      ensures out == JoinWith(Reversed(LookUpAll(dictionary, surfaces)), ' ')
      ensures forall k :: k in dictionary && k !in old(dictionary) ==> GeneratedFor(k, dictionary[k])
      ensures SpaceFree(old(dictionary)) && generator.Alphabetic() ==> SpaceFree(dictionary)
    {
      var translated: seq<string> := [];
      for i := 0 to |surfaces|
        invariant |translated| == i
        invariant forall j :: 0 <= j < i ==> surfaces[j] in dictionary && dictionary[surfaces[j]] == translated[j]
        invariant forall k :: k in old(dictionary) ==> k in dictionary && dictionary[k] == old(dictionary)[k]
        invariant dictionary.Keys == old(dictionary).Keys + set j | 0 <= j < i :: surfaces[j]
        invariant forall k :: k in dictionary && k !in old(dictionary) ==> GeneratedFor(k, dictionary[k])
        invariant SpaceFree(old(dictionary)) && generator.Alphabetic() ==> SpaceFree(dictionary)
      {
        var conWord := GetTranslation(surfaces[i]);
        translated := translated + [conWord];
      }
      assert translated == LookUpAll(dictionary, surfaces);
      translated := Reversed(translated);
      out := JoinWith(translated, ' ');
    }
  }
}

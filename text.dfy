/**
 * `TextProcessor`: normalisation, tokenisation, stopword removal, stemming,
 * n-grams and shingles (src/service/index.py, lines 21-94).
 */
module Text {
  import opened Wrappers
  import opened PyText

  /**
   * A `TextProcessor`: the language resources it loads once at construction
   * (the Portuguese stopword set and the RSLP stemmer) and the Unicode database
   * its normalisation consults.
   */
  datatype TextProcessor = TextProcessor(stopwords: set<string>, stem: string -> string, unicode: UnicodeDb)

  /** The keyword arguments of `process_text`. */
  datatype Settings = Settings(
    removeStop: bool,
    applyStem: bool,
    createGrams: bool,
    nGram: int,
    createShing: bool,
    maxN: int)

  /** The keyword defaults of `process_text`, which are also `create_index`'s default table. */
  const Defaults := Settings(true, true, false, 2, false, 3)

  // ---------------------------------------------------------------------------
  // normalize_text
  // ---------------------------------------------------------------------------

  /** `re.sub(r"[^\w\s]", " ", s)` on ASCII text. */
  function BlankNonWord(s: string): (r: string)
    ensures |r| == |s|
    ensures forall i :: 0 <= i < |r| ==> IsWordChar(r[i]) || IsSpace(r[i])
    ensures forall i :: 0 <= i < |s| && (IsWordChar(s[i]) || IsSpace(s[i])) ==> r[i] == s[i]
    ensures forall i :: 0 <= i < |s| && !IsWordChar(s[i]) && !IsSpace(s[i]) ==> r[i] == ' '
  {
    seq(|s|, i requires 0 <= i < |s| => if IsWordChar(s[i]) || IsSpace(s[i]) then s[i] else ' ')
  }

  /** The lower-cased text folded to ASCII, before the regular expressions run. */
  function Folded(db: UnicodeDb, text: string): string {
    AsciiOnly(db.nfkd(db.lower(text)))
  }

  /** `TextProcessor.normalize_text`. */
  function NormalizeText(db: UnicodeDb, text: string): string {
    var noPunct := BlankNonWord(Folded(db, text));
    var noDigits := CollapseRuns(noPunct, IsDigit, ' ');
    var oneSpace := CollapseRuns(noDigits, IsSpace, ' ');
    Strip(oneSpace, IsSpace)
  }

  /** Letters, `_` and single inner blanks only. */
  predicate IsNormalized(s: string) {
    && (forall i :: 0 <= i < |s| ==> IsLetter(s[i]) || s[i] == '_' || s[i] == ' ')
    && SingleSpaced(s)
  }

  /** Every character of `s` is a blank, or a character of `src` in the class `q`. */
  predicate FromClass(s: string, src: string, q: char -> bool) {
    forall i :: 0 <= i < |s| ==> s[i] == ' ' || (q(s[i]) && s[i] in src)
  }

  predicate IsWordOrSpace(c: char) { IsWordChar(c) || IsSpace(c) }
  predicate IsWordOrSpaceNotDigit(c: char) { IsWordOrSpace(c) && !IsDigit(c) }
  predicate IsLetterOrUnderscore(c: char) { IsLetter(c) || c == '_' }

  /** Collapsing runs of `p` into blanks keeps the characters' origin and narrows their class to `q2`. */
  lemma {:induction false} CollapseFromClass(s: string, src: string, q: char -> bool, p: char -> bool, q2: char -> bool)
    requires FromClass(s, src, q)
    requires forall c :: q(c) && !p(c) ==> q2(c)
    ensures FromClass(CollapseRuns(s, p, ' '), src, q2)
  {
    var r := CollapseRuns(s, p, ' ');
    CollapseChars(s, p, ' ');
    assert CharsFrom(r, s, p, ' ');
    forall i | 0 <= i < |r| && r[i] != ' ' ensures q2(r[i]) && r[i] in src {
      var j :| 0 <= j < |s| && s[j] == r[i];
    }
  }

  /** Stripping keeps a text's character classes and its lack of adjacent blanks. */
  lemma {:induction false} StripFromClass(s: string, src: string, q: char -> bool)
    requires FromClass(s, src, q) && NoAdjacent(s, IsSpace)
    ensures FromClass(Strip(s, IsSpace), src, q)
    ensures SingleSpaced(Strip(s, IsSpace))
  {
    var r := Strip(s, IsSpace);
    StripSlice(s, IsSpace);
    var a := LeadingCount(s, IsSpace);
    assert forall i :: 0 <= i < |r| ==> r[i] == s[a + i];
    forall i | 0 <= i < |r| - 1 ensures !(IsBlank(r[i]) && IsBlank(r[i + 1])) {
      assert !(IsSpace(s[a + i]) && IsSpace(s[a + i + 1]));
    }
  }

  /** Every character of the normalised text is a blank or a letter or `_` of the folded text. */
  lemma {:induction false} NormalizeTextChars(db: UnicodeDb, text: string)
    ensures SingleSpaced(NormalizeText(db, text))
    ensures FromClass(NormalizeText(db, text), Folded(db, text), IsLetterOrUnderscore)
  {
    var folded := Folded(db, text);
    var noPunct := BlankNonWord(folded);
    assert FromClass(noPunct, folded, IsWordOrSpace);
    var noDigits := CollapseRuns(noPunct, IsDigit, ' ');
    CollapseFromClass(noPunct, folded, IsWordOrSpace, IsDigit, IsWordOrSpaceNotDigit);
    var oneSpace := CollapseRuns(noDigits, IsSpace, ' ');
    CollapseFromClass(noDigits, folded, IsWordOrSpaceNotDigit, IsSpace, IsLetterOrUnderscore);
    CollapseNoAdjacent(noDigits, IsSpace, ' ');
    StripFromClass(oneSpace, folded, IsLetterOrUnderscore);
  }

  /** `normalize_text` returns letters, `_` and single inner blanks, whatever its input. */
  lemma {:induction false} NormalizeTextIsNormalized(db: UnicodeDb, text: string)
    ensures IsNormalized(NormalizeText(db, text))
  {
    NormalizeTextChars(db, text);
  }

  /**
   * What `normalize_text` keeps: the maximal runs of letters and `_` of the
   * folded text, in order, joined by single blanks. Every digit run, other
   * character and whitespace run between them becomes one blank, and none is
   * left at either end.
   */
  lemma {:induction false} NormalizeTextRuns(db: UnicodeDb, text: string)
    ensures NormalizeText(db, text) == JoinWith(' ', Runs(Folded(db, text), IsLetterOrUnderscore))
  {
    var folded := Folded(db, text);
    var noPunct := BlankNonWord(folded);
    RunsSameMask(folded, noPunct, IsLetterOrUnderscore);
    var noDigits := CollapseRuns(noPunct, IsDigit, ' ');
    CollapseKeepsRuns(noPunct, IsDigit, ' ', IsLetterOrUnderscore);
    var oneSpace := CollapseRuns(noDigits, IsSpace, ' ');
    CollapseKeepsRuns(noDigits, IsSpace, ' ', IsLetterOrUnderscore);
    StripKeepsRuns(oneSpace, IsSpace, IsLetterOrUnderscore);
    NormalizeTextChars(db, text);
    JoinOfRuns(NormalizeText(db, text), ' ', IsBlank, IsLetterOrUnderscore);
  }

  /** The tokens of a text are the runs of letters and `_` of its folded form. */
  lemma {:induction false} TokensAreRuns(db: UnicodeDb, text: string)
    ensures Tokenize(NormalizeText(db, text)) == Runs(Folded(db, text), IsLetterOrUnderscore)
  {
    var rs := Runs(Folded(db, text), IsLetterOrUnderscore);
    NormalizeTextRuns(db, text);
    RunsInClass(Folded(db, text), IsLetterOrUnderscore);
    forall i | 0 <= i < |rs| ensures IsWord(rs[i]) {
      assert forall j :: 0 <= j < |rs[i]| ==> rs[i][j] != ' ';
    }
    WordsOfJoin(rs);
  }

  /**
   * One digit, punctuation mark or whitespace character between two lower-case
   * words becomes one blank: `normalize_text("a1b")` is `"a b"`.
   */
  lemma {:induction false} NormalizeSeparatedWords(db: UnicodeDb, a: string, c: char, b: string)
    requires LowerIsAsciiLower(db) && NfkdFixesAscii(db)
    requires a != [] && forall i :: 0 <= i < |a| ==> IsLower(a[i]) || a[i] == '_'
    requires b != [] && forall i :: 0 <= i < |b| ==> IsLower(b[i]) || b[i] == '_'
    requires IsAsciiChar(c) && !IsLetterOrUnderscore(c)
    ensures NormalizeText(db, a + [c] + b) == a + " " + b
  {
    var s := a + [c] + b;
    assert forall i :: 0 <= i < |s| ==> IsAsciiChar(s[i]) && !IsUpper(s[i]) by {
      assert forall i :: 0 <= i < |a| ==> s[i] == a[i];
      assert forall i :: 0 <= i < |b| ==> s[|a| + 1 + i] == b[i];
    }
    FoldedFixesLowerAscii(db, s);
    NormalizeTextRuns(db, s);
    RunsOfTwo(a, c, b, IsLetterOrUnderscore);
    JoinCons(a, ' ', [b]);
  }

  /** On ASCII input the letters are lower-case: the output is over `[a-z_ ]`. */
  lemma {:induction false} NormalizeAsciiIsLowercase(db: UnicodeDb, text: string)
    requires LowerIsAsciiLower(db) && NfkdFixesAscii(db)
    requires IsAscii(text)
    ensures var r := NormalizeText(db, text);
      forall i :: 0 <= i < |r| ==> IsLower(r[i]) || r[i] == '_' || r[i] == ' '
  {
    NormalizeTextChars(db, text);
    var lowered := AsciiLower(text);
    assert IsAscii(lowered);
    assert Folded(db, text) == lowered;
  }

  /** Lower-case ASCII text passes unchanged through the lower-casing and the ASCII folding. */
  lemma {:induction false} FoldedFixesLowerAscii(db: UnicodeDb, s: string)
    requires LowerIsAsciiLower(db) && NfkdFixesAscii(db)
    requires IsAscii(s)
    requires forall i :: 0 <= i < |s| ==> !IsUpper(s[i])
    ensures Folded(db, s) == s
  {
    assert AsciiLower(s) == s;
  }

  /** Stripping a text that neither starts nor ends with a blank changes nothing. */
  lemma {:induction false} StripSingleSpaced(s: string)
    requires SingleSpaced(s)
    requires forall i :: 0 <= i < |s| ==> IsSpace(s[i]) ==> s[i] == ' '
    ensures Strip(s, IsSpace) == s
  {
    assert LeadingCount(s, IsSpace) == 0;
    assert TrailingCount(s, IsSpace) == 0;
  }

  /** Normalised text has no digit, no punctuation and no whitespace other than single blanks. */
  lemma {:induction false} NormalizedClasses(s: string)
    requires IsNormalized(s)
    ensures IsAscii(s)
    ensures BlankNonWord(s) == s
    ensures NoAdjacent(s, IsDigit) && forall i :: 0 <= i < |s| ==> !IsDigit(s[i])
    ensures NoAdjacent(s, IsSpace) && forall i :: 0 <= i < |s| ==> IsSpace(s[i]) ==> s[i] == ' '
  {
    assert forall i :: 0 <= i < |s| ==> IsWordChar(s[i]) || IsSpace(s[i]);
    assert NoAdjacent(s, IsSpace) by {
      forall i | 0 <= i < |s| - 1 ensures !(IsSpace(s[i]) && IsSpace(s[i + 1])) {
        assert !(IsBlank(s[i]) && IsBlank(s[i + 1]));
      }
    }
  }

  /** Lower-case normalised text is a fixed point of `normalize_text`. */
  lemma {:induction false} NormalizeFixesNormalized(db: UnicodeDb, s: string)
    requires LowerIsAsciiLower(db) && NfkdFixesAscii(db)
    requires IsNormalized(s)
    requires forall i :: 0 <= i < |s| ==> !IsUpper(s[i])
    ensures NormalizeText(db, s) == s
  {
    NormalizedClasses(s);
    FoldedFixesLowerAscii(db, s);
    CollapseIdentity(s, IsDigit, ' ');
    CollapseIdentity(s, IsSpace, ' ');
    StripSingleSpaced(s);
  }

  /** On ASCII input, normalising twice is normalising once. */
  lemma {:induction false} NormalizeTextIdempotent(db: UnicodeDb, text: string)
    requires LowerIsAsciiLower(db) && NfkdFixesAscii(db)
    requires IsAscii(text)
    ensures NormalizeText(db, NormalizeText(db, text)) == NormalizeText(db, text)
  {
    NormalizeTextIsNormalized(db, text);
    NormalizeAsciiIsLowercase(db, text);
    NormalizeFixesNormalized(db, NormalizeText(db, text));
  }

  // ---------------------------------------------------------------------------
  // tokenize, remove_stopwords, apply_stemming
  // ---------------------------------------------------------------------------

  /** `TextProcessor.tokenize` on normalised text: the blank-separated words. */
  function Tokenize(text: string): seq<string> {
    Words(text)
  }

  /** Tokenising normalised text loses nothing: joining the tokens with blanks gives it back. */
  lemma {:induction false} TokenizeRoundTrip(db: UnicodeDb, text: string)
    ensures JoinWith(' ', Tokenize(NormalizeText(db, text))) == NormalizeText(db, text)
  {
    NormalizeTextIsNormalized(db, text);
    JoinOfWords(NormalizeText(db, text));
  }

  /** A token the source treats as a stopword: its lower-case form is in the set. */
  predicate IsStopword(tp: TextProcessor, token: string) {
    tp.unicode.lower(token) in tp.stopwords
  }

  /** `TextProcessor.remove_stopwords`. */
  function RemoveStopwords(tp: TextProcessor, tokens: seq<string>): seq<string>
    decreases |tokens|
  {
    if tokens == [] then []
    else (if IsStopword(tp, tokens[0]) then [] else [tokens[0]]) + RemoveStopwords(tp, tokens[1..])
  }

  /** Stopword removal keeps exactly the tokens that are not stopwords, and never lengthens the list. */
  lemma {:induction false} RemoveStopwordsFilters(tp: TextProcessor, tokens: seq<string>)
    ensures forall t :: t in RemoveStopwords(tp, tokens) <==> t in tokens && !IsStopword(tp, t)
    ensures |RemoveStopwords(tp, tokens)| <= |tokens|
    decreases |tokens|
  {
    if tokens != [] {
      RemoveStopwordsFilters(tp, tokens[1..]);
      assert tokens == [tokens[0]] + tokens[1..];
    }
  }

  /** Stopword removal works token by token and keeps the order: it distributes over concatenation. */
  lemma {:induction false} RemoveStopwordsAppend(tp: TextProcessor, a: seq<string>, b: seq<string>)
    ensures RemoveStopwords(tp, a + b) == RemoveStopwords(tp, a) + RemoveStopwords(tp, b)
    decreases |a|
  {
    if a == [] {
      assert a + b == b;
    } else {
      var kept := if IsStopword(tp, a[0]) then [] else [a[0]];
      assert (a + b)[0] == a[0];
      assert (a + b)[1..] == a[1..] + b;
      RemoveStopwordsAppend(tp, a[1..], b);
      assert RemoveStopwords(tp, a + b) == kept + RemoveStopwords(tp, a[1..] + b);
    }
  }

  /** Removing stopwords a second time removes nothing more. */
  lemma {:induction false} RemoveStopwordsIdempotent(tp: TextProcessor, tokens: seq<string>)
    ensures RemoveStopwords(tp, RemoveStopwords(tp, tokens)) == RemoveStopwords(tp, tokens)
    decreases |tokens|
  {
    if tokens != [] {
      var kept := if IsStopword(tp, tokens[0]) then [] else [tokens[0]];
      RemoveStopwordsIdempotent(tp, tokens[1..]);
      RemoveStopwordsAppend(tp, kept, RemoveStopwords(tp, tokens[1..]));
    }
  }

  /** `TextProcessor.apply_stemming`. */
  function ApplyStemming(tp: TextProcessor, tokens: seq<string>): (r: seq<string>)
    ensures |r| == |tokens|
  {
    seq(|tokens|, i requires 0 <= i < |tokens| => tp.stem(tokens[i]))
  }

  /** A set every element of which is the image of some element of `s` is no larger than `s`. */
  lemma {:induction false} ImageNotLarger<A, B>(s: set<A>, image: set<B>, f: A -> B)
    requires forall y :: y in image ==> exists x :: x in s && y == f(x)
    ensures |image| <= |s|
    decreases |s|
  {
    if s != {} {
      var x :| x in s;
      var rest := image - {f(x)};
      forall y | y in rest ensures exists z :: z in s - {x} && y == f(z) {
        var z :| z in s && y == f(z);
        assert z != x;
      }
      ImageNotLarger(s - {x}, rest, f);
    } else {
      assert forall y :: y !in image;
    }
  }

  /** Stemming can merge surface forms but never split them: the vocabulary does not grow. */
  lemma {:induction false} StemmingNeverGrowsVocabulary(tp: TextProcessor, tokens: seq<string>)
    ensures |set t | t in ApplyStemming(tp, tokens)| <= |set t | t in tokens|
  {
    var stems := set t | t in ApplyStemming(tp, tokens);
    var forms := set t | t in tokens;
    forall y | y in stems ensures exists x :: x in forms && y == tp.stem(x) {
      var i :| 0 <= i < |tokens| && ApplyStemming(tp, tokens)[i] == y;
      assert tokens[i] in forms;
    }
    ImageNotLarger(forms, stems, tp.stem);
  }

  // ---------------------------------------------------------------------------
  // create_ngrams, create_shingles
  // ---------------------------------------------------------------------------

  /** Number of windows `range(len(tokens) - n + 1)` visits. */
  function WindowCount(len: nat, n: int): nat {
    if len - n + 1 > 0 then len - n + 1 else 0
  }

  /** `TextProcessor.create_ngrams`, Python slicing included (so `n <= 0` behaves as in the source). */
  function CreateNgrams(tokens: seq<string>, n: int): (r: seq<string>)
    ensures |r| == WindowCount(|tokens|, n)
  {
    seq(WindowCount(|tokens|, n), i requires 0 <= i < WindowCount(|tokens|, n) => JoinWith(' ', PySlice(tokens, i, i + n)))
  }

  /** For `n >= 1`, item `i` is the window `tokens[i..i+n]` joined by single blanks. */
  lemma {:induction false} NgramWindow(tokens: seq<string>, n: int, i: nat)
    requires n >= 1 && i + n <= |tokens|
    ensures i < |CreateNgrams(tokens, n)|
    ensures CreateNgrams(tokens, n)[i] == JoinWith(' ', tokens[i..i + n])
  {
    assert SliceBound(i, |tokens|) == i && SliceBound(i + n, |tokens|) == i + n;
    assert PySlice(tokens, i, i + n) == tokens[i..i + n];
  }

  /** Tokenising an n-gram gives back its window: n-grams are an encoding of the windows. */
  lemma {:induction false} NgramTokens(tokens: seq<string>, n: int, i: nat)
    requires forall k :: 0 <= k < |tokens| ==> IsWord(tokens[k])
    requires n >= 1 && i < |CreateNgrams(tokens, n)|
    ensures Words(CreateNgrams(tokens, n)[i]) == tokens[i..i + n]
  {
    NgramWindow(tokens, n, i);
    WordsOfJoin(tokens[i..i + n]);
  }

  /** The 1-grams are the tokens themselves. */
  lemma {:induction false} UnigramsAreTokens(tokens: seq<string>)
    ensures CreateNgrams(tokens, 1) == tokens
  {
    forall i | 0 <= i < |tokens| ensures CreateNgrams(tokens, 1)[i] == tokens[i] {
      NgramWindow(tokens, 1, i);
      assert tokens[i..i + 1] == [tokens[i]];
    }
  }

  /** A document shorter than `n` tokens has no n-grams; it is not an error. */
  lemma {:induction false} NgramsOfShortInput(tokens: seq<string>, n: int)
    requires |tokens| < n
    ensures CreateNgrams(tokens, n) == []
  {
  }

  /** The shingles for `1..maxN`: the n-gram lists concatenated in increasing `n`. */
  function Shingles(tokens: seq<string>, maxN: int): seq<string>
    decreases maxN
  {
    if maxN < 1 then [] else Shingles(tokens, maxN - 1) + CreateNgrams(tokens, maxN)
  }

  /** `TextProcessor.create_shingles`: extends a list with each n-gram list in turn. */
  method CreateShingles(tokens: seq<string>, maxN: int) returns (shingles: seq<string>)
    ensures shingles == Shingles(tokens, maxN)
  {
    shingles := [];
    var n := 1;
    while n <= maxN
      invariant 1 <= n <= if maxN >= 1 then maxN + 1 else 1
      invariant shingles == Shingles(tokens, n - 1)
    {
      shingles := shingles + CreateNgrams(tokens, n);
      n := n + 1;
    }
  }

  /** A shingle is exactly an n-gram of some order between 1 and `maxN`. */
  lemma {:induction false} ShingleMembership(tokens: seq<string>, maxN: int, x: string)
    ensures x in Shingles(tokens, maxN) <==> exists n :: 1 <= n <= maxN && x in CreateNgrams(tokens, n)
    decreases maxN
  {
    if maxN >= 1 {
      ShingleMembership(tokens, maxN - 1, x);
    }
  }

  /** The shingle list starts with the tokens (its 1-grams). */
  lemma {:induction false} ShinglesBeginWithTokens(tokens: seq<string>, maxN: int)
    requires maxN >= 1
    ensures |tokens| <= |Shingles(tokens, maxN)|
    ensures Shingles(tokens, maxN)[..|tokens|] == tokens
    decreases maxN
  {
    if maxN == 1 {
      UnigramsAreTokens(tokens);
      assert Shingles(tokens, 1) == tokens;
    } else {
      ShinglesBeginWithTokens(tokens, maxN - 1);
    }
  }

  /** For `maxN` up to `len + 1`, there are `sum of (len - n + 1)` shingles, in closed form. */
  lemma {:induction false} ShinglesLength(tokens: seq<string>, maxN: nat)
    requires maxN <= |tokens| + 1
    ensures 2 * |Shingles(tokens, maxN)| == maxN * (2 * |tokens| - maxN + 1)
    decreases maxN
  {
    if maxN >= 1 {
      ShinglesLength(tokens, maxN - 1);
      var m := maxN - 1;
      assert 2 * |Shingles(tokens, m)| == m * (2 * |tokens| - m + 1);
      assert |CreateNgrams(tokens, maxN)| == |tokens| - maxN + 1;
      assert maxN * (2 * |tokens| - maxN + 1) == m * (2 * |tokens| - m + 1) + 2 * (|tokens| - maxN + 1);
    }
  }

  // ---------------------------------------------------------------------------
  // process_text
  // ---------------------------------------------------------------------------

  /** The dict `process_text` returns: `ngrams` and `shingles` are keys that may be absent. */
  datatype Processed = Processed(tokens: seq<string>, ngrams: Option<seq<string>>, shingles: Option<seq<string>>)

  /** The token stream before the optional steps. */
  function BaseTokens(tp: TextProcessor, text: string): seq<string> {
    Tokenize(NormalizeText(tp.unicode, text))
  }

  /** The tokens after the optional stopword removal and then the optional stemming. */
  function FinalTokens(tp: TextProcessor, text: string, s: Settings): seq<string> {
    var base := BaseTokens(tp, text);
    var kept := if s.removeStop then RemoveStopwords(tp, base) else base;
    if s.applyStem then ApplyStemming(tp, kept) else kept
  }

  /** `TextProcessor.process_text`. */
  function ProcessText(tp: TextProcessor, text: string, s: Settings): (r: Processed)
    ensures r.ngrams.Some? <==> s.createGrams
    ensures r.shingles.Some? <==> s.createShing
    ensures r.ngrams.Some? ==> r.ngrams.value == CreateNgrams(r.tokens, s.nGram)
    ensures r.shingles.Some? ==> r.shingles.value == Shingles(r.tokens, s.maxN)
  {
    var tokens := FinalTokens(tp, text, s);
    Processed(
      tokens,
      if s.createGrams then Some(CreateNgrams(tokens, s.nGram)) else None,
      if s.createShing then Some(Shingles(tokens, s.maxN)) else None)
  }

  /**
   * Stopwords are tested before stemming: with both steps on, the tokens are the
   * stems of exactly the non-stopword tokens, in order, whatever their stems are.
   */
  lemma {:induction false} StopwordsTestedBeforeStemming(tp: TextProcessor, text: string, s: Settings)
    requires s.removeStop && s.applyStem
    ensures var base := BaseTokens(tp, text);
      var r := ProcessText(tp, text, s).tokens;
      && |r| == |RemoveStopwords(tp, base)|
      && forall i :: 0 <= i < |r| ==> r[i] == tp.stem(RemoveStopwords(tp, base)[i])
  {
  }

  /** Without stemming, no token left by stopword removal is a stopword, and every token is a word of the normalised text. */
  lemma {:induction false} ProcessedTokensAreCleanWords(tp: TextProcessor, text: string, s: Settings)
    requires !s.applyStem
    ensures var r := ProcessText(tp, text, s).tokens;
      forall t :: t in r ==> IsWord(t) && t in BaseTokens(tp, text) && (s.removeStop ==> !IsStopword(tp, t))
  {
    RemoveStopwordsFilters(tp, BaseTokens(tp, text));
  }

  /**
   * All four flag combinations: the tokens are the base tokens, filtered of stopwords
   * when `remove_stop` is set, then each replaced by its stem when `apply_stem` is
   * set; stemming never drops or reorders a token, and the filter keeps only
   * non-stopword tokens of the base stream.
   */
  lemma {:induction false} ProcessedTokens(tp: TextProcessor, text: string, s: Settings)
    ensures var base := BaseTokens(tp, text);
      var kept := if s.removeStop then RemoveStopwords(tp, base) else base;
      var r := ProcessText(tp, text, s).tokens;
      && |r| == |kept|
      && (forall i :: 0 <= i < |r| ==> r[i] == if s.applyStem then tp.stem(kept[i]) else kept[i])
      && (forall t :: t in kept ==> t in base && (s.removeStop ==> !IsStopword(tp, t)))
  {
    RemoveStopwordsFilters(tp, BaseTokens(tp, text));
  }
}

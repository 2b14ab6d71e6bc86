/**
 * `IndexAnalyzer.create_index`: merge the partial options over the default
 * table, normalise every document of the corpus, choose the term stream the
 * options ask for and add each document to a fresh inverted index.
 */
module Analyzer {
  import opened Wrappers
  import opened PyText
  import opened Text
  import opened Inverted

  // ---------------------------------------------------------------------------
  // The options of a variant
  // ---------------------------------------------------------------------------

  /** The partial option dict given to `create_index`: an absent key is `None`. */
  datatype Params = Params(
    removeStop: Option<bool>,
    applyStem: Option<bool>,
    createGrams: Option<bool>,
    nGram: Option<int>,
    createShing: Option<bool>,
    maxN: Option<int>)

  /** The empty dict `{}`. */
  const NoParams := Params(None, None, None, None, None, None)

  /**
   * `{**default_params, **params}` when `params` is truthy, `default_params`
   * otherwise. `None` stands for `params=None`.
   */
  function Merge(params: Option<Params>): (s: Settings)
    ensures params.None? ==> s == Defaults
    ensures params.Some? ==>
      && s.removeStop == params.value.removeStop.GetOr(Defaults.removeStop)
      && s.applyStem == params.value.applyStem.GetOr(Defaults.applyStem)
      && s.createGrams == params.value.createGrams.GetOr(Defaults.createGrams)
      && s.nGram == params.value.nGram.GetOr(Defaults.nGram)
      && s.createShing == params.value.createShing.GetOr(Defaults.createShing)
      && s.maxN == params.value.maxN.GetOr(Defaults.maxN)
  {
    match params
    case None => Defaults
    case Some(p) =>
      if p == NoParams then Defaults
      else Settings(
        p.removeStop.GetOr(Defaults.removeStop),
        p.applyStem.GetOr(Defaults.applyStem),
        p.createGrams.GetOr(Defaults.createGrams),
        p.nGram.GetOr(Defaults.nGram),
        p.createShing.GetOr(Defaults.createShing),
        p.maxN.GetOr(Defaults.maxN))
  }

  /** Passing no options, an empty dict, or exactly the defaults gives the same settings. */
  lemma MergeOfDefaults(p: Params)
    requires p == NoParams || p == Params(Some(true), Some(true), Some(false), Some(2), Some(false), Some(3))
    ensures Merge(Some(p)) == Merge(None) == Defaults
  {
  }

  // ---------------------------------------------------------------------------
  // The term stream of a document
  // ---------------------------------------------------------------------------

  /**
   * The list `create_index` hands to `add_document`: `ngrams` when n-grams are
   * on and shingles off, `shingles` when shingles are on, `tokens` otherwise.
   */
  function IndexedTerms(tp: TextProcessor, text: string, s: Settings): seq<Term> {
    var r := ProcessText(tp, text, s);
    if s.createGrams && !s.createShing then r.ngrams.value
    else if s.createShing then r.shingles.value
    else r.tokens
  }

  /**
   * Shingles take precedence whatever `create_grams` says; otherwise n-grams
   * when asked for; otherwise the final tokens themselves.
   */
  lemma IndexedStream(tp: TextProcessor, text: string, s: Settings)
    ensures s.createShing ==> IndexedTerms(tp, text, s) == Shingles(FinalTokens(tp, text, s), s.maxN)
    ensures !s.createShing && s.createGrams ==> IndexedTerms(tp, text, s) == CreateNgrams(FinalTokens(tp, text, s), s.nGram)
    ensures !s.createShing && !s.createGrams ==> IndexedTerms(tp, text, s) == FinalTokens(tp, text, s)
  {
  }

  /** `process_text` followed by the choice of stream, as a function of the text. */
  function Terms(tp: TextProcessor, s: Settings): string -> seq<Term> {
    text => IndexedTerms(tp, text, s)
  }

  /** The documents in dict order, each paired with `f` of its text. */
  function Stream(documents: Dict<DocId, string>, f: string -> seq<Term>): (docs: seq<(DocId, seq<Term>)>)
    ensures |docs| == |documents|
    ensures forall i :: 0 <= i < |docs| ==> docs[i] == (documents[i].0, f(documents[i].1))
  {
    seq(|documents|, i requires 0 <= i < |documents| => (documents[i].0, f(documents[i].1)))
  }

  /** The corpus as `create_index` feeds it to the index under the settings `s`. */
  function Corpus(tp: TextProcessor, documents: Dict<DocId, string>, s: Settings): seq<(DocId, seq<Term>)> {
    Stream(documents, Terms(tp, s))
  }

  /** The stream's ids are the dict's keys, so no id is added twice. */
  lemma StreamIds(documents: Dict<DocId, string>, f: string -> seq<Term>)
    ensures Ids(Stream(documents, f)) == Keys(documents)
    ensures NoDup(Ids(Stream(documents, f)))
  {
    var ids := Ids(Stream(documents, f));
    assert forall i, j :: 0 <= i < j < |ids| ==> ids[i] != ids[j] by {
      assert forall i :: 0 <= i < |ids| ==> ids[i] == documents[i].0;
    }
  }

  /** `s` is a consistent index holding exactly the documents of the corpus, each once. */
  ghost predicate IndexesCorpus(s: IndexState, documents: Dict<DocId, string>) {
    && s.Consistent()
    && (forall d :: d in s.documents <==> d in Keys(documents))
    && s.totalDocs == |documents|
  }

  /** The index built for a corpus is consistent and holds exactly the corpus's documents. */
  lemma CorpusIndex(documents: Dict<DocId, string>, f: string -> seq<Term>)
    ensures IndexesCorpus(Build(Empty, Stream(documents, f)), documents)
  {
    StreamIds(documents, f);
    BuildConsistent(Stream(documents, f));
  }

  /** Every document of the corpus is in the index built for it, and nothing else. */
  lemma CorpusDocuments(documents: Dict<DocId, string>, f: string -> seq<Term>)
    ensures forall d :: d in Build(Empty, Stream(documents, f)).documents <==> d in Keys(documents)
    ensures Build(Empty, Stream(documents, f)).totalDocs == |documents|
  {
    CorpusIndex(documents, f);
  }

  /** `create_index`'s loop: each document, in dict order, turned into terms by `f` and added to `index`. */
  method AddStream(index: InvertedIndex, documents: Dict<DocId, string>, f: string -> seq<Term>)
    modifies index
    ensures index.State() == Build(old(index.State()), Stream(documents, f))
  {
    ghost var s0 := index.State();
    ghost var docs := Stream(documents, f);
    var i := 0;
    while i < |documents|
      invariant 0 <= i <= |documents|
      invariant index.State() == Build(s0, docs[..i])
    {
      var (id, text) := documents[i];
      var terms := f(text);
      index.AddDocument(id, terms);
      assert docs[..i + 1] == docs[..i] + [(id, terms)];
      BuildSnoc(s0, docs[..i], (id, terms));
      i := i + 1;
    }
    assert docs[..|documents|] == docs;
  }

  // ---------------------------------------------------------------------------
  // The class
  // ---------------------------------------------------------------------------

  /** An `IndexAnalyzer`: a processor, the corpus, and the indices and stats built so far by name. */
  class IndexAnalyzer {
    const processor: TextProcessor
    const documents: Dict<DocId, string>
    var indices: map<string, InvertedIndex>
    var stats: map<string, Stats>

    constructor (processor: TextProcessor, documents: Dict<DocId, string>)
      ensures this.processor == processor && this.documents == documents
      ensures indices == map[] && stats == map[]
    {
      this.processor := processor;
      this.documents := documents;
      indices := map[];
      stats := map[];
    }

    /** A fresh index built from the corpus under the settings `s`. */
    method IndexCorpus(s: Settings) returns (index: InvertedIndex)
      ensures fresh(index)
      ensures index.State() == Build(Empty, Corpus(processor, documents, s))
      ensures forall d :: d in index.documents <==> d in Keys(documents)
      ensures index.totalDocs == |documents|
    {
      index := new InvertedIndex();
      AddStream(index, documents, Terms(processor, s));
      CorpusDocuments(documents, Terms(processor, s));
    }

    /**
     * `create_index(name, params)`: a fresh index holding every document of the
     * corpus once, stored with its stats under `name`.
     */
    method CreateIndex(name: string, params: Option<Params>) returns (index: InvertedIndex)
      modifies this
      ensures fresh(index)
      ensures index.State() == Build(Empty, Corpus(processor, documents, Merge(params)))
      ensures indices == old(indices)[name := index]
      ensures name in stats && stats == old(stats)[name := stats[name]]
      ensures forall d :: d in index.documents <==> d in Keys(documents)
      ensures stats[name].numDocuments == index.totalDocs == |documents|
      ensures stats[name].vocabularySize == |index.vocabulary|
      ensures stats[name].postingsSize == index.State().PostingsSize()
      ensures stats[name] == StatsOf(index.State())
    {
      index := IndexCorpus(Merge(params));
      Store(name, index);
    }

    /** The end of `create_index`: keep `index` and its stats under `name`. */
    method Store(name: string, index: InvertedIndex)
      modifies this
      ensures indices == old(indices)[name := index]
      ensures name in stats && stats == old(stats)[name := stats[name]]
      ensures stats[name].numDocuments == index.totalDocs
      ensures stats[name].vocabularySize == |index.vocabulary|
      ensures stats[name].postingsSize == index.State().PostingsSize()
      ensures stats[name] == StatsOf(index.State())
    {
      indices := indices[name := index];
      var st := index.GetStats();
      stats := stats[name := st];
    }
  }
}

/**
 * `InvertedIndex` (src/service/index.py, lines 97-202): postings lists,
 * per-document term counts (`tf`), document frequencies (`df`), the
 * vocabulary, document lengths and a document counter, all updated in
 * lock-step by `add_document`.
 *
 * `IndexState` is the value of the six fields and its functions specify the
 * operations; the class `InvertedIndex` holds the fields and its methods are
 * proved against those functions.
 */
module Inverted {
  import opened Wrappers

  type Term = string
  type DocId = string

  /** A posting: a document id and the number of times the term occurs in it. */
  datatype Posting = Posting(doc: DocId, count: nat)

  predicate NoDup<T(==)>(xs: seq<T>) {
    forall i, j :: 0 <= i < j < |xs| ==> xs[i] != xs[j]
  }

  // ---------------------------------------------------------------------------
  // Counter and sums of dict values
  // ---------------------------------------------------------------------------

  /** The keys of `Counter(xs)` in iteration order: first occurrences, left to right. */
  function Distinct(xs: seq<Term>): (r: seq<Term>)
    ensures forall x :: x in r <==> x in xs
    ensures NoDup(r)
    decreases |xs|
  {
    if xs == [] then []
    else
      var init := xs[..|xs| - 1];
      var last := xs[|xs| - 1];
      assert xs == init + [last];
      var r := Distinct(init);
      if last in r then r else r + [last]
  }

  /** `Counter(xs)[x]`. */
  function Count(xs: seq<Term>, x: Term): nat {
    multiset(xs)[x]
  }

  /** `Counter(xs)` as a map: the tokens occurring in `xs`, each with its (positive) count. */
  function Counts(xs: seq<Term>): (m: map<Term, nat>)
    ensures forall x :: x in m <==> x in xs
    ensures forall x :: x in m ==> m[x] == Count(xs, x) >= 1
  {
    map x | x in xs :: Count(xs, x)
  }

  ghost function Pick<K>(s: set<K>): K
    requires s != {}
  {
    var k :| k in s; k
  }

  /** `sum(m.values())`. */
  ghost function SumValues<K>(m: map<K, nat>): nat
    decreases |m.Keys|
  {
    if m.Keys == {} then 0
    else
      var k := Pick(m.Keys);
      assert (m - {k}).Keys == m.Keys - {k};
      m[k] + SumValues(m - {k})
  }

  /** Removing two different keys in either order leaves the same map. */
  lemma RemoveBoth<K>(m: map<K, nat>, j: K, k: K)
    requires j in m && k in m && j != k
    ensures k in m - {j} && (m - {j})[k] == m[k] && |(m - {j}).Keys| < |m.Keys|
    ensures j in m - {k} && (m - {k})[j] == m[j] && |(m - {k}).Keys| < |m.Keys|
    ensures (m - {j}) - {k} == (m - {k}) - {j}
  {
    assert (m - {j}).Keys == m.Keys - {j};
    assert (m - {k}).Keys == m.Keys - {k};
  }

  /** The sum does not depend on the key the definition happens to pick. */
  lemma {:induction false} SumValuesRemove<K>(m: map<K, nat>, k: K)
    requires k in m
    ensures SumValues(m) == m[k] + SumValues(m - {k})
    decreases |m.Keys|
  {
    var j := Pick(m.Keys);
    if j != k {
      RemoveBoth(m, j, k);
      SumValuesRemove(m - {j}, k);
      SumValuesRemove(m - {k}, j);
    }
  }

  lemma SumValuesUpdate<K>(m: map<K, nat>, k: K, v: nat)
    ensures SumValues(m[k := v]) + (if k in m then m[k] else 0) == SumValues(m) + v
  {
    SumValuesRemove(m[k := v], k);
    assert m[k := v] - {k} == m - {k};
    if k in m {
      SumValuesRemove(m, k);
    } else {
      assert m - {k} == m;
    }
  }

  /** One more token bumps its count by one and leaves the others alone. */
  lemma CountsSnoc(xs: seq<Term>, x: Term)
    ensures Counts(xs + [x]) == Counts(xs)[x := Count(xs, x) + 1]
  {
    assert multiset(xs + [x]) == multiset(xs) + multiset{x};
    assert forall y :: y in xs + [x] <==> y in xs || y == x;
  }

  /** The counts of `Counter(xs)` add up to `len(xs)`. */
  lemma {:induction false} CountsSum(xs: seq<Term>)
    ensures SumValues(Counts(xs)) == |xs|
    decreases |xs|
  {
    if xs == [] {
      assert Counts(xs) == map[];
    } else {
      var init := xs[..|xs| - 1];
      var last := xs[|xs| - 1];
      assert xs == init + [last];
      CountsSum(init);
      CountsSnoc(init, last);
      SumValuesUpdate(Counts(init), last, Count(init, last) + 1);
    }
  }

  /** The documents a postings list mentions. */
  function PostingDocs(ps: seq<Posting>): set<DocId> {
    set p | p in ps :: p.doc
  }

  /** No document appears twice in a postings list. */
  predicate DistinctDocs(ps: seq<Posting>) {
    forall i, j :: 0 <= i < j < |ps| ==> ps[i].doc != ps[j].doc
  }

  /** A postings list without repeated documents has as many entries as documents. */
  lemma {:induction false} DistinctDocsCard(ps: seq<Posting>)
    requires DistinctDocs(ps)
    ensures |PostingDocs(ps)| == |ps|
    decreases |ps|
  {
    if ps != [] {
      var init := ps[..|ps| - 1];
      var last := ps[|ps| - 1];
      assert ps == init + [last];
      DistinctDocsCard(init);
      assert PostingDocs(ps) == PostingDocs(init) + {last.doc};
      assert last.doc !in PostingDocs(init);
    }
  }

  // ---------------------------------------------------------------------------
  // The state of an inverted index
  // ---------------------------------------------------------------------------

  /** The six fields of an `InvertedIndex`; the defaultdicts and Counters are maps. */
  datatype IndexState = IndexState(
    index: map<Term, seq<Posting>>,
    documents: map<DocId, nat>,
    tf: map<DocId, map<Term, nat>>,
    df: map<Term, nat>,
    vocabulary: set<Term>,
    totalDocs: nat)
  {
    /** `get_postings`: the postings of `t`, or `[]`. */
    function Postings(t: Term): seq<Posting> {
      if t in index then index[t] else []
    }

    /** `tf.get(d, Counter())`. */
    function TfRow(d: DocId): map<Term, nat> {
      if d in tf then tf[d] else map[]
    }

    /** `get_term_frequency`: the count of `t` in `d`, or 0. */
    function TermFrequency(t: Term, d: DocId): nat {
      var row := TfRow(d);
      if t in row then row[t] else 0
    }

    /** `get_document_frequency`: `df[t]`, or 0. */
    function DocumentFrequency(t: Term): nat {
      if t in df then df[t] else 0
    }

    /**
     * What every sequence of `add_document` calls keeps, repeated ids included:
     * the vocabulary, the postings keys and the df keys agree; df is the length
     * of the (non-empty) postings list; postings and tf only mention documents
     * that were added, and tf only terms of the vocabulary.
     */
    ghost predicate Valid() {
      && vocabulary == index.Keys
      && df.Keys == index.Keys
      && (forall t :: t in index ==> df[t] == |index[t]| && index[t] != [])
      && (forall t, p :: t in index && p in index[t] ==> p.doc in documents)
      && (forall d :: d in tf ==> d in documents && tf[d].Keys <= index.Keys)
      && |documents| <= totalDocs
    }

    /**
     * What `add_document` keeps when every id is new: besides `Valid`, each
     * document occurs at most once per postings list, a posting's count is the
     * document's tf for the term, tf mentions a term only when the postings do,
     * a document's tf values sum to its length, and `total_docs` counts the
     * documents.
     */
    ghost predicate Consistent() {
      && Valid()
      && totalDocs == |documents|
      && (forall t :: t in index ==> DistinctDocs(index[t]))
      && (forall t, p :: t in index && p in index[t] ==> TermFrequency(t, p.doc) == p.count >= 1)
      && (forall d, t :: d in tf && t in tf[d] ==> d in PostingDocs(Postings(t)))
      && (forall d :: d in documents ==> SumValues(TfRow(d)) == documents[d])
    }

    /** One pass of `add_document`'s loop: append the posting, set tf, bump df, add to the vocabulary. */
    function PostTerm(id: DocId, t: Term, c: nat): IndexState {
      this.(
        index := index[t := Postings(t) + [Posting(id, c)]],
        tf := tf[id := TfRow(id)[t := c]],
        df := df[t := DocumentFrequency(t) + 1],
        vocabulary := vocabulary + {t})
    }

    /** The loop of `add_document` over the terms `ts`, with counts taken from `tokens`. */
    function PostAll(id: DocId, tokens: seq<Term>, ts: seq<Term>): IndexState
      decreases |ts|
    {
      if ts == [] then this
      else
        var last := ts[|ts| - 1];
        PostAll(id, tokens, ts[..|ts| - 1]).PostTerm(id, last, Count(tokens, last))
    }

    /** `add_document(id, tokens)`. */
    function AddDocument(id: DocId, tokens: seq<Term>): IndexState {
      this.(documents := documents[id := |tokens|], totalDocs := totalDocs + 1).PostAll(id, tokens, Distinct(tokens))
    }

    /** `get_idf` where it does not raise: `log10(total_docs / (1 + df))`. */
    function Idf(t: Term, log10: real -> real): real
      requires totalDocs >= 1
    {
      log10(totalDocs as real / (1 + DocumentFrequency(t)) as real)
    }

    /** `get_tf_idf` where it does not raise. */
    function TfIdf(t: Term, d: DocId, log10: real -> real): real
      requires totalDocs >= 1
    {
      TermFrequency(t, d) as real * Idf(t, log10)
    }

    /** The score `rank_search` gives `d`: the tf-idf of each query term, duplicates included, summed left to right. */
    function Score(query: seq<Term>, d: DocId, log10: real -> real): real
      requires totalDocs >= 1
      decreases |query|
    {
      if query == [] then 0.0
      else Score(query[..|query| - 1], d, log10) + TfIdf(query[|query| - 1], d, log10)
    }

    /** `d` is in the postings of every query term (and the query is not empty). */
    predicate Matches(query: seq<Term>, d: DocId) {
      query != [] && forall t :: t in query ==> d in PostingDocs(Postings(t))
    }

    /** `d` is in the postings of some query term. */
    predicate Touches(query: seq<Term>, d: DocId) {
      exists t :: t in query && d in PostingDocs(Postings(t))
    }

    /** `get_stats()["postings_size"]`: the total length of the postings lists. */
    ghost function PostingsSize(): nat {
      SumValues(map t | t in index :: |index[t]|)
    }
  }

  /** A freshly constructed `InvertedIndex`. */
  const Empty := IndexState(map[], map[], map[], map[], {}, 0)

  /** `create_index`'s loop: the documents added in order to `s`. */
  function Build(s: IndexState, docs: seq<(DocId, seq<Term>)>): IndexState
    decreases |docs|
  {
    if docs == [] then s
    else
      var last := docs[|docs| - 1];
      Build(s, docs[..|docs| - 1]).AddDocument(last.0, last.1)
  }

  /** One more document for `create_index`'s loop is one more `add_document`. */
  lemma BuildSnoc(s: IndexState, docs: seq<(DocId, seq<Term>)>, d: (DocId, seq<Term>))
    ensures Build(s, docs + [d]) == Build(s, docs).AddDocument(d.0, d.1)
  {
    assert (docs + [d])[..|docs|] == docs;
  }

  /** The ids of a sequence of documents. */
  function Ids(docs: seq<(DocId, seq<Term>)>): (ids: seq<DocId>)
    ensures |ids| == |docs| && forall i :: 0 <= i < |docs| ==> ids[i] == docs[i].0
  {
    seq(|docs|, i requires 0 <= i < |docs| => docs[i].0)
  }

  // ---------------------------------------------------------------------------
  // What add_document does
  // ---------------------------------------------------------------------------

  /** `add_document` first records the length and the count, then runs its loop over `Counter(tokens)`. */
  lemma AddDocumentUnfold(s: IndexState, id: DocId, tokens: seq<Term>)
    ensures s.AddDocument(id, tokens)
         == IndexState(s.index, s.documents[id := |tokens|], s.tf, s.df, s.vocabulary, s.totalDocs + 1).PostAll(id, tokens, Distinct(tokens))
  {
  }

  /** One more term for the loop of `add_document` is one more `PostTerm`. */
  lemma PostAllSnoc(s: IndexState, id: DocId, tokens: seq<Term>, ts: seq<Term>, t: Term)
    ensures s.PostAll(id, tokens, ts + [t]) == s.PostAll(id, tokens, ts).PostTerm(id, t, Count(tokens, t))
  {
    assert (ts + [t])[..|ts|] == ts;
  }

  /** `r` is `s` with the posting `(id, Counter(tokens)[t])` appended for each term `t` of `ts`. */
  ghost predicate PostedIndex(s: IndexState, r: IndexState, id: DocId, tokens: seq<Term>, ts: seq<Term>) {
    && (forall t :: t in r.index <==> t in s.index || t in ts)
    && (forall t :: r.Postings(t) == s.Postings(t) + if t in ts then [Posting(id, Count(tokens, t))] else [])
  }

  /** `r` is `s` with df bumped and the vocabulary extended for each term of `ts`. */
  ghost predicate PostedDf(s: IndexState, r: IndexState, ts: seq<Term>) {
    && (forall t :: t in r.df <==> t in s.df || t in ts)
    && (forall t :: t in r.vocabulary <==> t in s.vocabulary || t in ts)
    && (forall t :: r.DocumentFrequency(t) == s.DocumentFrequency(t) + if t in ts then 1 else 0)
  }

  /** `r` is `s` with `tf[id][t] = Counter(tokens)[t]` for each term of `ts`, other rows untouched. */
  ghost predicate PostedTf(s: IndexState, r: IndexState, id: DocId, tokens: seq<Term>, ts: seq<Term>) {
    && (forall d :: d != id ==> r.TfRow(d) == s.TfRow(d) && (d in r.tf <==> d in s.tf))
    && (forall t :: t in r.TfRow(id) <==> t in s.TfRow(id) || t in ts)
    && (forall t :: r.TermFrequency(t, id) == if t in ts then Count(tokens, t) else s.TermFrequency(t, id))
    && (id in r.tf <==> id in s.tf || ts != [])
  }

  lemma PostTermIndex(s: IndexState, p: IndexState, id: DocId, tokens: seq<Term>, init: seq<Term>, last: Term)
    requires PostedIndex(s, p, id, tokens, init) && last !in init
    ensures PostedIndex(s, p.PostTerm(id, last, Count(tokens, last)), id, tokens, init + [last])
  {
    var r := p.PostTerm(id, last, Count(tokens, last));
    forall t ensures r.Postings(t) == s.Postings(t) + if t in init + [last] then [Posting(id, Count(tokens, t))] else [] {
      if t != last {
        assert r.Postings(t) == p.Postings(t);
      }
    }
  }

  lemma PostTermDf(s: IndexState, p: IndexState, id: DocId, tokens: seq<Term>, init: seq<Term>, last: Term)
    requires PostedDf(s, p, init) && last !in init
    ensures PostedDf(s, p.PostTerm(id, last, Count(tokens, last)), init + [last])
  {
    var r := p.PostTerm(id, last, Count(tokens, last));
    forall t ensures r.DocumentFrequency(t) == s.DocumentFrequency(t) + if t in init + [last] then 1 else 0 {
      if t != last {
        assert r.DocumentFrequency(t) == p.DocumentFrequency(t);
      }
    }
  }

  lemma PostTermTf(s: IndexState, p: IndexState, id: DocId, tokens: seq<Term>, init: seq<Term>, last: Term)
    requires PostedTf(s, p, id, tokens, init) && last !in init
    ensures PostedTf(s, p.PostTerm(id, last, Count(tokens, last)), id, tokens, init + [last])
  {
    var r := p.PostTerm(id, last, Count(tokens, last));
    assert r.TfRow(id) == p.TfRow(id)[last := Count(tokens, last)];
    forall d | d != id ensures r.TfRow(d) == s.TfRow(d) && (d in r.tf <==> d in s.tf) {
      assert r.TfRow(d) == p.TfRow(d);
    }
    forall t ensures r.TermFrequency(t, id) == if t in init + [last] then Count(tokens, t) else s.TermFrequency(t, id) {
      if t != last {
        assert r.TermFrequency(t, id) == p.TermFrequency(t, id);
      }
    }
  }

  /** The effect of the loop of `add_document`, term by term. */
  lemma {:induction false} PostAllEffect(s: IndexState, id: DocId, tokens: seq<Term>, ts: seq<Term>)
    requires NoDup(ts)
    ensures var r := s.PostAll(id, tokens, ts);
      && r.documents == s.documents && r.totalDocs == s.totalDocs
      && PostedIndex(s, r, id, tokens, ts)
      && PostedDf(s, r, ts)
      && PostedTf(s, r, id, tokens, ts)
    decreases |ts|
  {
    if ts != [] {
      var init := ts[..|ts| - 1];
      var last := ts[|ts| - 1];
      assert ts == init + [last];
      assert NoDup(init);
      assert last !in init;
      PostAllEffect(s, id, tokens, init);
      var p := s.PostAll(id, tokens, init);
      PostTermIndex(s, p, id, tokens, init, last);
      PostTermDf(s, p, id, tokens, init, last);
      PostTermTf(s, p, id, tokens, init, last);
    } else {
      var r := s.PostAll(id, tokens, ts);
      assert r == s;
    }
  }

  /** The three effects depend only on which terms are posted, not on their order or repetition. */
  lemma PostedSameTerms(s: IndexState, r: IndexState, id: DocId, tokens: seq<Term>, ts: seq<Term>, us: seq<Term>)
    requires forall t :: t in ts <==> t in us
    requires PostedIndex(s, r, id, tokens, ts) && PostedDf(s, r, ts) && PostedTf(s, r, id, tokens, ts)
    ensures PostedIndex(s, r, id, tokens, us) && PostedDf(s, r, us) && PostedTf(s, r, id, tokens, us)
  {
    assert ts == [] <==> us == [] by {
      if ts != [] { assert ts[0] in us; }
      if us != [] { assert us[0] in ts; }
    }
  }

  /** Posting terms does not look at `documents` or `total_docs`. */
  lemma PostedIgnoresDocuments(s: IndexState, s1: IndexState, r: IndexState, id: DocId, tokens: seq<Term>)
    requires s1 == s.(documents := s1.documents, totalDocs := s1.totalDocs)
    requires PostedIndex(s1, r, id, tokens, tokens) && PostedDf(s1, r, tokens) && PostedTf(s1, r, id, tokens, tokens)
    ensures PostedIndex(s, r, id, tokens, tokens) && PostedDf(s, r, tokens) && PostedTf(s, r, id, tokens, tokens)
  {
    assert s1.index == s.index && s1.df == s.df && s1.tf == s.tf && s1.vocabulary == s.vocabulary;
    SameTables(s, s1);
  }

  /** Two states with the same postings, df and tf tables answer every lookup alike. */
  lemma SameTables(s: IndexState, s1: IndexState)
    requires s1.index == s.index && s1.df == s.df && s1.tf == s.tf
    ensures forall t :: s1.Postings(t) == s.Postings(t) && s1.DocumentFrequency(t) == s.DocumentFrequency(t)
    ensures forall d :: s1.TfRow(d) == s.TfRow(d)
    ensures forall t, d :: s1.TermFrequency(t, d) == s.TermFrequency(t, d)
  {
  }

  /**
   * `r` is what `add_document(id, tokens)` makes of `s`: the length is
   * recorded, the count goes up by one, and every term of `tokens` (and only
   * those) gets one posting `(id, count)`, one more df and its tf entry.
   */
  ghost predicate Added(s: IndexState, r: IndexState, id: DocId, tokens: seq<Term>) {
    && r.totalDocs == s.totalDocs + 1
    && r.documents == s.documents[id := |tokens|]
    && PostedIndex(s, r, id, tokens, tokens)
    && PostedDf(s, r, tokens)
    && PostedTf(s, r, id, tokens, tokens)
  }

  /** `add_document` in terms of its inputs. */
  lemma AddDocumentEffect(s: IndexState, id: DocId, tokens: seq<Term>)
    ensures Added(s, s.AddDocument(id, tokens), id, tokens)
  {
    var s1 := s.(documents := s.documents[id := |tokens|], totalDocs := s.totalDocs + 1);
    var ts := Distinct(tokens);
    var r := s1.PostAll(id, tokens, ts);
    assert r == s.AddDocument(id, tokens);
    PostAllEffect(s1, id, tokens, ts);
    PostedSameTerms(s1, r, id, tokens, ts, tokens);
    PostedIgnoresDocuments(s, s1, r, id, tokens);
  }

  /** With a fresh id, the new document's tf row is `Counter(tokens)`, whose values sum to `len(tokens)`. */
  lemma AddedTfSum(s: IndexState, r: IndexState, id: DocId, tokens: seq<Term>)
    requires PostedTf(s, r, id, tokens, tokens)
    requires id !in s.tf
    ensures r.TfRow(id) == Counts(tokens)
    ensures SumValues(r.TfRow(id)) == |tokens|
  {
    assert forall t :: t in r.TfRow(id) ==> r.TfRow(id)[t] == r.TermFrequency(t, id);
    assert r.TfRow(id) == Counts(tokens);
    CountsSum(tokens);
  }

  /** `add_document` keeps the vocabulary, postings keys and df keys equal, and df the length of the postings. */
  lemma AddedValidDf(s: IndexState, r: IndexState, id: DocId, tokens: seq<Term>)
    requires PostedIndex(s, r, id, tokens, tokens) && PostedDf(s, r, tokens)
    requires s.Valid()
    ensures r.vocabulary == r.index.Keys && r.df.Keys == r.index.Keys
    ensures forall t :: t in r.index ==> r.df[t] == |r.index[t]| && r.index[t] != []
  {
    forall t | t in r.index ensures r.df[t] == |r.index[t]| && r.index[t] != [] {
      assert r.df[t] == r.DocumentFrequency(t) && r.index[t] == r.Postings(t);
      assert s.DocumentFrequency(t) == |s.Postings(t)|;
    }
  }

  /** `add_document` keeps postings and tf within the added documents, and tf within the vocabulary. */
  lemma AddedValidDocs(s: IndexState, r: IndexState, id: DocId, tokens: seq<Term>)
    requires r.documents == s.documents[id := |tokens|]
    requires PostedIndex(s, r, id, tokens, tokens) && PostedTf(s, r, id, tokens, tokens)
    requires s.Valid()
    ensures forall t, p :: t in r.index && p in r.index[t] ==> p.doc in r.documents
    ensures forall d :: d in r.tf ==> d in r.documents && r.tf[d].Keys <= r.index.Keys
  {
    forall t, p | t in r.index && p in r.index[t] ensures p.doc in r.documents {
      assert r.index[t] == r.Postings(t);
    }
    forall d | d in r.tf ensures d in r.documents && r.tf[d].Keys <= r.index.Keys {
      assert r.tf[d] == r.TfRow(d);
    }
  }

  lemma AddedValid(s: IndexState, r: IndexState, id: DocId, tokens: seq<Term>)
    requires Added(s, r, id, tokens)
    requires s.Valid()
    ensures r.Valid()
  {
    AddedValidDf(s, r, id, tokens);
    AddedValidDocs(s, r, id, tokens);
  }

  lemma AddedDistinctDocs(s: IndexState, r: IndexState, id: DocId, tokens: seq<Term>)
    requires PostedIndex(s, r, id, tokens, tokens)
    requires s.Consistent()
    requires id !in s.documents
    ensures forall t :: t in r.index ==> DistinctDocs(r.index[t])
  {
    forall t | t in r.index ensures DistinctDocs(r.index[t]) {
      assert r.index[t] == r.Postings(t);
      forall p | p in s.Postings(t) ensures p.doc != id {
        assert s.index[t] == s.Postings(t);
      }
    }
  }

  lemma AddedCount(s: IndexState, r: IndexState, id: DocId, tokens: seq<Term>, t: Term, p: Posting)
    requires Added(s, r, id, tokens)
    requires s.Consistent()
    requires id !in s.documents
    requires p in r.Postings(t)
    ensures r.TermFrequency(t, p.doc) == p.count >= 1
  {
    var old_ := s.Postings(t);
    assert r.Postings(t) == old_ + if t in tokens then [Posting(id, Count(tokens, t))] else [];
    if p in old_ {
      assert t in s.index && p in s.index[t];
      assert p.doc != id;
      assert r.TfRow(p.doc) == s.TfRow(p.doc);
    } else {
      assert t in tokens && p == Posting(id, Count(tokens, t));
      assert r.TermFrequency(t, id) == Count(tokens, t);
      assert multiset(tokens)[t] >= 1;
    }
  }

  lemma AddedCounts(s: IndexState, r: IndexState, id: DocId, tokens: seq<Term>)
    requires Added(s, r, id, tokens)
    requires s.Consistent()
    requires id !in s.documents
    ensures forall t, p :: t in r.index && p in r.index[t] ==> r.TermFrequency(t, p.doc) == p.count >= 1
  {
    forall t, p | t in r.index && p in r.index[t] ensures r.TermFrequency(t, p.doc) == p.count >= 1 {
      assert r.index[t] == r.Postings(t);
      AddedCount(s, r, id, tokens, t, p);
    }
  }

  lemma AddedTfPosted(s: IndexState, r: IndexState, id: DocId, tokens: seq<Term>)
    requires Added(s, r, id, tokens)
    requires s.Consistent()
    requires id !in s.documents
    ensures forall d, t :: d in r.tf && t in r.tf[d] ==> d in PostingDocs(r.Postings(t))
  {
    assert id !in s.tf;
    forall d, t | d in r.tf && t in r.tf[d] ensures d in PostingDocs(r.Postings(t)) {
      assert r.tf[d] == r.TfRow(d);
      AddedTfPostedAt(s, r, id, tokens, d, t);
    }
  }

  /** One tf entry of the new state has its posting. */
  lemma AddedTfPostedAt(s: IndexState, r: IndexState, id: DocId, tokens: seq<Term>, d: DocId, t: Term)
    requires PostedIndex(s, r, id, tokens, tokens) && PostedTf(s, r, id, tokens, tokens)
    requires forall d, t :: d in s.tf && t in s.tf[d] ==> d in PostingDocs(s.Postings(t))
    requires id !in s.tf
    requires t in r.TfRow(d)
    ensures d in PostingDocs(r.Postings(t))
  {
    if d == id {
      assert t in tokens;
      assert Posting(id, Count(tokens, t)) in r.Postings(t);
    } else {
      assert t in s.TfRow(d);
      assert d in PostingDocs(s.Postings(t));
      var p :| p in s.Postings(t) && p.doc == d;
      assert p in r.Postings(t);
    }
  }

  /** `add_document` keeps `Valid`, whatever the id. */
  lemma AddDocumentValid(s: IndexState, id: DocId, tokens: seq<Term>)
    requires s.Valid()
    ensures s.AddDocument(id, tokens).Valid()
  {
    AddDocumentEffect(s, id, tokens);
    AddedValid(s, s.AddDocument(id, tokens), id, tokens);
  }

  /** With a fresh id, the new document's tf row is `Counter(tokens)`, whose values sum to `len(tokens)`. */
  lemma AddDocumentTfSum(s: IndexState, id: DocId, tokens: seq<Term>)
    requires id !in s.tf
    ensures s.AddDocument(id, tokens).TfRow(id) == Counts(tokens)
    ensures SumValues(s.AddDocument(id, tokens).TfRow(id)) == |tokens|
  {
    AddDocumentEffect(s, id, tokens);
    AddedTfSum(s, s.AddDocument(id, tokens), id, tokens);
  }

  /** `add_document` with a fresh id keeps `Consistent`. */
  lemma AddDocumentConsistent(s: IndexState, id: DocId, tokens: seq<Term>)
    requires s.Consistent()
    requires id !in s.documents
    ensures s.AddDocument(id, tokens).Consistent()
  {
    var r := s.AddDocument(id, tokens);
    AddDocumentEffect(s, id, tokens);
    AddedConsistent(s, r, id, tokens);
  }

  lemma AddedConsistent(s: IndexState, r: IndexState, id: DocId, tokens: seq<Term>)
    requires Added(s, r, id, tokens)
    requires s.Consistent()
    requires id !in s.documents
    ensures r.Consistent()
  {
    AddedValid(s, r, id, tokens);
    assert id !in s.tf;
    AddedTfSum(s, r, id, tokens);
    AddedDistinctDocs(s, r, id, tokens);
    AddedCounts(s, r, id, tokens);
    AddedTfPosted(s, r, id, tokens);
    forall d | d in r.documents ensures SumValues(r.TfRow(d)) == r.documents[d] {
      if d != id {
        assert r.TfRow(d) == s.TfRow(d);
      }
    }
  }

  /** One step of `create_index`'s loop is one `add_document`. */
  lemma BuildStep(docs: seq<(DocId, seq<Term>)>)
    requires docs != []
    ensures var last := docs[|docs| - 1];
      Added(Build(Empty, docs[..|docs| - 1]), Build(Empty, docs), last.0, last.1)
  {
    var last := docs[|docs| - 1];
    AddDocumentEffect(Build(Empty, docs[..|docs| - 1]), last.0, last.1);
  }

  /** Building from the empty index with distinct ids yields a consistent index holding every document. */
  lemma {:induction false} BuildConsistent(docs: seq<(DocId, seq<Term>)>)
    requires NoDup(Ids(docs))
    ensures Build(Empty, docs).Consistent()
    ensures forall d :: d in Build(Empty, docs).documents <==> d in Ids(docs)
    ensures Build(Empty, docs).totalDocs == |docs|
    decreases |docs|
  {
    if docs == [] {
      assert Empty.Consistent();
    } else {
      var init := docs[..|docs| - 1];
      var last := docs[|docs| - 1];
      assert Ids(docs) == Ids(init) + [last.0];
      assert NoDup(Ids(init));
      BuildConsistent(init);
      assert last.0 !in Ids(init);
      BuildStep(docs);
      AddedConsistent(Build(Empty, init), Build(Empty, docs), last.0, last.1);
    }
  }

  // ---------------------------------------------------------------------------
  // What the invariants give
  // ---------------------------------------------------------------------------

  /** `df[t] == len(index[t])`, and both count the documents whose tf mentions `t`. */
  lemma DfIsDocumentCount(s: IndexState, t: Term)
    requires s.Consistent()
    ensures s.DocumentFrequency(t) == |s.Postings(t)|
    ensures s.DocumentFrequency(t) == |set d | d in s.tf && t in s.tf[d]|
  {
    var withT := set d | d in s.tf && t in s.tf[d];
    forall d | d in PostingDocs(s.Postings(t)) ensures d in withT {
      var p :| p in s.Postings(t) && p.doc == d;
      assert s.TermFrequency(t, d) >= 1;
    }
    assert PostingDocs(s.Postings(t)) == withT;
    if t in s.index {
      DistinctDocsCard(s.index[t]);
    }
  }

  /** `postings_size` is the sum of the document frequencies. */
  lemma PostingsSizeIsSumOfDf(s: IndexState)
    requires s.Valid()
    ensures s.PostingsSize() == SumValues(s.df)
  {
    assert (map t | t in s.index :: |s.index[t]|) == s.df;
  }

  /** Terms never indexed have no postings, no document frequency and no tf anywhere. */
  lemma UnseenTermLookups(s: IndexState, t: Term, d: DocId)
    requires s.Valid()
    requires t !in s.vocabulary
    ensures s.Postings(t) == [] && s.DocumentFrequency(t) == 0 && s.TermFrequency(t, d) == 0
  {
    if d in s.tf {
      assert t !in s.tf[d].Keys;
    }
  }

  /** A query with a term never indexed matches no document. */
  lemma UnseenTermMatchesNothing(s: IndexState, query: seq<Term>, t: Term, d: DocId)
    requires s.Valid()
    requires t in query && t !in s.vocabulary
    ensures !s.Matches(query, d)
  {
    UnseenTermLookups(s, t, d);
  }

  /** The score of a concatenated query is the sum of the scores. */
  lemma {:induction false} ScoreAppend(s: IndexState, q1: seq<Term>, q2: seq<Term>, d: DocId, log10: real -> real)
    requires s.totalDocs >= 1
    ensures s.Score(q1 + q2, d, log10) == s.Score(q1, d, log10) + s.Score(q2, d, log10)
    decreases |q2|
  {
    if q2 != [] {
      var init := q2[..|q2| - 1];
      assert (q1 + q2)[..|q1 + q2| - 1] == q1 + init;
      ScoreAppend(s, q1, init, d, log10);
    } else {
      assert q1 + q2 == q1;
    }
  }

  /** A document none of whose tf mentions a query term scores 0. */
  lemma {:induction false} ScoreOfUnrelatedDocument(s: IndexState, query: seq<Term>, d: DocId, log10: real -> real)
    requires s.totalDocs >= 1
    requires forall t :: t in query ==> s.TermFrequency(t, d) == 0
    ensures s.Score(query, d, log10) == 0.0
    decreases |query|
  {
    if query != [] {
      assert query[|query| - 1] in query;
      ScoreOfUnrelatedDocument(s, query[..|query| - 1], d, log10);
    }
  }

  /** With a non-decreasing logarithm, a term in more documents never gets a higher idf. */
  lemma IdfFallsWithDf(s: IndexState, t: Term, u: Term, log10: real -> real)
    requires s.totalDocs >= 1
    requires forall x, y :: 0.0 < x <= y ==> log10(x) <= log10(y)
    requires s.DocumentFrequency(t) <= s.DocumentFrequency(u)
    ensures s.Idf(u, log10) <= s.Idf(t, log10)
  {
    var n := s.totalDocs as real;
    var a := (1 + s.DocumentFrequency(t)) as real;
    var b := (1 + s.DocumentFrequency(u)) as real;
    assert n / b <= n / a;
  }

  // ---------------------------------------------------------------------------
  // Ranking
  // ---------------------------------------------------------------------------

  /** `sorted(..., key=score, reverse=True)` order. */
  predicate SortedByScore(xs: seq<(DocId, real)>) {
    forall i, j :: 0 <= i < j < |xs| ==> xs[i].1 >= xs[j].1
  }

  predicate DistinctRanked(xs: seq<(DocId, real)>) {
    forall i, j :: 0 <= i < j < |xs| ==> xs[i].0 != xs[j].0
  }

  function RankedDocs(xs: seq<(DocId, real)>): set<DocId> {
    set x | x in xs :: x.0
  }

  /** Insert `x` into a list sorted by non-increasing score, after the entries that score at least as much. */
  function InsertByScore(xs: seq<(DocId, real)>, x: (DocId, real)): (r: seq<(DocId, real)>)
    requires SortedByScore(xs)
    ensures SortedByScore(r)
    ensures multiset(r) == multiset(xs) + multiset{x}
    ensures forall y :: y in r <==> y in xs || y == x
    decreases |xs|
  {
    if xs == [] || xs[0].1 < x.1 then
      [x] + xs
    else
      var head, tail := xs[0], xs[1..];
      assert xs == [head] + tail;
      SortedSplit(xs);
      var rest := InsertByScore(tail, x);
      SortedCons(head, rest);
      [head] + rest
  }

  /** The tail of a sorted list is sorted and scores at most as much as its head. */
  lemma SortedSplit(xs: seq<(DocId, real)>)
    requires SortedByScore(xs) && xs != []
    ensures SortedByScore(xs[1..])
    ensures forall y :: y in xs[1..] ==> y.1 <= xs[0].1
  {
    forall y | y in xs[1..] ensures y.1 <= xs[0].1 {
      var m :| 0 <= m < |xs[1..]| && xs[1..][m] == y;
      assert xs[m + 1] == y;
    }
  }

  /** An entry scoring at least as much as a sorted list stays sorted in front of it. */
  lemma SortedCons(x: (DocId, real), xs: seq<(DocId, real)>)
    requires SortedByScore(xs)
    requires forall y :: y in xs ==> y.1 <= x.1
    ensures SortedByScore([x] + xs)
  {
    forall i, j | 0 <= i < j < |[x] + xs| ensures ([x] + xs)[i].1 >= ([x] + xs)[j].1 {
      assert ([x] + xs)[j] == xs[j - 1];
      if i > 0 {
        assert ([x] + xs)[i] == xs[i - 1];
      } else {
        assert xs[j - 1] in xs;
      }
    }
  }

  /** Inserting an entry for a new document keeps one entry per document. */
  lemma {:induction false} InsertKeepsDistinct(xs: seq<(DocId, real)>, x: (DocId, real))
    requires SortedByScore(xs) && DistinctRanked(xs)
    requires forall y :: y in xs ==> y.0 != x.0
    ensures DistinctRanked(InsertByScore(xs, x))
    decreases |xs|
  {
    if !(xs == [] || xs[0].1 < x.1) {
      assert xs == [xs[0]] + xs[1..];
      InsertKeepsDistinct(xs[1..], x);
      var rest := InsertByScore(xs[1..], x);
      assert forall y :: y in rest ==> y.0 != xs[0].0;
    }
  }

  /** `sorted(scores.items(), key=score, reverse=True)`, by insertion. */
  method SortByScore(scores: map<DocId, real>) returns (ranked: seq<(DocId, real)>)
    ensures SortedByScore(ranked) && DistinctRanked(ranked)
    ensures forall y :: y in ranked ==> y.0 in scores && y.1 == scores[y.0]
    ensures forall d :: d in scores ==> d in RankedDocs(ranked)
  {
    ranked := [];
    var left := scores.Keys;
    while left != {}
      invariant left <= scores.Keys
      invariant SortedByScore(ranked) && DistinctRanked(ranked)
      invariant forall y :: y in ranked ==> y.0 in scores && y.0 !in left && y.1 == scores[y.0]
      invariant forall d :: d in scores && d !in left ==> d in RankedDocs(ranked)
      decreases |left|
    {
      var d :| d in left;
      InsertKeepsDistinct(ranked, (d, scores[d]));
      ranked := InsertByScore(ranked, (d, scores[d]));
      left := left - {d};
    }
  }

  /** `list(s)`: the elements of a set, each once, in no promised order. */
  method SetToSeq<T>(s: set<T>) returns (r: seq<T>)
    ensures NoDup(r)
    ensures forall x :: x in r <==> x in s
  {
    r := [];
    var todo := s;
    while todo != {}
      invariant todo <= s
      invariant NoDup(r)
      invariant forall x :: x in r <==> x in s && x !in todo
      decreases |todo|
    {
      var x :| x in todo;
      r := r + [x];
      todo := todo - {x};
    }
  }

  /** `m` restricted to the keys in `keys`. */
  function Restrict<K, V>(m: map<K, V>, keys: set<K>): map<K, V> {
    map k | k in keys && k in m :: m[k]
  }

  /** `sum(m.values())`, by a loop over the keys. */
  method SumOf<K>(m: map<K, nat>) returns (total: nat)
    ensures total == SumValues(m)
  {
    total := 0;
    var todo := m.Keys;
    assert Restrict(m, todo) == m;
    while todo != {}
      invariant todo <= m.Keys
      invariant total + SumValues(Restrict(m, todo)) == SumValues(m)
      decreases |todo|
    {
      var k :| k in todo;
      SumValuesRemove(Restrict(m, todo), k);
      assert Restrict(m, todo) - {k} == Restrict(m, todo - {k});
      total := total + m[k];
      todo := todo - {k};
    }
    assert Restrict(m, todo) == map[];
  }

  /** `get_stats()`. */
  datatype Stats = Stats(numDocuments: nat, vocabularySize: nat, meanTermsPerDoc: real, postingsSize: nat)

  /** The stats `get_stats` reports for the index state `s`: the mean length is over `max(1, total_docs)`. */
  ghost function StatsOf(s: IndexState): Stats {
    Stats(s.totalDocs, |s.vocabulary|,
          SumValues(s.documents) as real / (if s.totalDocs > 1 then s.totalDocs else 1) as real,
          s.PostingsSize())
  }

  // ---------------------------------------------------------------------------
  // The class
  // ---------------------------------------------------------------------------

  class InvertedIndex {
    var index: map<Term, seq<Posting>>
    var documents: map<DocId, nat>
    var tf: map<DocId, map<Term, nat>>
    var df: map<Term, nat>
    var vocabulary: set<Term>
    var totalDocs: nat

    function State(): IndexState
      reads this
    {
      IndexState(index, documents, tf, df, vocabulary, totalDocs)
    }

    ghost predicate Valid()
      reads this
    {
      State().Valid()
    }

    constructor ()
      ensures State() == Empty
      ensures Valid()
    {
      index := map[];
      documents := map[];
      tf := map[];
      df := map[];
      vocabulary := {};
      totalDocs := 0;
    }

    /** The body of `add_document`'s loop for one term and its count. */
    method PostTerm(id: DocId, term: Term, count: nat)
      modifies this
      ensures State() == old(State()).PostTerm(id, term, count)
    {
      var s := State();
      index := index[term := s.Postings(term) + [Posting(id, count)]];
      tf := tf[id := s.TfRow(id)[term := count]];
      df := df[term := s.DocumentFrequency(term) + 1];
      vocabulary := vocabulary + {term};
    }

    /** `add_document`'s loop over the terms of `Counter(tokens)`, `ts`, with their counts. */
    method PostTerms(id: DocId, tokens: seq<Term>, ts: seq<Term>)
      requires forall t :: t in ts ==> t in tokens
      modifies this
      ensures State() == old(State()).PostAll(id, tokens, ts)
    {
      ghost var s1 := State();
      var termCount := Counts(tokens);
      var i := 0;
      while i < |ts|
        invariant 0 <= i <= |ts|
        invariant State() == s1.PostAll(id, tokens, ts[..i])
      {
        var term := ts[i];
        PostTerm(id, term, termCount[term]);
        assert ts[..i + 1] == ts[..i] + [term];
        PostAllSnoc(s1, id, tokens, ts[..i], term);
        i := i + 1;
      }
      assert ts[..|ts|] == ts;
    }

    /** `add_document`: record the length, count the document, then post each distinct term. */
    method AddDocument(id: DocId, tokens: seq<Term>)
      modifies this
      ensures State() == old(State()).AddDocument(id, tokens)
    {
      ghost var s0 := State();
      documents := documents[id := |tokens|];
      totalDocs := totalDocs + 1;
      assert State() == IndexState(s0.index, s0.documents[id := |tokens|], s0.tf, s0.df, s0.vocabulary, s0.totalDocs + 1);
      PostTerms(id, tokens, Distinct(tokens));
      AddDocumentUnfold(s0, id, tokens);
    }

    /** `get_postings`: `[]` for a term never indexed, and as long as its document frequency. */
    function GetPostings(t: Term): (r: seq<Posting>)
      reads this
      ensures t !in index ==> r == []
      ensures Valid() ==> |r| == State().DocumentFrequency(t)
    {
      State().Postings(t)
    }

    /** `get_term_frequency`: 0 for a term or a document never indexed. */
    function GetTermFrequency(t: Term, d: DocId): (r: nat)
      reads this
      ensures Valid() && (t !in vocabulary || d !in documents) ==> r == 0
    {
      State().TermFrequency(t, d)
    }

    /** `get_document_frequency`: 0 for a term never indexed. */
    function GetDocumentFrequency(t: Term): (r: nat)
      reads this
      ensures Valid() && t !in vocabulary ==> r == 0
      ensures Valid() ==> r == |GetPostings(t)|
    {
      State().DocumentFrequency(t)
    }

    /** `get_idf`: raises (a math domain error) exactly when no document was added. */
    function GetIdf(t: Term, log10: real -> real): (r: Result<real, string>)
      reads this
      ensures r.Success? <==> totalDocs >= 1
      ensures r.Success? ==> r.value == State().Idf(t, log10)
    {
      if totalDocs == 0 then Failure("math domain error") else Success(State().Idf(t, log10))
    }

    /** `get_tf_idf`: raises like `get_idf`; a term absent from the document contributes 0. */
    function GetTfIdf(t: Term, d: DocId, log10: real -> real): (r: Result<real, string>)
      reads this
      ensures r.Success? <==> totalDocs >= 1
      ensures r.Success? && State().TermFrequency(t, d) == 0 ==> r.value == 0.0
      ensures r.Success? ==> r.value == State().TfIdf(t, d, log10)
    {
      var idf := GetIdf(t, log10);
      if idf.Failure? then Failure(idf.error) else Success(GetTermFrequency(t, d) as real * idf.value)
    }

    /** `search`: the documents in the postings of every query term, each once, in no promised order. */
    method Search(query: seq<Term>) returns (r: seq<DocId>)
      ensures NoDup(r)
      ensures forall d :: d in r <==> State().Matches(query, d)
    {
      if query == [] {
        return [];
      }
      var result := PostingDocs(GetPostings(query[0]));
      var i := 1;
      while i < |query|
        invariant 1 <= i <= |query|
        invariant forall d :: d in result <==> forall j :: 0 <= j < i ==> d in PostingDocs(State().Postings(query[j]))
      {
        result := result * PostingDocs(GetPostings(query[i]));
        i := i + 1;
      }
      r := SetToSeq(result);
      forall d ensures d in r <==> State().Matches(query, d) {
        if d in result {
          forall t | t in query ensures d in PostingDocs(State().Postings(t)) {
            var j :| 0 <= j < |query| && query[j] == t;
          }
        }
      }
    }

    /** `rank_search`'s first loop: the documents in the postings of some query term. */
    method TouchedDocs(query: seq<Term>) returns (docs: set<DocId>)
      ensures forall d :: d in docs <==> State().Touches(query, d)
    {
      docs := {};
      var i := 0;
      while i < |query|
        invariant 0 <= i <= |query|
        invariant forall d :: d in docs <==> exists j :: 0 <= j < i && d in PostingDocs(State().Postings(query[j]))
      {
        docs := docs + PostingDocs(GetPostings(query[i]));
        i := i + 1;
      }
      forall d | State().Touches(query, d) ensures d in docs {
        var t :| t in query && d in PostingDocs(State().Postings(t));
        var j :| 0 <= j < |query| && query[j] == t;
      }
    }

    /** `rank_search`'s second loop: the score of every touched document. */
    method ScoreDocs(query: seq<Term>, docs: set<DocId>, log10: real -> real) returns (scores: map<DocId, real>)
      requires docs == {} || totalDocs >= 1
      ensures scores.Keys == docs
      ensures forall d :: d in scores ==> totalDocs >= 1 && scores[d] == State().Score(query, d, log10)
    {
      scores := map[];
      var todo := docs;
      while todo != {}
        invariant todo <= docs
        invariant forall d :: d in scores <==> d in docs && d !in todo
        invariant forall d :: d in scores ==> totalDocs >= 1 && scores[d] == State().Score(query, d, log10)
        decreases |todo|
      {
        var d :| d in todo;
        scores := scores[d := State().Score(query, d, log10)];
        todo := todo - {d};
      }
    }

    /**
     * `rank_search`: every document in the postings of some query term, once,
     * with its score, best first; ties in no promised order.
     */
    method RankSearch(query: seq<Term>, log10: real -> real) returns (ranked: seq<(DocId, real)>)
      requires Valid()
      ensures query == [] ==> ranked == []
      ensures forall d :: d in RankedDocs(ranked) <==> State().Touches(query, d)
      ensures DistinctRanked(ranked)
      ensures ranked != [] ==> totalDocs >= 1
      ensures forall i :: 0 <= i < |ranked| && totalDocs >= 1 ==> ranked[i].1 == State().Score(query, ranked[i].0, log10)
      ensures SortedByScore(ranked)
    {
      if query == [] {
        return [];
      }
      var docs := TouchedDocs(query);
      if docs != {} {
        var d :| d in docs;
        var t :| t in query && d in PostingDocs(State().Postings(t));
        var p :| p in State().Postings(t) && p.doc == d;
        assert t in index && p in index[t];
        assert d in documents.Keys;
        assert |documents.Keys| == |documents|;
      }
      var scores := ScoreDocs(query, docs, log10);
      ranked := SortByScore(scores);
      forall k | 0 <= k < |ranked| ensures totalDocs >= 1 && ranked[k].1 == State().Score(query, ranked[k].0, log10) {
        assert ranked[k] in ranked;
        assert ranked[k].0 in scores;
      }
      assert forall y :: y in ranked ==> y.0 in docs;
      if ranked != [] {
        assert ranked[0] in ranked;
      }
    }

    /** `get_stats`. */
    method GetStats() returns (r: Stats)
      ensures r.numDocuments == totalDocs
      ensures r.vocabularySize == |vocabulary|
      ensures r.meanTermsPerDoc == SumValues(documents) as real / (if totalDocs > 1 then totalDocs else 1) as real
      ensures r.postingsSize == State().PostingsSize()
      ensures r == StatsOf(State())
    {
      var lengthSum := SumOf(documents);
      var postingsSize := SumOf(map t | t in index :: |index[t]|);
      var divisor := if totalDocs > 1 then totalDocs else 1;
      r := Stats(totalDocs, |vocabulary|, lengthSum as real / divisor as real, postingsSize);
    }
  }
}

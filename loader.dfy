/**
 * The class `Index`: load the corpus from the scraper's JSON document
 * (`ipea → date → subdir → file`) into a flat `path → content` dict, then
 * build the five named index variants over it.
 *
 * Reading the file and parsing it are the parameter `read`: `None` when the
 * open or the parse raises, which `load_from_json` catches.
 */
module Loader {
  import opened Wrappers
  import opened PyText
  import opened Text
  import opened Inverted
  import opened Analyzer

  // ---------------------------------------------------------------------------
  // JSON values
  // ---------------------------------------------------------------------------

  /** A value `json.load` returns; an object is a dict, so its keys are unique and ordered. */
  datatype Json =
    | JNull
    | JBool(b: bool)
    | JInt(i: int)
    | JFloat(r: real)
    | JString(s: string)
    | JArray(items: seq<Json>)
    | JObject(members: Dict<string, Json>)

  /** The Python type name of a JSON value, as error messages print it. */
  function TypeName(j: Json): string {
    match j
    case JNull => "NoneType"
    case JBool(_) => "bool"
    case JInt(_) => "int"
    case JFloat(_) => "float"
    case JString(_) => "str"
    case JArray(_) => "list"
    case JObject(_) => "dict"
  }

  /** The message of the `AttributeError` raised by calling a missing method. */
  function NoAttribute(j: Json, attribute: string): string {
    "'" + TypeName(j) + "' object has no attribute '" + attribute + "'"
  }

  // ---------------------------------------------------------------------------
  // load_from_json's loop nest
  // ---------------------------------------------------------------------------

  /** The content recorded for a file given only as a string. */
  const Placeholder := "Conteúdo não disponível"

  /** The key of a file in the flat dict. */
  function DocPath(date: string, subdir: string, file: string): string {
    date + "/" + subdir + "/" + file
  }

  /**
   * What the innermost loop records for one file: its `content` when the
   * entry is a dict holding that key, the placeholder when it is a string,
   * nothing otherwise.
   */
  function FileRecord(date: string, subdir: string, file: string, info: Json): (r: Option<(string, Json)>)
    ensures r.Some? <==> info.JString? || (info.JObject? && "content" in Keys(info.members))
    ensures r.Some? ==> r.value.0 == DocPath(date, subdir, file)
    ensures info.JString? ==> r.Some? && r.value.1 == JString(Placeholder)
    ensures info.JObject? && r.Some? ==> Lookup(info.members, "content") == Some(r.value.1)
  {
    match info
    case JObject(m) =>
      if "content" in Keys(m) then Some((DocPath(date, subdir, file), Lookup(m, "content").value)) else None
    case JString(_) => Some((DocPath(date, subdir, file), JString(Placeholder)))
    case _ => None
  }

  /** The records of the files of one subdirectory, in order. */
  function FilePairs(date: string, subdir: string, files: seq<(string, Json)>): seq<(string, Json)>
    decreases |files|
  {
    if files == [] then []
    else
      var rest := FilePairs(date, subdir, files[1..]);
      match FileRecord(date, subdir, files[0].0, files[0].1)
      case Some(p) => [p] + rest
      case None => rest
  }

  /** The records of the subdirectories of one date; a subdirectory that is not a dict raises. */
  function SubdirPairs(date: string, subdirs: seq<(string, Json)>): Result<seq<(string, Json)>, string>
    decreases |subdirs|
  {
    if subdirs == [] then Success([])
    else
      match subdirs[0].1
      case JObject(files) =>
        (match SubdirPairs(date, subdirs[1..])
         case Success(rest) => Success(FilePairs(date, subdirs[0].0, files) + rest)
         case Failure(e) => Failure(e))
      case _ => Failure(NoAttribute(subdirs[0].1, "items"))
  }

  /** The records of the dates; a date or subdirectory that is not a dict raises. */
  function DatePairs(dates: seq<(string, Json)>): Result<seq<(string, Json)>, string>
    decreases |dates|
  {
    if dates == [] then Success([])
    else
      match dates[0].1
      case JObject(subdirs) =>
        (match SubdirPairs(dates[0].0, subdirs)
         case Failure(e) => Failure(e)
         case Success(first) =>
           match DatePairs(dates[1..])
           case Success(rest) => Success(first + rest)
           case Failure(e) => Failure(e))
      case _ => Failure(NoAttribute(dates[0].1, "items"))
  }

  /** The records of the whole document: `data.get("ipea", {})` must be a dict of dicts of dicts. */
  function DocumentPairs(data: Json): Result<seq<(string, Json)>, string> {
    match data
    case JObject(m) =>
      var ipea := Lookup(m, "ipea").GetOr(JObject([]));
      (match ipea
       case JObject(dates) => DatePairs(dates)
       case _ => Failure(NoAttribute(ipea, "items")))
    case _ => Failure(NoAttribute(data, "get"))
  }

  /** `documents[doc_path] = content` for each record in turn. */
  function Flatten(data: Json): Result<Dict<string, Json>, string> {
    match DocumentPairs(data)
    case Success(ps) => Success(FromPairs(ps))
    case Failure(e) => Failure(e)
  }

  // ---------------------------------------------------------------------------
  // What the flattening keeps and when it raises
  // ---------------------------------------------------------------------------

  /** A subdirectory's records are exactly the records of its files. */
  lemma {:induction false} FilePairsMembers(date: string, subdir: string, files: seq<(string, Json)>, p: (string, Json))
    ensures p in FilePairs(date, subdir, files) <==>
      exists i :: 0 <= i < |files| && FileRecord(date, subdir, files[i].0, files[i].1) == Some(p)
    decreases |files|
  {
    if files != [] {
      FilePairsMembers(date, subdir, files[1..], p);
      assert forall i :: 1 <= i < |files| ==> files[i] == files[1..][i - 1];
      if exists i :: 1 <= i < |files| && FileRecord(date, subdir, files[i].0, files[i].1) == Some(p) {
        var i :| 1 <= i < |files| && FileRecord(date, subdir, files[i].0, files[i].1) == Some(p);
        assert files[1..][i - 1] == files[i];
      }
    }
  }

  /** A date's subdirectories raise exactly when one of them is not a dict. */
  lemma {:induction false} SubdirPairsFails(date: string, subdirs: seq<(string, Json)>)
    ensures SubdirPairs(date, subdirs).Failure? <==> exists j :: 0 <= j < |subdirs| && !subdirs[j].1.JObject?
    decreases |subdirs|
  {
    if subdirs != [] {
      SubdirPairsFails(date, subdirs[1..]);
      assert forall j :: 1 <= j < |subdirs| ==> subdirs[j] == subdirs[1..][j - 1];
      if exists j :: 1 <= j < |subdirs| && !subdirs[j].1.JObject? {
        var j :| 1 <= j < |subdirs| && !subdirs[j].1.JObject?;
        assert !subdirs[1..][j - 1].1.JObject?;
      }
    }
  }

  /** A date's records are the records of the files of its subdirectories. */
  lemma {:induction false} SubdirPairsMembers(date: string, subdirs: seq<(string, Json)>, p: (string, Json))
    requires SubdirPairs(date, subdirs).Success?
    ensures p in SubdirPairs(date, subdirs).value <==>
      exists j :: 0 <= j < |subdirs| && subdirs[j].1.JObject? && p in FilePairs(date, subdirs[j].0, subdirs[j].1.members)
    decreases |subdirs|
  {
    if subdirs != [] {
      SubdirPairsMembers(date, subdirs[1..], p);
      assert forall j :: 1 <= j < |subdirs| ==> subdirs[j] == subdirs[1..][j - 1];
      if exists j :: 1 <= j < |subdirs| && subdirs[j].1.JObject? && p in FilePairs(date, subdirs[j].0, subdirs[j].1.members) {
        var j :| 1 <= j < |subdirs| && subdirs[j].1.JObject? && p in FilePairs(date, subdirs[j].0, subdirs[j].1.members);
        assert subdirs[1..][j - 1] == subdirs[j];
      }
    }
  }

  /** The dates raise exactly when a date, or a subdirectory of a date, is not a dict. */
  lemma {:induction false} DatePairsFails(dates: seq<(string, Json)>)
    ensures DatePairs(dates).Failure? <==>
      exists i :: 0 <= i < |dates| && (!dates[i].1.JObject? || SubdirPairs(dates[i].0, dates[i].1.members).Failure?)
    decreases |dates|
  {
    if dates != [] {
      DatePairsFails(dates[1..]);
      assert forall i :: 1 <= i < |dates| ==> dates[i] == dates[1..][i - 1];
      if exists i :: 1 <= i < |dates| && (!dates[i].1.JObject? || SubdirPairs(dates[i].0, dates[i].1.members).Failure?) {
        var i :| 1 <= i < |dates| && (!dates[i].1.JObject? || SubdirPairs(dates[i].0, dates[i].1.members).Failure?);
        assert dates[1..][i - 1] == dates[i];
      }
    }
  }

  /** The document's records are the records of the subdirectories of its dates. */
  lemma {:induction false} DatePairsMembers(dates: seq<(string, Json)>, p: (string, Json))
    requires DatePairs(dates).Success?
    ensures forall i :: 0 <= i < |dates| ==> dates[i].1.JObject? && SubdirPairs(dates[i].0, dates[i].1.members).Success?
    ensures p in DatePairs(dates).value <==>
      exists i :: 0 <= i < |dates| && p in SubdirPairs(dates[i].0, dates[i].1.members).value
    decreases |dates|
  {
    if dates != [] {
      DatePairsMembers(dates[1..], p);
      assert forall i :: 1 <= i < |dates| ==> dates[i] == dates[1..][i - 1];
      if exists i :: 1 <= i < |dates| && p in SubdirPairs(dates[i].0, dates[i].1.members).value {
        var i :| 1 <= i < |dates| && p in SubdirPairs(dates[i].0, dates[i].1.members).value;
        assert dates[1..][i - 1] == dates[i];
      }
    }
  }

  /**
   * The flat dict has a key exactly for each record, and the value of the
   * last record with that key; it is empty without an `ipea` entry.
   */
  lemma FlattenLookup(data: Json, k: string)
    requires Flatten(data).Success?
    ensures var ps := DocumentPairs(data).value;
      && (k in Keys(Flatten(data).value) <==> exists i :: 0 <= i < |ps| && ps[i].0 == k)
      && forall i :: 0 <= i < |ps| && ps[i].0 == k && LastWithKey(ps, i) ==> Lookup(Flatten(data).value, k) == Some(ps[i].1)
    ensures data.JObject? && "ipea" !in Keys(data.members) ==> Flatten(data).value == []
  {
    FromPairsLookup(DocumentPairs(data).value, k);
  }

  // ---------------------------------------------------------------------------
  // The five variants
  // ---------------------------------------------------------------------------

  /** The names `start` gives its variants. */
  const BasicName := "básico"
  const NoStopName := "sem_stopwords"
  const StemmedName := "com_stemming"
  const BigramName := "bigramas"
  const ShingleName := "shingles"

  /** The five names are distinct. */
  lemma NamesDistinct()
    ensures BasicName != NoStopName && BasicName != StemmedName && BasicName != BigramName && BasicName != ShingleName
    ensures NoStopName != StemmedName && NoStopName != BigramName && NoStopName != ShingleName
    ensures StemmedName != BigramName && StemmedName != ShingleName
    ensures BigramName != ShingleName
  {
    assert |BasicName| == 6 && |NoStopName| == 13 && |StemmedName| == 12 && |BigramName| == 8 && |ShingleName| == 8;
    assert BigramName[0] != ShingleName[0];
  }

  /** The options `start` passes for each variant; `básico` passes none. */
  const BasicParams: Option<Params> := None
  const NoStopParams := Some(Params(Some(true), Some(false), None, None, None, None))
  const StemmedParams := Some(Params(Some(true), Some(true), None, None, None, None))
  const BigramParams := Some(Params(Some(true), Some(true), Some(true), Some(2), None, None))
  const ShingleParams := Some(Params(Some(true), Some(true), None, None, Some(true), Some(3)))

  /**
   * What each variant indexes: `básico` and `com_stemming` the same stemmed,
   * stopword-free tokens; `sem_stopwords` the unstemmed ones; `bigramas` their
   * bigrams; `shingles` their 1- to 3-shingles.
   */
  lemma VariantStreams(tp: TextProcessor, text: string)
    ensures Merge(BasicParams) == Merge(StemmedParams) == Defaults
    ensures IndexedTerms(tp, text, Merge(BasicParams)) == ApplyStemming(tp, RemoveStopwords(tp, BaseTokens(tp, text)))
    ensures IndexedTerms(tp, text, Merge(NoStopParams)) == RemoveStopwords(tp, BaseTokens(tp, text))
    ensures IndexedTerms(tp, text, Merge(BigramParams)) == CreateNgrams(ApplyStemming(tp, RemoveStopwords(tp, BaseTokens(tp, text))), 2)
    ensures IndexedTerms(tp, text, Merge(ShingleParams)) == Shingles(ApplyStemming(tp, RemoveStopwords(tp, BaseTokens(tp, text))), 3)
  {
    IndexedStream(tp, text, Merge(BasicParams));
    IndexedStream(tp, text, Merge(NoStopParams));
    IndexedStream(tp, text, Merge(BigramParams));
    IndexedStream(tp, text, Merge(ShingleParams));
  }

  /** `básico` and `com_stemming` index every corpus identically. */
  lemma BasicIsStemmed(tp: TextProcessor, documents: Dict<DocId, string>)
    ensures Corpus(tp, documents, Merge(BasicParams)) == Corpus(tp, documents, Merge(StemmedParams))
  {
    VariantStreams(tp, "");
  }

  /** `index` holds the corpus `documents` as processed by `tp` under the options `params`. */
  ghost predicate BuiltFrom(index: InvertedIndex, tp: TextProcessor, documents: Dict<DocId, string>, params: Option<Params>)
    reads index
  {
    && index.State() == Build(Empty, Corpus(tp, documents, Merge(params)))
    && index.totalDocs == |documents|
  }

  /** All five variants are in `a` under their names, each built from `a`'s corpus, and nothing else is. */
  ghost predicate AllBuilt(a: IndexAnalyzer)
    reads a, a.indices.Values
  {
    && a.indices.Keys == {BasicName, NoStopName, StemmedName, BigramName, ShingleName}
    && BuiltFrom(a.indices[BasicName], a.processor, a.documents, BasicParams)
    && BuiltFrom(a.indices[NoStopName], a.processor, a.documents, NoStopParams)
    && BuiltFrom(a.indices[StemmedName], a.processor, a.documents, StemmedParams)
    && BuiltFrom(a.indices[BigramName], a.processor, a.documents, BigramParams)
    && BuiltFrom(a.indices[ShingleName], a.processor, a.documents, ShingleParams)
  }

  /** `create_index(name, params)` on `a`, stated through `BuiltFrom`. */
  method CreateVariant(a: IndexAnalyzer, name: string, params: Option<Params>) returns (index: InvertedIndex)
    modifies a
    ensures fresh(index)
    ensures a.indices == old(a.indices)[name := index]
    ensures BuiltFrom(index, a.processor, a.documents, params)
  {
    index := a.CreateIndex(name, params);
  }

  /** Lookups in the map of the five variants. */
  lemma VariantMap(m: map<string, InvertedIndex>, basic: InvertedIndex, noStop: InvertedIndex,
                   stemmed: InvertedIndex, bigrams: InvertedIndex, shingles: InvertedIndex)
    requires m == map[BasicName := basic, NoStopName := noStop, StemmedName := stemmed,
      BigramName := bigrams, ShingleName := shingles]
    ensures m.Keys == {BasicName, NoStopName, StemmedName, BigramName, ShingleName}
    ensures m.Values == {basic, noStop, stemmed, bigrams, shingles}
    ensures m[BasicName] == basic && m[NoStopName] == noStop && m[StemmedName] == stemmed
    ensures m[BigramName] == bigrams && m[ShingleName] == shingles
  {
    NamesDistinct();
  }

  /** Five indices built from `a`'s corpus and stored under the five names make up `AllBuilt(a)`. */
  lemma Collect(a: IndexAnalyzer, basic: InvertedIndex, noStop: InvertedIndex, stemmed: InvertedIndex,
                bigrams: InvertedIndex, shingles: InvertedIndex)
    requires a.indices == map[BasicName := basic, NoStopName := noStop, StemmedName := stemmed,
      BigramName := bigrams, ShingleName := shingles]
    requires BuiltFrom(basic, a.processor, a.documents, BasicParams)
    requires BuiltFrom(noStop, a.processor, a.documents, NoStopParams)
    requires BuiltFrom(stemmed, a.processor, a.documents, StemmedParams)
    requires BuiltFrom(bigrams, a.processor, a.documents, BigramParams)
    requires BuiltFrom(shingles, a.processor, a.documents, ShingleParams)
    ensures AllBuilt(a)
  {
    VariantMap(a.indices, basic, noStop, stemmed, bigrams, shingles);
  }

  /** Five different indices stored under the five names: no two names share an index. */
  lemma VariantsApart(m: map<string, InvertedIndex>, basic: InvertedIndex, noStop: InvertedIndex,
                      stemmed: InvertedIndex, bigrams: InvertedIndex, shingles: InvertedIndex)
    requires m == map[BasicName := basic, NoStopName := noStop, StemmedName := stemmed,
      BigramName := bigrams, ShingleName := shingles]
    requires basic !in {noStop, stemmed, bigrams, shingles} && noStop !in {stemmed, bigrams, shingles}
    requires stemmed !in {bigrams, shingles} && bigrams != shingles
    ensures forall x, y :: x in m && y in m && x != y ==> m[x] != m[y]
  {
    VariantMap(m, basic, noStop, stemmed, bigrams, shingles);
  }

  /** The five `create_index` calls of `start`, in order, on a fresh analyzer. */
  method CreateEach(a: IndexAnalyzer) returns (basic: InvertedIndex, noStop: InvertedIndex,
      stemmed: InvertedIndex, bigrams: InvertedIndex, shingles: InvertedIndex)
    requires a.indices == map[]
    modifies a
    ensures a.indices == map[BasicName := basic, NoStopName := noStop, StemmedName := stemmed,
      BigramName := bigrams, ShingleName := shingles]
    ensures fresh(basic) && fresh(noStop) && fresh(stemmed) && fresh(bigrams) && fresh(shingles)
    ensures basic !in {noStop, stemmed, bigrams, shingles} && noStop !in {stemmed, bigrams, shingles}
    ensures stemmed !in {bigrams, shingles} && bigrams != shingles
    ensures BuiltFrom(basic, a.processor, a.documents, BasicParams)
    ensures BuiltFrom(noStop, a.processor, a.documents, NoStopParams)
    ensures BuiltFrom(stemmed, a.processor, a.documents, StemmedParams)
    ensures BuiltFrom(bigrams, a.processor, a.documents, BigramParams)
    ensures BuiltFrom(shingles, a.processor, a.documents, ShingleParams)
  {
    basic := CreateVariant(a, BasicName, BasicParams);
    noStop := CreateVariant(a, NoStopName, NoStopParams);
    stemmed := CreateVariant(a, StemmedName, StemmedParams);
    bigrams := CreateVariant(a, BigramName, BigramParams);
    shingles := CreateVariant(a, ShingleName, ShingleParams);
  }

  /** `start`'s variants: the five indices, all new, each under its name and built from `a`'s corpus. */
  method CreateVariants(a: IndexAnalyzer)
    requires a.indices == map[]
    modifies a
    ensures AllBuilt(a)
    ensures fresh(a.indices[BasicName]) && fresh(a.indices[NoStopName]) && fresh(a.indices[StemmedName])
    ensures fresh(a.indices[BigramName]) && fresh(a.indices[ShingleName])
    ensures forall m, n :: m in a.indices && n in a.indices && m != n ==> a.indices[m] != a.indices[n]
  {
    var basic, noStop, stemmed, bigrams, shingles := CreateEach(a);
    VariantMap(a.indices, basic, noStop, stemmed, bigrams, shingles);
    VariantsApart(a.indices, basic, noStop, stemmed, bigrams, shingles);
    Collect(a, basic, noStop, stemmed, bigrams, shingles);
  }

  // ---------------------------------------------------------------------------
  // The class
  // ---------------------------------------------------------------------------

  /** A path is given when it is neither `None` nor empty. */
  predicate Given(path: Option<string>) {
    path.Some? && path.value != ""
  }

  /** The documents after `load_from_json`: the flat dict, or the old documents when anything raised. */
  function Loaded(path: Option<string>, current: Dict<string, Json>, read: string -> Option<Json>): Dict<string, Json> {
    if !Given(path) then current
    else
      match read(path.value)
      case None => current
      case Some(data) =>
        match Flatten(data)
        case Success(d) => d
        case Failure(_) => current
  }

  /** Every document's content is a string, so `normalize_text` can lower-case it. */
  predicate AllText(documents: Dict<string, Json>) {
    forall i :: 0 <= i < |documents| ==> documents[i].1.JString?
  }

  /** The documents as texts. */
  function Texts(documents: Dict<string, Json>): (texts: Dict<DocId, string>)
    requires AllText(documents)
    ensures |texts| == |documents|
    ensures forall i :: 0 <= i < |texts| ==> texts[i] == (documents[i].0, documents[i].1.s)
  {
    seq(|documents|, i requires 0 <= i < |documents| => (documents[i].0, documents[i].1.s))
  }

  /** The first document whose content is not a string. */
  function FirstNonText(documents: Dict<string, Json>): (i: nat)
    requires !AllText(documents)
    ensures i < |documents| && !documents[i].1.JString?
    ensures forall j :: 0 <= j < i ==> documents[j].1.JString?
    decreases |documents|
  {
    if !documents[0].1.JString? then 0
    else
      assert !AllText(documents[1..]) by {
        var i :| 0 <= i < |documents| && !documents[i].1.JString?;
        assert documents[1..][i - 1] == documents[i];
      }
      1 + FirstNonText(documents[1..])
  }

  /** The end of `start`: an analyzer over the texts, holding the five variants. */
  method Analyze(tp: TextProcessor, documents: Dict<string, Json>) returns (a: IndexAnalyzer)
    requires AllText(documents)
    ensures fresh(a)
    ensures a.processor == tp && a.documents == Texts(documents)
    ensures AllBuilt(a)
    ensures fresh(a.indices[BasicName]) && fresh(a.indices[NoStopName]) && fresh(a.indices[StemmedName])
    ensures fresh(a.indices[BigramName]) && fresh(a.indices[ShingleName])
    ensures forall m, n :: m in a.indices && n in a.indices && m != n ==> a.indices[m] != a.indices[n]
  {
    a := new IndexAnalyzer(tp, Texts(documents));
    CreateVariants(a);
  }

  /** An `Index`: where the corpus comes from, and the corpus once known. */
  class Index {
    const jsonFilePath: Option<string>
    var documents: Dict<string, Json>

    /** `documents or {}`. */
    constructor (jsonFilePath: Option<string>, documents: Option<Dict<string, Json>>)
      ensures this.jsonFilePath == jsonFilePath
      ensures this.documents == documents.GetOr([])
    {
      this.jsonFilePath := jsonFilePath;
      this.documents := documents.GetOr([]);
    }

    /** `load_from_json`: replace the documents with the flat dict unless anything raises. */
    method LoadFromJson(read: string -> Option<Json>) returns (r: Dict<string, Json>)
      modifies this
      ensures documents == Loaded(jsonFilePath, old(documents), read)
      ensures r == documents
    {
      if !Given(jsonFilePath) {
        return documents;
      }
      var data := read(jsonFilePath.value);
      if data.None? {
        return documents;
      }
      var flat := Flatten(data.value);
      if flat.Failure? {
        return documents;
      }
      documents := flat.value;
      return documents;
    }

    /**
     * `start`: load the corpus when a path is given and there are no
     * documents yet; `None` with no documents; otherwise an analyzer holding
     * the five variants. A content that is not a string raises in
     * `normalize_text` while the first variant is built.
     */
    method Start(read: string -> Option<Json>, tp: TextProcessor) returns (r: Result<Option<IndexAnalyzer>, string>)
      modifies this
      ensures documents == if Given(jsonFilePath) && old(documents) == [] then Loaded(jsonFilePath, old(documents), read) else old(documents)
      ensures r == Success(None) <==> documents == []
      ensures r.Failure? <==> documents != [] && !AllText(documents)
      ensures r.Failure? ==> r.error == NoAttribute(documents[FirstNonText(documents)].1, "lower")
      ensures r.Success? && r.value.Some? ==>
        var a := r.value.value;
        && fresh(a)
        && a.processor == tp
        && AllText(documents) && a.documents == Texts(documents)
        && AllBuilt(a)
        && fresh(a.indices[BasicName]) && fresh(a.indices[NoStopName]) && fresh(a.indices[StemmedName])
        && fresh(a.indices[BigramName]) && fresh(a.indices[ShingleName])
    {
      if Given(jsonFilePath) && documents == [] {
        var _ := LoadFromJson(read);
      }
      if documents == [] {
        return Success(None);
      }
      if !AllText(documents) {
        return Failure(NoAttribute(documents[FirstNonText(documents)].1, "lower"));
      }
      var a := Analyze(tp, documents);
      return Success(Some(a));
    }
  }
}

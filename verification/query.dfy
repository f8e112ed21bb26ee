/** `query_knowledge`: answer a question either by counting story chapters
    in the PDFs' tables of contents, or by semantic retrieval and an LLM
    answer. The vector store's presence, the outline extractor and the
    retrieval chain are collaborators and appear as parameters. */
module QueryRouting {
  import opened Outcomes
  import opened Text
  import opened Documents
  import opened Outline

  /** The language-specific constants of the router. The non-English words
      and the localized answer sentence are parameters; the English keywords
      are fixed below. */
  datatype Config = Config(
    nativeCountWords: seq<string>,  // non-English counting words looked for in the query
    nativeTopic: string,            // non-English "story" word looked for in outline titles
    countAnswerHead: string,        // the localized answer up to the count
    countAnswerTail: string)        // the localized answer after the count

  /** The counting keywords of the query test. `any(...)` has no side
      effects, so their order does not matter. */
  function CountKeywords(cfg: Config): seq<string> {
    cfg.nativeCountWords + ["how many", "total"]
  }

  const NoIndexAnswer: string := "No PDFs indexed yet. Please upload and index some PDFs first."
  const ChapterPrefix: string := "Chapter: "

  /** The query test: some counting keyword occurs at some index of the
      lower-cased query. */
  predicate AsksForCount(cfg: Config, query: string)
    ensures AsksForCount(cfg, query) <==>
              exists k, i :: 0 <= k < |CountKeywords(cfg)| && OccursAt(Lower(query), CountKeywords(cfg)[k], i)
  {
    ContainsAny(Lower(query), CountKeywords(cfg))
  }

  /** Python truthiness of `pdf_paths`: `None` and `[]` are false. */
  predicate Truthy(pdfPaths: Option<seq<Path>>) {
    pdfPaths.Some? && pdfPaths.value != []
  }

  /** Which way `query_knowledge` answers once a collection exists. */
  datatype Route =
    | Structural(chapters: seq<TocEntry>)  // answer by counting these chapters
    | Semantic                             // fall through to retrieval
    | OutlineFailed(path: Path)            // `extract_toc(path)` raised

  function RouteQuery(cfg: Config, query: string, pdfPaths: Option<seq<Path>>, toc: Path -> TocOutcome): (r: Route)
    ensures r.Structural? ==> r.chapters != []
    ensures r.Structural? ==>
              pdfPaths.Some? && CollectChapters(ChapterTest(cfg.nativeTopic), pdfPaths.value, toc) == Success(r.chapters)
    ensures !AsksForCount(cfg, query) || !Truthy(pdfPaths) ==> r == Semantic
  {
    if AsksForCount(cfg, query) && Truthy(pdfPaths) then
      match CollectChapters(ChapterTest(cfg.nativeTopic), pdfPaths.value, toc)
      case Failure(p) => OutlineFailed(p)
      case Success(chapters) => if chapters != [] then Structural(chapters) else Semantic
    else
      Semantic
  }

  /** f"...{count}...": the localized counting answer, from which the count
      can be read back. */
  function CountAnswer(cfg: Config, count: nat): (r: string)
    ensures CountInAnswer(cfg, r) == Some(count)
  {
    CountAnswerRoundTrip(cfg, count);
    cfg.countAnswerHead + Decimal(count) + cfg.countAnswerTail
  }

  /** Reads the count back out of a counting answer, if it is one. */
  function CountInAnswer(cfg: Config, answer: string): Option<nat> {
    var h := |cfg.countAnswerHead|;
    var t := |cfg.countAnswerTail|;
    if |answer| < h + t then None
    else if answer[..h] != cfg.countAnswerHead || answer[|answer| - t..] != cfg.countAnswerTail then None
    else
      var digits := answer[h..|answer| - t];
      if digits != [] && forall i :: 0 <= i < |digits| ==> IsDigit(digits[i]) then Some(DecimalValue(digits))
      else None
  }

  /** The count written between the answer's head and tail is the count that
      is read back from it. */
  lemma CountAnswerRoundTrip(cfg: Config, count: nat)
    ensures CountInAnswer(cfg, cfg.countAnswerHead + Decimal(count) + cfg.countAnswerTail) == Some(count)
  {
    var a := cfg.countAnswerHead + Decimal(count) + cfg.countAnswerTail;
    var h := |cfg.countAnswerHead|;
    var t := |cfg.countAnswerTail|;
    assert a[..h] == cfg.countAnswerHead;
    assert a[|a| - t..] == cfg.countAnswerTail;
    assert a[h..|a| - t] == Decimal(count);
    DecimalRoundTrip(count);
  }

  /** `[f"Chapter: {item[1]}" for item in toc_list]`. */
  function ChapterSources(chapters: seq<TocEntry>): (r: seq<string>)
    ensures |r| == |chapters|
    ensures forall i :: 0 <= i < |r| ==> r[i] == ChapterPrefix + chapters[i].title
    decreases |chapters|
  {
    if chapters == [] then [] else [ChapterPrefix + chapters[0].title] + ChapterSources(chapters[1..])
  }

  /** `[doc.page_content for doc in result["context"]]`. */
  function ContextSources(context: seq<Document>): (r: seq<string>)
    ensures |r| == |context|
    ensures forall i :: 0 <= i < |r| ==> r[i] == context[i].pageContent
    decreases |context|
  {
    if context == [] then [] else [context[0].pageContent] + ContextSources(context[1..])
  }

  /** What `rag_chain.invoke({"input": query})` did: raised (network, model
      or store failure), or produced an answer and the documents it used. */
  datatype Retrieval = RetrievalFailed | Retrieved(answer: string, context: seq<Document>)

  datatype QueryError = OutlineUnreadable(path: Path) | ChainFailed

  /** The `(answer, sources)` pair returned to the caller. */
  datatype Reply = Reply(answer: string, sources: seq<string>)

  function QueryKnowledge(cfg: Config, hasCollection: bool, query: string, pdfPaths: Option<seq<Path>>,
                          toc: Path -> TocOutcome, chain: string -> Retrieval): (r: Result<Reply, QueryError>)
    // no collection: the fixed notice and no sources, whatever was asked
    ensures !hasCollection ==> r == Success(Reply(NoIndexAnswer, []))
    // counting: the answer states how many sources there are, one per chapter
    ensures hasCollection && RouteQuery(cfg, query, pdfPaths, toc).Structural? ==>
              var chapters := RouteQuery(cfg, query, pdfPaths, toc).chapters;
              && r.Success?
              && r.value.answer == CountAnswer(cfg, |r.value.sources|)
              && CountInAnswer(cfg, r.value.answer) == Some(|r.value.sources|)
              && |r.value.sources| == |chapters|
              && forall i :: 0 <= i < |chapters| ==> r.value.sources[i] == ChapterPrefix + chapters[i].title
    // an unreadable outline propagates as an error
    ensures hasCollection && RouteQuery(cfg, query, pdfPaths, toc).OutlineFailed? ==>
              r == Failure(OutlineUnreadable(RouteQuery(cfg, query, pdfPaths, toc).path))
    // semantic search: the chain's answer, and its documents' text in retrieval order
    ensures hasCollection && RouteQuery(cfg, query, pdfPaths, toc).Semantic? ==>
              && (r.Success? <==> chain(query).Retrieved?)
              && (r.Success? ==>
                    && r.value.answer == chain(query).answer
                    && |r.value.sources| == |chain(query).context|
                    && forall i :: 0 <= i < |r.value.sources| ==>
                         r.value.sources[i] == chain(query).context[i].pageContent)
  {
    if !hasCollection then Success(Reply(NoIndexAnswer, []))
    else
      match RouteQuery(cfg, query, pdfPaths, toc)
      case Structural(chapters) =>
        Success(Reply(CountAnswer(cfg, |chapters|), ChapterSources(chapters)))
      case OutlineFailed(p) => Failure(OutlineUnreadable(p))
      case Semantic =>
        match chain(query)
        case RetrievalFailed => Failure(ChainFailed)
        case Retrieved(answer, context) => Success(Reply(answer, ContextSources(context)))
  }

  /** The outline test: collection over readable outlines finds something
      exactly when some outline has a story chapter. */
  lemma ChaptersFoundIff(nativeTopic: string, paths: seq<Path>, toc: Path -> TocOutcome)
    requires CollectChapters(ChapterTest(nativeTopic), paths, toc).Success?
    ensures CollectChapters(ChapterTest(nativeTopic), paths, toc).value != [] <==>
              exists p, e :: p in paths && toc(p).Toc? && e in toc(p).entries && IsChapter(nativeTopic, e)
  {
    var test := ChapterTest(nativeTopic);
    var c := CollectChapters(test, paths, toc).value;
    CollectedAreChapters(test, paths, toc);
    if c != [] {
      assert c[0] in c;
      var p :| p in paths && toc(p).Toc? && c[0] in toc(p).entries && test(c[0]);
      assert IsChapter(nativeTopic, c[0]);
    }
    if exists p, e :: p in paths && toc(p).Toc? && e in toc(p).entries && IsChapter(nativeTopic, e) {
      var p, e :| p in paths && toc(p).Toc? && e in toc(p).entries && IsChapter(nativeTopic, e);
      assert test(e);
      assert e in c;
    }
  }

  /** The counting path is taken exactly when some counting keyword occurs in
      the lower-cased query, `pdf_paths` is non-empty, every outline can be
      read, and some outline has a story chapter. */
  lemma StructuralIff(cfg: Config, query: string, pdfPaths: Option<seq<Path>>, toc: Path -> TocOutcome)
    ensures RouteQuery(cfg, query, pdfPaths, toc).Structural? <==>
              && (exists k, i :: 0 <= k < |CountKeywords(cfg)| && OccursAt(Lower(query), CountKeywords(cfg)[k], i))
              && pdfPaths.Some? && pdfPaths.value != []
              && (forall p :: p in pdfPaths.value ==> toc(p).Toc?)
              && (exists p, e :: p in pdfPaths.value && toc(p).Toc? && e in toc(p).entries && IsChapter(cfg.nativeTopic, e))
  {
    if Truthy(pdfPaths) {
      CollectSucceedsIff(ChapterTest(cfg.nativeTopic), pdfPaths.value, toc);
      if CollectChapters(ChapterTest(cfg.nativeTopic), pdfPaths.value, toc).Success? {
        ChaptersFoundIff(cfg.nativeTopic, pdfPaths.value, toc);
      }
    }
  }

  /** The outline failure: a counting question with a non-empty `pdf_paths`
      raises as soon as one outline cannot be opened, even when other
      outlines have story chapters. The path reported is the first such one
      in `pdf_paths`: every outline before it was read. */
  lemma OutlineFailedIff(cfg: Config, query: string, pdfPaths: Option<seq<Path>>, toc: Path -> TocOutcome)
    ensures RouteQuery(cfg, query, pdfPaths, toc).OutlineFailed? <==>
              && AsksForCount(cfg, query)
              && Truthy(pdfPaths)
              && exists p :: p in pdfPaths.value && toc(p).TocUnreadable?
    ensures RouteQuery(cfg, query, pdfPaths, toc).OutlineFailed? ==>
              var paths, bad := pdfPaths.value, RouteQuery(cfg, query, pdfPaths, toc).path;
              && toc(bad).TocUnreadable?
              && exists i :: 0 <= i < |paths| && paths[i] == bad && forall j :: 0 <= j < i ==> toc(paths[j]).Toc?
  {
    if AsksForCount(cfg, query) && Truthy(pdfPaths) {
      var test := ChapterTest(cfg.nativeTopic);
      CollectSucceedsIff(test, pdfPaths.value, toc);
      if CollectChapters(test, pdfPaths.value, toc).Failure? {
        CollectFailsAtFirstUnreadable(test, pdfPaths.value, toc);
      }
    }
  }

  /** The counting route counts exactly the story chapters of the listed
      outlines: `toc_list` after the loop. */
  lemma StructuralCountsChapters(cfg: Config, query: string, paths: seq<Path>, toc: Path -> TocOutcome)
    requires RouteQuery(cfg, query, Some(paths), toc).Structural?
    ensures forall e :: e in RouteQuery(cfg, query, Some(paths), toc).chapters <==>
              exists p :: p in paths && toc(p).Toc? && e in toc(p).entries && IsChapter(cfg.nativeTopic, e)
  {
    CollectedAreChapters(ChapterTest(cfg.nativeTopic), paths, toc);
  }

  /** The chat front end calls `query_knowledge(prompt)` without `pdf_paths`,
      so its questions never take the counting path: the reply is the notice
      or the semantic answer. */
  lemma FrontEndQueriesAreSemantic(cfg: Config, hasCollection: bool, query: string,
                                   toc: Path -> TocOutcome, chain: string -> Retrieval)
    ensures RouteQuery(cfg, query, None, toc) == Semantic
    ensures hasCollection ==>
              match chain(query)
              case RetrievalFailed => QueryKnowledge(cfg, hasCollection, query, None, toc, chain) == Failure(ChainFailed)
              case Retrieved(a, ctx) =>
                QueryKnowledge(cfg, hasCollection, query, None, toc, chain) == Success(Reply(a, ContextSources(ctx)))
  {
  }
}

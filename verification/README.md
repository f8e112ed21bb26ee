# PDF knowledge base: ingestion and query routing, in Dafny

This project models the two pieces of logic that the multilingual PDF
question-answering tool owns itself, in `rag_pipeline.py`:

- **`index_pdfs`** (ingestion). An empty path list is refused. Each PDF is
  loaded in turn, and a PDF whose loader raises or returns no pages is
  skipped. The pages that survive are concatenated in input order. If no
  pages survive, the run raises. Otherwise the pages are split into chunks,
  and the chunks are written to the vector store only when the split
  produced some.
- **`query_knowledge`** (query routing). With no collection in the vector
  store, the answer is a fixed notice with no sources. Otherwise, when the
  query, once lower-cased, contains a counting keyword ("how many", "total"
  or a native-language word) and `pdf_paths` is non-empty, the outline of
  every listed PDF is read in turn:
  - If an outline cannot be opened, the error propagates out of
    `query_knowledge`.
  - If every outline can be read and at least one names a story chapter,
    the structural answer is returned. It gives the number of those
    chapters, and its sources are `"Chapter: " + title`, one per chapter.

  Every other question goes to semantic retrieval. Its answer is the
  chain's answer, and its sources are the retrieved documents' text, in
  retrieval order.

The collaborators are not modelled. They are parameters:
- the PDF loader: `Path -> LoadOutcome`;
- the splitter: `seq<Document> -> seq<Document>`;
- the outline extractor: `Path -> TocOutcome`;
- the retrieval chain with the language model: `string -> Retrieval`;
- whether the vector-store collection exists: `bool`.

The vector-store write appears as a `StoreWritten` event in the log that
`IndexPdfs` returns. An exception that escapes a call is modelled as a
`Failure`. The three ingestion errors keep the source's messages
(`Ingestion.Message`).

Layout:
- `outcomes.dfy`: `Option`, `Result`.
- `text.dfy`: ASCII `lower()`, the substring test, and `str(n)` for naturals.
- `documents.dfy`: `Path`, `Document`.
- `ingestion.dfy`: `index_pdfs`.
- `outline.dfy`: selecting and collecting story chapters. The selection takes the chapter test as a parameter, and the router passes in the source's test.
- `query.dfy`: routing and `query_knowledge`.
- `scenarios.dfy`: worked examples of both, stated as lemmas.

Behaviours of the code worth knowing:
- An outline that cannot be opened (`fitz.open` raising inside `extract_toc`)
  is not caught. It propagates out of `query_knowledge`, so the model returns
  `Failure(OutlineUnreadable(path))` for the first such path, even when other
  outlines name story chapters.
- An empty retrieval result is not answered with a fixed message. The chain
  is always invoked, and its answer is returned as is.
- Failed PDFs are only reported by a printed warning. No count of failures is
  returned.
- An empty split raises "Failed to split documents into chunks."
- The counting keywords and the topic keyword are hard-coded in the source.
  They are not configurable there.

The three native counting words (`rag_pipeline.py:83`), the native topic word
(`:88`) and the localized answer sentence (`:92`) are the fields of
`QueryRouting.Config`. The literals `"how many"`, `"total"`, `"story"`,
`"Chapter: "` and the no-collection notice are kept exactly.

The chat front end calls `query_knowledge(prompt)` without `pdf_paths`
(`app.py:86`). So in the application as written, questions never take the
counting path. `QueryRouting.FrontEndQueriesAreSemantic` states this.

## Model

| member | source | states |
|---|---|---|
| Ingestion.IndexPdfs | rag_pipeline.py:44-75 | Every outcome is pinned down. An empty list raises "No PDF files provided." before any load and with an empty log. Otherwise every path is tried, in order. When no page survives, the run raises "No text could be extracted" with no split and no write; this happens exactly when no path yields a page. An empty split raises "Failed to split" with no write. Otherwise the chunks are written once. The store is written if and only if the run succeeds. |
| Ingestion.Message | rag_pipeline.py:45-68 | The three ingestion errors carry the source's texts: "No PDF files provided.", "No text could be extracted from any PDF." and "Failed to split documents into chunks." |
| Ingestion.Yields | rag_pipeline.py:50-59 | A load counts as yielding when the loader did not raise and the page list it returned is non-empty; otherwise the path is skipped. |
| Ingestion.LoadAll | rag_pipeline.py:48-59 | The loop returns one load attempt per path, in order. The pages it collects are exactly the concatenation of the pages of the paths whose load yields pages, in input order. |
| Ingestion.Survivors | rag_pipeline.py:49-59 | The paths whose pages are kept are no more than the paths given, and each of them is an input path whose load neither raised nor returned an empty page list. |
| Ingestion.SurvivorsAreYielding | rag_pipeline.py:49-59 | A path is kept if and only if it is in the input and its load neither raised nor returned an empty page list. |
| Ingestion.GatheredAppend | rag_pipeline.py:49-59 | The pages gathered from `a + b` are those of `a` followed by those of `b`, so input order is kept. |
| Ingestion.SkippedPathContributesNothing | rag_pipeline.py:50-59 | A path whose load raises or returns no pages contributes nothing, and the paths after it are still gathered. |
| Ingestion.YieldingPathContributesItsPages | rag_pipeline.py:51-56 | A path that yields pages contributes exactly its pages, between the pages of the paths before it and after it. |
| Ingestion.Gathered | rag_pipeline.py:48-62 | `all_docs` after the loop is empty if and only if no path yields a page, which is the condition under which "No text could be extracted" is raised. |
| Text.Lower | rag_pipeline.py:83 | `lower()` keeps the length. Each character is mapped through the ASCII lower-casing, and no upper-case ASCII letter is left. |
| Text.Contains | rag_pipeline.py:83-88 | The substring test `w in s` holds if and only if `w` occurs at some index of `s`. |
| Text.EmptyAlwaysContained | rag_pipeline.py:88 | The empty keyword is contained in every string, as in Python. |
| Text.ContainsAny | rag_pipeline.py:83 | `any(w in s for w in words)` holds if and only if some word of the list is contained in `s`, that is, if and only if some word occurs at some index of `s`. |
| Text.Decimal | rag_pipeline.py:92 | `str(count)` is a non-empty string of decimal digits with no leading zero. |
| Text.DecimalRoundTrip | rag_pipeline.py:92 | Reading back the numeral of `n` gives `n`. |
| Outline.IsChapter | rag_pipeline.py:88 | An outline entry is a story chapter if and only if the native topic word occurs in its title as written (case-sensitive), or "story" occurs in its lower-cased title. |
| Outline.SelectChapters | rag_pipeline.py:88 | The comprehension keeps no more entries than the outline has, and each kept entry is an outline entry that passes the chapter test. |
| Outline.SelectedAreChapters | rag_pipeline.py:88 | An entry is selected if and only if it is in the outline and passes the chapter test. The test the router passes in (`ChapterTest`) accepts a title that contains the native topic word (case-sensitive) or whose lower-cased form contains "story". |
| Outline.SelectAppend | rag_pipeline.py:88 | Selection keeps outline order: selecting from `a + b` gives the selection from `a` followed by the selection from `b`. |
| Outline.CollectChapters | rag_pipeline.py:85-89 | A failed collection names a path of the input whose outline could not be read. |
| Outline.CollectSucceedsIff | rag_pipeline.py:85-89 | Collection over `pdf_paths` raises if and only if some path's outline cannot be read. |
| Outline.CollectedAreChapters | rag_pipeline.py:85-89 | A successful collection contains exactly the story chapters of the outlines of the given paths. |
| Outline.CollectFailsAtFirstUnreadable | rag_pipeline.py:86-87 | The path a failed collection reports is the first unreadable one, and every outline before it was read. |
| Outline.CollectSnoc | rag_pipeline.py:86-89 | One more readable path appends that path's chapters after the ones collected so far. |
| Outline.CollectAppend | rag_pipeline.py:86-89 | The chapters keep path order, then outline order: collecting over `a + b` gives the chapters of `a` followed by those of `b`. |
| QueryRouting.RouteQuery | rag_pipeline.py:83-96 | The counting route carries exactly `toc_list`: the collected story chapters of the outlines of `pdf_paths`, in path then outline order, and never an empty list. Without a counting keyword, or with `pdf_paths` absent or empty, the route is semantic. When each of the other two routes is taken is stated by `OutlineFailedIff` and `StructuralIff`. |
| QueryRouting.StructuralCountsChapters | rag_pipeline.py:85-94 | An entry is counted on the counting route if and only if it is a story chapter of the outline of some listed path. |
| QueryRouting.OutlineFailedIff | rag_pipeline.py:83-89 | The router raises if and only if the query asks for a count, `pdf_paths` is non-empty, and some listed outline cannot be opened, even when other outlines name story chapters. The path reported cannot be opened, and every path before it in `pdf_paths` was read. |
| QueryRouting.CountKeywords | rag_pipeline.py:83 | The counting keywords are the native words followed by "how many" and "total". |
| QueryRouting.Truthy | rag_pipeline.py:84 | `if pdf_paths:` holds if and only if `pdf_paths` is given and non-empty; `None` and `[]` are both false. |
| QueryRouting.AsksForCount | rag_pipeline.py:83 | The keyword test holds if and only if some counting keyword occurs at some index of the lower-cased query. |
| QueryRouting.ChaptersFoundIff | rag_pipeline.py:85-90 | Collection over readable outlines finds something if and only if some outline has a story chapter. |
| QueryRouting.StructuralIff | rag_pipeline.py:83-96 | The counting route is taken if and only if all four conditions hold: a counting keyword occurs in the lower-cased query, `pdf_paths` is non-empty, every outline is readable, and some outline has a story chapter. |
| QueryRouting.CountAnswerRoundTrip | rag_pipeline.py:91-92 | Reading the count back from the localized head, the numeral of the count and the localized tail gives the count. |
| QueryRouting.CountAnswer | rag_pipeline.py:92 | The count written into the localized answer is the count read back from it. |
| QueryRouting.ChapterSources | rag_pipeline.py:93 | There is one source per chapter, and source `i` is `"Chapter: "` followed by the title of chapter `i`. |
| QueryRouting.ContextSources | rag_pipeline.py:115 | There is one source per retrieved document, and source `i` is the text of document `i`. |
| QueryRouting.QueryKnowledge | rag_pipeline.py:77-117 | With no collection, the reply is the fixed notice with no sources, for any query and any `pdf_paths`. On the counting route, the answer is the localized sentence for the number of sources, that count reads back from it, and source `i` names chapter `i`. An unreadable outline raises. On the semantic route, the reply succeeds if and only if the chain does; it then carries the chain's answer and the retrieved texts, in retrieval order. |
| QueryRouting.FrontEndQueriesAreSemantic | app.py:86 | Without `pdf_paths`, the route is always semantic. The reply is then the chain's answer, or the chain's failure. |
| Scenarios.CorruptFileIsSkipped | rag_pipeline.py:49-59 | Given one unreadable PDF and one readable PDF, only the readable one's pages are gathered. |
| Scenarios.IndexIsNoChapter | rag_pipeline.py:88 | The sample entry titled "Index" is not a story chapter when the native topic word does not occur in "Index". |
| Scenarios.StoryTitleIsChapter | rag_pipeline.py:88 | A title that contains "story" once lower-cased is a story chapter, whatever the native word. |
| Scenarios.StoryAtIsChapter | rag_pipeline.py:88 | A title whose lower-cased form has "story" at a given index is a story chapter. |
| Scenarios.LowerIs | rag_pipeline.py:88 | `lower()` is determined character by character: a string that agrees with the ASCII lower-casing of `s` at every index is `lower(s)`. |
| Scenarios.SampleTitles | rag_pipeline.py:88 | In the sample outline, "Story A", "Fox Story" and "a story" are chapters, and "Index" is not. |
| Scenarios.SampleOutlineChapters | rag_pipeline.py:88 | Selecting from the sample outline keeps its three story chapters, in order. |
| Scenarios.SampleQuestionAsksForCount | rag_pipeline.py:83 | "How many stories are there?" passes the counting-keyword test. |
| Scenarios.CountingStories | rag_pipeline.py:83-94 | "How many stories are there?" over one PDF whose outline has three story chapters gets an answer that reports 3, and three `"Chapter: "` sources in outline order. |

## Left out

- PDF parsing (`PyPDFLoader`, `fitz`): the loader and the outline extractor are parameters that return an outcome.
- The splitter's internals (`RecursiveCharacterTextSplitter`, chunk size 1000, overlap 200): the splitter is an uninterpreted parameter, so no chunk-size or overlap property is stated.
- The embedding model and Qdrant persistence: a write is an event in the log. An exception raised by the write itself is not modelled.
- An exception raised by `split_documents` (`rag_pipeline.py:65`): the splitter is a total function, so the model always reaches the "no chunks" test or the write after a split.
- `get_vectorstore`, including its bare `except`: a boolean saying whether the collection exists.
- The Groq model, the prompt text, `k = 8` and the retrieval chain: one parameter that maps the query to a failure or to an answer with its documents.
- Environment loading, API keys, the module-level clients and the printed warnings: configuration and console output.
- `app.py` as a whole (upload, saving to `data/`, chat history, the 600-character source truncation, "Clear Database"): user-interface and file-system code. Its one call that matters to routing is stated by `QueryRouting.FrontEndQueriesAreSemantic`.
- The non-ASCII keywords and the localized answer sentence: these are `Config` parameters. The order of the keyword list does not matter to `any`.
- Ingestion.IndexPdfs: takes a list of paths, so `None` stands for the empty list. Both are falsy and take the same branch.
- Text.Lower: lower-cases ASCII letters only. Python's `str.lower()` also lower-cases other scripts that have case. The source's native keywords are in a script without case.

/** `index_pdfs`: load every PDF, skip the ones that fail or yield no pages,
    split what survives into chunks and write the chunks to the vector store.
    The PDF loader, the splitter and the store are collaborators: the loader
    and the splitter are parameters, the store write is an event in the log
    the operation returns. */
module Ingestion {
  import opened Outcomes
  import opened Documents

  /** What `PyPDFLoader(path).load()` did for one path: raised, or returned
      a (possibly empty) list of pages. */
  datatype LoadOutcome = LoadFailed | Loaded(pages: seq<Document>)

  /** The three `ValueError`s `index_pdfs` raises. */
  datatype IndexError = NoPdfFilesProvided | NoTextExtracted | NoChunksProduced

  function Message(e: IndexError): string {
    match e
    case NoPdfFilesProvided => "No PDF files provided."
    case NoTextExtracted => "No text could be extracted from any PDF."
    case NoChunksProduced => "Failed to split documents into chunks."
  }

  /** The observable steps of one ingestion run, in order. */
  datatype Event =
    | LoadAttempted(path: Path)
    | SplitRun(input: seq<Document>)
    | StoreWritten(chunks: seq<Document>)

  /** A load that contributes pages: it did not raise and it returned pages. */
  predicate Yields(o: LoadOutcome) {
    o.Loaded? && o.pages != []
  }

  function PagesOf(o: LoadOutcome): seq<Document> {
    if o.Loaded? then o.pages else []
  }

  /** The paths whose load yields pages, in input order: at most as many as
      were given, and each of them an input path whose load yields pages. */
  function Survivors(paths: seq<Path>, load: Path -> LoadOutcome): (r: seq<Path>)
    ensures |r| <= |paths|
    ensures forall i :: 0 <= i < |r| ==> r[i] in paths && Yields(load(r[i]))
    decreases |paths|
  {
    if paths == [] then []
    else
      var rest := Survivors(paths[..|paths| - 1], load);
      var p := paths[|paths| - 1];
      assert paths == paths[..|paths| - 1] + [p];
      if Yields(load(p)) then rest + [p] else rest
  }

  /** A path survives exactly when it is one of the inputs and its load
      yields pages. */
  lemma {:induction false} SurvivorsAreYielding(paths: seq<Path>, load: Path -> LoadOutcome)
    ensures forall p :: p in Survivors(paths, load) <==> p in paths && Yields(load(p))
    decreases |paths|
  {
    if paths != [] {
      var front := paths[..|paths| - 1];
      assert paths == front + [paths[|paths| - 1]];
      SurvivorsAreYielding(front, load);
    }
  }

  /** The pages of the given paths, concatenated in order. */
  function Concat(paths: seq<Path>, load: Path -> LoadOutcome): seq<Document>
    decreases |paths|
  {
    if paths == [] then []
    else Concat(paths[..|paths| - 1], load) + PagesOf(load(paths[|paths| - 1]))
  }

  /** `all_docs` after the loop: the pages of the surviving paths, in input
      order. It is empty exactly when no path yields a page, the condition
      under which `index_pdfs` raises "No text could be extracted". */
  function Gathered(paths: seq<Path>, load: Path -> LoadOutcome): (r: seq<Document>)
    ensures r == [] <==> forall p :: p in paths ==> !Yields(load(p))
  {
    var s := Survivors(paths, load);
    SurvivorsAreYielding(paths, load);
    ConcatEmptyIff(s, load);
    assert s != [] ==> s[0] in s;
    Concat(s, load)
  }

  /** One load attempt per path, in input order. */
  function Attempts(paths: seq<Path>): (r: seq<Event>)
    ensures |r| == |paths|
    ensures forall i :: 0 <= i < |paths| ==> r[i] == LoadAttempted(paths[i])
  {
    seq(|paths|, i requires 0 <= i < |paths| => LoadAttempted(paths[i]))
  }

  lemma AttemptsSnoc(ps: seq<Path>, p: Path)
    ensures Attempts(ps + [p]) == Attempts(ps) + [LoadAttempted(p)]
  {
  }

  /** True when the log holds a write to the vector store. */
  predicate WroteStore(log: seq<Event>) {
    exists i :: 0 <= i < |log| && log[i].StoreWritten?
  }

  /** The loop of `index_pdfs`: try every path in order, skip the ones whose
      loader raises or returns no pages, and collect the rest's pages. */
  method LoadAll(paths: seq<Path>, load: Path -> LoadOutcome) returns (allDocs: seq<Document>, log: seq<Event>)
    ensures allDocs == Gathered(paths, load)
    ensures log == Attempts(paths)
  {
    allDocs := [];
    log := [];
    var i := 0;
    while i < |paths|
      invariant 0 <= i <= |paths|
      invariant allDocs == Gathered(paths[..i], load)
      invariant log == Attempts(paths[..i])
    {
      var p := paths[i];
      assert paths[..i + 1] == paths[..i] + [p];
      GatheredSnoc(paths[..i], p, load);
      AttemptsSnoc(paths[..i], p);
      log := log + [LoadAttempted(p)];
      var outcome := load(p);
      if outcome.LoadFailed? {
        // the loader raised: report and go on with the next path
      } else if outcome.pages == [] {
        // no text on any page: report and go on with the next path
      } else {
        allDocs := allDocs + outcome.pages;
      }
      i := i + 1;
    }
    assert paths[..|paths|] == paths;
  }

  method IndexPdfs(paths: seq<Path>, load: Path -> LoadOutcome, split: seq<Document> -> seq<Document>)
    returns (log: seq<Event>, r: Result<(), IndexError>)
    // an empty list is refused before any file is loaded or the store touched
    ensures paths == [] ==> r == Failure(NoPdfFilesProvided) && log == []
    // otherwise every path is tried, in order, whatever earlier loads did
    ensures paths != [] ==> |log| >= |paths| && log[..|paths|] == Attempts(paths)
    // nothing survived: no split, no write
    ensures paths != [] && Gathered(paths, load) == [] ==>
              r == Failure(NoTextExtracted) && log == Attempts(paths)
    // the splitter sees exactly the surviving pages; no chunks means no write
    ensures paths != [] && Gathered(paths, load) != [] && split(Gathered(paths, load)) == [] ==>
              r == Failure(NoChunksProduced) && log == Attempts(paths) + [SplitRun(Gathered(paths, load))]
    ensures paths != [] && Gathered(paths, load) != [] && split(Gathered(paths, load)) != [] ==>
              r == Success(()) &&
              log == Attempts(paths) + [SplitRun(Gathered(paths, load)), StoreWritten(split(Gathered(paths, load)))]
    // "No text could be extracted" exactly when no path yields a page
    ensures r == Failure(NoTextExtracted) <==> paths != [] && forall p :: p in paths ==> !Yields(load(p))
    // the store is written exactly when the run succeeds
    ensures WroteStore(log) <==> r.Success?
  {
    if paths == [] {
      return [], Failure(NoPdfFilesProvided);
    }
    var allDocs;
    allDocs, log := LoadAll(paths, load);
    if allDocs == [] {
      return log, Failure(NoTextExtracted);
    }
    var splits := split(allDocs);
    log := log + [SplitRun(allDocs)];
    if splits == [] {
      assert !log[|log| - 1].StoreWritten?;
      return log, Failure(NoChunksProduced);
    }
    log := log + [StoreWritten(splits)];
    assert log[|log| - 1].StoreWritten?;
    r := Success(());
  }

  /** One more path extends the gathered pages by that path's pages, if it
      yields any. */
  lemma GatheredSnoc(ps: seq<Path>, p: Path, load: Path -> LoadOutcome)
    ensures Gathered(ps + [p], load) == Gathered(ps, load) + (if Yields(load(p)) then load(p).pages else [])
  {
    SurvivorsSnoc(ps, p, load);
    var s := Survivors(ps, load);
    if Yields(load(p)) {
      ConcatSnoc(s, p, load);
    }
  }

  lemma SurvivorsSnoc(ps: seq<Path>, p: Path, load: Path -> LoadOutcome)
    ensures Survivors(ps + [p], load) == Survivors(ps, load) + (if Yields(load(p)) then [p] else [])
  {
    assert (ps + [p])[..|ps|] == ps;
  }

  lemma ConcatSnoc(ps: seq<Path>, p: Path, load: Path -> LoadOutcome)
    ensures Concat(ps + [p], load) == Concat(ps, load) + PagesOf(load(p))
  {
    assert (ps + [p])[..|ps|] == ps;
  }

  lemma {:induction false} SurvivorsAppend(a: seq<Path>, b: seq<Path>, load: Path -> LoadOutcome)
    ensures Survivors(a + b, load) == Survivors(a, load) + Survivors(b, load)
    decreases |b|
  {
    if b == [] {
      assert a + b == a;
    } else {
      var b' := b[..|b| - 1];
      var p := b[|b| - 1];
      assert b == b' + [p];
      assert a + b == (a + b') + [p];
      var tail: seq<Path> := if Yields(load(p)) then [p] else [];
      SurvivorsAppend(a, b', load);
      SurvivorsSnoc(a + b', p, load);
      SurvivorsSnoc(b', p, load);
      assert (Survivors(a, load) + Survivors(b', load)) + tail == Survivors(a, load) + (Survivors(b', load) + tail);
    }
  }

  lemma {:induction false} ConcatAppend(a: seq<Path>, b: seq<Path>, load: Path -> LoadOutcome)
    ensures Concat(a + b, load) == Concat(a, load) + Concat(b, load)
    decreases |b|
  {
    if b != [] {
      var b' := b[..|b| - 1];
      var p := b[|b| - 1];
      assert b == b' + [p];
      ConcatAppend(a, b', load);
      ConcatSnoc(b', p, load);
      ConcatAppendStep(a, b', p, load);
    } else {
      assert a + b == a;
    }
  }

  lemma ConcatAppendStep(a: seq<Path>, b': seq<Path>, p: Path, load: Path -> LoadOutcome)
    ensures Concat(a + (b' + [p]), load) == Concat(a + b', load) + PagesOf(load(p))
  {
    assert a + (b' + [p]) == (a + b') + [p];
    ConcatSnoc(a + b', p, load);
  }

  /** The pages gathered from two lists of paths are those of the first list
      followed by those of the second: input order is kept. */
  lemma GatheredAppend(a: seq<Path>, b: seq<Path>, load: Path -> LoadOutcome)
    ensures Gathered(a + b, load) == Gathered(a, load) + Gathered(b, load)
  {
    SurvivorsAppend(a, b, load);
    ConcatAppend(Survivors(a, load), Survivors(b, load), load);
  }

  /** A path whose load raises or yields no pages contributes nothing, and
      the paths after it are still gathered. */
  lemma SkippedPathContributesNothing(a: seq<Path>, p: Path, b: seq<Path>, load: Path -> LoadOutcome)
    requires !Yields(load(p))
    ensures Gathered(a + [p] + b, load) == Gathered(a + b, load)
  {
    GatheredAppend(a + [p], b, load);
    GatheredAppend(a, [p], load);
    GatheredAppend(a, b, load);
    assert Survivors([p], load) == [];
  }

  /** A path that yields pages contributes exactly those pages, between the
      pages of the paths before and after it. */
  lemma YieldingPathContributesItsPages(a: seq<Path>, p: Path, b: seq<Path>, load: Path -> LoadOutcome)
    requires Yields(load(p))
    ensures Gathered(a + [p] + b, load) == Gathered(a, load) + load(p).pages + Gathered(b, load)
  {
    GatheredAppend(a + [p], b, load);
    GatheredAppend(a, [p], load);
    assert Survivors([p], load) == [p];
    assert Concat([p], load) == Concat([], load) + PagesOf(load(p));
  }

  lemma {:induction false} ConcatEmptyIff(ps: seq<Path>, load: Path -> LoadOutcome)
    requires forall p :: p in ps ==> Yields(load(p))
    ensures Concat(ps, load) == [] <==> ps == []
    decreases |ps|
  {
    if ps != [] {
      var last := ps[|ps| - 1];
      assert last in ps;
      assert PagesOf(load(last)) != [];
    }
  }
}

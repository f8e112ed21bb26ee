/** The table-of-contents side of `query_knowledge`: which outline entries
    count as story chapters, and how they are collected over several PDFs. */
module Outline {
  import opened Outcomes
  import opened Text
  import opened Documents

  /** One entry of `doc.get_toc()`: `[level, title, page]`. */
  datatype TocEntry = TocEntry(level: int, title: string, page: int)

  /** What `extract_toc(path)` did: raised (the file could not be opened),
      or returned the outline, possibly empty. */
  datatype TocOutcome = TocUnreadable | Toc(entries: seq<TocEntry>)

  /** The English topic keyword, matched against the lower-cased title. */
  const StoryKeyword: string := "story"

  /** An entry is a story chapter when its title contains the native topic
      keyword as written (case-sensitive), or its lower-cased title contains
      "story". */
  predicate IsChapter(nativeTopic: string, e: TocEntry)
    ensures IsChapter(nativeTopic, e) <==>
              (exists i :: OccursAt(e.title, nativeTopic, i)) || exists i :: OccursAt(Lower(e.title), StoryKeyword, i)
  {
    Contains(e.title, nativeTopic) || Contains(Lower(e.title), StoryKeyword)
  }

  /** The chapter test as a value, for the selection functions below, which
      take the test as a parameter. */
  function ChapterTest(nativeTopic: string): TocEntry -> bool {
    e => IsChapter(nativeTopic, e)
  }

  /** The story chapters of one outline, in outline order: at most as many
      as there are entries, and each of them an entry that passes the test. */
  function SelectChapters(isChapter: TocEntry -> bool, toc: seq<TocEntry>): (r: seq<TocEntry>)
    ensures |r| <= |toc|
    ensures forall i :: 0 <= i < |r| ==> r[i] in toc && isChapter(r[i])
    decreases |toc|
  {
    if toc == [] then []
    else
      var e := toc[|toc| - 1];
      assert toc == toc[..|toc| - 1] + [e];
      SelectChapters(isChapter, toc[..|toc| - 1]) + (if isChapter(e) then [e] else [])
  }

  /** The selected entries are exactly the outline's story chapters. */
  lemma {:induction false} SelectedAreChapters(isChapter: TocEntry -> bool, toc: seq<TocEntry>)
    ensures forall e :: e in SelectChapters(isChapter, toc) <==> e in toc && isChapter(e)
    decreases |toc|
  {
    if toc != [] {
      var front := toc[..|toc| - 1];
      assert toc == front + [toc[|toc| - 1]];
      SelectedAreChapters(isChapter, front);
    }
  }

  /** Selection keeps the order of the outline: selecting from two pieces is
      selecting from each and concatenating. */
  lemma {:induction false} SelectAppend(isChapter: TocEntry -> bool, a: seq<TocEntry>, b: seq<TocEntry>)
    ensures SelectChapters(isChapter, a + b) == SelectChapters(isChapter, a) + SelectChapters(isChapter, b)
    decreases |b|
  {
    if b == [] {
      assert a + b == a;
    } else {
      var b' := b[..|b| - 1];
      assert (a + b)[..|a + b| - 1] == a + b';
      SelectAppend(isChapter, a, b');
    }
  }

  /** The loop over `pdf_paths`: the chapters of every outline, in path
      order; the first path whose outline cannot be read raises. */
  function CollectChapters(isChapter: TocEntry -> bool, paths: seq<Path>, toc: Path -> TocOutcome): (r: Result<seq<TocEntry>, Path>)
    ensures r.Failure? ==> r.error in paths && toc(r.error).TocUnreadable?
    decreases |paths|
  {
    if paths == [] then Success([])
    else
      var front := paths[..|paths| - 1];
      var p := paths[|paths| - 1];
      assert paths == front + [p];
      match CollectChapters(isChapter, front, toc)
      case Failure(q) => Failure(q)
      case Success(found) =>
        match toc(p)
        case TocUnreadable => Failure(p)
        case Toc(entries) => Success(found + SelectChapters(isChapter, entries))
  }

  /** Collection succeeds exactly when every outline can be read. */
  lemma {:induction false} CollectSucceedsIff(isChapter: TocEntry -> bool, paths: seq<Path>, toc: Path -> TocOutcome)
    ensures CollectChapters(isChapter, paths, toc).Success? <==> forall p :: p in paths ==> toc(p).Toc?
    decreases |paths|
  {
    if paths != [] {
      var front := paths[..|paths| - 1];
      assert paths == front + [paths[|paths| - 1]];
      CollectSucceedsIff(isChapter, front, toc);
    }
  }

  /** A successful collection holds exactly the story chapters of the
      outlines of the given paths. */
  lemma {:induction false} CollectedAreChapters(isChapter: TocEntry -> bool, paths: seq<Path>, toc: Path -> TocOutcome)
    requires CollectChapters(isChapter, paths, toc).Success?
    ensures forall e :: e in CollectChapters(isChapter, paths, toc).value <==>
              exists p :: p in paths && toc(p).Toc? && e in toc(p).entries && isChapter(e)
    decreases |paths|
  {
    if paths != [] {
      var front := paths[..|paths| - 1];
      var last := paths[|paths| - 1];
      assert paths == front + [last];
      CollectedAreChapters(isChapter, front, toc);
      var found := CollectChapters(isChapter, front, toc).value;
      var mine := SelectChapters(isChapter, toc(last).entries);
      SelectedAreChapters(isChapter, toc(last).entries);
      assert CollectChapters(isChapter, paths, toc).value == found + mine;
      forall e
        ensures e in found + mine <==>
                exists p :: p in paths && toc(p).Toc? && e in toc(p).entries && isChapter(e)
      {
        if e in found + mine {
          if e in found {
            var p :| p in front && toc(p).Toc? && e in toc(p).entries && isChapter(e);
            assert p in paths;
          } else {
            assert last in paths;
          }
        }
      }
    }
  }

  /** The path a failed collection reports is the first unreadable one:
      every path before it was read. */
  lemma {:induction false} CollectFailsAtFirstUnreadable(isChapter: TocEntry -> bool, paths: seq<Path>, toc: Path -> TocOutcome)
    requires CollectChapters(isChapter, paths, toc).Failure?
    ensures exists i :: 0 <= i < |paths| && paths[i] == CollectChapters(isChapter, paths, toc).error &&
                        forall j :: 0 <= j < i ==> toc(paths[j]).Toc?
    decreases |paths|
  {
    var front := paths[..|paths| - 1];
    var p := paths[|paths| - 1];
    var r := CollectChapters(isChapter, paths, toc);
    if CollectChapters(isChapter, front, toc).Failure? {
      CollectFailsAtFirstUnreadable(isChapter, front, toc);
      var i :| 0 <= i < |front| && front[i] == r.error && forall j :: 0 <= j < i ==> toc(front[j]).Toc?;
      assert paths[i] == front[i];
      assert forall j :: 0 <= j < i ==> paths[j] == front[j];
    } else {
      CollectSucceedsIff(isChapter, front, toc);
      assert forall j :: 0 <= j < |front| ==> front[j] in front;
      assert paths[|paths| - 1] == r.error;
    }
  }

  /** One more readable path appends its outline's chapters. */
  lemma CollectSnoc(isChapter: TocEntry -> bool, ps: seq<Path>, p: Path, toc: Path -> TocOutcome)
    ensures CollectChapters(isChapter, ps + [p], toc).Success? <==>
              CollectChapters(isChapter, ps, toc).Success? && toc(p).Toc?
    ensures CollectChapters(isChapter, ps + [p], toc).Success? ==>
              CollectChapters(isChapter, ps + [p], toc).value
              == CollectChapters(isChapter, ps, toc).value + SelectChapters(isChapter, toc(p).entries)
  {
    assert (ps + [p])[..|ps|] == ps;
  }

  /** Collecting over two lists of paths that can both be read gives the
      chapters of the first list followed by those of the second. */
  lemma {:induction false} CollectAppend(isChapter: TocEntry -> bool, a: seq<Path>, b: seq<Path>, toc: Path -> TocOutcome)
    requires CollectChapters(isChapter, a, toc).Success?
    requires CollectChapters(isChapter, b, toc).Success?
    ensures CollectChapters(isChapter, a + b, toc).Success?
    ensures CollectChapters(isChapter, a + b, toc).value
            == CollectChapters(isChapter, a, toc).value + CollectChapters(isChapter, b, toc).value
    decreases |b|
  {
    if b != [] {
      var b' := b[..|b| - 1];
      var p := b[|b| - 1];
      assert b == b' + [p];
      CollectSnoc(isChapter, b', p, toc);
      CollectAppend(isChapter, a, b', toc);
      assert a + b == (a + b') + [p];
      CollectSnoc(isChapter, a + b', p, toc);
      var va := CollectChapters(isChapter, a, toc).value;
      var vb' := CollectChapters(isChapter, b', toc).value;
      var mine := SelectChapters(isChapter, toc(p).entries);
      assert (va + vb') + mine == va + (vb' + mine);
    } else {
      assert a + b == a;
    }
  }
}

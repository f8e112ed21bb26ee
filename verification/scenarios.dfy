/** Worked examples of the two entry points, stated as lemmas: a mixed batch
    where one PDF is unreadable, and a counting question over an outline with
    three story chapters. */
module Scenarios {
  import opened Outcomes
  import opened Text
  import opened Documents
  import opened Ingestion
  import opened Outline
  import opened QueryRouting

  /** One unreadable and one readable PDF: only the readable one's pages are
      gathered, so the run goes on to split and write them. */
  lemma CorruptFileIsSkipped(page: Document)
    ensures Gathered(["bad.pdf", "good.pdf"],
                     (p: Path) => if p == "good.pdf" then Loaded([page]) else LoadFailed) == [page]
  {
    var load := (p: Path) => if p == "good.pdf" then Loaded([page]) else LoadFailed;
    var bad: Path, good: Path := "bad.pdf", "good.pdf";
    assert bad[0] != good[0];
    assert !Yields(load(bad)) && Yields(load(good));
    assert [bad, good] == [] + [bad] + [good];
    SkippedPathContributesNothing([], bad, [good], load);
    assert [] + [good] == [] + [good] + [];
    YieldingPathContributesItsPages([], good, [], load);
  }

  const SampleOutline: seq<TocEntry> :=
    [TocEntry(1, "Index", 1), TocEntry(1, "Story A", 3), TocEntry(1, "Fox Story", 9), TocEntry(2, "a story", 15)]

  const SampleQuestion: string := "How many stories are there?"

  /** `Lower` is determined character by character. */
  lemma LowerIs(s: string, t: string)
    requires |s| == |t|
    requires forall i :: 0 <= i < |s| ==> LowerChar(s[i]) == t[i]
    ensures Lower(s) == t
  {
  }

  /** The question contains "how many" once lower-cased. */
  lemma SampleQuestionAsksForCount(cfg: Config)
    ensures AsksForCount(cfg, SampleQuestion)
  {
    var q := SampleQuestion;
    var l := "how many stories are there?";
    LowerIs(q, l);
    assert OccursAt(l, "how many", 0);
    assert CountKeywords(cfg)[|cfg.nativeCountWords|] == "how many";
  }

  /** "Index" is no story chapter when the native keyword does not occur in it. */
  lemma IndexIsNoChapter(nativeTopic: string)
    requires !Contains("Index", nativeTopic)
    ensures !IsChapter(nativeTopic, SampleOutline[0])
  {
    LowerIs("Index", "index");
    assert "index"[0] != StoryKeyword[0];
    assert "index"[1..] == "ndex";
  }

  /** A title with "story" in it once lower-cased is a story chapter. */
  lemma StoryTitleIsChapter(nativeTopic: string, e: TocEntry, i: int)
    requires OccursAt(Lower(e.title), StoryKeyword, i)
    ensures IsChapter(nativeTopic, e)
  {
  }

  /** A title whose lower-cased form is `lowered`, with "story" at index `i`,
      is a story chapter. */
  lemma StoryAtIsChapter(nativeTopic: string, e: TocEntry, lowered: string, i: nat)
    requires |e.title| == |lowered|
    requires forall k :: 0 <= k < |lowered| ==> LowerChar(e.title[k]) == lowered[k]
    requires i + |StoryKeyword| <= |lowered| && lowered[i..i + |StoryKeyword|] == StoryKeyword
    ensures IsChapter(nativeTopic, e)
  {
    LowerIs(e.title, lowered);
    StoryTitleIsChapter(nativeTopic, e, i);
  }

  /** "Index" is no story chapter; the three other titles are. */
  lemma SampleTitles(nativeTopic: string)
    requires !Contains("Index", nativeTopic)
    ensures !IsChapter(nativeTopic, SampleOutline[0])
    ensures forall k :: 1 <= k < 4 ==> IsChapter(nativeTopic, SampleOutline[k])
  {
    IndexIsNoChapter(nativeTopic);
    StoryAtIsChapter(nativeTopic, SampleOutline[1], "story a", 0);
    StoryAtIsChapter(nativeTopic, SampleOutline[2], "fox story", 4);
    StoryAtIsChapter(nativeTopic, SampleOutline[3], "a story", 2);
  }

  /** Three of the four sample entries are story chapters, kept in order. */
  lemma SampleOutlineChapters(nativeTopic: string)
    requires !Contains("Index", nativeTopic)
    ensures SelectChapters(ChapterTest(nativeTopic), SampleOutline) == SampleOutline[1..]
  {
    var test := ChapterTest(nativeTopic);
    var entries := SampleOutline;
    SampleTitles(nativeTopic);
    assert !test(entries[0]) && test(entries[1]) && test(entries[2]) && test(entries[3]);
    assert entries[..1] == [entries[0]];
    SelectAppend(test, [], [entries[0]]);
    assert SelectChapters(test, entries[..1]) == [];
    assert entries[..2] == entries[..1] + [entries[1]];
    SelectAppend(test, entries[..1], [entries[1]]);
    assert SelectChapters(test, entries[..2]) == [entries[1]];
    assert entries[..3] == entries[..2] + [entries[2]];
    SelectAppend(test, entries[..2], [entries[2]]);
    assert SelectChapters(test, entries[..3]) == [entries[1], entries[2]];
    assert entries == entries[..3] + [entries[3]];
    SelectAppend(test, entries[..3], [entries[3]]);
  }

  /** "How many stories are there?" over one PDF whose outline holds three
      story chapters and an index: three chapters are counted and listed. */
  lemma CountingStories(cfg: Config, toc: Path -> TocOutcome, chain: string -> Retrieval)
    requires toc("book.pdf") == Toc(SampleOutline)
    requires !Contains("Index", cfg.nativeTopic)
    ensures
      var r := QueryKnowledge(cfg, true, SampleQuestion, Some(["book.pdf"]), toc, chain);
      && r.Success?
      && CountInAnswer(cfg, r.value.answer) == Some(3)
      && r.value.sources == [ChapterPrefix + "Story A", ChapterPrefix + "Fox Story", ChapterPrefix + "a story"]
  {
    SampleQuestionAsksForCount(cfg);
    SampleOutlineChapters(cfg.nativeTopic);
    var chapters := SampleOutline[1..];
    assert ["book.pdf"][..0] == [];
    assert CollectChapters(ChapterTest(cfg.nativeTopic), ["book.pdf"], toc) == Success([] + chapters);
    assert RouteQuery(cfg, SampleQuestion, Some(["book.pdf"]), toc) == Structural(chapters);
    var r := QueryKnowledge(cfg, true, SampleQuestion, Some(["book.pdf"]), toc, chain);
    assert |r.value.sources| == 3;
  }
}

/** The Markdown the application writes for a book: the generator's
    `save_text_content` (src/make_a_book/audiobook_generator.py) and the
    Streamlit app's `save_book_content` (app.py). Writing files is left out;
    a written file is a name and its content. */
module Manuscript {
  import opened Js
  import opened Text
  import opened Naming

  /** The lines every book document starts with. */
  function BookHeader(title: string, outline: string): string {
    "# " + title + "\n\n## Outline\n\n" + outline + "\n\n"
  }

  /** One `### Chapter i` section of the full book. */
  function ChapterSection(number: nat, chapter: string): string {
    "### Chapter " + NatToString(number) + "\n\n" + chapter + "\n\n"
  }

  /** The chapter sections numbered from `first`, in order. */
  function Sections(chapters: seq<string>, first: nat): (r: string)
    ensures r == "" <==> |chapters| == 0
    decreases |chapters|
  {
    if |chapters| == 0 then ""
    else ChapterSection(first, chapters[0]) + Sections(chapters[1..], first + 1)
  }

  /** The generator's full-book text: the chapters heading is written even
      when there are no chapters. */
  function FullBook(title: string, outline: string, chapters: seq<string>): (r: string)
    ensures |r| >= |BookHeader(title, outline)| + 13
    ensures r[..|BookHeader(title, outline)|] == BookHeader(title, outline)
    ensures r[|BookHeader(title, outline)|..|BookHeader(title, outline)| + 13] == "## Chapters\n\n"
    ensures |r| == |BookHeader(title, outline)| + 13 <==> |chapters| == 0
  {
    BookHeader(title, outline) + "## Chapters\n\n" + Sections(chapters, 1)
  }

  /** `save_text_content`'s string building, as the source's loop. */
  method BuildFullBook(title: string, outline: string, chapters: seq<string>) returns (r: string)
    ensures r == FullBook(title, outline, chapters)
  {
    r := BookHeader(title, outline) + "## Chapters\n\n";
    var i := 0;
    while i < |chapters|
      invariant 0 <= i <= |chapters|
      invariant r == BookHeader(title, outline) + "## Chapters\n\n" + Sections(chapters[..i], 1)
    {
      SectionsSnoc(chapters[..i], chapters[i], 1);
      assert chapters[..i + 1] == chapters[..i] + [chapters[i]];
      r := r + ChapterSection(i + 1, chapters[i]);
      i := i + 1;
    }
    assert chapters[..i] == chapters;
  }

  /** `save_book_content(title, outline, chapters)`: the chapters part is
      written only when `chapters` is truthy. */
  function AppBookContent(title: string, outline: string, chapters: Option<seq<string>>): (r: string)
    ensures |r| >= |BookHeader(title, outline)|
    ensures r[..|BookHeader(title, outline)|] == BookHeader(title, outline)
    ensures |r| > |BookHeader(title, outline)| <==> NonEmptyList(chapters)
  {
    if NonEmptyList(chapters) then
      BookHeader(title, outline) + ("## Chapters\n\n" + Sections(chapters.value, 1))
    else BookHeader(title, outline)
  }

  /** `save_book_content`'s string building, as the source's loop. */
  method SaveBookContent(title: string, outline: string, chapters: Option<seq<string>>) returns (r: string)
    ensures r == AppBookContent(title, outline, chapters)
  {
    r := BookHeader(title, outline);
    if NonEmptyList(chapters) {
      var cs := chapters.value;
      r := r + "## Chapters\n\n";
      var i := 0;
      while i < |cs|
        invariant 0 <= i <= |cs|
        invariant r == BookHeader(title, outline) + "## Chapters\n\n" + Sections(cs[..i], 1)
      {
        SectionsSnoc(cs[..i], cs[i], 1);
        assert cs[..i + 1] == cs[..i] + [cs[i]];
        r := r + ChapterSection(i + 1, cs[i]);
        i := i + 1;
      }
      assert cs[..i] == cs;
    }
  }

  /** The per-chapter text file. */
  function ChapterFile(number: nat, chapter: string): (r: string)
    ensures |r| >= 12 + |chapter| && r[..10] == "# Chapter " && r[|r| - |chapter|..] == chapter
    ensures r[|r| - |chapter| - 2..|r| - |chapter|] == "\n\n"
    ensures ParseNat(r[10..|r| - |chapter| - 2]) == Some(number)
  {
    var d := NatToString(number);
    var r := "# Chapter " + d + "\n\n" + chapter;
    assert r[10..|r| - |chapter| - 2] == d;
    ParseNatToString(number);
    r
  }

  /** The outline's text file. */
  function OutlineFile(title: string, outline: string): (r: string)
    ensures |r| == |title| + |outline| + 14
    ensures r[..2] == "# " && r[2..|title| + 2] == title && r[|r| - |outline|..] == outline
  {
    "# " + title + " - Outline\n\n" + outline
  }

  /** A file `save_text_content` writes into the folder's `text` directory. */
  datatype TextFile = TextFile(name: string, content: string)

  /** The text file of chapter `number`. */
  function ChapterEntry(number: nat, chapter: string): TextFile {
    TextFile(ChapterTextName(number), ChapterFile(number, chapter))
  }

  /** The loop `for i, chapter in enumerate(chapters, first)`. */
  function ChapterFiles(chapters: seq<string>, first: nat): seq<TextFile> {
    seq(|chapters|, k requires 0 <= k < |chapters| => ChapterEntry(first + k, chapters[k]))
  }

  /** The files `save_text_content` writes, in order: the full book, one
      file per chapter numbered from 1, then the outline. */
  function TextFiles(title: string, outline: string, chapters: seq<string>): (r: seq<TextFile>)
    ensures |r| == |chapters| + 2
    ensures r[0] == TextFile(CompleteTextName(title), FullBook(title, outline, chapters))
    ensures forall k :: 0 <= k < |chapters| ==> r[k + 1] == ChapterEntry(k + 1, chapters[k])
    ensures r[|r| - 1] == TextFile(OutlineTextName, OutlineFile(title, outline))
  {
    [TextFile(CompleteTextName(title), FullBook(title, outline, chapters))]
    + ChapterFiles(chapters, 1)
    + [TextFile(OutlineTextName, OutlineFile(title, outline))]
  }

  // ---------------------------------------------------------------------
  // Properties
  // ---------------------------------------------------------------------

  /** Appending a chapter appends its section, numbered after the others. */
  lemma {:induction false} SectionsSnoc(chapters: seq<string>, c: string, first: nat)
    ensures Sections(chapters + [c], first) == Sections(chapters, first) + ChapterSection(first + |chapters|, c)
    decreases |chapters|
  {
    if |chapters| > 0 {
      assert (chapters + [c])[1..] == chapters[1..] + [c];
      SectionsSnoc(chapters[1..], c, first + 1);
    } else {
      assert chapters + [c] == [c];
      assert [c][1..] == [];
    }
  }

  /** Sections of a concatenation are the concatenated sections, the second
      part numbered on from the first. */
  lemma {:induction false} SectionsAppend(a: seq<string>, b: seq<string>, first: nat)
    ensures Sections(a + b, first) == Sections(a, first) + Sections(b, first + |a|)
    decreases |a|
  {
    if |a| > 0 {
      assert (a + b)[1..] == a[1..] + b;
      assert (a + b)[0] == a[0];
      SectionsAppend(a[1..], b, first + 1);
    } else {
      assert a + b == b;
    }
  }

  /** Chapter `k` (from 0) appears as section number `first + k`, after the
      sections of the chapters before it and before those after it. */
  lemma SectionsNumbering(chapters: seq<string>, first: nat, k: nat)
    requires k < |chapters|
    ensures Sections(chapters, first)
         == Sections(chapters[..k], first) + ChapterSection(first + k, chapters[k])
            + Sections(chapters[k + 1..], first + k + 1)
  {
    var rest := chapters[k..];
    assert chapters == chapters[..k] + rest;
    SectionsAppend(chapters[..k], rest, first);
    assert rest[0] == chapters[k] && rest[1..] == chapters[k + 1..];
  }

  /** With chapters, the app writes exactly the generator's full book; with
      none, it leaves out the chapters heading the generator still writes. */
  lemma AppAgreesWithGenerator(title: string, outline: string, chapters: Option<seq<string>>)
    ensures NonEmptyList(chapters) ==>
      AppBookContent(title, outline, chapters) == FullBook(title, outline, chapters.value)
    ensures !NonEmptyList(chapters) ==>
      AppBookContent(title, outline, chapters) + "## Chapters\n\n" == FullBook(title, outline, [])
  {
  }

  /** The name of the `k`-th written file. */
  lemma TextFileName(title: string, outline: string, chapters: seq<string>, k: nat)
    requires k < |chapters| + 2
    ensures TextFiles(title, outline, chapters)[k].name
         == if k == 0 then CompleteTextName(title)
            else if k == |chapters| + 1 then OutlineTextName
            else ChapterTextName(k)
  {
    var r := TextFiles(title, outline, chapters);
    if 0 < k < |chapters| + 1 {
      assert r[k] == ChapterEntry(k, chapters[k - 1]);
    }
  }

  /** No file `save_text_content` writes overwrites another. */
  lemma TextFileNamesDistinct(title: string, outline: string, chapters: seq<string>, i: nat, j: nat)
    requires i < j < |chapters| + 2
    ensures TextFiles(title, outline, chapters)[i].name != TextFiles(title, outline, chapters)[j].name
  {
    TextFileName(title, outline, chapters, i);
    TextFileName(title, outline, chapters, j);
    TextNamesDistinct(title, i, j);
    TextNamesDistinct(title, j, j);
  }
}

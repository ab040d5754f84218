/** The names the generator and the Streamlit app give to what they write:
    the book folder (src/make_a_book/audiobook_generator.py), the audio and
    text files inside it, and the Markdown download names of app.py.
    Paths are strings joined with '/'. */
module Naming {
  import opened Text

  /** `create_book_folder`: the slugged title with "_complete" appended. */
  function BookFolderName(title: string): (r: string)
    ensures |r| == |title| + 9
    ensures r[..|title|] == Slug(title) && r[|title|..] == "_complete"
  {
    Slug(title) + "_complete"
  }

  /** The full-book Markdown file inside the folder's `text` directory. */
  function CompleteTextName(title: string): (r: string)
    ensures r == BookFolderName(title) + ".md"
  {
    Slug(title) + "_complete.md"
  }

  /** `save_book_to_file` and the download button once chapters exist. */
  function BookFileName(title: string): (r: string)
    ensures |r| == |title| + 8
    ensures r[..|title|] == Slug(title) && r[|title|..] == "_book.md"
  {
    Slug(title) + "_book.md"
  }

  /** The outline-only download. */
  function OutlineFileName(title: string): (r: string)
    ensures |r| == |title| + 11
    ensures r[..|title|] == Slug(title) && r[|title|..] == "_outline.md"
  {
    Slug(title) + "_outline.md"
  }

  /** The download name offered by the app: the book once chapters exist,
      the outline before. */
  function DownloadFileName(title: string, hasChapters: bool): (r: string)
    ensures hasChapters ==> r == BookFileName(title)
    ensures !hasChapters ==> r == OutlineFileName(title)
  {
    Slug(title) + (if hasChapters then "_book.md" else "_outline.md")
  }

  /** `chapter_{NN}_part_{MM}.mp3` for part `part` (counted from 1). */
  function PartFileName(chapter: nat, part: nat): string {
    "chapter_" + (Pad2(chapter) + ("_part_" + (Pad2(part) + ".mp3")))
  }

  /** `chapter_{NN}.mp3`, the per-chapter audio file. */
  function ChapterFileName(chapter: nat): string {
    "chapter_" + (Pad2(chapter) + ".mp3")
  }

  /** The outline's audio once renamed. */
  const OutlineAudioName: string := "00_outline.mp3"

  /** `chapter_{NN}.md`, the per-chapter text file. */
  function ChapterTextName(chapter: nat): string {
    "chapter_" + (Pad2(chapter) + ".md")
  }

  /** The outline's text file. */
  const OutlineTextName: string := "outline.md"

  function AudioPath(folder: string, name: string): string {
    folder + "/audio/" + name
  }

  function TextPath(folder: string, name: string): string {
    folder + "/text/" + name
  }

  // ---------------------------------------------------------------------
  // Properties
  // ---------------------------------------------------------------------

  /** Two titles share a folder exactly when their slugs agree, so titles
      differing only in case or in spaces versus underscores collide. */
  lemma BookFolderSameIff(a: string, b: string)
    ensures BookFolderName(a) == BookFolderName(b) <==> Slug(a) == Slug(b)
  {
    if BookFolderName(a) == BookFolderName(b) {
      assert |a| == |b|;
      assert Slug(a) == BookFolderName(a)[..|a|];
    }
  }

  /** Every title shares its folder with its own slug: "My Book" and
      "my_book" are written to the same folder. */
  lemma BookFolderCollision(title: string)
    ensures BookFolderName(Slug(title)) == BookFolderName(title)
  {
    SlugIdempotent(title);
    BookFolderSameIff(Slug(title), title);
  }

  /** The two download names of one title never coincide. */
  lemma DownloadNamesDiffer(title: string)
    ensures DownloadFileName(title, true) != DownloadFileName(title, false)
  {
    assert |BookFileName(title)| != |OutlineFileName(title)|;
  }

  /** A part file name determines its chapter and part. */
  lemma PartFileNameInjective(c1: nat, p1: nat, c2: nat, p2: nat)
    requires PartFileName(c1, p1) == PartFileName(c2, p2)
    ensures c1 == c2 && p1 == p2
  {
    var x1 := "_part_" + (Pad2(p1) + ".mp3");
    var x2 := "_part_" + (Pad2(p2) + ".mp3");
    DropPrefix("chapter_", Pad2(c1) + x1, Pad2(c2) + x2);
    DigitRunsAlign(Pad2(c1), Pad2(c2), x1, x2);
    Pad2Injective(c1, c2);
    DropPrefix("_part_", Pad2(p1) + ".mp3", Pad2(p2) + ".mp3");
    DigitRunsAlign(Pad2(p1), Pad2(p2), ".mp3", ".mp3");
    Pad2Injective(p1, p2);
  }

  /** A chapter audio name determines its chapter. */
  lemma ChapterFileNameInjective(c1: nat, c2: nat)
    requires ChapterFileName(c1) == ChapterFileName(c2)
    ensures c1 == c2
  {
    DropPrefix("chapter_", Pad2(c1) + ".mp3", Pad2(c2) + ".mp3");
    DigitRunsAlign(Pad2(c1), Pad2(c2), ".mp3", ".mp3");
    Pad2Injective(c1, c2);
  }

  /** A part file is never mistaken for a finished chapter file, so the
      rename of a single part cannot overwrite another part. */
  lemma PartAndChapterNamesDiffer(c1: nat, p: nat, c2: nat)
    ensures PartFileName(c1, p) != ChapterFileName(c2)
  {
    var x1 := "_part_" + (Pad2(p) + ".mp3");
    if PartFileName(c1, p) == ChapterFileName(c2) {
      DropPrefix("chapter_", Pad2(c1) + x1, Pad2(c2) + ".mp3");
      DigitRunsAlign(Pad2(c1), Pad2(c2), x1, ".mp3");
    }
  }

  /** The outline's audio name is distinct from every chapter's. */
  lemma OutlineAudioNameFresh(c: nat)
    ensures OutlineAudioName != ChapterFileName(c)
    ensures forall p: nat :: OutlineAudioName != PartFileName(c, p)
  {
    assert ChapterFileName(c)[0] == 'c';
  }

  /** Distinct chapters get distinct text files, none of them the outline's
      or the full book's. */
  lemma TextNamesDistinct(title: string, c1: nat, c2: nat)
    ensures ChapterTextName(c1) == ChapterTextName(c2) ==> c1 == c2
    ensures ChapterTextName(c1) != OutlineTextName
    ensures ChapterTextName(c1) != CompleteTextName(title)
    ensures OutlineTextName != CompleteTextName(title)
  {
    if ChapterTextName(c1) == ChapterTextName(c2) {
      DropPrefix("chapter_", Pad2(c1) + ".md", Pad2(c2) + ".md");
      DigitRunsAlign(Pad2(c1), Pad2(c2), ".md", ".md");
      Pad2Injective(c1, c2);
    }
    var n := ChapterTextName(c1);
    var full := CompleteTextName(title);
    assert n[|n| - 4] == Pad2(c1)[|Pad2(c1)| - 1];
    assert full[|full| - 4] == 'e';
  }
}

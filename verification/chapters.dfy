/** Chapter lists as the server and the app handle them: the normalisation
    of the language model's `chapters` output in
    src/make_a_book/chapter_generator.py, and the chapter plan the
    endpoints fall back to when the outline yields none. */
module Chapters {
  import opened Js

  /** The Python values the model's output field can hold. `Other` stands
      for any further value and carries what `str()` makes of it. */
  datatype PyValue =
    | PyNone
    | PyList(items: seq<PyValue>)
    | PyTuple(items: seq<PyValue>)
    | PyStr(text: string)
    | Other(shown: string)

  /** `create_chapters`' normalisation of `result.chapters` to a list. */
  function NormalizeChapters(v: PyValue): (r: seq<PyValue>)
    ensures v.PyNone? ==> r == []
    ensures v.PyList? || v.PyTuple? ==> r == v.items
    ensures v.PyStr? ==> r == [v]
    ensures v.Other? ==> r == [PyStr(v.shown)]
  {
    match v
    case PyNone => []
    case PyList(xs) => xs
    case PyTuple(xs) => xs
    case PyStr(_) => [v]
    case Other(shown) => [PyStr(shown)]
  }

  /** `create_chapters(outline, minutes)` over the model's prediction. */
  function CreateChapters(predict: (string, int) -> PyValue, outline: string, minutes: int): (r: seq<PyValue>)
    ensures predict(outline, minutes).PyNone? ==> r == []
    ensures predict(outline, minutes).PyList? || predict(outline, minutes).PyTuple? ==> r == predict(outline, minutes).items
    ensures predict(outline, minutes).PyStr? ==> r == [predict(outline, minutes)]
    ensures predict(outline, minutes).Other? ==> r == [PyStr(predict(outline, minutes).shown)]
  {
    NormalizeChapters(predict(outline, minutes))
  }

  /** Only a list or tuple can yield other than exactly one chapter, and
      only `None` or an empty sequence yields none. */
  lemma NormalizeCount(v: PyValue)
    ensures !(v.PyList? || v.PyTuple? || v.PyNone?) ==> |NormalizeChapters(v)| == 1
    ensures |NormalizeChapters(v)| == 0 <==> v.PyNone? || ((v.PyList? || v.PyTuple?) && |v.items| == 0)
    ensures forall x :: x in NormalizeChapters(v) && !(v.PyList? || v.PyTuple?) ==> x.PyStr?
  {
  }

  /** A planned chapter: its title and a description. */
  datatype ChapterInfo = ChapterInfo(title: string, description: string)

  /** The plan used when the outline yields no chapters. */
  const DefaultChapterInfos: seq<ChapterInfo> := [
    ChapterInfo("Chapter 1: Introduction", "Introduction to the topic"),
    ChapterInfo("Chapter 2: Main Content", "Core content and concepts"),
    ChapterInfo("Chapter 3: Conclusion", "Summary and final thoughts")
  ]

  /** `chapters_info` after `if not chapters_info:` replaced an empty parse. */
  function InfosOrDefault(parsed: seq<ChapterInfo>): (r: seq<ChapterInfo>)
    ensures |r| > 0
    ensures |parsed| > 0 ==> r == parsed
    ensures |parsed| == 0 ==> |r| == 3
  {
    if |parsed| == 0 then DefaultChapterInfos else parsed
  }

  /** `create_chapter(outline, title, description)` for each planned
      chapter in order, stopping at the first that raises. */
  function CreateAll(create: (string, ChapterInfo) -> Attempt<string>, outline: string, infos: seq<ChapterInfo>): (r: Attempt<seq<string>>)
    ensures r.Succeeded? ==> |r.value| == |infos|
    decreases |infos|
  {
    if |infos| == 0 then Succeeded([])
    else match create(outline, infos[0])
      case Raised(m) => Raised(m)
      case Succeeded(c) =>
        match CreateAll(create, outline, infos[1..])
        case Raised(m) => Raised(m)
        case Succeeded(cs) => Succeeded([c] + cs)
  }

  /** Chapters already written, in front of the outcome for the rest. */
  function AfterDone(done: seq<string>, rest: Attempt<seq<string>>): Attempt<seq<string>> {
    match rest
    case Raised(m) => Raised(m)
    case Succeeded(cs) => Succeeded(done + cs)
  }

  /** The loop of the chapters endpoint and of the app's full-book button. */
  method CreateEach(create: (string, ChapterInfo) -> Attempt<string>, outline: string, infos: seq<ChapterInfo>)
    returns (r: Attempt<seq<string>>)
    ensures r == CreateAll(create, outline, infos)
  {
    var chapters: seq<string> := [];
    var i := 0;
    assert infos[0..] == infos;
    assert AfterDone([], CreateAll(create, outline, infos)) == CreateAll(create, outline, infos) by {
      if CreateAll(create, outline, infos).Succeeded? {
        assert [] + CreateAll(create, outline, infos).value == CreateAll(create, outline, infos).value;
      }
    }
    while i < |infos|
      invariant 0 <= i <= |infos|
      invariant CreateAll(create, outline, infos) == AfterDone(chapters, CreateAll(create, outline, infos[i..]))
    {
      assert infos[i..][1..] == infos[i + 1..];
      var tail := CreateAll(create, outline, infos[i + 1..]);
      match create(outline, infos[i])
      case Raised(m) =>
        return Raised(m);
      case Succeeded(c) =>
        if tail.Succeeded? {
          assert chapters + ([c] + tail.value) == chapters + [c] + tail.value;
        }
        chapters := chapters + [c];
      i := i + 1;
    }
    assert infos[i..] == [];
    assert chapters + [] == chapters;
    return Succeeded(chapters);
  }

  /** Creation succeeds exactly when every chapter does, and then chapter
      `k` is what `create_chapter` wrote for planned chapter `k`. */
  lemma {:induction false} CreateAllSpec(create: (string, ChapterInfo) -> Attempt<string>, outline: string, infos: seq<ChapterInfo>)
    ensures CreateAll(create, outline, infos).Succeeded?
        <==> forall k :: 0 <= k < |infos| ==> create(outline, infos[k]).Succeeded?
    ensures CreateAll(create, outline, infos).Succeeded? ==>
      forall k :: 0 <= k < |infos| ==> CreateAll(create, outline, infos).value[k] == create(outline, infos[k]).value
    decreases |infos|
  {
    if |infos| > 0 {
      CreateAllSpec(create, outline, infos[1..]);
      assert forall k :: 1 <= k < |infos| ==> infos[k] == infos[1..][k - 1];
    }
  }

  /** A failure reports the message of the first chapter that raised. */
  lemma {:induction false} CreateAllFirstFailure(create: (string, ChapterInfo) -> Attempt<string>, outline: string, infos: seq<ChapterInfo>, j: nat)
    requires j < |infos| && create(outline, infos[j]).Raised?
    requires forall k :: 0 <= k < j ==> create(outline, infos[k]).Succeeded?
    ensures CreateAll(create, outline, infos) == Raised(create(outline, infos[j]).message)
    decreases j
  {
    if j > 0 {
      assert forall k :: 0 <= k < j - 1 ==> infos[1..][k] == infos[k + 1];
      CreateAllFirstFailure(create, outline, infos[1..], j - 1);
    }
  }
}

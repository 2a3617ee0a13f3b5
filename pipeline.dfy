/**
 * The per-file loop of `main` (ocr_test_1.py).  The directory listing,
 * what the OCR engine reports for each screenshot, and whether an info file
 * with a given path and text can be saved are inputs; reading, writing and
 * printing are left out, and each screenshot's outcome is recorded as an
 * `Extraction`.
 *
 * Nothing in `main` catches an exception, so the loop ends at the first
 * screenshot that cannot be read (`cv2.imread` gives None and `.copy()`
 * raises) or OCR'd (`pytesseract.image_to_data` raises, before the QA count
 * is raised), or whose info file cannot be saved: `open` raises (the failed
 * `os.mkdir` before it was swallowed by `make_user_dir`), or `f.write`
 * raises on a word the file's encoding cannot represent.
 */
module Pipeline {
  import WordBoxes
  import UserFiles
  import NameCheck

  datatype Option<T> = None | Some(value: T)

  /**
   * One entry of the directory listing; for a screenshot, what OCR reports
   * for it, or None when `cv2.imread` cannot read the file or the OCR call
   * raises (both stop the loop before the QA count).
   */
  datatype Entry = Entry(fileName: string, image: Option<seq<WordBoxes.Token>>)

  /** What `main` does with one screenshot. */
  datatype Extraction = Extraction(
    index: nat,                     // position in the directory listing (`i` of `enumerate`)
    userName: string,
    accurate: bool,                 // the QA check on the name
    userDir: string,
    marks: seq<WordBoxes.Mark>,     // drawn onto the saved image
    imagePath: string,
    infoPath: string,
    infoContent: string)

  /** The exception that ends the loop, and the listing position where it is raised. */
  datatype Abort =
    | Unreadable(index: nat)                 // `.copy()` on None, or the OCR call raised
    | CannotSave(index: nat, path: string)   // `open` or `f.write` raised on the info file

  /** The state of `main` after part of the listing. */
  datatype Run = Run(results: seq<Extraction>, successes: nat, abort: Option<Abort>)

  /** `file.endswith(".png")`. */
  predicate IsPng(fileName: string): (r: bool)
    ensures r <==> exists stem :: fileName == stem + ".png"
  {
    var r := |fileName| >= 4 && fileName[|fileName| - 4..] == ".png";
    assert r ==> fileName == fileName[..|fileName| - 4] + ".png";
    r
  }

  /**
   * The outcome for a readable screenshot at listing position `i`, built
   * from the reference definition of what `draw_word_boxes` computes from
   * the name "": the name, the QA verdict, the directory (the name, or
   * "user_<i>" when it is empty), the marks, the paths and the text of the
   * info file.
   */
  function Extract(ts: seq<WordBoxes.Token>, i: nat): (x: Extraction)
    ensures x.index == i
  {
    var s := WordBoxes.Reference("", ts);
    var dir := UserFiles.UserDirFor(s.name, i);
    Extraction(i, s.name, NameCheck.IsAccurate(s.name), dir, s.marks,
      UserFiles.ImagePath(dir, s.name), UserFiles.InfoFilePath(dir, s.name),
      UserFiles.Render(UserFiles.NonEmpty(s.words)))
  }

  /**
   * What `Extract` records: the listing position; the name and marks that
   * the loop of `draw_word_boxes` produces, which are those of the in-band
   * words; the QA verdict on that name; a directory named after the name
   * or, for an empty name, after the position; the two paths in it; and
   * the non-empty words of the screenshot, one per line.
   */
  lemma ExtractSpec(ts: seq<WordBoxes.Token>, i: nat)
    ensures var x := Extract(ts, i);
      x.userName == WordBoxes.Process("", ts).name && x.marks == WordBoxes.Process("", ts).marks
    ensures var x := Extract(ts, i);
      x.index == i &&
      x.userName == WordBoxes.JoinName("", WordBoxes.Texts(WordBoxes.Selected(ts, WordBoxes.FirstAnchor(ts)))) &&
      x.marks == WordBoxes.MarksOf(WordBoxes.Selected(ts, WordBoxes.FirstAnchor(ts))) &&
      x.accurate == NameCheck.IsAccurate(x.userName)
    ensures var x := Extract(ts, i);
      UserFiles.HasDataSuffix(x.userDir) &&
      UserFiles.StripDataSuffix(x.userDir) ==
        (if x.userName != "" then x.userName else UserFiles.FallbackPrefix + UserFiles.Decimal(i))
    ensures var x := Extract(ts, i);
      x.infoPath == UserFiles.InfoFilePath(x.userDir, x.userName) &&
      x.imagePath == UserFiles.ImagePath(x.userDir, x.userName) &&
      x.infoContent == UserFiles.Render(UserFiles.NonEmpty(WordBoxes.Texts(ts)))
  {
    WordBoxes.ProcessMatchesReference("", ts);
  }

  /**
   * The per-screenshot work of the loop, as a parameter of the loop's shape:
   * `main` uses `Extract`, and the lemmas about the shape hold for any
   * extraction that records the listing position.
   */
  type Extractor = (seq<WordBoxes.Token>, nat) -> Extraction

  ghost predicate RecordsIndex(extract: Extractor) {
    forall ts, i :: extract(ts, i).index == i
  }

  /** `Extract` records the listing position. */
  lemma ExtractRecordsIndex()
    ensures RecordsIndex(Extract)
  {
  }

  /**
   * One iteration of `main`'s loop: a ".png" entry is processed unless an
   * exception has already been raised.  The QA count is raised before the
   * info file is saved, so it includes a screenshot whose info file could
   * not be saved.  Outcomes are only ever added, at most one per entry; the
   * count grows by at most one; once stopped, nothing changes; and a new
   * stop is at this entry, which is a ".png".
   */
  function Next(prev: Run, e: Entry, i: nat, canSave: (string, string) -> bool, extract: Extractor): (next: Run)
    ensures prev.results <= next.results && |next.results| <= |prev.results| + 1
    ensures prev.successes <= next.successes <= prev.successes + 1
    ensures prev.abort.Some? ==> next == prev
    ensures prev.abort.None? && next.abort.Some? ==> next.abort.value.index == i && IsPng(e.fileName)
  {
    if prev.abort.Some? || !IsPng(e.fileName) then prev
    else if e.image.None? then prev.(abort := Some(Unreadable(i)))
    else
      var x := extract(e.image.value, i);
      var successes := prev.successes + if x.accurate then 1 else 0;
      if canSave(x.infoPath, x.infoContent) then Run(prev.results + [x], successes, None)
      else Run(prev.results, successes, Some(CannotSave(i, x.infoPath)))
  }

  /**
   * The loop over the listing `es`, entry by entry in listing order;
   * `main` is `RunAll(es, canSave, Extract)`.  There are never more outcomes,
   * nor a higher QA count, than entries.
   */
  function RunAll(es: seq<Entry>, canSave: (string, string) -> bool, extract: Extractor): (run: Run)
    ensures |run.results| <= |es| && run.successes <= |es|
    decreases |es|
  {
    if es == [] then Run([], 0, None)
    else Next(RunAll(es[..|es| - 1], canSave, extract), es[|es| - 1], |es| - 1, canSave, extract)
  }

  /** How many outcomes passed the QA check. */
  function Successes(xs: seq<Extraction>): (n: nat)
    ensures n <= |xs|
    decreases |xs|
  {
    if xs == [] then 0
    else Successes(xs[..|xs| - 1]) + if xs[|xs| - 1].accurate then 1 else 0
  }

  /**
   * The body of `main`'s loop for a screenshot that could be read: assemble
   * the name (starting from ""), check it, choose the directory and write
   * the info file.  `outcome` is None when saving the info file raises.
   */
  method ProcessScreenshot(tokens: seq<WordBoxes.Token>, i: nat, canSave: (string, string) -> bool)
    returns (gotRightName: bool, dest: string, outcome: Option<Extraction>)
    ensures gotRightName == Extract(tokens, i).accurate
    ensures dest == Extract(tokens, i).infoPath
    ensures outcome ==
      if canSave(dest, Extract(tokens, i).infoContent) then Some(Extract(tokens, i)) else None
  {
    var userName, wordList, marks := WordBoxes.DrawWordBoxes(tokens, "");
    gotRightName := NameCheck.IsAccurate(userName);
    var userDir;
    if userName != "" {
      userDir := UserFiles.MakeUserDir(userName);
    } else {
      userDir := UserFiles.MakeUserDir(UserFiles.FallbackPrefix + UserFiles.Decimal(i));
    }
    var imagePath := UserFiles.ImagePath(userDir, userName);
    assert wordList == WordBoxes.Texts(tokens);
    var infoContent;
    dest, infoContent := UserFiles.CreateUserInfoFile(userDir, userName, wordList);
    var x := Extraction(i, userName, gotRightName, userDir, marks, imagePath, dest, infoContent);
    assert x == Extract(tokens, i);
    if canSave(dest, infoContent) {
      outcome := Some(x);
    } else {
      outcome := None;
    }
  }

  /**
   * The loop of `main`: each ".png" entry of the listing in turn, until a
   * screenshot cannot be read or its info file cannot be saved.
   */
  method ProcessScreenshots(entries: seq<Entry>, canSave: (string, string) -> bool)
    returns (results: seq<Extraction>, successes: nat, abort: Option<Abort>)
    ensures Run(results, successes, abort) == RunAll(entries, canSave, Extract)
    ensures abort.None? ==> successes == Successes(results)
  {
    results, successes, abort := [], 0, None;
    for i := 0 to |entries|
      invariant Run(results, successes, abort) == RunAll(entries[..i], canSave, Extract)
    {
      var file := entries[i];
      assert entries[..i + 1][..i] == entries[..i];
      assert RunAll(entries[..i + 1], canSave, Extract) ==
        Next(Run(results, successes, abort), file, i, canSave, Extract);
      // once an exception has been raised, the remaining entries are never reached
      if abort.None? && IsPng(file.fileName) {
        if file.image.None? {
          abort := Some(Unreadable(i));
        } else {
          var gotRightName, dest, outcome := ProcessScreenshot(file.image.value, i, canSave);
          if gotRightName {
            successes := successes + 1;
          }
          if outcome.Some? {
            results := results + [outcome.value];
          } else {
            abort := Some(CannotSave(i, dest));
          }
        }
      }
    }
    assert entries[..|entries|] == entries;
    SuccessesCounted(entries, canSave, Extract);
  }

  // ---------------------------------------------------------------------
  // Lemmas
  // ---------------------------------------------------------------------

  /**
   * The QA count is the number of accepted outcomes, plus at most one: the
   * screenshot whose info file could not be saved.
   */
  lemma {:induction false} SuccessesCounted(es: seq<Entry>, canSave: (string, string) -> bool, extract: Extractor)
    ensures var run := RunAll(es, canSave, extract);
      (run.abort.None? || run.abort.value.Unreadable? ==> run.successes == Successes(run.results)) &&
      run.successes <= Successes(run.results) + 1
    decreases |es|
  {
    if es != [] {
      var i := |es| - 1;
      SuccessesCounted(es[..i], canSave, extract);
      var prev, run := RunAll(es[..i], canSave, extract), RunAll(es, canSave, extract);
      if prev.abort.None? && IsPng(es[i].fileName) && es[i].image.Some? &&
         canSave(extract(es[i].image.value, i).infoPath, extract(es[i].image.value, i).infoContent) {
        assert run.results[..|run.results| - 1] == prev.results;
      }
    }
  }

  /**
   * Each outcome belongs to a readable ".png" entry at its listing position
   * and is that entry's extraction.
   */
  lemma {:induction false} ResultsAreExtractions(es: seq<Entry>, canSave: (string, string) -> bool, extract: Extractor)
    requires RecordsIndex(extract)
    ensures var rs := RunAll(es, canSave, extract).results;
      forall k :: 0 <= k < |rs| ==>
        rs[k].index < |es| && IsPng(es[rs[k].index].fileName) && es[rs[k].index].image.Some? &&
        rs[k] == extract(es[rs[k].index].image.value, rs[k].index)
    decreases |es|
  {
    if es != [] {
      var p, i := es[..|es| - 1], |es| - 1;
      ResultsAreExtractions(p, canSave, extract);
      var prevRun := RunAll(p, canSave, extract);
      var prev, rs := prevRun.results, RunAll(es, canSave, extract).results;
      assert RunAll(es, canSave, extract) == Next(prevRun, es[i], i, canSave, extract);
      NextOutcome(prevRun, es[i], i, canSave, extract);
      assert forall k :: 0 <= k < |RunAll(p, canSave, extract).results| ==>
        var y := RunAll(p, canSave, extract).results[k];
        y.index < |p| && IsPng(p[y.index].fileName) && p[y.index].image.Some? &&
        y == extract(p[y.index].image.value, y.index);
      forall k | 0 <= k < |rs|
        ensures rs[k].index < |es| && IsPng(es[rs[k].index].fileName) && es[rs[k].index].image.Some? &&
          rs[k] == extract(es[rs[k].index].image.value, rs[k].index)
      {
        if k < |prev| {
          // an earlier outcome, unchanged, about an entry of the shorter listing
          var y := RunAll(p, canSave, extract).results[k];
          assert rs[k] == y && es[y.index] == p[y.index];
        } else {
          // the outcome this entry added: its own extraction
          assert rs == prev + [extract(es[i].image.value, i)];
          assert rs[k] == extract(es[i].image.value, i) && rs[k].index == i;
        }
      }
    }
  }

  /** Outcomes come in listing order, at strictly increasing positions. */
  lemma {:induction false} ResultsInListingOrder(es: seq<Entry>, canSave: (string, string) -> bool, extract: Extractor)
    requires RecordsIndex(extract)
    ensures var rs := RunAll(es, canSave, extract).results;
      forall k :: 0 <= k < |rs| ==> rs[k].index < |es|
    ensures var rs := RunAll(es, canSave, extract).results;
      forall k, l :: 0 <= k < l < |rs| ==> rs[k].index < rs[l].index
    decreases |es|
  {
    if es != [] {
      var p, i := es[..|es| - 1], |es| - 1;
      ResultsInListingOrder(p, canSave, extract);
      var prev, rs := RunAll(p, canSave, extract).results, RunAll(es, canSave, extract).results;
      assert RunAll(es, canSave, extract) == Next(RunAll(p, canSave, extract), es[i], i, canSave, extract);
      assert rs == prev || (es[i].image.Some? && rs == prev + [extract(es[i].image.value, i)]);
    }
  }

  /**
   * When the loop stopped, it stopped at a ".png" entry after every outcome,
   * one that either could not be read or whose info file could not be saved.
   */
  lemma {:induction false} AbortPoint(es: seq<Entry>, canSave: (string, string) -> bool, extract: Extractor)
    requires RecordsIndex(extract)
    ensures var run := RunAll(es, canSave, extract);
      run.abort.Some? ==>
        var a := run.abort.value;
        a.index < |es| && IsPng(es[a.index].fileName) &&
        (forall k :: 0 <= k < |run.results| ==> run.results[k].index < a.index) &&
        (a.Unreadable? ==> es[a.index].image.None?) &&
        (a.CannotSave? ==>
          es[a.index].image.Some? &&
          !canSave(a.path, extract(es[a.index].image.value, a.index).infoContent) &&
          a.path == extract(es[a.index].image.value, a.index).infoPath)
    decreases |es|
  {
    if es != [] {
      var p := es[..|es| - 1];
      AbortPoint(p, canSave, extract);
      ResultsInListingOrder(p, canSave, extract);
      assert forall j :: 0 <= j < |p| ==> p[j] == es[j];
    }
  }

  /**
   * Every ".png" entry before the point where the loop stopped (or every
   * one, if it did not stop) was read and has its outcome.
   */
  lemma {:induction false} EveryPngExtracted(es: seq<Entry>, canSave: (string, string) -> bool, extract: Extractor, i: nat)
    requires RecordsIndex(extract)
    requires i < |es| && IsPng(es[i].fileName)
    requires RunAll(es, canSave, extract).abort.None? || i < RunAll(es, canSave, extract).abort.value.index
    ensures es[i].image.Some?
    ensures extract(es[i].image.value, i) in RunAll(es, canSave, extract).results
    decreases |es|
  {
    var p, last := es[..|es| - 1], |es| - 1;
    var prev := RunAll(p, canSave, extract);
    NextOutcome(prev, es[last], last, canSave, extract);
    if i < last {
      assert es[i] == p[i];
      EveryPngExtracted(p, canSave, extract, i);
    } else {
      AbortPoint(p, canSave, extract);
    }
  }

  /**
   * An entry that adds an outcome is a readable ".png" reached before any
   * stop, and what it adds is its own extraction; a ".png" entry that does
   * not stop the loop does add it.
   */
  lemma NextOutcome(prev: Run, e: Entry, i: nat, canSave: (string, string) -> bool, extract: Extractor)
    ensures var next := Next(prev, e, i, canSave, extract);
      next.results != prev.results ==>
        prev.abort.None? && IsPng(e.fileName) && e.image.Some? &&
        next.results == prev.results + [extract(e.image.value, i)]
    ensures var next := Next(prev, e, i, canSave, extract);
      prev.abort.None? && IsPng(e.fileName) && (next.abort.None? || i < next.abort.value.index) ==>
        e.image.Some? && next.results == prev.results + [extract(e.image.value, i)]
  {
  }

  /** If every screenshot can be read and every info file saved, the loop runs to the end. */
  lemma {:induction false} NoFailureNoAbort(es: seq<Entry>, canSave: (string, string) -> bool, extract: Extractor)
    requires forall j :: 0 <= j < |es| && IsPng(es[j].fileName) ==>
      es[j].image.Some? && canSave(extract(es[j].image.value, j).infoPath, extract(es[j].image.value, j).infoContent)
    ensures RunAll(es, canSave, extract).abort.None?
    decreases |es|
  {
    if es != [] {
      var p := es[..|es| - 1];
      assert forall j :: 0 <= j < |p| ==> p[j] == es[j];
      NoFailureNoAbort(p, canSave, extract);
    }
  }

  /**
   * Two screenshots never share a directory unless their names are equal
   * and non-empty, or one name is the other's "user_<i>" fallback.
   */
  lemma DirectoriesOnlySharedByName(es: seq<Entry>, canSave: (string, string) -> bool, k: nat, l: nat)
    requires k < l < |RunAll(es, canSave, Extract).results|
    requires RunAll(es, canSave, Extract).results[k].userDir == RunAll(es, canSave, Extract).results[l].userDir
    ensures var x, y := RunAll(es, canSave, Extract).results[k], RunAll(es, canSave, Extract).results[l];
      x.userName == y.userName ||
      x.userName == UserFiles.FallbackPrefix + UserFiles.Decimal(y.index) ||
      y.userName == UserFiles.FallbackPrefix + UserFiles.Decimal(x.index)
    ensures var x, y := RunAll(es, canSave, Extract).results[k], RunAll(es, canSave, Extract).results[l];
      x.userName != "" || y.userName != ""
  {
    ExtractRecordsIndex();
    ResultsInListingOrder(es, canSave, Extract);
    ResultsAreExtractions(es, canSave, Extract);
    var x, y := RunAll(es, canSave, Extract).results[k], RunAll(es, canSave, Extract).results[l];
    if x.userName == "" && y.userName == "" {
      UserFiles.FallbackDirsDistinct(x.index, y.index);
    }
  }

  /**
   * The info file is not filtered by the band: it keeps every non-empty
   * OCR word, selected or not, so in particular every word of the name.
   */
  lemma NameWordsInInfoFile(ts: seq<WordBoxes.Token>)
    ensures forall j :: 0 <= j < |ts| && ts[j].text != "" ==>
      ts[j].text in UserFiles.NonEmpty(WordBoxes.Texts(ts))
    ensures var sel := WordBoxes.Selected(ts, WordBoxes.FirstAnchor(ts));
      forall w :: w in WordBoxes.Texts(sel) ==> w in UserFiles.NonEmpty(WordBoxes.Texts(ts))
  {
    forall j | 0 <= j < |ts| && ts[j].text != ""
      ensures ts[j].text in UserFiles.NonEmpty(WordBoxes.Texts(ts))
    {
      assert WordBoxes.Texts(ts)[j] == ts[j].text;
    }
    var sel := WordBoxes.Selected(ts, WordBoxes.FirstAnchor(ts));
    forall w | w in WordBoxes.Texts(sel) ensures w in UserFiles.NonEmpty(WordBoxes.Texts(ts)) {
      var k :| 0 <= k < |sel| && WordBoxes.Texts(sel)[k] == w;
      WordBoxes.SelectedMembers(ts, WordBoxes.FirstAnchor(ts), sel[k]);
      var j :| 0 <= j < |ts| && ts[j] == sel[k];
      assert WordBoxes.Texts(ts)[j] == w;
    }
  }
}

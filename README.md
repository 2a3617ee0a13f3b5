# OCR username extraction — a Dafny model

This project models the core of `ocr_test_1.py`, a script that reads
screenshots of a mobile game's profile screen, runs OCR on them, and guesses
the player's username from the word boxes the OCR engine returns. Each
screenshot's results are filed into a per-user folder.

The heart of the script is the grouping rule in `draw_word_boxes`. It walks
the OCR tokens `(text, left, top, width, height)` in the order the engine
reported them:

- A token counts only if its text is not empty and its `top` is at least 4.
- The first such token sets the *anchor* row. The anchor is a plain integer
  that starts at 0, and 0 means "unset". Every set value is at least 4, so
  the anchor is never reset.
- A counting token whose `top` lies within ±10 of the anchor is boxed and
  labelled, and its text joins the name. If the name so far is longer than
  one character, the text is appended after `_`. Otherwise the text replaces
  the name.
- Every token's text, empty or not, goes into the word list.

Around that rule the model has:

- the fixed "pfp" crop,
- the directory name `make_user_dir` returns,
- the fallback directory `main` uses when no name was found (`user_<i>`),
- the text of the info file (the non-empty words, one per line),
- the QA name check against five known names,
- `main`'s loop over the directory listing.

Modules:

- `WordBoxes` (`word_boxes.dfy`): `draw_word_boxes` as a method with a loop.
  The method is proved against a left fold `Process`. The fold is proved equal
  to an independent reference that has three parts:
  - `FirstAnchor`: the first qualifying token's top;
  - `Selected`: a filter with a fixed anchor;
  - `JoinName`: the name rule applied to the selected words.
- `Crop` (`crop.dfy`): `crop_image` on a rectangular greyscale image.
- `UserFiles` (`user_files.dfy`): directory names, the decimal index,
  `create_user_info_file` as a method with a loop, and the file-text round trip.
- `NameCheck` (`name_check.dfy`): `check_if_name_accurate`.
- `Pipeline` (`pipeline.dfy`): the per-file loop of `main` as a method,
  proved against an entry-by-entry run whose lemmas hold for any
  per-screenshot extraction.

Details of the code that the model keeps as written:

- No characters (such as `"`) are stripped from the name.
- The join test is `len(name) > 1`, not "name is non-empty". So a
  one-character first word is replaced by the next one.
- Python slicing clamps to the image. A screenshot smaller than the crop
  region therefore gives a smaller or empty slice, not an error.
- The info file is named after the user name, not the directory. A nameless
  screenshot's file is `user_data/user_<i>_data/_data.txt`.
- `main` catches no exception. The loop ends at the first screenshot that
  cannot be read (`.copy()` on None) or whose OCR call raises (the
  Tesseract executable is missing or fails). Both are an entry whose
  `image` is None, and both stop before the QA count.
- The loop also ends at the first screenshot whose info file cannot be
  saved. Saving fails when `open` raises, or when `f.write` raises on a
  word that the file's default encoding cannot represent. The QA count is
  raised before the info file is saved, so it already includes that
  screenshot.
- Two further stops are left out (see "Left out"): `make_user_data_dir`
  re-raising an `os.mkdir` error other than `FileExistsError` before the
  loop starts, and an exception from `print`.

## Model

| member | source | states |
|---|---|---|
| `WordBoxes.DrawWordBoxes` | ocr_test_1.py:15-42 | the loop returns one word per token in input order (empty ones included), marks exactly for the selected tokens in input order, and the name obtained by joining the selected words onto the initial name |
| `WordBoxes.Step` | ocr_test_1.py:20-40 | one iteration: the text always joins the word list; a token with empty text or top < 4 changes nothing else; a set anchor is kept and an unset one becomes the token's top; a token in the band adds its mark and extends the name, any other leaves marks and name as they were |
| `WordBoxes.Process` | ocr_test_1.py:18-42 | after the loop there is one word per token, at most one mark per token, and the anchor is unset or at least 4 |
| `WordBoxes.ExtendShape` | ocr_test_1.py:34-38 | an extended name always ends with the new word; a name longer than one character is kept in front of it followed by `_`; a shorter name is replaced by the word |
| `WordBoxes.FirstAnchor` | ocr_test_1.py:25-28 | the anchor is unset iff no token has non-empty text and top ≥ 4; otherwise it is the top of the first such token, and it is at least 4 |
| `WordBoxes.ProcessMatchesReference` | ocr_test_1.py:18-42 | the loop state after any prefix equals the reference: anchor = first qualifying top, name = join of the in-band words, words = all texts, marks = marks of the in-band tokens |
| `WordBoxes.StepReference` | ocr_test_1.py:20-40 | one iteration of the loop body takes the reference for a prefix to the reference for the prefix extended by one token |
| `WordBoxes.AnchorNeverChanges` | ocr_test_1.py:26-28 | once the anchor is set it is at least 4 and no later token changes it |
| `WordBoxes.NonQualifyingTokenIgnored` | ocr_test_1.py:21-25 | deleting a token with empty text or top < 4 from anywhere leaves anchor, name and marks unchanged; its text is still in the word list |
| `WordBoxes.FirstAnchorSkip` | ocr_test_1.py:25-28 | a token that does not qualify never moves the anchor |
| `WordBoxes.SelectedSkip` | ocr_test_1.py:25-30 | a token that does not qualify is never selected, wherever it stands |
| `WordBoxes.SelectedMembers` | ocr_test_1.py:25-30 | a token is selected iff it is in the input, qualifies, and lies within ±10 of the anchor |
| `WordBoxes.MarkedIffInBand` | ocr_test_1.py:30-32 | a qualifying token is boxed and labelled iff its top is within ±10 of the anchor; there is one mark per selected token |
| `WordBoxes.FirstAnchorSnoc` | ocr_test_1.py:27-28 | appending a token sets the anchor only if it was unset and the token qualifies |
| `WordBoxes.FirstAnchorAppend` | ocr_test_1.py:27-28 | the anchor of a concatenation is the first part's anchor if set, else the second part's |
| `WordBoxes.SelectedAppend` | ocr_test_1.py:30 | with a fixed anchor, selection keeps input order and distributes over concatenation |
| `WordBoxes.NothingSelectedUnanchored` | ocr_test_1.py:25-30 | with no qualifying token, nothing is selected for any anchor |
| `WordBoxes.NoWordKeepsName` | ocr_test_1.py:18-42 | with no qualifying token the name comes back unchanged and nothing is drawn |
| `WordBoxes.JoinNameCons` | ocr_test_1.py:34-38 | joining a list of words equals joining the first word and then the rest |
| `WordBoxes.JoinNameLong` | ocr_test_1.py:34-35 | once the name has more than one character, every later word is appended after `_`, so the result is all of them joined by `_` |
| `WordBoxes.JoinNameFromShort` | ocr_test_1.py:34-38 | from a name of at most one character, when the first word has more than one character the result is the words joined by `_` in input order |
| `WordBoxes.SingleWord` | ocr_test_1.py:37-38 | from `""`, a single included word yields exactly that word |
| `WordBoxes.OneCharacterWordReplaced` | ocr_test_1.py:34-38 | from `""`, a one-character word followed by a word `b` yields `b`: the first word is replaced, not extended |
| `WordBoxes.TwoWordsInBand` | ocr_test_1.py:25-38 | "Alice" at row 50 then "Smith" at row 52 give "Alice_Smith" |
| `WordBoxes.SecondWordOutOfBand` | ocr_test_1.py:30 | "Alice" at row 50 then "Smith" at row 61 give "Alice" |
| `WordBoxes.Texts` | ocr_test_1.py:40 | the word list has one entry per token, entry i being token i's text |
| `WordBoxes.MarksOf` | ocr_test_1.py:31-32 | one mark per token: box `(x, y, x+w, y+h)` and label `(word, x, y-16)` |
| `Crop.CropImage` | ocr_test_1.py:65-71 | "pfp" gives rows 290..470 and columns 0..450 clamped to the image, pixel (i, j) of the slice being pixel (290+i, j) of the image; any other slice type is the unbound-local error |
| `Crop.PfpSliceOfFullScreenshot` | ocr_test_1.py:68-70 | on an image of at least 470×450 the slice is exactly 180×450 and equals the region |
| `Crop.ShortScreenshotGivesEmptySlice` | ocr_test_1.py:70 | an image of at most 290 rows gives an empty slice, not an error |
| `UserFiles.MakeUserDir` | ocr_test_1.py:82-90 | the returned name ends in `_data` and stripping that suffix gives back the user name |
| `UserFiles.MakeUserDirInjective` | ocr_test_1.py:90 | different user names give different directory names |
| `UserFiles.Decimal` | ocr_test_1.py:123 | the index is written as a non-empty run of decimal digits without a leading zero |
| `UserFiles.ParseDecimalOfDecimal` | ocr_test_1.py:123 | reading the written index back gives the index |
| `UserFiles.DecimalInjective` | ocr_test_1.py:123 | different indices are written differently |
| `UserFiles.UserDirFor` | ocr_test_1.py:120-123 | the directory's base name is the user name when it is non-empty, else `user_` followed by the index; it is never empty |
| `UserFiles.FallbackDirsDistinct` | ocr_test_1.py:120-123 | two nameless screenshots at different positions get different directories |
| `UserFiles.FallbackCanCollide` | ocr_test_1.py:120-123 | a screenshot named `user_3` and the nameless screenshot at position 3 share a directory |
| `UserFiles.NonEmpty` | ocr_test_1.py:96-97 | every kept word is non-empty, a word is kept iff it is a non-empty word of the list, and there are no more kept words than words |
| `UserFiles.NonEmptySingle` | ocr_test_1.py:96-97 | one word is kept iff it is non-empty |
| `UserFiles.NonEmptyAppend` | ocr_test_1.py:96-97 | filtering a concatenation filters each part in turn; with `NonEmptySingle` this fixes the order and the multiplicity of the kept words |
| `UserFiles.InfoFilePath` | ocr_test_1.py:94 | the info file is `user_data/<dir>/` followed by the user name and `_data.txt` |
| `UserFiles.ImagePath` | ocr_test_1.py:125 | the saved image is `user_data/<dir>/profile_<name>_img.png`, in the same directory as the info file and never at the info file's path |
| `UserFiles.RenderSnoc` | ocr_test_1.py:96-98 | writing one more line appends that word and a newline to the text |
| `UserFiles.SplitLinesThroughNewline` | ocr_test_1.py:98 | reading a line that ends in a newline yields that line and then the rest |
| `UserFiles.SplitRender` | ocr_test_1.py:96-98 | when no line contains a newline, splitting the written text into lines gives back the lines |
| `UserFiles.CreateUserInfoFile` | ocr_test_1.py:93-98 | the path is `user_data/<dir>/<name>_data.txt`; the text holds the non-empty words, one per line and in list order; reading it back line by line gives those words when no word contains a newline (OCR words never do) |
| `NameCheck.SpacesForUnderscores` | ocr_test_1.py:137 | the result has the same length as the input, each `_` becomes a space, every other character is kept, and no `_` remains |
| `NameCheck.SpellsIff` | ocr_test_1.py:137 | replacing the underscores of a name gives `v` iff the name has `_` exactly where `v` has a space and agrees with `v` elsewhere |
| `NameCheck.IsAccurate` | ocr_test_1.py:133-139 | a name is accepted iff it spells one of the five verified names, with `_` where that name has a space |
| `NameCheck.SpacesForUnderscoresAppend` | ocr_test_1.py:137 | the replacement works piece by piece over a concatenation |
| `NameCheck.AssembledNameChecked` | ocr_test_1.py:135-139 | a name joined by `_` from words without `_` is accepted iff the same words joined by spaces are a verified name |
| `NameCheck.SuperMarioAccepted` | ocr_test_1.py:135-139 | the two-line name `SUPER_MARIO` is accepted |
| `Pipeline.Successes` | ocr_test_1.py:116-117 | the success count never exceeds the number of outcomes counted |
| `Pipeline.IsPng` | ocr_test_1.py:105 | a file name is a screenshot iff it is some stem followed by `.png` |
| `Pipeline.Extract` | ocr_test_1.py:104-126 | the outcome of a screenshot records its position in the listing |
| `Pipeline.ExtractSpec` | ocr_test_1.py:104-126 | a screenshot's outcome has the name and marks of the `draw_word_boxes` loop started from `""`, which are those of the in-band words; the QA verdict on that name; a directory named after the name, or `user_<i>` when it is empty; the image and info paths in that directory; and the non-empty words, one per line |
| `Pipeline.Next` | ocr_test_1.py:104-127 | one iteration of the loop: outcomes are only added, at most one per entry; the QA count grows by at most one; after a stop nothing changes; a new stop is at this entry, which is a `.png` |
| `Pipeline.RunAll` | ocr_test_1.py:104-127 | the whole loop never has more outcomes, nor a higher QA count, than there are entries |
| `Pipeline.ProcessScreenshot` | ocr_test_1.py:107-126 | one screenshot that could be read: the QA verdict and the info path are those of its outcome, and the outcome is produced iff the info file with that path and text can be saved |
| `Pipeline.ProcessScreenshots` | ocr_test_1.py:101-128 | the loop's outcomes, QA count and stopping point are those of the entry-by-entry run; when it did not stop, the count is the number of accepted outcomes |
| `Pipeline.SuccessesCounted` | ocr_test_1.py:114-126 | the QA count is the number of accepted outcomes, plus at most one: the screenshot whose info file could not be saved, which was counted before `open` or `f.write` raised |
| `Pipeline.ResultsAreExtractions` | ocr_test_1.py:104-126 | each outcome belongs to a readable `.png` entry at its listing position and is that entry's extraction |
| `Pipeline.ResultsInListingOrder` | ocr_test_1.py:104 | outcomes come in listing order, at strictly increasing positions inside the listing |
| `Pipeline.AbortPoint` | ocr_test_1.py:104-108 | when the loop stopped, it stopped at a `.png` entry after every outcome, one that could not be read or whose info file, with the path and text of its extraction, could not be saved |
| `Pipeline.EveryPngExtracted` | ocr_test_1.py:104-105 | every `.png` entry before the stopping point, or every one when the loop did not stop, was read and has its outcome |
| `Pipeline.NextOutcome` | ocr_test_1.py:104-126 | an entry adds an outcome only if it is a readable `.png` entry reached before any stop, and the outcome is its own extraction; a `.png` entry that does not stop the loop adds its extraction |
| `Pipeline.NoFailureNoAbort` | ocr_test_1.py:104-108 | when every screenshot can be read and every info file saved, the loop does not stop early |
| `Pipeline.DirectoriesOnlySharedByName` | ocr_test_1.py:120-123 | two screenshots share a directory only if they have the same name, or one's name is the other's `user_<i>` fallback; never when both are nameless |
| `Pipeline.NameWordsInInfoFile` | ocr_test_1.py:93-98 | every non-empty OCR word is in the info file, in the band or not; in particular every word of the extracted name is |

## Left out

- The OCR engine (`pytesseract.image_to_data`) and its install path. Its
  output is an input to the model: one token sequence per screenshot, in the
  order the engine reported it.
- WordBoxes.DrawWordBoxes: returns the rectangles and labels as a list of
  marks instead of painting them into the image in place. Colours, line
  thickness and font are pixel effects and are not modelled.
- Window display and resizing (`create_window`, `show_img_in_window`,
  `get_resized_img`). These are UI plus a floating-point resize.
- Filesystem effects: creating `user_data` (`make_user_data_dir`), `os.mkdir`,
  opening and writing the info file, `cv2.imread`, `cv2.imwrite`. Only the
  names, paths and file text are modelled. The directory listing, in the
  order `os.listdir` returns it, is an input to `Pipeline.ProcessScreenshots`.
- Pipeline.ProcessScreenshots: whether the info file can be saved is a
  parameter of the path and the text, not derived from them. It depends on
  the operating system, the permissions and the default file encoding:
  - a name containing `/`, or on Windows `"`, `:` or `?`, makes `os.mkdir`
    fail silently and then `open` raise;
  - a word outside the encoding's code page (such as the ligature `ﬁ` under
    cp1252) makes `f.write` raise.

  A screenshot that cannot be read, or whose `pytesseract.image_to_data`
  call raises (`TesseractNotFoundError`, `TesseractError`), is an entry
  whose `image` is None: both end the loop after the image is loaded and
  before the QA count, and the model does not tell them apart. An empty
  token list is a readable screenshot with no words. Both kinds of
  failure stop the loop, and the model stops there too. The lines written
  before a failing `f.write` remain in the file; the model does not record
  that partial file. A failing `cv2.imwrite` returns False instead of
  raising, so it does not stop the loop and is not modelled.
- Pipeline.ProcessScreenshots: `print(msg)` can raise when standard output
  cannot encode the name, and that would also end `main`. Console output is
  not modelled, so the model does not stop there.
- Pipeline.ProcessScreenshots: `make_user_data_dir` swallows only
  `FileExistsError`; any other `os.mkdir` error on `user_data` (such as
  `PermissionError`) ends `main` before the loop. The model starts at the
  loop and does not model that failure.
- Pipeline.ProcessScreenshot: the same two gaps hold for one screenshot.
  Saving is the parameter described above, and a failing `print` is not
  modelled.
- Printing the per-image QA message and the final percentage, and
  `plt.show()`. The percentage is floating point; the success count that
  feeds it is modelled.
- Crop.CropImage: only the greyscale case is modelled, as `cv2.imread(..., 0)`
  produces. The image is a value, because `crop_image` slices a copy.
- `initial_test_environment.py` is not part of this model. It is an earlier
  version of the same script, built around display, and its crop repeats
  the "pfp" region.

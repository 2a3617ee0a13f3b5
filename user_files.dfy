/**
 * Names and contents of the per-user output (ocr_test_1.py): the directory
 * name `make_user_dir` returns, the fallback name `main` picks when no
 * username was found, and the text written by `create_user_info_file`.
 * Creating directories and writing files are not modelled; only the
 * strings involved are.
 */
module UserFiles {

  const RootDir: string := "user_data"
  const DataSuffix: string := "_data"
  const FallbackPrefix: string := "user_"
  const InfoSuffix: string := "_data.txt"

  // ---------------------------------------------------------------------
  // Directory names
  // ---------------------------------------------------------------------

  predicate HasDataSuffix(dir: string) {
    |dir| >= |DataSuffix| && dir[|dir| - |DataSuffix|..] == DataSuffix
  }

  /** The user name a data directory name stands for. */
  function StripDataSuffix(dir: string): string
    requires HasDataSuffix(dir)
  {
    dir[..|dir| - |DataSuffix|]
  }

  /**
   * The value `make_user_dir` returns.  It returns from a `finally` block,
   * which discards any exception `os.mkdir` raised, so the result is the
   * same whether the directory was created, already existed, or could not
   * be made.
   */
  function MakeUserDir(name: string): (dir: string)
    ensures HasDataSuffix(dir) && StripDataSuffix(dir) == name
  {
    var dir := name + DataSuffix;
    assert dir[..|name|] == name;
    dir
  }

  /** Different user names never share a directory. */
  lemma MakeUserDirInjective(a: string, b: string)
    requires MakeUserDir(a) == MakeUserDir(b)
    ensures a == b
  {
  }

  // ---------------------------------------------------------------------
  // Decimal rendering of the file index (Python's f"{i}" for i >= 0)
  // ---------------------------------------------------------------------

  function DigitChar(d: nat): char
    requires d < 10
  {
    "0123456789"[d]
  }

  predicate IsDigit(c: char) {
    '0' <= c <= '9'
  }

  function DigitValue(c: char): nat
    requires IsDigit(c)
  {
    (c - '0') as nat
  }

  /** The decimal digits of `n`, most significant first, without leading zeros. */
  function Decimal(n: nat): (s: string)
    ensures |s| >= 1
    ensures forall i :: 0 <= i < |s| ==> IsDigit(s[i])
    ensures |s| > 1 ==> s[0] != '0'
    decreases n
  {
    if n < 10 then [DigitChar(n)] else Decimal(n / 10) + [DigitChar(n % 10)]
  }

  /** The value of a string of decimal digits. */
  function ParseDecimal(s: string): nat
    requires forall i :: 0 <= i < |s| ==> IsDigit(s[i])
    decreases |s|
  {
    if s == [] then 0 else ParseDecimal(s[..|s| - 1]) * 10 + DigitValue(s[|s| - 1])
  }

  /** Reading the digits back gives the number. */
  lemma {:induction false} ParseDecimalOfDecimal(n: nat)
    ensures ParseDecimal(Decimal(n)) == n
    decreases n
  {
    var s := Decimal(n);
    if n >= 10 {
      ParseDecimalOfDecimal(n / 10);
      assert s[..|s| - 1] == Decimal(n / 10);
    }
  }

  /** Different indices are written differently. */
  lemma DecimalInjective(i: nat, j: nat)
    requires Decimal(i) == Decimal(j)
    ensures i == j
  {
    ParseDecimalOfDecimal(i);
    ParseDecimalOfDecimal(j);
  }

  // ---------------------------------------------------------------------
  // The directory main chooses
  // ---------------------------------------------------------------------

  /**
   * The directory `main` uses for the image at listing position `index`:
   * the extracted name when it is not empty, else "user_" and the index.
   */
  function UserDirFor(userName: string, index: nat): (dir: string)
    ensures HasDataSuffix(dir) && StripDataSuffix(dir) != ""
    ensures userName != "" ==> StripDataSuffix(dir) == userName
    ensures userName == "" ==> StripDataSuffix(dir) == FallbackPrefix + Decimal(index)
  {
    if userName != "" then MakeUserDir(userName)
    else MakeUserDir(FallbackPrefix + Decimal(index))
  }

  /** Two images without a username never share a fallback directory. */
  lemma FallbackDirsDistinct(i: nat, j: nat)
    requires i != j
    ensures UserDirFor("", i) != UserDirFor("", j)
  {
    if UserDirFor("", i) == UserDirFor("", j) {
      var a, b := FallbackPrefix + Decimal(i), FallbackPrefix + Decimal(j);
      assert a == b;
      assert Decimal(i) == a[|FallbackPrefix|..] == b[|FallbackPrefix|..] == Decimal(j);
      DecimalInjective(i, j);
    }
  }

  /**
   * The fallback name is not reserved: an image whose extracted name is
   * literally "user_3" shares its directory with the nameless image at
   * position 3.
   */
  lemma FallbackCanCollide()
    ensures UserDirFor("user_3", 0) == UserDirFor("", 3)
  {
    assert Decimal(3) == "3";
  }

  // ---------------------------------------------------------------------
  // The info file
  // ---------------------------------------------------------------------

  /** The path of a user's directory, with its trailing separator. */
  function DirPath(userDir: string): string {
    RootDir + "/" + userDir + "/"
  }

  /**
   * Where `create_user_info_file` writes: inside the user's directory, in a
   * file named after the user name (not the directory) and ending "_data.txt".
   */
  function InfoFilePath(userDir: string, userName: string): (path: string)
    ensures |path| == |DirPath(userDir)| + |userName| + |InfoSuffix|
    ensures path[..|DirPath(userDir)|] == DirPath(userDir)
    ensures path[|DirPath(userDir)|..|path| - |InfoSuffix|] == userName
    ensures path[|path| - |InfoSuffix|..] == InfoSuffix
  {
    DirPath(userDir) + userName + InfoSuffix
  }

  /**
   * Where `main` writes the annotated image: in the same directory as the
   * info file, named "profile_<user name>_img.png", so it never overwrites
   * the info file.
   */
  function ImagePath(userDir: string, userName: string): (path: string)
    ensures |path| == |DirPath(userDir)| + |"profile_" + userName + "_img.png"|
    ensures path[..|DirPath(userDir)|] == DirPath(userDir)
    ensures path[|DirPath(userDir)|..] == "profile_" + userName + "_img.png"
    ensures path != InfoFilePath(userDir, userName)
  {
    var path := DirPath(userDir) + "profile_" + userName + "_img.png";
    assert path[|path| - 1] == 'g' != InfoFilePath(userDir, userName)[|InfoFilePath(userDir, userName)| - 1];
    path
  }

  /** The non-empty words, in order. */
  function NonEmpty(ws: seq<string>): (r: seq<string>)
    ensures forall i :: 0 <= i < |r| ==> r[i] != ""
    ensures forall w :: w in r <==> w in ws && w != ""
    ensures |r| <= |ws|
    decreases |ws|
  {
    if ws == [] then []
    else NonEmpty(ws[..|ws| - 1]) + if ws[|ws| - 1] != "" then [ws[|ws| - 1]] else []
  }

  /** Keeping the non-empty words of one word. */
  lemma NonEmptySingle(w: string)
    ensures NonEmpty([w]) == if w == "" then [] else [w]
  {
    assert [w][..0] == [];
  }

  /**
   * Filtering distributes over concatenation, so together with
   * NonEmptySingle it fixes the order and the multiplicity of the kept
   * words: each non-empty word is kept once, at its place in the list.
   */
  lemma {:induction false} NonEmptyAppend(a: seq<string>, b: seq<string>)
    ensures NonEmpty(a + b) == NonEmpty(a) + NonEmpty(b)
    decreases |b|
  {
    if b == [] {
      assert a + b == a;
    } else {
      var q := b[..|b| - 1];
      assert (a + b)[..|a + b| - 1] == a + q;
      NonEmptyAppend(a, q);
    }
  }

  /** The text of a file holding one line per entry, each ended by a newline. */
  function Render(lines: seq<string>): string
    decreases |lines|
  {
    if lines == [] then "" else lines[0] + "\n" + Render(lines[1..])
  }

  /** The lines of a text file; a final line without a newline still counts. */
  function SplitLines(s: string, current: string): seq<string>
    decreases |s|
  {
    if s == [] then (if current == "" then [] else [current])
    else if s[0] == '\n' then [current] + SplitLines(s[1..], "")
    else SplitLines(s[1..], current + [s[0]])
  }

  lemma {:induction false} RenderSnoc(lines: seq<string>, l: string)
    ensures Render(lines + [l]) == Render(lines) + l + "\n"
    decreases |lines|
  {
    if lines != [] {
      assert (lines + [l])[1..] == lines[1..] + [l];
      RenderSnoc(lines[1..], l);
    } else {
      assert Render([l]) == l + "\n" + Render([]);
    }
  }

  lemma {:induction false} SplitLinesThroughNewline(w: string, rest: string, current: string)
    requires '\n' !in w
    ensures SplitLines(w + "\n" + rest, current) == [current + w] + SplitLines(rest, "")
    decreases |w|
  {
    if w == [] {
      assert w + "\n" + rest == "\n" + rest;
      assert current + w == current;
    } else {
      assert (w + "\n" + rest)[1..] == w[1..] + "\n" + rest;
      SplitLinesThroughNewline(w[1..], rest, current + [w[0]]);
      assert current + [w[0]] + w[1..] == current + w;
    }
  }

  /** Reading the file back line by line gives the lines written. */
  lemma {:induction false} SplitRender(lines: seq<string>)
    requires forall i :: 0 <= i < |lines| ==> '\n' !in lines[i]
    ensures SplitLines(Render(lines), "") == lines
    decreases |lines|
  {
    if lines != [] {
      SplitLinesThroughNewline(lines[0], Render(lines[1..]), "");
      assert "" + lines[0] == lines[0];
      SplitRender(lines[1..]);
    }
  }

  /**
   * `create_user_info_file`: the path written to and the text written, one
   * line per non-empty word, in list order.
   */
  method CreateUserInfoFile(userDir: string, userName: string, wordList: seq<string>)
    returns (path: string, content: string)
    ensures path == InfoFilePath(userDir, userName)
    ensures content == Render(NonEmpty(wordList))
    ensures (forall i :: 0 <= i < |wordList| ==> '\n' !in wordList[i]) ==>
      SplitLines(content, "") == NonEmpty(wordList)
  {
    path := DirPath(userDir) + userName + InfoSuffix;
    content := "";
    for i := 0 to |wordList|
      invariant content == Render(NonEmpty(wordList[..i]))
    {
      var word := wordList[i];
      assert wordList[..i + 1][..i] == wordList[..i];
      if word != "" {
        assert NonEmpty(wordList[..i + 1]) == NonEmpty(wordList[..i]) + [word];
        RenderSnoc(NonEmpty(wordList[..i]), word);
        content := content + word + "\n";
      } else {
        assert NonEmpty(wordList[..i + 1]) == NonEmpty(wordList[..i]) + [] == NonEmpty(wordList[..i]);
      }
    }
    assert wordList[..|wordList|] == wordList;
    if forall i :: 0 <= i < |wordList| ==> '\n' !in wordList[i] {
      var lines := NonEmpty(wordList);
      forall k | 0 <= k < |lines| ensures '\n' !in lines[k] {
        assert lines[k] in wordList;
      }
      SplitRender(lines);
    }
  }
}

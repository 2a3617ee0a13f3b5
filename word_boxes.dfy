/**
 * The username heuristic of `draw_word_boxes` (ocr_test_1.py).
 *
 * The OCR engine is not modelled: its output arrives as a sequence of
 * tokens in the order the engine reported them.  Drawing a rectangle and a
 * label onto the image is modelled as appending a `Mark` to a list.
 */
module WordBoxes {

  /** One word reported by the OCR engine, with its bounding box in pixels. */
  datatype Token = Token(text: string, left: int, top: int, width: int, height: int)

  /** The rectangle `(x, y) - (x + w, y + h)` drawn around a word. */
  datatype Box = Box(x1: int, y1: int, x2: int, y2: int)

  /** The text drawn at `(x, y - 16)` above a word. */
  datatype Label = Label(word: string, x: int, y: int)

  /** Everything drawn for one word of the username. */
  datatype Mark = Mark(box: Box, caption: Label)

  /** Tokens whose top edge lies above this row never count. */
  const MinTop: int := 4
  /** Half-width of the band around the anchor row. */
  const Tolerance: int := 10
  /** The anchor is a plain integer; 0 is falsy and means "not set yet". */
  const Unset: int := 0
  /** Vertical offset of a label above its word. */
  const LabelRise: int := 16

  /** A token that may anchor the band or join the name: non-empty text, top at least 4. */
  predicate Qualifies(t: Token) {
    t.text != "" && t.top >= MinTop
  }

  /** Whether row `y` lies within the tolerance band around `anchor` (both ends included). */
  predicate InBand(y: int, anchor: int) {
    anchor - Tolerance <= y <= anchor + Tolerance
  }

  function MarkOf(t: Token): Mark {
    Mark(Box(t.left, t.top, t.left + t.width, t.top + t.height), Label(t.text, t.left, t.top - LabelRise))
  }

  /**
   * How one included word changes the accumulated name: the word always
   * ends the result; a name longer than one character is kept in front of
   * it, followed by "_"; a shorter name is dropped.  ExtendShape states this.
   */
  function Extend(name: string, word: string): string {
    if |name| > 1 then name + "_" + word else word
  }

  /** The shape of an extended name. */
  lemma ExtendShape(name: string, word: string)
    ensures var r := Extend(name, word);
      |r| >= |word| && r[|r| - |word|..] == word
    ensures var r := Extend(name, word);
      |name| > 1 ==> |r| == |name| + 1 + |word| && r[..|name|] == name && r[|name|] == '_'
    ensures |name| <= 1 ==> Extend(name, word) == word
  {
  }

  // ---------------------------------------------------------------------
  // The loop of draw_word_boxes as a left fold over the tokens
  // ---------------------------------------------------------------------

  /** The local state of the loop: anchor row, name so far, word list, marks drawn. */
  datatype State = State(anchor: int, name: string, words: seq<string>, marks: seq<Mark>)

  /**
   * One iteration of the loop body: the text always joins the word list; a
   * token that does not qualify changes nothing else; a set anchor stays;
   * an unset one becomes the top of the first qualifying token; a token in
   * the band is marked and extends the name.
   */
  function Step(s: State, t: Token): (r: State)
    ensures r.words == s.words + [t.text]
    ensures !Qualifies(t) ==> r == s.(words := r.words)
    ensures s.anchor != Unset ==> r.anchor == s.anchor
    ensures Qualifies(t) && s.anchor == Unset ==> r.anchor == t.top
    ensures Qualifies(t) && InBand(t.top, r.anchor) ==>
      r.marks == s.marks + [MarkOf(t)] && r.name == Extend(s.name, t.text)
    ensures !(Qualifies(t) && InBand(t.top, r.anchor)) ==> r.marks == s.marks && r.name == s.name
  {
    var words := s.words + [t.text];
    if !Qualifies(t) then
      s.(words := words)
    else
      var anchor := if s.anchor == Unset then t.top else s.anchor;
      if InBand(t.top, anchor) then
        State(anchor, Extend(s.name, t.text), words, s.marks + [MarkOf(t)])
      else
        State(anchor, s.name, words, s.marks)
  }

  /**
   * The loop state after the tokens `ts`, starting from the name `name`:
   * one word per token, at most one mark per token, and an anchor that is
   * either unset or at least 4.
   */
  function Process(name: string, ts: seq<Token>): (r: State)
    ensures |r.words| == |ts|
    ensures |r.marks| <= |ts|
    ensures r.anchor == Unset || r.anchor >= MinTop
    decreases |ts|
  {
    if ts == [] then State(Unset, name, [], [])
    else Step(Process(name, ts[..|ts| - 1]), ts[|ts| - 1])
  }

  // ---------------------------------------------------------------------
  // Reference definitions, independent of the loop
  // ---------------------------------------------------------------------

  /** The top of the first qualifying token, or Unset when no token qualifies. */
  function FirstAnchor(ts: seq<Token>): (r: int)
    ensures r == Unset <==> forall i :: 0 <= i < |ts| ==> !Qualifies(ts[i])
    ensures r != Unset ==> r >= MinTop
    ensures r != Unset ==>
      exists i :: 0 <= i < |ts| && Qualifies(ts[i]) && ts[i].top == r &&
        forall j :: 0 <= j < i ==> !Qualifies(ts[j])
  {
    if ts == [] then Unset
    else if Qualifies(ts[0]) then
      ts[0].top
    else
      var r := FirstAnchor(ts[1..]);
      assert forall i :: 1 <= i < |ts| ==> ts[i] == ts[1..][i - 1];
      assert r != Unset ==>
        exists i :: 0 <= i < |ts| && Qualifies(ts[i]) && ts[i].top == r &&
                    forall j :: 0 <= j < i ==> !Qualifies(ts[j])
      by {
        if r != Unset {
          var k :| 0 <= k < |ts[1..]| && Qualifies(ts[1..][k]) && ts[1..][k].top == r &&
            forall j :: 0 <= j < k ==> !Qualifies(ts[1..][j]);
          assert Qualifies(ts[k + 1]) && ts[k + 1].top == r;
          assert forall j :: 0 <= j < k + 1 ==> !Qualifies(ts[j]) by {
            forall j | 0 <= j < k + 1 ensures !Qualifies(ts[j]) {
              if j > 0 { assert ts[j] == ts[1..][j - 1]; }
            }
          }
        }
      }
      r
  }

  /** The tokens that qualify and lie in the band around `anchor`, in input order. */
  function Selected(ts: seq<Token>, anchor: int): (r: seq<Token>)
    decreases |ts|
  {
    if ts == [] then []
    else
      var t := ts[|ts| - 1];
      Selected(ts[..|ts| - 1], anchor) + if Qualifies(t) && InBand(t.top, anchor) then [t] else []
  }

  /** The text of every token, one entry per token. */
  function Texts(ts: seq<Token>): (r: seq<string>)
    ensures |r| == |ts|
    ensures forall i :: 0 <= i < |ts| ==> r[i] == ts[i].text
    decreases |ts|
  {
    if ts == [] then [] else Texts(ts[..|ts| - 1]) + [ts[|ts| - 1].text]
  }

  /** The marks drawn for the tokens `ts`, one per token. */
  function MarksOf(ts: seq<Token>): (r: seq<Mark>)
    ensures |r| == |ts|
    ensures forall i :: 0 <= i < |ts| ==> r[i] == MarkOf(ts[i])
    decreases |ts|
  {
    if ts == [] then [] else MarksOf(ts[..|ts| - 1]) + [MarkOf(ts[|ts| - 1])]
  }

  /** The name after folding the words `ws`, in order, into `name` with Extend. */
  function JoinName(name: string, ws: seq<string>): string
    decreases |ws|
  {
    if ws == [] then name else Extend(JoinName(name, ws[..|ws| - 1]), ws[|ws| - 1])
  }

  /** The words joined by `sep`; with "_" this is a multi-line username. */
  function Joined(ws: seq<string>, sep: string): string
    requires ws != []
    decreases |ws|
  {
    if |ws| == 1 then ws[0] else Joined(ws[..|ws| - 1], sep) + sep + ws[|ws| - 1]
  }

  /** What draw_word_boxes should produce: anchor, name, word list and marks. */
  function Reference(name: string, ts: seq<Token>): State {
    var sel := Selected(ts, FirstAnchor(ts));
    State(FirstAnchor(ts), JoinName(name, Texts(sel)), Texts(ts), MarksOf(sel))
  }

  // ---------------------------------------------------------------------
  // The imperative loop, proved against the reference
  // ---------------------------------------------------------------------

  /**
   * The loop of draw_word_boxes.  Returns the username, the list of all
   * OCR words and the marks that would be drawn onto the image.
   */
  method DrawWordBoxes(tokens: seq<Token>, activeUserName: string)
    returns (userName: string, wordList: seq<string>, marks: seq<Mark>)
    ensures |wordList| == |tokens|
    ensures forall i :: 0 <= i < |tokens| ==> wordList[i] == tokens[i].text
    ensures marks == MarksOf(Selected(tokens, FirstAnchor(tokens)))
    ensures userName == JoinName(activeUserName, Texts(Selected(tokens, FirstAnchor(tokens))))
  {
    var anchor := Unset;
    userName := activeUserName;
    wordList := [];
    marks := [];
    for i := 0 to |tokens|
      invariant Process(activeUserName, tokens[..i]) == State(anchor, userName, wordList, marks)
    {
      var t := tokens[i];
      if t.text != "" {
        if t.top >= MinTop {
          if anchor == Unset {
            anchor := t.top;
          }
          if t.top <= anchor + Tolerance && t.top >= anchor - Tolerance {
            marks := marks + [MarkOf(t)];
            if |userName| > 1 {
              userName := userName + "_" + t.text;
            } else {
              userName := t.text;
            }
          }
        }
      }
      wordList := wordList + [t.text];
      assert tokens[..i + 1][..i] == tokens[..i];
    }
    assert tokens[..|tokens|] == tokens;
    ProcessMatchesReference(activeUserName, tokens);
  }

  // ---------------------------------------------------------------------
  // Lemmas
  // ---------------------------------------------------------------------

  /** Appending one token changes the first anchor only if none was found before. */
  lemma {:induction false} FirstAnchorSnoc(ts: seq<Token>, t: Token)
    ensures FirstAnchor(ts + [t]) ==
      if FirstAnchor(ts) != Unset then FirstAnchor(ts)
      else if Qualifies(t) then t.top
      else Unset
  {
    if ts != [] {
      assert (ts + [t])[1..] == ts[1..] + [t];
      FirstAnchorSnoc(ts[1..], t);
    }
  }

  /** Without a qualifying token nothing is selected, whatever the anchor. */
  lemma {:induction false} NothingSelectedUnanchored(ts: seq<Token>, anchor: int)
    requires FirstAnchor(ts) == Unset
    ensures Selected(ts, anchor) == []
    decreases |ts|
  {
    if ts != [] {
      var p := ts[..|ts| - 1];
      assert forall i :: 0 <= i < |p| ==> p[i] == ts[i];
      NothingSelectedUnanchored(p, anchor);
      assert !Qualifies(ts[|ts| - 1]);
    }
  }

  /** One loop iteration takes the reference for `ts` to the reference for `ts + [t]`. */
  lemma StepReference(name: string, ts: seq<Token>, t: Token)
    ensures Step(Reference(name, ts), t) == Reference(name, ts + [t])
  {
    var ts' := ts + [t];
    assert ts'[..|ts|] == ts;
    FirstAnchorSnoc(ts, t);
    var a, A := FirstAnchor(ts), FirstAnchor(ts');
    if a == Unset {
      NothingSelectedUnanchored(ts, a);
      NothingSelectedUnanchored(ts, A);
    }
    var sel := Selected(ts, A);
    assert Selected(ts, a) == sel;
    assert Texts(ts') == Texts(ts) + [t.text];
    if Qualifies(t) && InBand(t.top, A) {
      assert Selected(ts', A) == sel + [t];
      assert (sel + [t])[..|sel|] == sel;
      assert Texts(sel + [t]) == Texts(sel) + [t.text];
      assert MarksOf(sel + [t]) == MarksOf(sel) + [MarkOf(t)];
    } else {
      assert Selected(ts', A) == sel + [] == sel;
    }
  }

  /** The loop computes the reference: anchor, name, word list and marks. */
  lemma {:induction false} ProcessMatchesReference(name: string, ts: seq<Token>)
    ensures Process(name, ts) == Reference(name, ts)
    decreases |ts|
  {
    if ts != [] {
      var p, t := ts[..|ts| - 1], ts[|ts| - 1];
      assert ts == p + [t];
      ProcessMatchesReference(name, p);
      StepReference(name, p, t);
    }
  }

  /** Selection distributes over concatenation. */
  lemma {:induction false} SelectedAppend(a: seq<Token>, b: seq<Token>, anchor: int)
    ensures Selected(a + b, anchor) == Selected(a, anchor) + Selected(b, anchor)
    decreases |b|
  {
    if b == [] {
      assert a + b == a;
    } else {
      var q, t := b[..|b| - 1], b[|b| - 1];
      assert a + b == (a + q) + [t];
      assert (a + b)[..|a + b| - 1] == a + q;
      SelectedAppend(a, q, anchor);
    }
  }

  /** The first anchor of a concatenation. */
  lemma {:induction false} FirstAnchorAppend(a: seq<Token>, b: seq<Token>)
    ensures FirstAnchor(a + b) == if FirstAnchor(a) != Unset then FirstAnchor(a) else FirstAnchor(b)
    decreases |a|
  {
    if a == [] {
      assert a + b == b;
    } else {
      assert (a + b)[1..] == a[1..] + b;
      FirstAnchorAppend(a[1..], b);
    }
  }

  /** A token is selected iff it is one of the input tokens, qualifies, and lies in the band. */
  lemma {:induction false} SelectedMembers(ts: seq<Token>, anchor: int, t: Token)
    ensures t in Selected(ts, anchor) <==> t in ts && Qualifies(t) && InBand(t.top, anchor)
    decreases |ts|
  {
    if ts != [] {
      var p := ts[..|ts| - 1];
      assert ts == p + [ts[|ts| - 1]];
      SelectedMembers(p, anchor, t);
    }
  }

  /**
   * Once the anchor is set it never changes: later tokens leave it alone,
   * because a set anchor is at least 4 and so never reads as unset.
   */
  lemma AnchorNeverChanges(name: string, ts: seq<Token>, more: seq<Token>)
    requires Process(name, ts).anchor != Unset
    ensures Process(name, ts + more).anchor == Process(name, ts).anchor
    ensures Process(name, ts).anchor >= MinTop
  {
    ProcessMatchesReference(name, ts);
    ProcessMatchesReference(name, ts + more);
    FirstAnchorAppend(ts, more);
  }

  /** Deleting a non-qualifying token does not move the first anchor. */
  lemma FirstAnchorSkip(a: seq<Token>, t: Token, b: seq<Token>)
    requires !Qualifies(t)
    ensures FirstAnchor(a + [t] + b) == FirstAnchor(a + b)
  {
    assert a + [t] + b == a + ([t] + b);
    FirstAnchorAppend(a, [t] + b);
    FirstAnchorAppend([t], b);
    FirstAnchorAppend(a, b);
  }

  /** Deleting a non-qualifying token does not change the selection. */
  lemma SelectedSkip(a: seq<Token>, t: Token, b: seq<Token>, anchor: int)
    requires !Qualifies(t)
    ensures Selected(a + [t] + b, anchor) == Selected(a + b, anchor)
  {
    assert a + [t] + b == a + ([t] + b);
    SelectedAppend(a, [t] + b, anchor);
    SelectedAppend([t], b, anchor);
    SelectedAppend(a, b, anchor);
    assert Selected([t], anchor) == Selected([], anchor) + [];
  }

  /**
   * A token with empty text, or with top < 4, never affects the anchor, the
   * name or the marks: deleting it from anywhere in the input leaves those
   * unchanged.  It still contributes its text to the word list.
   */
  lemma NonQualifyingTokenIgnored(name: string, a: seq<Token>, t: Token, b: seq<Token>)
    requires !Qualifies(t)
    ensures var with, without := Process(name, a + [t] + b), Process(name, a + b);
      with.anchor == without.anchor && with.name == without.name && with.marks == without.marks &&
      with.words == Texts(a) + [t.text] + Texts(b)
  {
    ProcessMatchesReference(name, a + [t] + b);
    ProcessMatchesReference(name, a + b);
    FirstAnchorSkip(a, t, b);
    SelectedSkip(a, t, b, FirstAnchor(a + b));
    assert Texts(a + [t] + b) == Texts(a) + [t.text] + Texts(b);
  }

  /**
   * The band test: a qualifying input token is marked (and its text joins
   * the name) iff its top is within 10 rows of the anchor; there is one
   * mark per selected token.
   */
  lemma MarkedIffInBand(name: string, ts: seq<Token>, t: Token)
    requires t in ts && Qualifies(t)
    ensures var s := Process(name, ts);
      (MarkOf(t) in s.marks <==> InBand(t.top, s.anchor)) &&
      |s.marks| == |Selected(ts, s.anchor)|
  {
    ProcessMatchesReference(name, ts);
    var A := FirstAnchor(ts);
    var sel := Selected(ts, A);
    SelectedMembers(ts, A, t);
    if InBand(t.top, A) {
      var k :| 0 <= k < |sel| && sel[k] == t;
      assert MarksOf(sel)[k] == MarkOf(t);
    }
    if MarkOf(t) in MarksOf(sel) {
      var k :| 0 <= k < |sel| && MarksOf(sel)[k] == MarkOf(t);
      assert sel[k] == t;
      assert sel[k] in sel;
    }
  }

  /** Folding words into a name: one word at the front. */
  lemma {:induction false} JoinNameCons(name: string, w: string, ws: seq<string>)
    ensures JoinName(name, [w] + ws) == JoinName(Extend(name, w), ws)
    decreases |ws|
  {
    if ws == [] {
      assert ([w] + ws)[..0] == [];
    } else {
      var q := ws[..|ws| - 1];
      assert ([w] + ws)[..|ws|] == [w] + q;
      JoinNameCons(name, w, q);
    }
  }

  /** Once the name is longer than one character every later word is appended after "_". */
  lemma {:induction false} JoinNameLong(name: string, ws: seq<string>)
    requires |name| > 1
    ensures JoinName(name, ws) == Joined([name] + ws, "_")
    ensures |JoinName(name, ws)| > 1
    decreases |ws|
  {
    if ws != [] {
      var q := ws[..|ws| - 1];
      JoinNameLong(name, q);
      assert ([name] + ws)[..|[name] + ws| - 1] == [name] + q;
    }
  }

  /**
   * Starting from a name of at most one character (main passes ""), the
   * first word replaces it; if that word is longer than one character the
   * result is all words joined by "_", in input order.
   */
  lemma JoinNameFromShort(name: string, ws: seq<string>)
    requires |name| <= 1 && ws != [] && |ws[0]| > 1
    ensures JoinName(name, ws) == Joined(ws, "_")
  {
    assert ws == [ws[0]] + ws[1..];
    JoinNameCons(name, ws[0], ws[1..]);
    JoinNameLong(ws[0], ws[1..]);
  }

  /** With no included word the name is returned unchanged. */
  lemma NoWordKeepsName(name: string, ts: seq<Token>)
    requires forall i :: 0 <= i < |ts| ==> !Qualifies(ts[i])
    ensures Process(name, ts).name == name && Process(name, ts).marks == []
  {
    ProcessMatchesReference(name, ts);
    NothingSelectedUnanchored(ts, Unset);
  }

  /** Starting from "", a single included word yields exactly that word. */
  lemma SingleWord(ws: seq<string>)
    requires |ws| == 1
    ensures JoinName("", ws) == ws[0]
  {
    assert ws[..0] == [];
  }

  /** The quirk of `len(name) > 1`: a one-character first word is replaced, not extended. */
  lemma OneCharacterWordReplaced(a: string, b: string)
    requires |a| == 1
    ensures JoinName("", [a, b]) == b
  {
    assert [a, b][..1] == [a];
    assert [a][..0] == [];
    assert JoinName("", [a]) == a;
  }

  /** Two words in the band, "Alice" then "Smith", give "Alice_Smith" (order kept). */
  lemma TwoWordsInBand()
    ensures Process("", [Token("Alice", 10, 50, 40, 12), Token("Smith", 60, 52, 40, 12)]).name == "Alice_Smith"
  {
    var ts := [Token("Alice", 10, 50, 40, 12), Token("Smith", 60, 52, 40, 12)];
    assert ts[..1] == [ts[0]];
    assert ts[..1][..0] == [];
  }

  /** A second word more than 10 rows below the anchor is left out: "Alice". */
  lemma SecondWordOutOfBand()
    ensures Process("", [Token("Alice", 10, 50, 40, 12), Token("Smith", 60, 61, 40, 12)]).name == "Alice"
  {
    var ts := [Token("Alice", 10, 50, 40, 12), Token("Smith", 60, 61, 40, 12)];
    assert ts[..1] == [ts[0]];
    assert ts[..1][..0] == [];
  }
}

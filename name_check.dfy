/**
 * The development check `check_if_name_accurate` (ocr_test_1.py): a name
 * counts as correctly extracted when, with every "_" turned back into a
 * space, it is one of five names known to be on the test screenshots.
 */
module NameCheck {
  import WordBoxes

  /** The names on the test screenshots, spelled as the QA check spells them. */
  const VerifiedNames: seq<string> :=
    ["iSmurFromlronV", "lumpyflump1", "Rhaast so Cuite", "SUPER MARIO", "Malignat Force"]

  /** `str.replace("_", " ")`: every underscore becomes a space, nothing else changes. */
  function SpacesForUnderscores(s: string): (r: string)
    ensures |r| == |s|
    ensures forall i :: 0 <= i < |s| ==> r[i] == if s[i] == '_' then ' ' else s[i]
    ensures '_' !in r
    decreases |s|
  {
    if s == [] then []
    else SpacesForUnderscores(s[..|s| - 1]) + [if s[|s| - 1] == '_' then ' ' else s[|s| - 1]]
  }

  /** `n` spells `v` when each "_" of `n` stands where `v` has a space, and every other character agrees. */
  predicate Spells(n: string, v: string) {
    |n| == |v| &&
    forall i :: 0 <= i < |n| ==> if n[i] == '_' then v[i] == ' ' else v[i] == n[i]
  }

  /** Replacing the underscores of `n` gives `v` exactly when `n` spells `v`. */
  lemma SpellsIff(n: string)
    ensures forall v :: Spells(n, v) <==> SpacesForUnderscores(n) == v
  {
    var r := SpacesForUnderscores(n);
    assert Spells(n, r);
    forall v | Spells(n, v) ensures r == v {
      assert forall i :: 0 <= i < |r| ==> r[i] == v[i];
    }
  }

  /**
   * `check_if_name_accurate`: a name is accepted exactly when it spells one
   * of the verified names, with "_" wherever that name has a space.
   */
  predicate IsAccurate(userName: string): (accepted: bool)
    ensures accepted <==> exists v :: v in VerifiedNames && Spells(userName, v)
  {
    SpellsIff(userName);
    SpacesForUnderscores(userName) in VerifiedNames
  }

  /** Replacing underscores works piece by piece. */
  lemma SpacesForUnderscoresAppend(a: string, b: string)
    ensures SpacesForUnderscores(a + b) == SpacesForUnderscores(a) + SpacesForUnderscores(b)
  {
    var l, r := SpacesForUnderscores(a + b), SpacesForUnderscores(a) + SpacesForUnderscores(b);
    forall i | 0 <= i < |l| ensures l[i] == r[i] {
      if i >= |a| {
        assert (a + b)[i] == b[i - |a|];
      }
    }
  }

  /**
   * A username assembled from words that contain no "_" is accepted exactly
   * when the same words joined by spaces are one of the verified names.
   */
  lemma {:induction false} AssembledNameChecked(ws: seq<string>)
    requires ws != []
    requires forall k :: 0 <= k < |ws| ==> '_' !in ws[k]
    ensures SpacesForUnderscores(WordBoxes.Joined(ws, "_")) == WordBoxes.Joined(ws, " ")
    ensures IsAccurate(WordBoxes.Joined(ws, "_")) <==> WordBoxes.Joined(ws, " ") in VerifiedNames
    decreases |ws|
  {
    var last := ws[|ws| - 1];
    assert SpacesForUnderscores(last) == last by {
      forall i | 0 <= i < |last| ensures SpacesForUnderscores(last)[i] == last[i] {
        assert last[i] != '_';
      }
    }
    if |ws| > 1 {
      var q := ws[..|ws| - 1];
      AssembledNameChecked(q);
      SpacesForUnderscoresAppend(WordBoxes.Joined(q, "_") + "_", last);
      SpacesForUnderscoresAppend(WordBoxes.Joined(q, "_"), "_");
    }
  }

  /** "SUPER" and "MARIO" read as two lines give a name the QA check accepts. */
  lemma SuperMarioAccepted()
    ensures IsAccurate("SUPER_MARIO")
  {
    assert SpacesForUnderscores("SUPER_MARIO") == "SUPER MARIO";
  }
}

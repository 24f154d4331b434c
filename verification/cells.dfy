/** Spreadsheet cells and the program's cell normalisation `norm`
    (quelldrucksendezeiten.py, lines 64-74). */
module Cells {
  import opened Text

  /** A cell as a row hands it over: missing (`None` or a float NaN) or the
      text `str(x)` of whatever else it holds. */
  datatype Cell = Missing | Filled(text: string)

  /** `\d+\.0` (full match): a whole number that the spreadsheet stored as a
      float and `str()` rendered with a trailing ".0". */
  predicate FloatArtifact(s: string) {
    |s| >= 3 && s[|s| - 2..] == ".0" && AllDigits(s[..|s| - 2])
  }

  /** Drops the ".0" of a float artifact, leaves every other string alone. */
  function Defloat(s: string): string {
    if FloatArtifact(s) then s[..|s| - 2] else s
  }

  /** `norm` on text: strip, turn every whitespace run into one space, then
      cut the ".0" off a float artifact. The result is `" ".join(x.split())`
      with that cut applied, and it is tidy: no whitespace at either end,
      only plain single spaces inside. */
  function NormText(x: string): (r: string)
    ensures r == Defloat(JoinWords(Words(x)))
    ensures Tidy(r)
    ensures !FloatArtifact(r)
  {
    var s := Collapse(Strip(x));
    CollapseStripIsJoinedWords(x);
    if FloatArtifact(s) then
      var d := s[..|s| - 2];
      assert NoSpace(d) by {
        forall i | 0 <= i < |d| ensures !IsSpace(d[i]) {
          assert IsDigit(d[i]);
        }
      }
      assert !FloatArtifact(d) by {
        if |d| >= 3 {
          assert IsDigit(d[|d| - 2]);
          assert d[|d| - 2..][0] == d[|d| - 2];
        }
      }
      d
    else s
  }

  /** Python's `norm(x)`: a missing cell becomes the empty string. */
  function Norm(c: Cell): (r: string)
    ensures c.Missing? ==> r == ""
    ensures Tidy(r) && !FloatArtifact(r)
  {
    match c
    case Missing => ""
    case Filled(x) => NormText(x)
  }

  /** Normalising a normalised value changes nothing. */
  lemma NormIdempotent(c: Cell)
    ensures Norm(Filled(Norm(c))) == Norm(c)
  {
    var r := Norm(c);
    StripTrimmed(r);
    CollapseCollapsed(r);
  }

  /** A string without whitespace normalises to itself, apart from the cut
      of a float artifact. */
  lemma NormWord(s: string)
    requires NoSpace(s)
    ensures Norm(Filled(s)) == Defloat(s)
  {
    assert Trimmed(s) && Collapsed(s);
    StripTrimmed(s);
    CollapseCollapsed(s);
    CollapseStripIsJoinedWords(s);
  }

  lemma FloatArtifactExample()
    ensures FloatArtifact("1001.0") && "1001.0"[..4] == "1001"
  {
    var d: string := "1001";
    assert "1001.0" == d + ".0";
    assert AllDigits(d) by {
      assert d[0] == '1' && d[1] == '0' && d[2] == '0' && d[3] == '1';
    }
  }

  /** The program's own example: "1001.0" becomes "1001". */
  lemma NormFloatExamples()
    ensures Norm(Filled("1001.0")) == "1001"
  {
    assert NoSpace("1001.0");
    NormWord("1001.0");
    FloatArtifactExample();
  }

  lemma NormPlainNumberExample()
    ensures Norm(Filled("1001")) == "1001"
    ensures Norm(Filled("")) == "" && Norm(Missing) == ""
  {
    assert NoSpace("1001");
    NormWord("1001");
    NormWord("");
  }
}

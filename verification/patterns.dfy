/** The pieces the three header patterns of quelldrucksendezeiten.py share
    (lines 90-93, 128-134 and 180): the day-name alternation, the
    `\s+(.+?)\s+` middle, the field words `Zeit|Sort|Tag` and the order-day
    tail `B[_ ]?(...)`, all under `re.IGNORECASE` and anchored at both ends.
    Each piece has a declarative reading (there is a way to split the header)
    and a computation (where the split must be); the lemmas connect the two. */
module Patterns {
  import opened Options
  import opened Text

  // ---------------------------------------------------------------------------
  // `\s+(.+?)\s+` over a whole segment
  // ---------------------------------------------------------------------------

  /** `\s+(.+?)\s+` matches all of `mid` with the lazy group at [i, j):
      whitespace before it, whitespace after it, and a group of at least one
      character, none a line feed (`.` does not match "\n"). */
  ghost predicate Splits(mid: string, i: int, j: int) {
    0 < i < j < |mid| && AllSpace(mid[..i]) && '\n' !in mid[i..j] && AllSpace(mid[j..])
  }

  /** Whether `\s+(.+?)\s+` matches all of `mid`. With some non-whitespace in
      `mid`, the group must cover it all and whitespace must surround it;
      with none, the group is any inner character other than a line feed. */
  predicate Padded(mid: string) {
    var r := Strip(mid);
    if r == [] then exists k | 1 <= k < |mid| - 1 :: mid[k] != '\n'
    else 0 < LeadingSpaces(mid) && LeadingSpaces(mid) + |r| < |mid| && '\n' !in r
  }

  lemma AllSpaceStrip(s: string)
    requires AllSpace(s)
    ensures Strip(s) == []
  {
    assert s[..0] == [] && s[0..] == s;
    StripUnique(s, 0, []);
  }

  lemma StripEmptyAllSpace(s: string)
    requires Strip(s) == []
    ensures AllSpace(s)
  {
    var a := LeadingSpaces(s);
    forall k | 0 <= k < |s| ensures IsSpace(s[k]) {
    }
  }

  lemma PaddedWitness(mid: string) returns (i: int, j: int)
    requires Padded(mid)
    ensures Splits(mid, i, j)
  {
    var r := Strip(mid);
    var a := LeadingSpaces(mid);
    if r == [] {
      StripEmptyAllSpace(mid);
      var k :| 1 <= k < |mid| - 1 && mid[k] != '\n';
      i, j := k, k + 1;
      assert mid[i..j] == [mid[k]];
    } else {
      i, j := a, a + |r|;
    }
  }

  /** A non-space character lies after any all-space prefix. */
  lemma AfterSpacePrefix(s: string, i: int, x: int)
    requires 0 <= i <= |s| && AllSpace(s[..i]) && 0 <= x < |s| && !IsSpace(s[x])
    ensures i <= x
  {
  }

  /** A non-space character lies before any all-space suffix. */
  lemma BeforeSpaceSuffix(s: string, j: int, x: int)
    requires 0 <= j <= |s| && AllSpace(s[j..]) && 0 <= x < |s| && !IsSpace(s[x])
    ensures x < j
  {
  }

  /** When `mid` has non-space content, every split of the pattern has the
      stripped content inside its group. */
  lemma SplitsAroundContent(mid: string, i: int, j: int)
    requires Splits(mid, i, j) && Strip(mid) != []
    ensures i <= LeadingSpaces(mid) && LeadingSpaces(mid) + |Strip(mid)| <= j
  {
    var r := Strip(mid);
    var a := LeadingSpaces(mid);
    assert mid[a] == mid[a..a + |r|][0];
    assert mid[a + |r| - 1] == mid[a..a + |r|][|r| - 1];
    AfterSpacePrefix(mid, i, a);
    BeforeSpaceSuffix(mid, j, a + |r| - 1);
  }

  lemma PaddedFromSplits(mid: string, i: int, j: int)
    requires Splits(mid, i, j)
    ensures Padded(mid)
  {
    var r := Strip(mid);
    var a := LeadingSpaces(mid);
    if r == [] {
      assert mid[i] == mid[i..j][0];
    } else {
      SplitsAroundContent(mid, i, j);
      forall k | 0 <= k < |r| ensures r[k] != '\n' {
        assert r[k] == mid[a..a + |r|][k];
        assert mid[a..a + |r|][k] == mid[i..j][a + k - i];
      }
    }
  }

  /** The computation and the declarative reading of `\s+(.+?)\s+` agree. */
  lemma PaddedIff(mid: string)
    ensures Padded(mid) <==> exists i, j :: Splits(mid, i, j)
  {
    if Padded(mid) {
      var i, j := PaddedWitness(mid);
    }
    if exists i, j :: Splits(mid, i, j) {
      var i, j :| Splits(mid, i, j);
      PaddedFromSplits(mid, i, j);
    }
  }

  /** A split shows that the segment matches, and what its group strips to. */
  lemma SplitsPadded(mid: string, i: int, j: int)
    requires Splits(mid, i, j)
    ensures Padded(mid) && Strip(mid[i..j]) == Strip(mid)
  {
    PaddedFromSplits(mid, i, j);
    SplitsGroup(mid, i, j);
  }

  /** The program strips the captured group; whichever split the engine
      picks, the stripped group is the stripped segment. */
  lemma SplitsGroup(mid: string, i: int, j: int)
    requires Splits(mid, i, j)
    ensures Strip(mid[i..j]) == Strip(mid)
  {
    var g := mid[i..j];
    var r := Strip(mid);
    var a := LeadingSpaces(mid);
    if r == [] {
      StripEmptyAllSpace(mid);
      assert AllSpace(g) by {
        forall k | 0 <= k < |g| ensures IsSpace(g[k]) {
          assert g[k] == mid[i + k];
        }
      }
      AllSpaceStrip(g);
    } else {
      SplitsAroundContent(mid, i, j);
      var b := a - i;
      assert g[b..b + |r|] == r;
      assert AllSpace(g[..b]) by {
        forall k | 0 <= k < b ensures IsSpace(g[..b][k]) {
          assert g[..b][k] == mid[..a][i + k];
        }
      }
      var e := b + |r|;
      assert AllSpace(g[e..]) by {
        forall k | 0 <= k < |g| - e ensures IsSpace(g[e..][k]) {
          assert g[e..][k] == mid[a + |r|..][k];
        }
      }
      StripUnique(g, b, r);
    }
  }

  /** A group written with single spaces around it satisfies the pattern. */
  lemma PaddedAround(g: string)
    requires g != [] && Trimmed(g) && '\n' !in g
    ensures Padded(" " + g + " ")
    ensures Strip(" " + g + " ") == g
  {
    var mid := " " + g + " ";
    assert mid[1..1 + |g|] == g;
    assert Splits(mid, 1, 1 + |g|);
    PaddedFromSplits(mid, 1, 1 + |g|);
    SplitsGroup(mid, 1, 1 + |g|);
    StripTrimmed(g);
  }

  // ---------------------------------------------------------------------------
  // The day-name alternation
  // ---------------------------------------------------------------------------

  /** `(Mo|Die|Di|Mitt|Mi|Don|Donn|Do|Fr|Sam|Sa)`, folded to lower case. */
  const DayKeys: set<string> := {"mo", "die", "di", "mitt", "mi", "don", "donn", "do", "fr", "sam", "sa"}

  /** The day key that ends in the letters x, y, if any. The last two letters
      of the eleven keys are pairwise different, so at most one does. */
  function KeyEndingIn(x: char, y: char): Option<string> {
    if x == 'm' && y == 'o' then Some("mo")
    else if x == 'i' && y == 'e' then Some("die")
    else if x == 'd' && y == 'i' then Some("di")
    else if x == 't' && y == 't' then Some("mitt")
    else if x == 'm' && y == 'i' then Some("mi")
    else if x == 'o' && y == 'n' then Some("don")
    else if x == 'n' && y == 'n' then Some("donn")
    else if x == 'd' && y == 'o' then Some("do")
    else if x == 'f' && y == 'r' then Some("fr")
    else if x == 'a' && y == 'm' then Some("sam")
    else if x == 's' && y == 'a' then Some("sa")
    else None
  }

  /** The alternation matches all of `t`, ignoring ASCII case: `t` folds to
      the day key its last two letters name. */
  predicate IsDayToken(t: string) {
    |t| >= 2 && KeyEndingIn(FoldChar(t[|t| - 2]), FoldChar(t[|t| - 1])) == Some(Fold(t))
  }

  /** Each key is two to four lower-case letters ending in x, y. */
  lemma KeyEndingShape(x: char, y: char)
    ensures KeyEndingIn(x, y).Some? ==>
      var f := KeyEndingIn(x, y).value;
      && 2 <= |f| <= 4 && f[|f| - 2] == x && f[|f| - 1] == y
      && f in DayKeys
      && forall k | 0 <= k < |f| :: 'a' <= f[k] <= 'z'
  {
  }

  /** `IsDayToken` is the alternation: a token folds to one of the eleven keys. */
  lemma DayTokenIff(t: string)
    ensures IsDayToken(t) <==> Fold(t) in DayKeys
  {
    var f := Fold(t);
    if |t| >= 2 {
      KeyEndingShape(f[|t| - 2], f[|t| - 1]);
    }
    if f in DayKeys {
      assert |f| >= 2;
      var x, y := f[|f| - 2], f[|f| - 1];
      if f == "mo" { assert x == 'm' && y == 'o'; }
      else if f == "die" { assert x == 'i' && y == 'e'; }
      else if f == "di" { assert x == 'd' && y == 'i'; }
      else if f == "mitt" { assert x == 't' && y == 't'; }
      else if f == "mi" { assert x == 'm' && y == 'i'; }
      else if f == "don" { assert x == 'o' && y == 'n'; }
      else if f == "donn" { assert x == 'n' && y == 'n'; }
      else if f == "do" { assert x == 'd' && y == 'o'; }
      else if f == "fr" { assert x == 'f' && y == 'r'; }
      else if f == "sam" { assert x == 'a' && y == 'm'; }
      else { assert x == 's' && y == 'a'; }
    }
  }

  lemma FoldedLetter(c: char)
    requires 'a' <= FoldChar(c) <= 'z'
    ensures !IsSpace(c)
  {
  }

  /** A day token is two to four letters, so no whitespace. */
  lemma DayTokenShape(t: string)
    requires IsDayToken(t)
    ensures 2 <= |t| <= 4 && NoSpace(t)
  {
    var f := Fold(t);
    KeyEndingShape(FoldChar(t[|t| - 2]), FoldChar(t[|t| - 1]));
    forall k | 0 <= k < |t| ensures !IsSpace(t[k]) {
      assert 'a' <= f[k] <= 'z';
      FoldedLetter(t[k]);
    }
  }

  /** The start of the day token that ends `c`: its last two letters name
      the only key it can end with. */
  function SuffixToken(c: string): (r: Option<nat>)
    ensures r.Some? ==> r.value <= |c| && IsDayToken(c[r.value..])
  {
    if |c| < 2 then None
    else
      match KeyEndingIn(FoldChar(c[|c| - 2]), FoldChar(c[|c| - 1]))
      case None => None
      case Some(k) =>
        if |k| <= |c| && Fold(c[|c| - |k|..]) == k then
          SuffixTokenFound(c, k);
          Some(|c| - |k|)
        else None
  }

  lemma SuffixTokenFound(c: string, k: string)
    requires |c| >= 2 && KeyEndingIn(FoldChar(c[|c| - 2]), FoldChar(c[|c| - 1])) == Some(k)
    requires |k| <= |c| && Fold(c[|c| - |k|..]) == k
    ensures IsDayToken(c[|c| - |k|..])
  {
    var t := c[|c| - |k|..];
    KeyEndingShape(FoldChar(c[|c| - 2]), FoldChar(c[|c| - 1]));
    assert t[|t| - 2] == c[|c| - 2] && t[|t| - 1] == c[|c| - 1];
  }

  /** At most one day token ends a header, and `SuffixToken` finds it. */
  lemma SuffixTokenUnique(c: string, q: nat)
    requires q <= |c| && IsDayToken(c[q..])
    ensures SuffixToken(c) == Some(q)
  {
    var t := c[q..];
    assert t[|t| - 2] == c[|c| - 2] && t[|t| - 1] == c[|c| - 1];
  }

  // ---------------------------------------------------------------------------
  // `(Zeit|Sort|Tag)$`
  // ---------------------------------------------------------------------------

  /** The field a triplet column carries: `m.group(3).capitalize()`. */
  datatype Field = Zeit | Sort | Tag

  function FieldWord(f: Field): string {
    match f
    case Zeit => "Zeit"
    case Sort => "Sort"
    case Tag => "Tag"
  }

  /** The alternation `(Zeit|Sort|Tag)` matches all of `w`, ignoring ASCII case. */
  predicate IsFieldWord(w: string) {
    Fold(w) == "zeit" || Fold(w) == "sort" || Fold(w) == "tag"
  }

  /** `capitalize()` of a matched field word. */
  function FieldOf(w: string): (f: Field)
    requires IsFieldWord(w)
    ensures Fold(w) == Fold(FieldWord(f))
  {
    if Fold(w) == "zeit" then Zeit else if Fold(w) == "sort" then Sort else Tag
  }

  /** The start of the field word that ends `c`. */
  function FieldSuffix(c: string): (r: Option<nat>)
    ensures r.Some? ==> r.value <= |c| && IsFieldWord(c[r.value..])
  {
    if |c| >= 4 && IsFieldWord(c[|c| - 4..]) then Some(|c| - 4)
    else if |c| >= 3 && IsFieldWord(c[|c| - 3..]) then Some(|c| - 3)
    else None
  }

  /** At most one field word ends a header, and `FieldSuffix` finds it. */
  lemma FieldSuffixUnique(c: string, b: nat)
    requires b <= |c| && IsFieldWord(c[b..])
    ensures FieldSuffix(c) == Some(b)
  {
    var w := c[b..];
    assert |Fold(w)| == |w|;
    if |w| == 3 && |c| >= 4 {
      var v := c[|c| - 4..];
      assert v[3] == w[2];
      assert Fold(v)[3] == Fold(w)[2] == 'g';
    }
  }

  /** Each field's own word matches as that field. */
  lemma FieldWordRoundTrip(f: Field)
    ensures IsFieldWord(FieldWord(f)) && FieldOf(FieldWord(f)) == f
  {
    var w := FieldWord(f);
    assert Fold(w) == match f case Zeit => "zeit" case Sort => "sort" case Tag => "tag";
  }

  // ---------------------------------------------------------------------------
  // `B[_ ]?(...)$`
  // ---------------------------------------------------------------------------

  /** `B[_ ]?` starts at p and a day token runs from q to the end. */
  ghost predicate BTail(c: string, p: int, q: int) {
    && 0 <= p < q <= |c|
    && FoldChar(c[p]) == 'b'
    && (q == p + 1 || (q == p + 2 && (c[p + 1] == '_' || c[p + 1] == ' ')))
    && IsDayToken(c[q..])
  }

  /** Where the tail starts (p) and where its day token starts (q). */
  function BTailAt(c: string): (r: Option<(nat, nat)>)
    ensures r.Some? ==> BTail(c, r.value.0, r.value.1)
  {
    match SuffixToken(c)
    case None => None
    case Some(q) => BTailBefore(c, q)
  }

  /** Where `B[_ ]?` starts when the day token starts at q. */
  function BTailBefore(c: string, q: nat): (r: Option<(nat, nat)>)
    requires q <= |c|
    ensures r.Some? ==> r.value.1 == q && r.value.0 < q && FoldChar(c[r.value.0]) == 'b'
    ensures r.Some? ==> q == r.value.0 + 1 || (q == r.value.0 + 2 && (c[q - 1] == '_' || c[q - 1] == ' '))
  {
    if q >= 2 && (c[q - 1] == '_' || c[q - 1] == ' ') && FoldChar(c[q - 2]) == 'b' then Some((q - 2, q))
    else if q >= 1 && FoldChar(c[q - 1]) == 'b' then Some((q - 1, q))
    else None
  }

  /** The tail of a header is determined: `BTailAt` finds the only one. */
  lemma BTailUnique(c: string, p: int, q: int)
    requires BTail(c, p, q)
    ensures BTailAt(c) == Some((p, q))
  {
    SuffixTokenUnique(c, q);
    BTailAfter(c, p, q);
  }

  /** The tail read back once the day token is known to start at q. */
  lemma BTailAfter(c: string, p: int, q: nat)
    requires 0 <= p < q <= |c| && FoldChar(c[p]) == 'b'
    requires q == p + 1 || (q == p + 2 && (c[p + 1] == '_' || c[p + 1] == ' '))
    ensures BTailBefore(c, q) == Some((p, q))
  {
    if q == p + 1 {
      BIsNoSeparator(c[p]);
    }
  }

  /** The letter b is neither of the separators allowed before the day token. */
  lemma BIsNoSeparator(ch: char)
    requires FoldChar(ch) == 'b'
    ensures ch != '_' && ch != ' '
  {
  }
}

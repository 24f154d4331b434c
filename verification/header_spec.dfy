/** The header classifiers of module Headers against the patterns they
    implement: on a stripped header, each classifier's answer is exactly what
    `re.match` with the program's pattern yields, and writing a header the
    way the program's examples do and classifying it gives its parts back. */
module HeaderSpec {
  import opened Options
  import opened Text
  import opened Days
  import opened Patterns
  import opened Headers

  /** Every way the pattern can match yields the groups `Groups21` reports. */
  lemma Groups21Complete(c: string, a: int, b: int, i: int, j: int)
    requires Match21(c, a, b, i, j)
    ensures Groups21(c) == Some((c[..a], Strip(c[a..b][i..j]), FieldOf(c[b..])))
  {
    var mid := c[a..b];
    DayTokenShape(c[..a]);
    assert IsSpace(c[a]) by {
      assert c[a] == mid[..i][0];
    }
    FirstSpaceAt(c, a);
    FieldSuffixUnique(c, b);
    PaddedFromSplits(mid, i, j);
    SplitsGroup(mid, i, j);
  }

  lemma Groups21Sound(c: string) returns (a: int, b: int, i: int, j: int)
    requires Groups21(c).Some?
    ensures Match21(c, a, b, i, j)
  {
    a := FirstSpace(c);
    b := FieldSuffix(c).value;
    i, j := PaddedWitness(c[a..b]);
  }

  /** `Classify21` reports (d, g) and f exactly when the pattern matches with
      a day token naming d, a group stripping to g and a field word for f. */
  lemma Classify21Spec(c: string, d: Weekday, g: string, f: Field)
    ensures Classify21(c) == Some(((d, g), f)) <==>
      exists a, b, i, j :: Match21(c, a, b, i, j) && DayOf(c[..a]) == Some(d) && Strip(c[a..b][i..j]) == g && FieldOf(c[b..]) == f
  {
    if Classify21(c) == Some(((d, g), f)) {
      var a, b, i, j := Classify21Found(c, d, g, f);
    }
    if exists a, b, i, j :: Match21(c, a, b, i, j) && DayOf(c[..a]) == Some(d) && Strip(c[a..b][i..j]) == g && FieldOf(c[b..]) == f {
      var a, b, i, j :| Match21(c, a, b, i, j) && DayOf(c[..a]) == Some(d) && Strip(c[a..b][i..j]) == g && FieldOf(c[b..]) == f;
      Classify21Taken(c, a, b, i, j, d, g, f);
    }
  }

  lemma Classify21Found(c: string, d: Weekday, g: string, f: Field) returns (a: int, b: int, i: int, j: int)
    requires Classify21(c) == Some(((d, g), f))
    ensures Match21(c, a, b, i, j) && DayOf(c[..a]) == Some(d) && Strip(c[a..b][i..j]) == g && FieldOf(c[b..]) == f
  {
    a, b, i, j := Groups21Sound(c);
    Groups21Complete(c, a, b, i, j);
  }

  lemma Classify21Taken(c: string, a: int, b: int, i: int, j: int, d: Weekday, g: string, f: Field)
    requires Match21(c, a, b, i, j) && DayOf(c[..a]) == Some(d) && Strip(c[a..b][i..j]) == g && FieldOf(c[b..]) == f
    ensures Classify21(c) == Some(((d, g), f))
  {
    Groups21Complete(c, a, b, i, j);
  }

  /** The three parts of a header written as "<x> <g> <y>". */
  lemma SpacedParts(x: string, g: string, y: string)
    ensures var c := x + " " + g + " " + y;
      && c[..|x|] == x
      && c[|x|..|x| + |g| + 2] == " " + g + " "
      && c[|x| + |g| + 2..] == y
  {
  }

  /** Any day token with a group and a field word gives back its parts. */
  lemma Groups21Written(tok: string, g: string, f: Field)
    requires IsDayToken(tok) && g != [] && Trimmed(g) && '\n' !in g
    ensures Groups21(Header21(tok, g, f)) == Some((tok, g, f))
  {
    var c := Header21(tok, g, f);
    var a := |tok|;
    var b := |tok| + |g| + 2;
    var mid := " " + g + " ";
    SpacedParts(tok, g, FieldWord(f));
    FieldWordRoundTrip(f);
    PaddedAround(g);
    var i, j := PaddedWitness(mid);
    assert Match21(c, a, b, i, j);
    Groups21Complete(c, a, b, i, j);
    SplitsGroup(mid, i, j);
  }

  /** Writing a triplet header and classifying it gives back its parts. */
  lemma Classify21RoundTrip(tok: string, g: string, f: Field)
    requires tok in ShortForms && g != [] && Trimmed(g) && '\n' !in g
    ensures Classify21(Header21(tok, g, f)) == Some(((ShortToDay(tok).value, g), f))
  {
    ShortFormIsToken(tok);
    Groups21Written(tok, g, f);
    DayOfCases(tok);
  }

  lemma GroupsDSComplete(c: string, b: int, i: int, j: int)
    requires MatchDS(c, b, i, j)
    ensures GroupsDS(c) == Some((Strip(c[2..b][i..j]), FieldOf(c[b..])))
  {
    FieldSuffixUnique(c, b);
    PaddedFromSplits(c[2..b], i, j);
    SplitsGroup(c[2..b], i, j);
  }

  lemma GroupsDSSound(c: string) returns (b: int, i: int, j: int)
    requires GroupsDS(c).Some?
    ensures MatchDS(c, b, i, j)
  {
    b := FieldSuffix(c).value;
    i, j := PaddedWitness(c[2..b]);
  }

  /** `ClassifyDS` reports key k and field f exactly when the pattern matches
      with a route whose key is k and a field word for f. */
  lemma ClassifyDSSpec(c: string, k: string, f: Field)
    ensures ClassifyDS(c) == Some((k, f)) <==>
      exists b, i, j :: MatchDS(c, b, i, j) && DsKey(Strip(c[2..b][i..j])) == k && FieldOf(c[b..]) == f
  {
    if ClassifyDS(c) == Some((k, f)) {
      var b, i, j := GroupsDSSound(c);
      GroupsDSComplete(c, b, i, j);
    }
    if exists b, i, j :: MatchDS(c, b, i, j) && DsKey(Strip(c[2..b][i..j])) == k && FieldOf(c[b..]) == f {
      var b, i, j :| MatchDS(c, b, i, j) && DsKey(Strip(c[2..b][i..j])) == k && FieldOf(c[b..]) == f;
      GroupsDSComplete(c, b, i, j);
    }
  }

  /** Writing a DS header and classifying it gives back the route's key. */
  lemma ClassifyDSRoundTrip(route: string, f: Field)
    requires route != [] && Trimmed(route) && '\n' !in route
    ensures ClassifyDS(HeaderDS(route, f)) == Some((DsKey(route), f))
  {
    var c := HeaderDS(route, f);
    var b := |route| + 4;
    var mid := " " + route + " ";
    assert c[..2] == "DS";
    assert Fold(c[..2]) == "ds";
    assert c[2..b] == mid;
    assert c[b..] == FieldWord(f);
    FieldWordRoundTrip(f);
    PaddedAround(route);
    var i, j := PaddedWitness(mid);
    assert MatchDS(c, b, i, j);
    GroupsDSComplete(c, b, i, j);
    SplitsGroup(mid, i, j);
  }

  /** A match with the marker fixes where the day token and the tail are. */
  lemma MarkerMatchEnds(c: string, a: int, m: int, i: int, j: int, p: int, q: int)
    requires MarkerMatchB(c, a, m, i, j, p, q)
    ensures FirstSpace(c) == a && BTailAt(c) == Some((p, q))
  {
    assert IsSpace(c[a]) by {
      assert c[a] == c[a..m][0];
    }
    DayTokenEnds(c, a);
    BTailUnique(c, p, q);
  }

  /** A match with the marker fixes where the marker is. */
  lemma MarkerMatchPos(c: string, a: int, m: int, i: int, j: int, p: int, q: int)
    requires MarkerMatchB(c, a, m, i, j, p, q)
    ensures MarkerPos(c, a, p) == m
  {
    MarkerPosAt(c, a, m, p);
  }

  /** A match with the marker fixes what the group strips to. */
  lemma MarkerMatchGroup(c: string, a: int, m: int, i: int, j: int, p: int, q: int)
    requires MarkerMatchB(c, a, m, i, j, p, q)
    ensures Padded(c[m + 1..p]) && Strip(c[m + 1..p][i..j]) == Strip(c[m + 1..p])
  {
    SplitsPadded(c[m + 1..p], i, j);
  }

  /** The computation's result once its positions are known and the marker fits. */
  lemma GroupsBMarkerAt(c: string, a: int, m: int, p: int, q: int)
    requires 0 < a < m < p < q <= |c| && FirstSpace(c) == a && IsDayToken(c[..a]) && BTailAt(c) == Some((p, q))
    requires MarkerPos(c, a, p) == m && IsMarker(c[m]) && Padded(c[m + 1..p])
    ensures GroupsB(c) == Some((c[..a], MarkerRole(c[m]), Strip(c[m + 1..p]), c[q..]))
  {
    GroupsBFrom(c, a, p, q);
    GroupsBAtMarker(c, a, m, p, q);
  }

  /** A match with the marker yields the marker's role and the group after it. */
  lemma GroupsBMarker(c: string, a: int, m: int, i: int, j: int, p: int, q: int)
    requires MarkerMatchB(c, a, m, i, j, p, q)
    ensures GroupsB(c) == Some((c[..a], MarkerRole(c[m]), Strip(c[m + 1..p][i..j]), c[q..]))
  {
    MarkerMatchEnds(c, a, m, i, j, p, q);
    MarkerMatchPos(c, a, m, i, j, p, q);
    MarkerMatchGroup(c, a, m, i, j, p, q);
    GroupsBMarkerAt(c, a, m, p, q);
  }

  /** A match with the marker gives a role other than the sort role, so the
      sort role means that no match with the marker exists. */
  lemma NoMarkerMatch(c: string)
    requires GroupsB(c).Some? && GroupsB(c).value.1 == SortRole
    ensures !HasMarkerMatch(c)
  {
    if HasMarkerMatch(c) {
      var a, m, i, j, p, q :| MarkerMatchB(c, a, m, i, j, p, q);
      GroupsBMarker(c, a, m, i, j, p, q);
    }
  }

  /** When the computation finds a marker, a match with that marker exists. */
  lemma FitsGiveMarkerMatch(c: string, a: int, p: int, q: int)
    requires DayAndTail(c, a, p, q) && IsSpace(c[a])
    ensures MarkerFits(c, a, p) ==> HasMarkerMatch(c)
  {
    if MarkerFits(c, a, p) {
      var m, i, j := MarkerFitsParts(c, a, p);
      assert MarkerMatchB(c, a, m, i, j, p, q);
    }
  }

  /** A match without the marker counts only when none with it exists; it
      yields the sort role and the group after the day token. */
  lemma GroupsBPlain(c: string, a: int, i: int, j: int, p: int, q: int)
    requires PlainMatchB(c, a, i, j, p, q) && !HasMarkerMatch(c)
    ensures GroupsB(c) == Some((c[..a], SortRole, Strip(c[a..p][i..j]), c[q..]))
  {
    PlainMatchSpace(c, a, i, j, p, q);
    FitsGiveMarkerMatch(c, a, p, q);
    GroupsBPlainUnfit(c, a, i, j, p, q);
  }

  /** A plain match starts with whitespace right after the day token. */
  lemma PlainMatchSpace(c: string, a: int, i: int, j: int, p: int, q: int)
    requires PlainMatchB(c, a, i, j, p, q)
    ensures IsSpace(c[a])
  {
    assert c[a] == c[a..p][..i][0];
  }

  /** The plain reading, once no marker fits after the day token. */
  lemma GroupsBPlainUnfit(c: string, a: int, i: int, j: int, p: int, q: int)
    requires PlainMatchB(c, a, i, j, p, q) && !MarkerFits(c, a, p)
    ensures GroupsB(c) == Some((c[..a], SortRole, Strip(c[a..p][i..j]), c[q..]))
  {
    PlainMatchSpace(c, a, i, j, p, q);
    DayTokenEnds(c, a);
    BTailUnique(c, p, q);
    SplitsPadded(c[a..p], i, j);
    GroupsBFrom(c, a, p, q);
    GroupsBAtPlain(c, a, p, q);
  }

  /** A time or label role comes from a match with the marker. */
  lemma GroupsBMarkerWitness(c: string) returns (a: int, m: int, i: int, j: int, p: int, q: int)
    requires GroupsB(c).Some? && GroupsB(c).value.1 != SortRole
    ensures MarkerMatchB(c, a, m, i, j, p, q)
    ensures GroupsB(c) == Some((c[..a], MarkerRole(c[m]), Strip(c[m + 1..p][i..j]), c[q..]))
  {
    a, p, q := GroupsBParts(c);
    GroupsBAtRole(c, a, p, q);
    m, i, j := MarkerFitsParts(c, a, p);
    SplitsPadded(c[m + 1..p], i, j);
    GroupsBAtMarker(c, a, m, p, q);
  }

  /** The sort role comes from a match without the marker. */
  lemma GroupsBPlainWitness(c: string) returns (a: int, i: int, j: int, p: int, q: int)
    requires GroupsB(c).Some? && GroupsB(c).value.1 == SortRole
    ensures PlainMatchB(c, a, i, j, p, q)
    ensures GroupsB(c) == Some((c[..a], SortRole, Strip(c[a..p][i..j]), c[q..]))
  {
    a, p, q := GroupsBParts(c);
    GroupsBAtRole(c, a, p, q);
    i, j := PaddedWitness(c[a..p]);
    SplitsPadded(c[a..p], i, j);
  }

  /** `GroupsB` reports a time or label role exactly when the pattern
      matches with that marker, with the same day tokens and a group
      stripping to the reported one. */
  lemma GroupsBMarkerSpec(c: string, tok: string, role: Role, g: string, tok2: string)
    requires role != SortRole
    ensures GroupsB(c) == Some((tok, role, g, tok2)) <==> MarkerMatchGives(c, tok, role, g, tok2)
  {
    if GroupsB(c) == Some((tok, role, g, tok2)) {
      GroupsBMarkerFound(c, tok, role, g, tok2);
    }
    if MarkerMatchGives(c, tok, role, g, tok2) {
      GroupsBMarkerTaken(c, tok, role, g, tok2);
    }
  }

  lemma GroupsBMarkerFound(c: string, tok: string, role: Role, g: string, tok2: string)
    requires role != SortRole && GroupsB(c) == Some((tok, role, g, tok2))
    ensures MarkerMatchGives(c, tok, role, g, tok2)
  {
    var a, m, i, j, p, q := GroupsBMarkerWitness(c);
    MarkerGivesFrom(c, a, m, i, j, p, q, tok, role, g, tok2);
  }

  lemma MarkerGivesFrom(c: string, a: int, m: int, i: int, j: int, p: int, q: int, tok: string, role: Role, g: string, tok2: string)
    requires MarkerMatchB(c, a, m, i, j, p, q)
    requires Some((c[..a], MarkerRole(c[m]), Strip(c[m + 1..p][i..j]), c[q..])) == Some((tok, role, g, tok2))
    ensures MarkerMatchGives(c, tok, role, g, tok2)
  {
  }

  lemma GroupsBMarkerTaken(c: string, tok: string, role: Role, g: string, tok2: string)
    requires MarkerMatchGives(c, tok, role, g, tok2)
    ensures GroupsB(c) == Some((tok, role, g, tok2))
  {
    var a, m, i, j, p, q :| MarkerMatchB(c, a, m, i, j, p, q)
      && c[..a] == tok && MarkerRole(c[m]) == role && Strip(c[m + 1..p][i..j]) == g && c[q..] == tok2;
    GroupsBMarker(c, a, m, i, j, p, q);
  }

  /** `GroupsB` reports the sort role exactly when no match with a marker
      exists and one without it has the same day tokens and a group
      stripping to the reported one. */
  lemma GroupsBPlainSpec(c: string, tok: string, g: string, tok2: string)
    ensures GroupsB(c) == Some((tok, SortRole, g, tok2)) <==>
      !HasMarkerMatch(c) && PlainMatchGives(c, tok, g, tok2)
  {
    if GroupsB(c) == Some((tok, SortRole, g, tok2)) {
      NoMarkerMatch(c);
      GroupsBPlainFound(c, tok, g, tok2);
    }
    if !HasMarkerMatch(c) && PlainMatchGives(c, tok, g, tok2) {
      GroupsBPlainTaken(c, tok, g, tok2);
    }
  }

  lemma GroupsBPlainFound(c: string, tok: string, g: string, tok2: string)
    requires GroupsB(c) == Some((tok, SortRole, g, tok2))
    ensures PlainMatchGives(c, tok, g, tok2)
  {
    var a, i, j, p, q := GroupsBPlainWitness(c);
    PlainGivesFrom(c, a, i, j, p, q, tok, g, tok2);
  }

  lemma PlainGivesFrom(c: string, a: int, i: int, j: int, p: int, q: int, tok: string, g: string, tok2: string)
    requires PlainMatchB(c, a, i, j, p, q)
    requires Some((c[..a], SortRole, Strip(c[a..p][i..j]), c[q..])) == Some((tok, SortRole, g, tok2))
    ensures PlainMatchGives(c, tok, g, tok2)
  {
  }

  lemma GroupsBPlainTaken(c: string, tok: string, g: string, tok2: string)
    requires !HasMarkerMatch(c) && PlainMatchGives(c, tok, g, tok2)
    ensures GroupsB(c) == Some((tok, SortRole, g, tok2))
  {
    var a, i, j, p, q :| PlainMatchB(c, a, i, j, p, q) && c[..a] == tok && Strip(c[a..p][i..j]) == g && c[q..] == tok2;
    GroupsBPlain(c, a, i, j, p, q);
  }

  /** Some match of the order-day pattern gives day tokens naming d and e, a
      group stripping to g and this role, the marker being taken whenever a
      match with it exists. */
  ghost predicate BMatchGives(c: string, d: Weekday, g: string, e: Weekday, role: Role) {
    exists tok, tok2 | DayOf(tok) == Some(d) && DayOf(tok2) == Some(e) :: BMatchWith(c, tok, role, g, tok2)
  }

  /** The pattern matches with these day tokens, role and group. */
  ghost predicate BMatchWith(c: string, tok: string, role: Role, g: string, tok2: string) {
    if role == SortRole then !HasMarkerMatch(c) && PlainMatchGives(c, tok, g, tok2)
    else MarkerMatchGives(c, tok, role, g, tok2)
  }

  /** `ClassifyB` files a header under (d, g, e) and role exactly when the
      pattern matches it that way and both day tokens name days. */
  lemma ClassifyBSpec(c: string, d: Weekday, g: string, e: Weekday, role: Role)
    ensures ClassifyB(c) == Some(((d, g, e), role)) <==> BMatchGives(c, d, g, e, role)
  {
    if ClassifyB(c) == Some(((d, g, e), role)) {
      var tok, tok2 := ClassifyBFound(c, d, g, e, role);
      BMatchGivesFrom(c, tok, d, g, tok2, e, role);
    }
    if BMatchGives(c, d, g, e, role) {
      var tok, tok2 :| DayOf(tok) == Some(d) && DayOf(tok2) == Some(e) && BMatchWith(c, tok, role, g, tok2);
      ClassifyBTaken(c, tok, d, g, tok2, e, role);
    }
  }

  lemma BMatchGivesFrom(c: string, tok: string, d: Weekday, g: string, tok2: string, e: Weekday, role: Role)
    requires DayOf(tok) == Some(d) && DayOf(tok2) == Some(e) && BMatchWith(c, tok, role, g, tok2)
    ensures BMatchGives(c, d, g, e, role)
  {
  }

  lemma ClassifyBFound(c: string, d: Weekday, g: string, e: Weekday, role: Role) returns (tok: string, tok2: string)
    requires ClassifyB(c) == Some(((d, g, e), role))
    ensures DayOf(tok) == Some(d) && DayOf(tok2) == Some(e) && BMatchWith(c, tok, role, g, tok2)
  {
    tok, tok2 := GroupsB(c).value.0, GroupsB(c).value.3;
    assert GroupsB(c) == Some((tok, role, g, tok2));
    if role == SortRole {
      GroupsBPlainSpec(c, tok, g, tok2);
    } else {
      GroupsBMarkerSpec(c, tok, role, g, tok2);
    }
  }

  lemma ClassifyBTaken(c: string, tok: string, d: Weekday, g: string, tok2: string, e: Weekday, role: Role)
    requires DayOf(tok) == Some(d) && DayOf(tok2) == Some(e) && BMatchWith(c, tok, role, g, tok2)
    ensures ClassifyB(c) == Some(((d, g, e), role))
  {
    if role == SortRole {
      GroupsBPlainSpec(c, tok, g, tok2);
    } else {
      GroupsBMarkerSpec(c, tok, role, g, tok2);
    }
  }

  /** The two halves of a concatenation. */
  lemma Halves(u: string, v: string)
    ensures (u + v)[..|u|] == u && (u + v)[|u|..] == v
  {
  }

  /** A header ends with its order-day tail "B_<day>" from p on. */
  lemma TailAt(c: string, p: int, tok2: string)
    requires 0 <= p <= |c| && c[p..] == "B_" + tok2 && IsDayToken(tok2)
    ensures p + 2 <= |c| && c[p + 2..] == tok2 && BTail(c, p, p + 2)
  {
    var w := c[p..];
    assert c[p] == w[0] && c[p + 1] == w[1] && c[p + 2..] == w[2..];
  }

  /** The front "<tok> <h> " of a header, up to p. */
  lemma FrontAt(c: string, p: int, tok: string, h: string)
    requires 0 <= p <= |c| && c[..p] == tok + " " + h + " "
    ensures p == |tok| + |h| + 2 && c[..|tok|] == tok && c[|tok|..p] == " " + h + " "
  {
    var u := c[..p];
    SpacedParts(tok, h, []);
    assert u == tok + " " + h + " " + [];
    assert c[..|tok|] == u[..|tok|] && c[|tok|..p] == u[|tok|..];
  }

  /** The middle " <ch> <g> " of a header, from a to p. */
  lemma MiddleAt(c: string, a: int, m: int, p: int, ch: char, g: string)
    requires 0 <= a && m == a + 1 && p <= |c| && a <= p && c[a..p] == " " + ([ch, ' '] + g) + " "
    ensures p == m + |g| + 3 && IsSpace(c[a]) && AllSpace(c[a..m]) && c[m] == ch && c[m + 1..p] == " " + g + " "
  {
    var mid := c[a..p];
    assert mid[..1] == " " && AllSpace(" ");
    assert c[a..m] == mid[..1] && c[a] == mid[0] && c[m] == mid[1];
    assert c[m + 1..p] == mid[2..];
  }

  /** A header splits into its front and its tail. */
  lemma HeaderBSplit(tok: string, role: Role, g: string, tok2: string) returns (p: int)
    ensures var c := HeaderB(tok, role, g, tok2);
      && 0 <= p <= |c| && c[..p] == tok + " " + (MarkerText(role) + g) + " " && c[p..] == "B_" + tok2
  {
    var u := tok + " " + (MarkerText(role) + g) + " ";
    Halves(u, "B_" + tok2);
    p := |u|;
  }

  /** Where the pieces of a header written with a marker stand. */
  lemma MarkerHeaderPieces(tok: string, role: Role, g: string, tok2: string) returns (a: int, m: int, p: int)
    requires tok != [] && role != SortRole && IsDayToken(tok2)
    ensures var c := HeaderB(tok, role, g, tok2);
      && a == |tok| && m == a + 1 && p == m + |g| + 3 && p + 2 <= |c|
      && c[..a] == tok && IsSpace(c[a]) && AllSpace(c[a..m])
      && IsMarker(c[m]) && MarkerRole(c[m]) == role && c[m + 1..p] == " " + g + " "
      && c[p + 2..] == tok2 && BTail(c, p, p + 2)
  {
    var c := HeaderB(tok, role, g, tok2);
    var ch := if role == TimeRole then 'Z' else 'L';
    assert MarkerText(role) == [ch, ' '];
    p := HeaderBSplit(tok, role, g, tok2);
    TailAt(c, p, tok2);
    FrontAt(c, p, tok, MarkerText(role) + g);
    a, m := |tok|, |tok| + 1;
    MiddleAt(c, a, m, p, ch, g);
  }

  /** A group written between single spaces is what the lazy `\s+(.+?)\s+`
      captures there. */
  lemma GroupBetweenSpaces(mid: string, g: string) returns (i: int, j: int)
    requires g != [] && Trimmed(g) && '\n' !in g && mid == " " + g + " "
    ensures Splits(mid, i, j) && Strip(mid[i..j]) == g
  {
    PaddedAround(g);
    i, j := PaddedWitness(mid);
    SplitsGroup(mid, i, j);
  }

  /** A header whose pieces stand where a marker header's do reads with
      that marker. */
  lemma GroupsBMarkerShape(c: string, a: int, m: int, p: int, tok: string, role: Role, g: string, tok2: string)
    requires IsDayToken(tok) && IsDayToken(tok2) && role != SortRole
    requires g != [] && Trimmed(g) && '\n' !in g
    requires a == |tok| && m == a + 1 && p == m + |g| + 3 && p + 2 <= |c|
    requires c[..a] == tok && IsSpace(c[a]) && AllSpace(c[a..m])
    requires IsMarker(c[m]) && MarkerRole(c[m]) == role && c[m + 1..p] == " " + g + " "
    requires c[p + 2..] == tok2 && BTail(c, p, p + 2)
    ensures GroupsB(c) == Some((tok, role, g, tok2))
  {
    GroupsBMarkerAtShape(c, a, m, p, g);
  }

  /** What a header reads as when a marker at m and then its group stand
      between the day token ending at a and the tail starting at p. */
  lemma GroupsBMarkerAtShape(c: string, a: int, m: int, p: int, g: string)
    requires g != [] && Trimmed(g) && '\n' !in g
    requires 0 < a && m == a + 1 && m < p && p + 2 <= |c|
    requires IsDayToken(c[..a]) && AllSpace(c[a..m]) && IsMarker(c[m])
    requires c[m + 1..p] == " " + g + " " && BTail(c, p, p + 2)
    ensures GroupsB(c) == Some((c[..a], MarkerRole(c[m]), g, c[p + 2..]))
  {
    var i, j := MarkerMatchAround(c, a, m, p, g);
    GroupsBMarkerGroup(c, a, m, p, g, i, j);
  }

  /** The marker reading with the group named by what it strips to. */
  lemma GroupsBMarkerGroup(c: string, a: int, m: int, p: int, g: string, i: int, j: int)
    requires 0 < a < m < p && p + 2 <= |c|
    requires MarkerMatchB(c, a, m, i, j, p, p + 2) && Strip(c[m + 1..p][i..j]) == g
    ensures GroupsB(c) == Some((c[..a], MarkerRole(c[m]), g, c[p + 2..]))
  {
    GroupsBMarker(c, a, m, i, j, p, p + 2);
  }

  /** The marker match such a header makes. */
  lemma MarkerMatchAround(c: string, a: int, m: int, p: int, g: string) returns (i: int, j: int)
    requires g != [] && Trimmed(g) && '\n' !in g
    requires 0 < a && m == a + 1 && m < p && p + 2 <= |c|
    requires IsDayToken(c[..a]) && AllSpace(c[a..m]) && IsMarker(c[m])
    requires c[m + 1..p] == " " + g + " " && BTail(c, p, p + 2)
    ensures MarkerMatchB(c, a, m, i, j, p, p + 2) && Strip(c[m + 1..p][i..j]) == g
  {
    i, j := GroupBetweenSpaces(c[m + 1..p], g);
  }

  /** A header written with a marker gives back its parts and the marker's role. */
  lemma GroupsBWrittenMarker(tok: string, role: Role, g: string, tok2: string)
    requires IsDayToken(tok) && IsDayToken(tok2) && role != SortRole
    requires g != [] && Trimmed(g) && '\n' !in g
    ensures GroupsB(HeaderB(tok, role, g, tok2)) == Some((tok, role, g, tok2))
  {
    var a, m, p := MarkerHeaderPieces(tok, role, g, tok2);
    GroupsBMarkerShape(HeaderB(tok, role, g, tok2), a, m, p, tok, role, g, tok2);
  }

  /** Where the marker would stand after a space, a group that does not
      start with a marker and whitespace leaves no room for one. */
  lemma NoMarkerWritten(c: string, a: int, p: int, g: string)
    requires 0 <= a && p == a + |g| + 2 && p <= |c| && c[a..p] == " " + g + " "
    requires g != [] && Trimmed(g) && !(IsMarker(g[0]) && |g| > 1 && IsSpace(g[1]))
    ensures !MarkerFits(c, a, p)
  {
    var s := c[a..p];
    assert s[..1] == " " && s[1] == g[0];
    LeadingSpacesAt(s, 1);
    if IsMarker(g[0]) {
      var mid := c[a + 2..p];
      assert mid == g[1..] + " ";
      if |g| == 1 {
        AllSpaceStrip(mid);
      } else {
        assert mid[..0] == [] && mid[0] == g[1];
        LeadingSpacesAt(mid, 0);
        if Strip(mid) == [] {
          StripEmptyAllSpace(mid);
        }
      }
    }
  }

  /** Where the pieces of a header written without a marker stand. */
  lemma PlainHeaderPieces(tok: string, g: string, tok2: string) returns (a: int, p: int)
    requires tok != [] && IsDayToken(tok2)
    ensures var c := HeaderB(tok, SortRole, g, tok2);
      && a == |tok| && p == a + |g| + 2 && p + 2 <= |c|
      && c[..a] == tok && IsSpace(c[a]) && c[a..p] == " " + g + " "
      && c[p + 2..] == tok2 && BTail(c, p, p + 2)
  {
    var c := HeaderB(tok, SortRole, g, tok2);
    assert MarkerText(SortRole) + g == g;
    p := HeaderBSplit(tok, SortRole, g, tok2);
    TailAt(c, p, tok2);
    FrontAt(c, p, tok, g);
    a := |tok|;
    assert c[a] == c[a..p][0];
  }

  /** A header whose pieces stand where a plain header's do reads without
      a marker. */
  lemma GroupsBPlainShape(c: string, a: int, p: int, tok: string, g: string, tok2: string)
    requires IsDayToken(tok)
    requires g != [] && Trimmed(g) && '\n' !in g
    requires !(IsMarker(g[0]) && |g| > 1 && IsSpace(g[1]))
    requires a == |tok| && p == a + |g| + 2 && p + 2 <= |c|
    requires c[..a] == tok && IsSpace(c[a]) && c[a..p] == " " + g + " "
    requires c[p + 2..] == tok2 && BTail(c, p, p + 2)
    ensures GroupsB(c) == Some((tok, SortRole, g, tok2))
  {
    NoMarkerWritten(c, a, p, g);
    GroupsBPlainAt(c, a, p, g);
  }

  /** What a header reads as when its group stands plainly between the day
      token ending at a and the tail starting at p. */
  lemma GroupsBPlainAt(c: string, a: int, p: int, g: string)
    requires g != [] && Trimmed(g) && '\n' !in g
    requires 0 < a && p == a + |g| + 2 && p + 2 <= |c| && !MarkerFits(c, a, p)
    requires IsDayToken(c[..a]) && c[a..p] == " " + g + " " && BTail(c, p, p + 2)
    ensures GroupsB(c) == Some((c[..a], SortRole, g, c[p + 2..]))
  {
    var i, j := PlainMatchAround(c, a, p, g);
    GroupsBPlainGroup(c, a, p, g, i, j);
  }

  /** The plain reading with the group named by what it strips to. */
  lemma GroupsBPlainGroup(c: string, a: int, p: int, g: string, i: int, j: int)
    requires 0 < a < p && p + 2 <= |c| && !MarkerFits(c, a, p)
    requires PlainMatchB(c, a, i, j, p, p + 2) && Strip(c[a..p][i..j]) == g
    ensures GroupsB(c) == Some((c[..a], SortRole, g, c[p + 2..]))
  {
    GroupsBPlainUnfit(c, a, i, j, p, p + 2);
  }

  /** The plain match such a header makes. */
  lemma PlainMatchAround(c: string, a: int, p: int, g: string) returns (i: int, j: int)
    requires g != [] && Trimmed(g) && '\n' !in g
    requires 0 < a < p && p + 2 <= |c|
    requires IsDayToken(c[..a]) && c[a..p] == " " + g + " " && BTail(c, p, p + 2)
    ensures PlainMatchB(c, a, i, j, p, p + 2) && Strip(c[a..p][i..j]) == g
  {
    i, j := GroupBetweenSpaces(c[a..p], g);
  }

  /** A header written without a marker gives back its parts, unless its
      group itself starts with a marker and whitespace. */
  lemma GroupsBWrittenPlain(tok: string, g: string, tok2: string)
    requires IsDayToken(tok) && IsDayToken(tok2)
    requires g != [] && Trimmed(g) && '\n' !in g
    requires !(IsMarker(g[0]) && |g| > 1 && IsSpace(g[1]))
    ensures GroupsB(HeaderB(tok, SortRole, g, tok2)) == Some((tok, SortRole, g, tok2))
  {
    var a, p := PlainHeaderPieces(tok, g, tok2);
    GroupsBPlainShape(HeaderB(tok, SortRole, g, tok2), a, p, tok, g, tok2);
  }

  /** Writing an order-day header and classifying it gives back its days,
      group and role. A group beginning with "Z " or "L " (in any case) is
      the exception: without a marker of its own, the pattern takes that
      letter as the marker. */
  lemma ClassifyBRoundTrip(tok: string, role: Role, g: string, tok2: string)
    requires tok in ShortForms && tok2 in ShortForms
    requires g != [] && Trimmed(g) && '\n' !in g
    requires role == SortRole ==> !(IsMarker(g[0]) && |g| > 1 && IsSpace(g[1]))
    ensures ClassifyB(HeaderB(tok, role, g, tok2)) == Some(((ShortToDay(tok).value, g, ShortToDay(tok2).value), role))
  {
    ShortFormIsToken(tok);
    ShortFormIsToken(tok2);
    DayOfCases(tok);
    DayOfCases(tok2);
    if role == SortRole {
      GroupsBWrittenPlain(tok, g, tok2);
    } else {
      GroupsBWrittenMarker(tok, role, g, tok2);
    }
  }
}

/** The three header patterns of quelldrucksendezeiten.py and what a matching
    header contributes:
      - triplet columns "<day> <group> Zeit|Sort|Tag" (lines 88-106),
      - order-day columns "<day> [Z|L] <group> B_<day>" (lines 126-165),
      - DS columns "DS <route> Zeit|Sort|Tag" (lines 177-189).
    Each classifier works on an already stripped header. For each pattern a
    ghost predicate says when Python's `re.match` succeeds and with which
    groups; module HeaderSpec proves the classifier computes exactly that. */
module Headers {
  import opened Options
  import opened Text
  import opened Days
  import opened Patterns

  /** A matched day token to its weekday, as lines 101-104 and 152-158 do:
      "donn" in any case becomes "Don", then the case-sensitive lookup. None
      means the header is skipped although the pattern matched. */
  function DayOf(tok: string): Option<Weekday> {
    ShortToDay(if Lower(tok) == "donn" then "Don" else tok)
  }

  /** Each spelling of the table is matched by the day-name alternation. */
  lemma ShortFormIsToken(tok: string)
    requires tok in ShortForms
    ensures IsDayToken(tok)
  {
    if tok == "Mo" { assert Fold(tok) == "mo"; }
    else if tok == "Di" { assert Fold(tok) == "di"; }
    else if tok == "Die" { assert Fold(tok) == "die"; }
    else if tok == "Mi" { assert Fold(tok) == "mi"; }
    else if tok == "Mitt" { assert Fold(tok) == "mitt"; }
    else if tok == "Do" { assert Fold(tok) == "do"; }
    else if tok == "Don" { assert Fold(tok) == "don"; }
    else if tok == "Donn" { assert Fold(tok) == "donn"; }
    else if tok == "Fr" { assert Fold(tok) == "fr"; }
    else if tok == "Sa" { assert Fold(tok) == "sa"; }
    else { assert Fold(tok) == "sam"; }
  }

  /** Exactly the eleven spellings of the table, and "Donn" in any case,
      name a day; "MO" or "mi" match the pattern but name none. */
  lemma DayOfCases(tok: string)
    ensures DayOf(tok).Some? <==> tok in ShortForms || Lower(tok) == "donn"
    ensures Lower(tok) == "donn" ==> DayOf(tok) == Some(Thu)
    ensures tok in ShortForms ==> DayOf(tok) == ShortToDay(tok)
  {
    ShortToDayDomain(tok);
    if tok == "Donn" {
      assert Lower(tok) == "donn";
    }
  }

  // ---------------------------------------------------------------------------
  // Triplet columns: (?i)^(DAY)\s+(.+?)\s+(Zeit|Sort|Tag)$
  // ---------------------------------------------------------------------------

  /** The triplet pattern matches `c`: day token c[..a], middle c[a..b] with
      the lazy group at [i, j) inside it, field word c[b..]. */
  ghost predicate Match21(c: string, a: int, b: int, i: int, j: int) {
    0 < a <= b <= |c| && IsDayToken(c[..a]) && Splits(c[a..b], i, j) && IsFieldWord(c[b..])
  }

  /** The match, if any: the day token, the stripped group and the field. */
  function Groups21(c: string): Option<(string, string, Field)> {
    var a := FirstSpace(c);
    if !IsDayToken(c[..a]) then None
    else
      match FieldSuffix(c)
      case None => None
      case Some(b) =>
        if a <= b && Padded(c[a..b]) then Some((c[..a], Strip(c[a..b]), FieldOf(c[b..]))) else None
  }

  /** A triplet header's contribution: (weekday, group) and the field. The
      group is stripped and, as `.` never matches a line feed, holds none. */
  function Classify21(c: string): (r: Option<((Weekday, string), Field)>)
    ensures r.Some? ==> Trimmed(r.value.0.1) && '\n' !in r.value.0.1
  {
    match Groups21(c)
    case None => None
    case Some((tok, g, f)) =>
      match DayOf(tok)
      case None => None
      case Some(d) => Some(((d, g), f))
  }

  /** "<day> <group> <field>" as the program's example headers write it. */
  function Header21(tok: string, g: string, f: Field): string {
    tok + " " + g + " " + FieldWord(f)
  }

  // ---------------------------------------------------------------------------
  // DS columns: (?i)^DS\s+(.+?)\s+(Zeit|Sort|Tag)$
  // ---------------------------------------------------------------------------

  /** `s.replace("zu", "→")`: each "zu" found scanning left to right (so
      never overlapping) becomes an arrow; the match is case-sensitive. */
  function ReplaceZu(s: string): (r: string)
    ensures forall k | 0 <= k < |r| - 1 :: !(r[k] == 'z' && r[k + 1] == 'u')
    ensures s != [] ==> r != [] && (r[0] == '\U{2192}' || r[0] == s[0])
    decreases |s|
  {
    if s == [] then []
    else if |s| >= 2 && s[0] == 'z' && s[1] == 'u' then "\U{2192}" + ReplaceZu(s[2..])
    else [s[0]] + ReplaceZu(s[1..])
  }

  /** Turns every arrow back into "zu". */
  function RestoreZu(t: string): string
    decreases |t|
  {
    if t == [] then []
    else if t[0] == '\U{2192}' then "zu" + RestoreZu(t[1..])
    else [t[0]] + RestoreZu(t[1..])
  }

  /** The replacement loses nothing when the text had no arrow of its own. */
  lemma {:induction false} ZuRoundTrip(s: string)
    requires '\U{2192}' !in s
    ensures RestoreZu(ReplaceZu(s)) == s
    decreases |s|
  {
    if s == [] {
    } else if |s| >= 2 && s[0] == 'z' && s[1] == 'u' {
      ZuRoundTrip(s[2..]);
      assert ("\U{2192}" + ReplaceZu(s[2..]))[1..] == ReplaceZu(s[2..]);
      assert s == "zu" + s[2..];
    } else {
      ZuRoundTrip(s[1..]);
      assert ([s[0]] + ReplaceZu(s[1..]))[1..] == ReplaceZu(s[1..]);
      assert s == [s[0]] + s[1..];
    }
  }

  /** The DS key of a route: `f"DS {route}".replace("zu", "→")`. The
      prefix "DS " has no "zu" and cannot start one, so only the route
      changes. */
  function DsKey(route: string): (k: string)
    ensures |k| >= 3 && k[..3] == "DS " && k[3..] == ReplaceZu(route)
  {
    var s := "DS " + route;
    var t := s[1..];
    var u := t[1..];
    assert s[0] == 'D' && t == "S " + route;
    assert t[0] == 'S' && u == " " + route;
    assert u[0] == ' ' && u[1..] == route;
    assert ReplaceZu(u) == " " + ReplaceZu(route);
    assert ReplaceZu(t) == "S " + ReplaceZu(route);
    assert ReplaceZu(s) == "DS " + ReplaceZu(route);
    ReplaceZu(s)
  }

  /** Routes without arrows have distinct keys, and the key gives the route back. */
  lemma DsKeyInjective(r1: string, r2: string)
    requires '\U{2192}' !in r1 && '\U{2192}' !in r2
    ensures RestoreZu(DsKey(r1)[3..]) == r1
    ensures DsKey(r1) == DsKey(r2) ==> r1 == r2
  {
    ZuRoundTrip(r1);
    ZuRoundTrip(r2);
  }

  /** The pattern matches `c`: "DS" in any case, the middle c[2..b] with the
      lazy group at [i, j) inside it, field word c[b..]. */
  ghost predicate MatchDS(c: string, b: int, i: int, j: int) {
    2 <= b <= |c| && Fold(c[..2]) == "ds" && Splits(c[2..b], i, j) && IsFieldWord(c[b..])
  }

  /** The match, if any: the stripped route and the field. */
  function GroupsDS(c: string): Option<(string, Field)> {
    if |c| < 2 || Fold(c[..2]) != "ds" then None
    else
      match FieldSuffix(c)
      case None => None
      case Some(b) =>
        if 2 <= b && Padded(c[2..b]) then Some((Strip(c[2..b]), FieldOf(c[b..]))) else None
  }

  /** A DS header's contribution: its key and the field. The key is "DS "
      and the route, in which no "zu" is left. */
  function ClassifyDS(c: string): (r: Option<(string, Field)>)
    ensures r.Some? ==> var k := r.value.0;
      |k| >= 3 && k[..3] == "DS " && forall i | 3 <= i < |k| - 1 :: !(k[i] == 'z' && k[i + 1] == 'u')
  {
    match GroupsDS(c)
    case None => None
    case Some((route, f)) => Some((DsKey(route), f))
  }

  /** "DS <route> <field>" as the program's example headers write it. */
  function HeaderDS(route: string, f: Field): string {
    "DS " + route + " " + FieldWord(f)
  }

  // ---------------------------------------------------------------------------
  // Order-day columns: (?i)^(DAY)\s+(?:(Z|L)\s+)?(.+?)\s+B[_ ]?(DAY)$
  // ---------------------------------------------------------------------------

  /** What an order-day column holds: the order deadline ("Z"), a label
      ("L", recorded and never read) or the assortment (no marker). */
  datatype Role = TimeRole | LabelRole | SortRole

  predicate IsMarker(ch: char) {
    FoldChar(ch) == 'z' || FoldChar(ch) == 'l'
  }

  /** `(m.group(2) or "").upper()` turned into a role. */
  function MarkerRole(ch: char): Role
    requires IsMarker(ch)
  {
    if FoldChar(ch) == 'z' then TimeRole else LabelRole
  }

  /** What every match has: the day token c[..a] at the start and the tail
      from p, with its day token from q, at the end. */
  ghost predicate DayAndTail(c: string, a: int, p: int, q: int) {
    0 < a <= p <= |c| && IsDayToken(c[..a]) && BTail(c, p, q)
  }

  /** The pattern matches `c` taking the optional marker at m: whitespace
      after the day token, the marker, then `\s+(.+?)\s+` over c[m+1..p]
      with the group at [i, j). */
  ghost predicate MarkerMatchB(c: string, a: int, m: int, i: int, j: int, p: int, q: int) {
    DayAndTail(c, a, p, q) && a < m < p && AllSpace(c[a..m]) && IsMarker(c[m]) && Splits(c[m + 1..p], i, j)
  }

  /** The pattern matches `c` skipping the optional marker. */
  ghost predicate PlainMatchB(c: string, a: int, i: int, j: int, p: int, q: int) {
    DayAndTail(c, a, p, q) && Splits(c[a..p], i, j)
  }

  ghost predicate HasMarkerMatch(c: string) {
    exists a, m, i, j, p, q :: MarkerMatchB(c, a, m, i, j, p, q)
  }

  /** Some match with a marker of this role has day tokens tok and tok2 and
      a group stripping to g. */
  ghost predicate MarkerMatchGives(c: string, tok: string, role: Role, g: string, tok2: string) {
    exists a, m, i, j, p, q {:trigger MarkerMatchB(c, a, m, i, j, p, q)} :: MarkerMatchB(c, a, m, i, j, p, q)
      && c[..a] == tok && MarkerRole(c[m]) == role && Strip(c[m + 1..p][i..j]) == g && c[q..] == tok2
  }

  /** Some match without the marker has day tokens tok and tok2 and a group
      stripping to g. */
  ghost predicate PlainMatchGives(c: string, tok: string, g: string, tok2: string) {
    exists a, i, j, p, q {:trigger PlainMatchB(c, a, i, j, p, q)} :: PlainMatchB(c, a, i, j, p, q) && c[..a] == tok && Strip(c[a..p][i..j]) == g && c[q..] == tok2
  }

  /** Where the marker would stand: the first non-space after the day token. */
  function MarkerPos(c: string, a: int, p: int): int
    requires 0 <= a <= p <= |c|
  {
    a + LeadingSpaces(c[a..p])
  }

  /** The engine tries the longest run of whitespace first and the optional
      marker before skipping it, so the marker is taken whenever a match
      with it exists. */
  predicate MarkerFits(c: string, a: int, p: int)
    requires 0 <= a <= p <= |c|
  {
    var m := MarkerPos(c, a, p);
    m < p && IsMarker(c[m]) && Padded(c[m + 1..p])
  }

  /** The groups once the day token ends at a and the tail starts at p with
      its day token at q: the marker reading when it fits, else the plain one. */
  function GroupsBAt(c: string, a: int, p: int, q: int): Option<(string, Role, string, string)>
    requires 0 <= a <= p <= q <= |c|
  {
    if MarkerFits(c, a, p) then
      var m := MarkerPos(c, a, p);
      Some((c[..a], MarkerRole(c[m]), Strip(c[m + 1..p]), c[q..]))
    else if Padded(c[a..p]) then Some((c[..a], SortRole, Strip(c[a..p]), c[q..]))
    else None
  }

  /** The match, if any: day token, role, stripped group, order-day token. */
  function GroupsB(c: string): Option<(string, Role, string, string)> {
    var a := FirstSpace(c);
    if !IsDayToken(c[..a]) then None
    else
      match BTailAt(c)
      case None => None
      case Some((p, q)) => if p < a then None else GroupsBAt(c, a, p, q)
  }

  /** An order-day header's contribution: (delivery day, group, order day)
      and the role; skipped when either day token names no day. The group is
      stripped and holds no line feed. */
  function ClassifyB(c: string): (r: Option<((Weekday, string, Weekday), Role)>)
    ensures r.Some? ==> Trimmed(r.value.0.1) && '\n' !in r.value.0.1
  {
    match GroupsB(c)
    case None => None
    case Some((tok, role, g, tok2)) =>
      match (DayOf(tok), DayOf(tok2))
      case (Some(d), Some(e)) => Some(((d, g, e), role))
      case _ => None
  }

  /** The marker a role is written with, and the space after it. */
  function MarkerText(role: Role): string {
    match role
    case TimeRole => "Z "
    case LabelRole => "L "
    case SortRole => ""
  }

  /** "<day> [Z|L] <group> B_<day>" as the program's example headers write it. */
  function HeaderB(tok: string, role: Role, g: string, tok2: string): string {
    tok + " " + (MarkerText(role) + g) + " " + ("B_" + tok2)
  }

  /** A day token followed by a space ends at the first space of `c`. */
  lemma DayTokenEnds(c: string, a: int)
    requires 0 < a < |c| && IsDayToken(c[..a]) && IsSpace(c[a])
    ensures FirstSpace(c) == a
  {
    DayTokenShape(c[..a]);
    FirstSpaceAt(c, a);
  }

  /** After the day token's whitespace, the marker is the first non-space. */
  lemma MarkerPosAt(c: string, a: int, m: int, p: int)
    requires 0 <= a < m < p <= |c| && AllSpace(c[a..m]) && IsMarker(c[m])
    ensures MarkerPos(c, a, p) == m
  {
    var s := c[a..p];
    assert s[..m - a] == c[a..m];
    assert s[m - a] == c[m];
    LeadingSpacesAt(s, m - a);
  }

  /** Once the day token and the tail are found, the groups are read between. */
  lemma GroupsBFrom(c: string, a: int, p: int, q: int)
    requires 0 <= a <= p <= q <= |c| && FirstSpace(c) == a && IsDayToken(c[..a]) && BTailAt(c) == Some((p, q))
    ensures GroupsB(c) == GroupsBAt(c, a, p, q)
  {
  }

  /** A result of `GroupsB` was read between a day token ending at the
      first space and a tail. */
  lemma GroupsBParts(c: string) returns (a: int, p: int, q: int)
    requires GroupsB(c).Some?
    ensures 0 < a <= p < q <= |c| && FirstSpace(c) == a && IsDayToken(c[..a]) && IsSpace(c[a])
    ensures BTail(c, p, q) && GroupsB(c) == GroupsBAt(c, a, p, q)
  {
    a := FirstSpace(c);
    p, q := BTailAt(c).value.0, BTailAt(c).value.1;
    DayTokenShape(c[..a]);
  }

  /** The marker reading is taken exactly when the marker fits, and the
      plain reading otherwise. */
  lemma GroupsBAtRole(c: string, a: int, p: int, q: int)
    requires 0 <= a <= p <= q <= |c| && GroupsBAt(c, a, p, q).Some?
    ensures GroupsBAt(c, a, p, q).value.1 != SortRole <==> MarkerFits(c, a, p)
    ensures !MarkerFits(c, a, p) ==> Padded(c[a..p]) && GroupsBAt(c, a, p, q) == Some((c[..a], SortRole, Strip(c[a..p]), c[q..]))
  {
  }

  /** Where the marker fits, the marker reading is taken. */
  lemma GroupsBAtMarker(c: string, a: int, m: int, p: int, q: int)
    requires 0 <= a < m < p <= q <= |c| && MarkerPos(c, a, p) == m && IsMarker(c[m]) && Padded(c[m + 1..p])
    ensures GroupsBAt(c, a, p, q) == Some((c[..a], MarkerRole(c[m]), Strip(c[m + 1..p]), c[q..]))
  {
    assert MarkerFits(c, a, p);
  }

  /** Where it does not, the plain reading is taken. */
  lemma GroupsBAtPlain(c: string, a: int, p: int, q: int)
    requires 0 <= a <= p <= q <= |c| && !MarkerFits(c, a, p) && Padded(c[a..p])
    ensures GroupsBAt(c, a, p, q) == Some((c[..a], SortRole, Strip(c[a..p]), c[q..]))
  {
  }

  /** Where the marker fits after a space, only spaces stand between the
      day token and the marker, and the rest of the segment matches. */
  lemma MarkerFitsParts(c: string, a: int, p: int) returns (m: int, i: int, j: int)
    requires 0 <= a <= p <= |c| && MarkerFits(c, a, p) && IsSpace(c[a])
    ensures m == MarkerPos(c, a, p) && a < m < p && AllSpace(c[a..m]) && IsMarker(c[m]) && Splits(c[m + 1..p], i, j)
  {
    m := MarkerPos(c, a, p);
    MarkerPosSpaces(c, a, p);
    i, j := PaddedWitness(c[m + 1..p]);
  }

  /** After a space, the marker position is past at least one space, and
      only spaces come before it. */
  lemma MarkerPosSpaces(c: string, a: int, p: int)
    requires 0 <= a < p <= |c| && IsSpace(c[a])
    ensures a < MarkerPos(c, a, p) && AllSpace(c[a..MarkerPos(c, a, p)])
  {
    var s := c[a..p];
    var n := LeadingSpaces(s);
    assert s[0] == c[a];
    assert c[a..a + n] == s[..n];
  }
}

/** Character classes and string helpers with Python's meaning: `str.isspace`
    (which is also what `\s` and `str.strip()` use), `str.strip()`,
    `str.split()` / `" ".join(...)`, `str.lower()` and string comparison. */
module Text {

  /** Python's `str.isspace()` for one character: the characters `\s`
      matches in a `str` pattern and that `str.strip()` removes. */
  predicate IsSpace(c: char) {
    || c == ' '
    || ('\t' <= c <= '\r')
    || ('\U{1C}' <= c <= '\U{1F}')
    || c == '\U{85}' || c == '\U{A0}' || c == '\U{1680}'
    || ('\U{2000}' <= c <= '\U{200A}')
    || c == '\U{2028}' || c == '\U{2029}' || c == '\U{202F}' || c == '\U{205F}' || c == '\U{3000}'
  }

  /** An ASCII decimal digit (the model's `\d`). */
  predicate IsDigit(c: char) {
    '0' <= c <= '9'
  }

  predicate AllSpace(s: string) {
    forall i | 0 <= i < |s| :: IsSpace(s[i])
  }

  predicate NoSpace(s: string) {
    forall i | 0 <= i < |s| :: !IsSpace(s[i])
  }

  predicate AllDigits(s: string) {
    forall i | 0 <= i < |s| :: IsDigit(s[i])
  }

  /** Python's `str.isdigit()`: false for the empty string. */
  predicate IsDigits(s: string) {
    |s| > 0 && AllDigits(s)
  }

  /** Neither starts nor ends with whitespace. */
  predicate Trimmed(s: string) {
    s == [] || (!IsSpace(s[0]) && !IsSpace(s[|s| - 1]))
  }

  /** Every whitespace character is a plain space and no two are adjacent. */
  predicate Collapsed(s: string) {
    forall i | 0 <= i < |s| && IsSpace(s[i]) :: s[i] == ' ' && (i + 1 < |s| ==> !IsSpace(s[i + 1]))
  }

  /** What `norm` promises of its result: trimmed, single plain spaces only. */
  predicate Tidy(s: string) {
    Trimmed(s) && Collapsed(s)
  }

  /** `r` sits in `s` at offset `a` with nothing but whitespace around it. */
  predicate Framed(s: string, a: nat, r: string) {
    a + |r| <= |s| && s[a..a + |r|] == r && AllSpace(s[..a]) && AllSpace(s[a + |r|..])
  }

  /** The number of leading whitespace characters. */
  function LeadingSpaces(s: string): (n: nat)
    ensures n <= |s| && AllSpace(s[..n])
    ensures n < |s| ==> !IsSpace(s[n])
  {
    if s == [] || !IsSpace(s[0]) then 0 else 1 + LeadingSpaces(s[1..])
  }

  /** The index just past the last non-whitespace character (0 if there is none). */
  function ContentEnd(s: string): (n: nat)
    ensures n <= |s| && AllSpace(s[n..])
    ensures n > 0 ==> !IsSpace(s[n - 1])
  {
    if s == [] || !IsSpace(s[|s| - 1]) then |s|
    else
      var t := s[..|s| - 1];
      var n := ContentEnd(t);
      assert AllSpace(s[n..]) by {
        forall i | 0 <= i < |s| - n
          ensures IsSpace(s[n..][i])
        {
          if n + i < |t| {
            assert s[n..][i] == t[n..][i];
          }
        }
      }
      assert n > 0 ==> s[n - 1] == t[n - 1];
      n
  }

  /** The index of the first whitespace character, `|s|` when there is none. */
  function FirstSpace(s: string): (n: nat)
    ensures n <= |s| && NoSpace(s[..n])
    ensures n < |s| ==> IsSpace(s[n])
  {
    if s == [] || IsSpace(s[0]) then 0 else 1 + FirstSpace(s[1..])
  }

  /** `s` without its leading whitespace (Python's `str.lstrip()`). */
  function TrimStart(s: string): (r: string)
    ensures Framed(s, LeadingSpaces(s), r) && AllSpace(s[LeadingSpaces(s)..]) == (r == [])
    ensures r == [] || !IsSpace(r[0])
    ensures |r| <= |s| && (s != [] && IsSpace(s[0]) ==> |r| < |s|)
  {
    var a := LeadingSpaces(s);
    assert s[a..][..|s[a..]|] == s[a..];
    s[a..]
  }

  /** Python's `str.strip()`: the part of `s` between its leading and its
      trailing whitespace. */
  function Strip(s: string): (r: string)
    ensures Trimmed(r)
    ensures Framed(s, LeadingSpaces(s), r)
  {
    var a := LeadingSpaces(s);
    var t := s[a..];
    var e := ContentEnd(t);
    assert s[a..][..e] == s[a..a + e];
    assert s[a + e..] == t[e..];
    t[..e]
  }

  lemma {:induction false} LeadingSpacesAt(s: string, a: nat)
    requires a <= |s| && AllSpace(s[..a]) && (a < |s| ==> !IsSpace(s[a]))
    ensures LeadingSpaces(s) == a
    decreases a
  {
    if a > 0 {
      assert IsSpace(s[..a][0]);
      assert s[1..][..a - 1] == s[1..a];
      assert forall i | 0 <= i < a - 1 :: s[1..a][i] == s[..a][i + 1];
      LeadingSpacesAt(s[1..], a - 1);
    }
  }

  lemma {:induction false} ContentEndAt(t: string, e: nat)
    requires e <= |t| && AllSpace(t[e..]) && (e > 0 ==> !IsSpace(t[e - 1]))
    ensures ContentEnd(t) == e
    decreases |t| - e
  {
    if e < |t| {
      assert IsSpace(t[e..][|t| - 1 - e]);
      var u := t[..|t| - 1];
      assert forall i | 0 <= i < |u| - e :: u[e..][i] == t[e..][i];
      ContentEndAt(u, e);
    }
  }

  lemma {:induction false} FirstSpaceAt(s: string, a: nat)
    requires a <= |s| && NoSpace(s[..a]) && (a < |s| ==> IsSpace(s[a]))
    ensures FirstSpace(s) == a
    decreases a
  {
    if a > 0 {
      assert !IsSpace(s[..a][0]);
      assert s[1..][..a - 1] == s[1..a];
      assert forall i | 0 <= i < a - 1 :: s[1..a][i] == s[..a][i + 1];
      FirstSpaceAt(s[1..], a - 1);
    }
  }

  /** The two conditions of `Strip`'s contract determine its result. */
  lemma StripUnique(s: string, a: nat, r: string)
    requires Framed(s, a, r) && Trimmed(r)
    ensures Strip(s) == r
  {
    if r == [] {
      assert s == s[..a] + s[a..];
      LeadingSpacesAt(s, |s|);
    } else {
      assert s[a] == r[0];
      LeadingSpacesAt(s, a);
      var t := s[a..];
      assert t[|r| - 1] == r[|r| - 1];
      assert t[|r|..] == s[a + |r|..];
      ContentEndAt(t, |r|);
      assert t[..|r|] == r;
    }
  }

  lemma StripTrimmed(s: string)
    requires Trimmed(s)
    ensures Strip(s) == s
  {
    assert s[0..|s|] == s;
    StripUnique(s, 0, s);
  }

  /** Python's `re.sub(r"\s+", " ", s)`: every run of whitespace becomes one
      plain space. */
  function Collapse(s: string): (r: string)
    ensures Collapsed(r)
    ensures (r == []) == (s == [])
    ensures r != [] ==> IsSpace(r[0]) == IsSpace(s[0]) && IsSpace(r[|r| - 1]) == IsSpace(s[|s| - 1])
    decreases |s|
  {
    if s == [] then []
    else if IsSpace(s[0]) then
      var t := TrimStart(s);
      assert t == [] ==> AllSpace(s);
      assert t != [] ==> t[|t| - 1] == s[|s| - 1];
      var rest := Collapse(t);
      CollapsedCons(' ', rest);
      " " + rest
    else
      var rest := Collapse(s[1..]);
      CollapsedCons(s[0], rest);
      [s[0]] + rest
  }

  /** One character in front of a collapsed string keeps it collapsed,
      unless it is whitespace other than a plain space or meets whitespace. */
  lemma CollapsedCons(ch: char, r: string)
    requires Collapsed(r) && (IsSpace(ch) ==> ch == ' ' && (r == [] || !IsSpace(r[0])))
    ensures Collapsed([ch] + r)
  {
    var s := [ch] + r;
    forall i | 0 <= i < |s| && IsSpace(s[i])
      ensures s[i] == ' ' && (i + 1 < |s| ==> !IsSpace(s[i + 1]))
    {
      if i > 0 {
        assert s[i] == r[i - 1];
        if i + 1 < |s| {
          assert s[i + 1] == r[i];
        }
      }
    }
  }

  /** Python's `str.split()` with no argument: the maximal runs of
      non-whitespace characters, left to right. */
  function Words(s: string): seq<string>
    decreases |s|
  {
    if s == [] then []
    else if IsSpace(s[0]) then Words(s[1..])
    else
      var n := FirstSpace(s);
      [s[..n]] + Words(s[n..])
  }

  /** Python's `" ".join(ws)`. */
  function JoinWords(ws: seq<string>): string
    decreases |ws|
  {
    if |ws| == 0 then []
    else if |ws| == 1 then ws[0]
    else ws[0] + " " + JoinWords(ws[1..])
  }

  lemma {:induction false} WordsAfterSpace(p: string, s: string)
    requires AllSpace(p)
    ensures Words(p + s) == Words(s)
    decreases |p|
  {
    if p != [] {
      assert (p + s)[1..] == p[1..] + s;
      WordsAfterSpace(p[1..], s);
    } else {
      assert p + s == s;
    }
  }

  lemma {:induction false} FirstSpaceBeforeSpace(s: string, q: string)
    requires AllSpace(q)
    ensures FirstSpace(s + q) == FirstSpace(s)
    decreases |s|
  {
    if s == [] {
      assert s + q == q;
    } else if !IsSpace(s[0]) {
      assert (s + q)[1..] == s[1..] + q;
      FirstSpaceBeforeSpace(s[1..], q);
    }
  }

  lemma {:induction false} WordsBeforeSpace(s: string, q: string)
    requires AllSpace(q)
    ensures Words(s + q) == Words(s)
    decreases |s|
  {
    if s == [] {
      assert s + q == q + [];
      WordsAfterSpace(q, []);
    } else if IsSpace(s[0]) {
      assert (s + q)[1..] == s[1..] + q;
      WordsBeforeSpace(s[1..], q);
    } else {
      var n := FirstSpace(s);
      FirstSpaceBeforeSpace(s, q);
      assert (s + q)[..n] == s[..n];
      assert (s + q)[n..] == s[n..] + q;
      WordsBeforeSpace(s[n..], q);
    }
  }

  /** Stripping never changes the words of a string. */
  lemma WordsOfStrip(s: string)
    ensures Words(Strip(s)) == Words(s)
  {
    var a := LeadingSpaces(s);
    var r := Strip(s);
    assert s == s[..a] + (r + s[a + |r|..]);
    WordsAfterSpace(s[..a], r + s[a + |r|..]);
    WordsBeforeSpace(r, s[a + |r|..]);
  }

  lemma {:induction false} CollapseAfterWord(w: string, x: string)
    requires NoSpace(w)
    ensures Collapse(w + x) == w + Collapse(x)
    decreases |w|
  {
    if w == [] {
      assert w + x == x;
    } else {
      var s := w + x;
      assert s[0] == w[0] && !IsSpace(s[0]);
      assert s[1..] == w[1..] + x;
      CollapseWordHead(s);
      CollapseAfterWord(w[1..], x);
      ConsAfter(w, Collapse(x));
    }
  }

  /** `Collapse` keeps a leading non-space character. */
  lemma CollapseWordHead(s: string)
    requires s != [] && !IsSpace(s[0])
    ensures Collapse(s) == [s[0]] + Collapse(s[1..])
  {
  }

  lemma ConsAfter(w: string, y: string)
    requires w != []
    ensures [w[0]] + (w[1..] + y) == w + y
  {
    assert w == [w[0]] + w[1..];
  }

  lemma JoinWordsCons(w: string, ws: seq<string>)
    requires |ws| > 0
    ensures JoinWords([w] + ws) == w + " " + JoinWords(ws)
  {
    assert ([w] + ws)[1..] == ws;
  }

  /** A non-empty trimmed string starts with a word, on which `Collapse`
      changes nothing. */
  lemma FirstWord(t: string)
    requires Trimmed(t) && t != []
    ensures var n := FirstSpace(t);
      && 0 < n
      && Collapse(t) == t[..n] + Collapse(t[n..])
      && Words(t) == [t[..n]] + Words(t[n..])
  {
    var n := FirstSpace(t);
    assert t == t[..n] + t[n..];
    CollapseAfterWord(t[..n], t[n..]);
  }

  /** A trimmed string that contains whitespace splits into its first word,
      a whitespace run and a trimmed non-empty remainder. */
  lemma SplitFirstWord(t: string) returns (u: string)
    requires Trimmed(t) && t != [] && FirstSpace(t) < |t|
    ensures u != [] && Trimmed(u) && |u| < |t|
    ensures Collapse(t[FirstSpace(t)..]) == " " + Collapse(u)
    ensures Words(t[FirstSpace(t)..]) == Words(u) && Words(u) != []
  {
    var n := FirstSpace(t);
    var rest := t[n..];
    u := TrimStart(rest);
    assert rest[|rest| - 1] == t[|t| - 1];
    assert u[|u| - 1] == rest[|rest| - 1];
    var k := LeadingSpaces(rest);
    assert rest == rest[..k] + u;
    WordsAfterSpace(rest[..k], u);
  }

  lemma {:induction false} CollapseTrimmed(t: string)
    requires Trimmed(t)
    ensures Collapse(t) == JoinWords(Words(t))
    decreases |t|
  {
    if t != [] {
      var n := FirstSpace(t);
      FirstWord(t);
      var w := t[..n];
      if n == |t| {
        assert t[n..] == [];
        JoinOneWord(t, w);
      } else {
        var u := SplitFirstWord(t);
        CollapseTrimmed(u);
        JoinWordsAfter(w, Collapse(u), Words(u));
      }
    }
  }

  /** The last step of `CollapseTrimmed` for a single word. */
  lemma JoinOneWord(t: string, w: string)
    requires Collapse(t) == w + Collapse([]) && Words(t) == [w] + Words([])
    ensures Collapse(t) == JoinWords(Words(t))
  {
    assert Collapse(t) == w;
    assert Words(t) == [w];
  }

  /** The last step of `CollapseTrimmed`: the first word, one space and the
      joined rest. */
  lemma JoinWordsAfter(w: string, cu: string, wu: seq<string>)
    requires wu != [] && cu == JoinWords(wu)
    ensures w + (" " + cu) == JoinWords([w] + wu)
  {
    JoinWordsCons(w, wu);
    assert w + (" " + cu) == w + " " + cu;
  }

  /** `re.sub(r"\s+", " ", s.strip())` is `" ".join(s.split())`. */
  lemma CollapseStripIsJoinedWords(s: string)
    ensures Collapse(Strip(s)) == JoinWords(Words(s))
  {
    CollapseTrimmed(Strip(s));
    WordsOfStrip(s);
  }

  lemma CollapsedTail(s: string)
    requires s != [] && Collapsed(s)
    ensures Collapsed(s[1..])
  {
    forall i | 0 <= i < |s| - 1 && IsSpace(s[1..][i])
      ensures s[1..][i] == ' ' && (i + 1 < |s| - 1 ==> !IsSpace(s[1..][i + 1]))
    {
      assert s[1..][i] == s[i + 1];
    }
  }

  lemma {:induction false} CollapseCollapsed(s: string)
    requires Collapsed(s)
    ensures Collapse(s) == s
    decreases |s|
  {
    if s != [] {
      CollapsedTail(s);
      CollapseCollapsed(s[1..]);
      if IsSpace(s[0]) {
        LeadingSpacesAt(s, 1);
      }
    }
  }

  /** Python's `str.lower()` on one character; upper-case letters outside
      ASCII and Latin-1 are left out of the model. */
  function LowerChar(c: char): char {
    if 'A' <= c <= 'Z' || ('\U{C0}' <= c <= '\U{DE}' && c != '\U{D7}') then (c as int + 32) as char else c
  }

  /** Python's `str.lower()`. */
  function Lower(s: string): (r: string)
    ensures |r| == |s| && forall i | 0 <= i < |s| :: r[i] == LowerChar(s[i])
  {
    seq(|s|, i requires 0 <= i < |s| => LowerChar(s[i]))
  }

  /** The case folding `re.IGNORECASE` applies to the ASCII letters of the header patterns. */
  function FoldChar(c: char): char {
    if 'A' <= c <= 'Z' then (c as int + 32) as char else c
  }

  /** `s` with every ASCII letter folded to lower case: two strings match a
      pattern literal under `re.IGNORECASE` when their folds are equal. */
  function Fold(s: string): (r: string)
    ensures |r| == |s| && forall i | 0 <= i < |s| :: r[i] == FoldChar(s[i])
  {
    seq(|s|, i requires 0 <= i < |s| => FoldChar(s[i]))
  }

  predicate OccursAt(s: string, pat: string, i: nat) {
    i + |pat| <= |s| && s[i..i + |pat|] == pat
  }

  /** Python's `pat in s`. */
  predicate Contains(s: string, pat: string) {
    exists i: nat | i <= |s| :: OccursAt(s, pat, i)
  }

  /** Python's string comparison `a <= b`: code point by code point, a proper prefix first. */
  predicate LexLe(a: string, b: string)
    decreases |a|
  {
    a == [] || (b != [] && (a[0] < b[0] || (a[0] == b[0] && LexLe(a[1..], b[1..]))))
  }

  lemma {:induction false} LexLeTotal(a: string, b: string)
    ensures LexLe(a, b) || LexLe(b, a)
    decreases |a|
  {
    if a != [] && b != [] && a[0] == b[0] {
      LexLeTotal(a[1..], b[1..]);
    }
  }

  lemma {:induction false} LexLeAntisymmetric(a: string, b: string)
    requires LexLe(a, b) && LexLe(b, a)
    ensures a == b
    decreases |a|
  {
    if a != [] {
      LexLeAntisymmetric(a[1..], b[1..]);
      assert a == [a[0]] + a[1..];
      assert b == [b[0]] + b[1..];
    }
  }

  lemma {:induction false} LexLeTransitive(a: string, b: string, c: string)
    requires LexLe(a, b) && LexLe(b, c)
    ensures LexLe(a, c)
    decreases |a|
  {
    if a != [] && a[0] == b[0] && b[0] == c[0] {
      LexLeTransitive(a[1..], b[1..], c[1..]);
    }
  }

  /** The value of a string of decimal digits, as Python's `int(s)`. */
  function DecimalValue(s: string): nat
    requires AllDigits(s)
    decreases |s|
  {
    if s == [] then 0 else 10 * DecimalValue(s[..|s| - 1]) + (s[|s| - 1] as int - '0' as int)
  }
}

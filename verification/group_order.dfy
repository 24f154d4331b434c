/** `group_sort_key` (quelldrucksendezeiten.py, lines 77-81) and the order
    Python's tuple comparison puts on its results. */
module GroupOrder {
  import opened Text

  /** `(0, int(g))` for an all-digit group, `(1, g.lower())` for any other. */
  datatype GroupKey = Numeric(value: nat) | Textual(text: string)

  /** `group_sort_key(g)`: the group is stripped first; all-digit groups
      compare by value, the others by their lower-cased text. */
  function GroupSortKey(g: string): (k: GroupKey)
    ensures k.Numeric? <==> IsDigits(Strip(g))
    ensures k.Numeric? ==> k.value == DecimalValue(Strip(g))
    ensures k.Textual? ==> k.text == Lower(Strip(g))
    ensures k.Textual? ==> Trimmed(k.text) && Lower(k.text) == k.text
  {
    var t := Strip(g);
    if IsDigits(t) then Numeric(DecimalValue(t))
    else
      LowerTrimmed(t);
      assert Lower(Lower(t)) == Lower(t);
      Textual(Lower(t))
  }

  /** Python's `<=` on the key tuples: the tag 0 of a number sorts before the
      tag 1 of a text, so the payloads of different tags are never compared. */
  predicate GroupKeyLe(a: GroupKey, b: GroupKey) {
    match (a, b)
    case (Numeric(x), Numeric(y)) => x <= y
    case (Numeric(_), Textual(_)) => true
    case (Textual(_), Numeric(_)) => false
    case (Textual(s), Textual(t)) => LexLe(s, t)
  }

  /** A sort key made of a group key and a secondary rank: the B-column sort
      uses the weekday index of the order day as rank, the triplet sort a
      constant rank. */
  datatype SortKey = SortKey(group: GroupKey, rank: nat)

  /** Lexicographic `<=` on (group key, rank), as Python compares the tuples. */
  predicate KeyLe(a: SortKey, b: SortKey) {
    GroupKeyLe(a.group, b.group) && (a.group == b.group ==> a.rank <= b.rank)
  }

  lemma GroupKeyLeTotal(a: GroupKey, b: GroupKey)
    ensures GroupKeyLe(a, b) || GroupKeyLe(b, a)
  {
    if a.Textual? && b.Textual? {
      LexLeTotal(a.text, b.text);
    }
  }

  lemma GroupKeyLeAntisymmetric(a: GroupKey, b: GroupKey)
    requires GroupKeyLe(a, b) && GroupKeyLe(b, a)
    ensures a == b
  {
    if a.Textual? && b.Textual? {
      LexLeAntisymmetric(a.text, b.text);
    }
  }

  lemma GroupKeyLeTransitive(a: GroupKey, b: GroupKey, c: GroupKey)
    requires GroupKeyLe(a, b) && GroupKeyLe(b, c)
    ensures GroupKeyLe(a, c)
  {
    if a.Textual? && b.Textual? && c.Textual? {
      LexLeTransitive(a.text, b.text, c.text);
    }
  }

  lemma GroupKeyLeReflexive(a: GroupKey)
    ensures GroupKeyLe(a, a)
  {
    GroupKeyLeTotal(a, a);
  }

  /** `KeyLe` is a total order: the sorts built on it have one sorted answer
      up to the order of equal keys. */
  lemma KeyLeTotalOrder(a: SortKey, b: SortKey, c: SortKey)
    ensures KeyLe(a, a)
    ensures KeyLe(a, b) || KeyLe(b, a)
    ensures KeyLe(a, b) && KeyLe(b, a) ==> a == b
    ensures KeyLe(a, b) && KeyLe(b, c) ==> KeyLe(a, c)
  {
    GroupKeyLeReflexive(a.group);
    GroupKeyLeTotal(a.group, b.group);
    if GroupKeyLe(a.group, b.group) && GroupKeyLe(b.group, a.group) {
      GroupKeyLeAntisymmetric(a.group, b.group);
    }
    if KeyLe(a, b) && KeyLe(b, c) {
      GroupKeyLeTransitive(a.group, b.group, c.group);
      if a.group == c.group {
        GroupKeyLeAntisymmetric(a.group, b.group);
      }
    }
  }

  /** Every all-digit group sorts strictly before every other group. */
  lemma DigitGroupsFirst(g: string, h: string)
    requires IsDigits(Strip(g)) && !IsDigits(Strip(h))
    ensures GroupKeyLe(GroupSortKey(g), GroupSortKey(h))
    ensures !GroupKeyLe(GroupSortKey(h), GroupSortKey(g))
  {
  }

  /** All-digit groups compare by their numeric value, not as text. */
  lemma DigitGroupsByValue(g: string, h: string)
    requires IsDigits(Strip(g)) && IsDigits(Strip(h))
    ensures GroupKeyLe(GroupSortKey(g), GroupSortKey(h)) <==> DecimalValue(Strip(g)) <= DecimalValue(Strip(h))
  {
  }

  /** Groups that are not all digits compare by their stripped, lower-cased
      text. */
  lemma TextGroupsByLowerText(g: string, h: string)
    requires !IsDigits(Strip(g)) && !IsDigits(Strip(h))
    ensures GroupKeyLe(GroupSortKey(g), GroupSortKey(h)) <==> LexLe(Lower(Strip(g)), Lower(Strip(h)))
  {
  }

  /** "2" sorts before "10", although "10" < "2" as text. */
  lemma TwoBeforeTen()
    ensures GroupKeyLe(GroupSortKey("2"), GroupSortKey("10"))
    ensures !GroupKeyLe(GroupSortKey("10"), GroupSortKey("2"))
    ensures LexLe("10", "2")
  {
    StripTrimmed("2");
    StripTrimmed("10");
    assert DecimalValue("10"[..1]) == 1;
  }

  lemma LowerCharKeepsClass(c: char)
    ensures IsSpace(LowerChar(c)) == IsSpace(c)
    ensures IsDigit(LowerChar(c)) == IsDigit(c)
    ensures IsDigit(c) ==> LowerChar(c) == c
  {
  }

  lemma LowerAllSpace(s: string)
    requires AllSpace(s)
    ensures AllSpace(Lower(s))
  {
    forall i | 0 <= i < |s| ensures IsSpace(Lower(s)[i]) {
      LowerCharKeepsClass(s[i]);
    }
  }

  /** Lower-casing keeps a string framed by whitespace framed the same way. */
  lemma LowerFramed(s: string, a: nat, r: string)
    requires Framed(s, a, r)
    ensures Framed(Lower(s), a, Lower(r))
  {
    var ls := Lower(s);
    assert ls[..a] == Lower(s[..a]);
    assert ls[a..a + |r|] == Lower(r);
    assert ls[a + |r|..] == Lower(s[a + |r|..]);
    LowerAllSpace(s[..a]);
    LowerAllSpace(s[a + |r|..]);
  }

  lemma LowerTrimmed(r: string)
    requires Trimmed(r)
    ensures Trimmed(Lower(r))
  {
    if r != [] {
      LowerCharKeepsClass(r[0]);
      LowerCharKeepsClass(r[|r| - 1]);
    }
  }

  /** Lower-casing and stripping commute. */
  lemma StripLower(s: string)
    ensures Strip(Lower(s)) == Lower(Strip(s))
  {
    LowerFramed(s, LeadingSpaces(s), Strip(s));
    LowerTrimmed(Strip(s));
    StripUnique(Lower(s), LeadingSpaces(s), Lower(Strip(s)));
  }

  /** A string is all digits exactly when its lower-case form is, and then
      lower-casing leaves it alone. */
  lemma LowerDigits(t: string)
    ensures IsDigits(Lower(t)) == IsDigits(t)
    ensures IsDigits(t) ==> Lower(t) == t
  {
    forall i | 0 <= i < |t| ensures IsDigit(Lower(t)[i]) == IsDigit(t[i]) {
      LowerCharKeepsClass(t[i]);
    }
    if IsDigits(t) {
      forall i | 0 <= i < |t| ensures Lower(t)[i] == t[i] {
        LowerCharKeepsClass(t[i]);
      }
    }
  }

  /** Non-digit groups compare case-insensitively: groups that lower-case
      alike get the same key. */
  lemma GroupKeyIgnoresCase(g: string, h: string)
    requires Lower(g) == Lower(h)
    ensures GroupSortKey(g) == GroupSortKey(h)
  {
    StripLower(g);
    StripLower(h);
    LowerDigits(Strip(g));
    LowerDigits(Strip(h));
  }

  /** Surrounding whitespace does not change a group's key. */
  lemma GroupKeyIgnoresPadding(g: string)
    ensures GroupSortKey(Strip(g)) == GroupSortKey(g)
  {
    StripTrimmed(Strip(g));
  }
}

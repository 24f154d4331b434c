/** The lines of one customer's order plan, as the row loop of
    quelldrucksendezeiten.py (lines 823-895) builds them from one spreadsheet
    row and the three detected column maps: the order-day entries, then the
    triplet entries, each Monday to Saturday, and the separate DS block. */
module Entries {
  import opened Options
  import opened Text
  import opened Cells
  import opened Days
  import opened GroupOrder
  import opened Sorting
  import opened Tables
  import opened Patterns
  import opened Headers
  import opened Detect

  /** One spreadsheet row: column name to cell. Its keys are the (stripped)
      column names of the sheet, taken to be distinct text: one cell per
      name. */
  type Row = map<string, Cell>

  /** `r.get(col, "")`. */
  function Get(row: Row, col: string): Cell {
    if col in row then row[col] else Filled("")
  }

  /** `norm(r.get(col, ""))`: tidy, and empty for a column the sheet lacks. */
  function Value(row: Row, col: string): (v: string)
    ensures Tidy(v)
    ensures col !in row ==> v == ""
  {
    // An absent column reads as the empty text, which normalises to "".
    NormWord("");
    Norm(Get(row, col))
  }

  /** `cols.get(name, "")`: the column filed under a field, or "" (a column
      name no row has, unless the sheet has a column with an empty header). */
  function ColumnOf<F(==)>(slots: map<F, string>, f: F): string {
    if f in slots then slots[f] else ""
  }

  // ---------------------------------------------------------------------------
  // The deadline rule
  // ---------------------------------------------------------------------------

  /** `re.fullmatch(r"\d{1,2}:\d{2}", z)`: one or two digits, a colon, two digits. */
  predicate IsClock(z: string) {
    && (|z| == 4 || |z| == 5)
    && z[|z| - 3] == ':'
    && AllDigits(z[..|z| - 3])
    && AllDigits(z[|z| - 2..])
  }

  lemma ClockChar(z: string, i: int)
    requires IsClock(z) && 0 <= i < |z|
    ensures IsDigit(z[i]) || z[i] == ':'
  {
    if i < |z| - 3 {
      assert z[i] == z[..|z| - 3][i];
    } else if i > |z| - 3 {
      assert z[i] == z[|z| - 2..][i - (|z| - 2)];
    }
  }

  /** A clock time contains no "uhr" in any case. */
  lemma ClockHasNoUhr(z: string)
    requires IsClock(z)
    ensures !Contains(Lower(z), "uhr")
  {
    var l := Lower(z);
    forall i: nat | i <= |l| ensures !OccursAt(l, "uhr", i) {
      if i < |l| {
        ClockChar(z, i);
        assert l[i] == LowerChar(z[i]) == z[i];
        if i + 3 <= |l| {
          assert l[i..i + 3][0] == l[i];
        }
      }
    }
  }

  /** The deadline rule of lines 851-853, 871-872 and 887-888: " Uhr" is
      appended to a non-empty value without "uhr" (in any case) that is a
      clock time. Non-emptiness and the "uhr" test are implied by the clock
      test, so the rule is: exactly the clock times get " Uhr". */
  function TimeNorm(z: string): (r: string)
    ensures r == if IsClock(z) then z + " Uhr" else z
  {
    assert IsClock(z) ==> !Contains(Lower(z), "uhr") by {
      if IsClock(z) {
        ClockHasNoUhr(z);
      }
    }
    if z != "" && !Contains(Lower(z), "uhr") && IsClock(z) then z + " Uhr" else z
  }

  /** Applying the deadline rule twice is applying it once. */
  lemma TimeNormIdempotent(z: string)
    ensures TimeNorm(TimeNorm(z)) == TimeNorm(z)
  {
    if IsClock(z) {
      assert |TimeNorm(z)| >= 8;
    }
  }

  /** A normalised cell stays tidy when the rule appends " Uhr". */
  lemma TimeNormTidy(z: string)
    requires Tidy(z)
    ensures Tidy(TimeNorm(z))
  {
    if IsClock(z) {
      var r := z + " Uhr";
      forall i | 0 <= i < |r| && IsSpace(r[i])
        ensures r[i] == ' ' && (i + 1 < |r| ==> !IsSpace(r[i + 1]))
      {
        if i < |z| {
          ClockChar(z, i);
        }
      }
    }
  }

  // ---------------------------------------------------------------------------
  // Entries
  // ---------------------------------------------------------------------------

  /** One line of the order plan (`bestell`): delivery day, assortment, order
      day and order deadline. The program stores the day as its German name,
      `Name(liefertag)`. */
  datatype Entry = Entry(liefertag: Weekday, sortiment: string, bestelltag: string, bestellschluss: string)

  /** One line of the DS block. */
  datatype DsEntry = DsEntry(dsKey: string, sortiment: string, bestelltag: string, bestellschluss: string)

  /** The entry of one order-day key (lines 843-859): dropped when both the
      assortment and the deadline are empty; the order day is the one named
      in the header. */
  function BEntry(row: Row, k: (Weekday, string, Weekday), slots: map<Role, string>): (r: Option<Entry>)
    ensures r.None? <==> Value(row, ColumnOf(slots, SortRole)) == "" && Value(row, ColumnOf(slots, TimeRole)) == ""
    ensures r.Some? ==> r.value.liefertag == k.0 && r.value.bestelltag == Name(k.2)
    ensures r.Some? ==> r.value.sortiment == Value(row, ColumnOf(slots, SortRole))
    ensures r.Some? ==> r.value.bestellschluss == TimeNorm(Value(row, ColumnOf(slots, TimeRole)))
  {
    var sortiment := Value(row, ColumnOf(slots, SortRole));
    var zeit := Value(row, ColumnOf(slots, TimeRole));
    if sortiment == "" && zeit == "" then None
    else Some(Entry(k.0, sortiment, Name(k.2), TimeNorm(zeit)))
  }

  /** The entry of one triplet (lines 864-878): kept only with an assortment;
      the order day is whatever the Tag column holds. */
  function TEntry(row: Row, k: (Weekday, string), fields: map<Field, string>): (r: Option<Entry>)
    ensures r.None? <==> Value(row, ColumnOf(fields, Sort)) == ""
    ensures r.Some? ==> r.value.liefertag == k.0 && r.value.bestelltag == Value(row, ColumnOf(fields, Tag))
    ensures r.Some? ==> r.value.sortiment == Value(row, ColumnOf(fields, Sort))
    ensures r.Some? ==> r.value.bestellschluss == TimeNorm(Value(row, ColumnOf(fields, Zeit)))
  {
    var zeit := Value(row, ColumnOf(fields, Zeit));
    var sortiment := Value(row, ColumnOf(fields, Sort));
    var bestelltag := Value(row, ColumnOf(fields, Tag));
    if sortiment != "" then Some(Entry(k.0, sortiment, bestelltag, TimeNorm(zeit))) else None
  }

  /** The entry of one DS key (lines 882-895): dropped only when all three
      values are empty. */
  function DsEntryOf(row: Row, k: string, fields: map<Field, string>): (r: Option<DsEntry>)
    ensures r.None? <==> Value(row, ColumnOf(fields, Zeit)) == "" && Value(row, ColumnOf(fields, Sort)) == "" && Value(row, ColumnOf(fields, Tag)) == ""
    ensures r.Some? ==> r.value.dsKey == k
    ensures r.Some? ==> r.value.sortiment == Value(row, ColumnOf(fields, Sort)) && r.value.bestelltag == Value(row, ColumnOf(fields, Tag))
    ensures r.Some? ==> r.value.bestellschluss == TimeNorm(Value(row, ColumnOf(fields, Zeit)))
  {
    var zeit := Value(row, ColumnOf(fields, Zeit));
    var sortiment := Value(row, ColumnOf(fields, Sort));
    var bestelltag := Value(row, ColumnOf(fields, Tag));
    if sortiment != "" || zeit != "" || bestelltag != "" then Some(DsEntry(k, sortiment, bestelltag, TimeNorm(zeit))) else None
  }

  /** An entry the triplet rule keeps is one the order-day rule keeps, and
      one the order-day rule keeps is one the DS rule keeps: the three rules
      are increasingly lenient. */
  lemma SuppressionRulesNested(row: Row, d: Weekday, g: string, o: Weekday, k: string, z: string, s: string, t: string)
    ensures TEntry(row, (d, g), map[Zeit := z, Sort := s, Tag := t]).Some? ==>
      BEntry(row, (d, g, o), map[TimeRole := z, SortRole := s]).Some?
    ensures BEntry(row, (d, g, o), map[TimeRole := z, SortRole := s]).Some? ==>
      DsEntryOf(row, k, map[Zeit := z, Sort := s, Tag := t]).Some?
  {
  }

  // ---------------------------------------------------------------------------
  // Emitting entries in order
  // ---------------------------------------------------------------------------

  /** The entries the keys produce, in key order, skipping the dropped ones. */
  function Emit<K, E>(ks: seq<K>, make: K -> Option<E>): (r: seq<E>)
    ensures |r| <= |ks|
    decreases |ks|
  {
    if ks == [] then []
    else
      var rest := Emit(ks[1..], make);
      match make(ks[0])
      case None => rest
      case Some(e) => [e] + rest
  }

  /** Emitting from two runs of keys is emitting from each, in order. */
  lemma {:induction false} EmitAppend<K, E>(a: seq<K>, b: seq<K>, make: K -> Option<E>)
    ensures Emit(a + b, make) == Emit(a, make) + Emit(b, make)
    decreases |a|
  {
    if a == [] {
      assert a + b == b;
    } else {
      assert (a + b)[1..] == a[1..] + b;
      EmitAppend(a[1..], b, make);
    }
  }

  /** Every emitted entry comes from some key. */
  lemma {:induction false} EmitSource<K, E>(ks: seq<K>, make: K -> Option<E>, e: E) returns (i: int)
    requires e in Emit(ks, make)
    ensures 0 <= i < |ks| && make(ks[i]) == Some(e)
    decreases |ks|
  {
    if make(ks[0]) == Some(e) {
      i := 0;
    } else {
      assert e in Emit(ks[1..], make);
      var i' := EmitSource(ks[1..], make, e);
      i := i' + 1;
    }
  }

  /** Every entry some key produces is emitted. */
  lemma {:induction false} EmitHas<K, E>(ks: seq<K>, make: K -> Option<E>, i: int)
    requires 0 <= i < |ks| && make(ks[i]).Some?
    ensures make(ks[i]).value in Emit(ks, make)
    decreases |ks|
  {
    if i > 0 {
      assert ks[1..][i - 1] == ks[i];
      EmitHas(ks[1..], make, i - 1);
    }
  }

  /** An entry is emitted exactly when some key produces it. */
  lemma EmitMembers<K, E>(ks: seq<K>, make: K -> Option<E>, e: E)
    ensures e in Emit(ks, make) <==> exists i | 0 <= i < |ks| :: make(ks[i]) == Some(e)
  {
    if e in Emit(ks, make) {
      var i := EmitSource(ks, make, e);
    }
    if exists i | 0 <= i < |ks| :: make(ks[i]) == Some(e) {
      var i :| 0 <= i < |ks| && make(ks[i]) == Some(e);
      EmitHas(ks, make, i);
    }
  }

  /** Emitting from distinct keys, when each entry names the key that made
      it, lists those keys in their order: each key at most once. */
  lemma {:induction false} EmitKeyOrder<K, E>(ks: seq<K>, make: K -> Option<E>, tag: E -> K)
    requires forall i, j | 0 <= i < j < |ks| :: ks[i] != ks[j]
    requires forall i | 0 <= i < |ks| :: make(ks[i]).Some? ==> tag(make(ks[i]).value) == ks[i]
    ensures var r := Emit(ks, make);
      forall i, j | 0 <= i < j < |r| :: Position(ks, tag(r[i])) < Position(ks, tag(r[j]))
    decreases |ks|
  {
    if ks != [] {
      var rest := Emit(ks[1..], make);
      EmitKeyOrder(ks[1..], make, tag);
      forall i | 0 <= i < |rest|
        ensures Position(ks, tag(rest[i])) == 1 + Position(ks[1..], tag(rest[i])) < |ks|
      {
        var j := EmitSource(ks[1..], make, rest[i]);
        assert ks[1..][j] == ks[j + 1];
        assert tag(rest[i]) == ks[j + 1] != ks[0];
      }
    }
  }

  /** `for day_de in DAYS_DE: ...`: the entries of each day in turn. */
  function ForDays<E>(days: seq<Weekday>, f: Weekday -> seq<E>): seq<E>
    decreases |days|
  {
    if days == [] then [] else f(days[0]) + ForDays(days[1..], f)
  }

  lemma {:induction false} ForDaysSource<E>(days: seq<Weekday>, f: Weekday -> seq<E>, e: E) returns (d: Weekday)
    requires e in ForDays(days, f)
    ensures d in days && e in f(days[0]) + ForDays(days[1..], f) && e in f(d)
    decreases |days|
  {
    if e in f(days[0]) {
      d := days[0];
    } else {
      d := ForDaysSource(days[1..], f, e);
    }
  }

  lemma {:induction false} ForDaysHas<E>(days: seq<Weekday>, f: Weekday -> seq<E>, d: Weekday, e: E)
    requires d in days && e in f(d)
    ensures e in ForDays(days, f)
    decreases |days|
  {
    if d != days[0] {
      ForDaysHas(days[1..], f, d, e);
    }
  }

  /** Delivery days never decrease along the list. */
  ghost predicate DaysAscending(es: seq<Entry>) {
    forall i, j | 0 <= i < j < |es| :: Index(es[i].liefertag) <= Index(es[j].liefertag)
  }

  /** Entries of day n followed by ascending entries of later days ascend. */
  lemma AscendingAppend(a: seq<Entry>, rest: seq<Entry>, n: nat)
    requires forall i | 0 <= i < |a| :: Index(a[i].liefertag) == n
    requires DaysAscending(rest) && forall i | 0 <= i < |rest| :: n < Index(rest[i].liefertag)
    ensures DaysAscending(a + rest)
    ensures forall i | 0 <= i < |a + rest| :: n <= Index((a + rest)[i].liefertag)
  {
    var r := a + rest;
    forall i | 0 <= i < |r| ensures n <= Index(r[i].liefertag) {
      if i >= |a| {
        assert r[i] == rest[i - |a|];
      }
    }
    forall i, j | 0 <= i < j < |r| ensures Index(r[i].liefertag) <= Index(r[j].liefertag) {
      if j < |a| {
        assert r[i] == a[i] && r[j] == a[j];
      } else if i < |a| {
        assert r[i] == a[i] && r[j] == rest[j - |a|];
      } else {
        assert r[i] == rest[i - |a|] && r[j] == rest[j - |a|];
      }
    }
  }

  /** The days from position n of the week on, each day's entries carrying
      that day, give entries in week order, none before day n. */
  lemma {:induction false} ForDaysAscending(n: nat, f: Weekday -> seq<Entry>)
    requires n <= |Week|
    requires forall d, i | 0 <= i < |f(d)| :: f(d)[i].liefertag == d
    ensures DaysAscending(ForDays(Week[n..], f))
    ensures forall i | 0 <= i < |ForDays(Week[n..], f)| :: n <= Index(ForDays(Week[n..], f)[i].liefertag)
    decreases |Week| - n
  {
    if n < |Week| {
      ForDaysAscending(n + 1, f);
      var d := Week[n];
      assert Week[n..][1..] == Week[n + 1..];
      WeekIndex(n);
      AscendingAppend(f(d), ForDays(Week[n + 1..], f), n);
    } else {
      assert Week[n..] == [];
    }
  }

  // ---------------------------------------------------------------------------
  // The order-day section (lines 837-859)
  // ---------------------------------------------------------------------------

  /** `(group_sort_key(group), DAYS_DE.index(order day))`. The fallback rank
      99 of the source is for an order day outside the week, which a key
      never has. */
  function BRank(k: (Weekday, string, Weekday)): SortKey {
    SortKey(GroupSortKey(k.1), Index(k.2))
  }

  /** `[k for k in bmap.keys() if k[0] == day_de]`. */
  function BKeysOn(b: BMap, d: Weekday): seq<(Weekday, string, Weekday)> {
    FilterKeys(b.keys, (k: (Weekday, string, Weekday)) => k.0 == d)
  }

  /** The keys of one delivery day, sorted as line 841 sorts them. */
  function BOrder(b: BMap, d: Weekday): seq<(Weekday, string, Weekday)> {
    SortBy(BKeysOn(b, d), BRank)
  }

  function BDay(row: Row, b: BMap, d: Weekday): seq<Entry> {
    Emit(BOrder(b, d), k => BEntry(row, k, Slot(b, k)))
  }

  /** All order-day entries of a row: their delivery days run Monday to
      Saturday. */
  function BSection(row: Row, b: BMap): (r: seq<Entry>)
    ensures DaysAscending(r)
  {
    forall d ensures forall i | 0 <= i < |BDay(row, b, d)| :: BDay(row, b, d)[i].liefertag == d {
      BDayEntries(row, b, d);
    }
    ForDaysAscending(0, d => BDay(row, b, d));
    assert Week[0..] == Week;
    ForDays(Week, d => BDay(row, b, d))
  }

  /** The keys of day d are listed once each, by group key and then by order
      day, keys that tie keeping their order in the map. */
  lemma BOrderSpec(b: BMap, d: Weekday, k: (Weekday, string, Weekday))
    requires b.Valid()
    ensures k in BOrder(b, d) <==> k in b.vals && k.0 == d
    ensures SortedBy(BOrder(b, d), BRank)
    ensures forall rk :: WithKey(BOrder(b, d), BRank, rk) == WithKey(BKeysOn(b, d), BRank, rk)
  {
    SortByMembers(BKeysOn(b, d), BRank, k);
  }

  lemma BDayEntries(row: Row, b: BMap, d: Weekday)
    ensures forall i | 0 <= i < |BDay(row, b, d)| :: BDay(row, b, d)[i].liefertag == d
  {
    var make := k => BEntry(row, k, Slot(b, k));
    forall i | 0 <= i < |BDay(row, b, d)| ensures BDay(row, b, d)[i].liefertag == d {
      var e := BDay(row, b, d)[i];
      EmitMembers(BOrder(b, d), make, e);
      var j :| 0 <= j < |BOrder(b, d)| && make(BOrder(b, d)[j]) == Some(e);
      var k := BOrder(b, d)[j];
      SortByMembers(BKeysOn(b, d), BRank, k);
    }
  }

  /** Some key of the order-day map yields e. */
  ghost predicate FromBKey(row: Row, b: BMap, e: Entry) {
    exists k | k in b.vals :: BEntry(row, k, b.vals[k]) == Some(e)
  }

  lemma BSectionSource(row: Row, b: BMap, e: Entry) returns (k: (Weekday, string, Weekday))
    requires b.Valid() && e in BSection(row, b)
    ensures k in b.vals && BEntry(row, k, b.vals[k]) == Some(e)
  {
    var d := ForDaysSource(Week, d => BDay(row, b, d), e);
    var j := EmitSource(BOrder(b, d), k => BEntry(row, k, Slot(b, k)), e);
    k := BOrder(b, d)[j];
    BOrderSpec(b, d, k);
  }

  lemma BSectionHas(row: Row, b: BMap, k: (Weekday, string, Weekday))
    requires b.Valid() && k in b.vals && BEntry(row, k, b.vals[k]).Some?
    ensures BEntry(row, k, b.vals[k]).value in BSection(row, b)
  {
    var d := k.0;
    BOrderSpec(b, d, k);
    var j :| 0 <= j < |BOrder(b, d)| && BOrder(b, d)[j] == k;
    EmitHas(BOrder(b, d), k => BEntry(row, k, Slot(b, k)), j);
    ForDaysHas(Week, d => BDay(row, b, d), d, BEntry(row, k, b.vals[k]).value);
  }

  /** An entry is in the order-day section exactly when some key of the map
      yields it, that is, when the key's assortment or deadline cell is
      non-empty; it then carries the key's delivery day and order day. */
  lemma BSectionMembers(row: Row, b: BMap, e: Entry)
    requires b.Valid()
    ensures e in BSection(row, b) <==> FromBKey(row, b, e)
  {
    if e in BSection(row, b) {
      var k := BSectionSource(row, b, e);
    }
    if FromBKey(row, b, e) {
      var k :| k in b.vals && BEntry(row, k, b.vals[k]) == Some(e);
      BSectionHas(row, b, k);
    }
  }

  // ---------------------------------------------------------------------------
  // The triplet section (lines 862-878)
  // ---------------------------------------------------------------------------

  /** `group_sort_key(g)`; the rank is constant, so only the group orders. */
  function TRank(k: (Weekday, string)): SortKey {
    SortKey(GroupSortKey(k.1), 0)
  }

  /** The (day, group) keys of one day, in the order of the map. */
  function TKeysOn(t: TripletMap, d: Weekday): seq<(Weekday, string)> {
    FilterKeys(t.keys, (k: (Weekday, string)) => k.0 == d)
  }

  /** The groups of one day, sorted as line 863 sorts them. */
  function TOrder(t: TripletMap, d: Weekday): seq<(Weekday, string)> {
    SortBy(TKeysOn(t, d), TRank)
  }

  function TDay(row: Row, t: TripletMap, d: Weekday): seq<Entry> {
    Emit(TOrder(t, d), k => TEntry(row, k, Slot(t, k)))
  }

  /** All triplet entries of a row: their delivery days run Monday to
      Saturday. */
  function TSection(row: Row, t: TripletMap): (r: seq<Entry>)
    ensures DaysAscending(r)
  {
    forall d ensures forall i | 0 <= i < |TDay(row, t, d)| :: TDay(row, t, d)[i].liefertag == d {
      TDayEntries(row, t, d);
    }
    ForDaysAscending(0, d => TDay(row, t, d));
    assert Week[0..] == Week;
    ForDays(Week, d => TDay(row, t, d))
  }

  /** The groups of day d are listed once each, by group key, groups that
      tie keeping their order in the map. */
  lemma TOrderSpec(t: TripletMap, d: Weekday, k: (Weekday, string))
    requires t.Valid()
    ensures k in TOrder(t, d) <==> k in t.vals && k.0 == d
    ensures SortedBy(TOrder(t, d), TRank)
    ensures forall rk :: WithKey(TOrder(t, d), TRank, rk) == WithKey(TKeysOn(t, d), TRank, rk)
  {
    SortByMembers(TKeysOn(t, d), TRank, k);
  }

  lemma TDayEntries(row: Row, t: TripletMap, d: Weekday)
    ensures forall i | 0 <= i < |TDay(row, t, d)| :: TDay(row, t, d)[i].liefertag == d
  {
    var make := k => TEntry(row, k, Slot(t, k));
    forall i | 0 <= i < |TDay(row, t, d)| ensures TDay(row, t, d)[i].liefertag == d {
      var e := TDay(row, t, d)[i];
      EmitMembers(TOrder(t, d), make, e);
      var j :| 0 <= j < |TOrder(t, d)| && make(TOrder(t, d)[j]) == Some(e);
      var k := TOrder(t, d)[j];
      SortByMembers(TKeysOn(t, d), TRank, k);
    }
  }

  /** Some kept triplet yields e. */
  ghost predicate FromTriplet(row: Row, t: TripletMap, e: Entry) {
    exists k | k in t.vals :: TEntry(row, k, t.vals[k]) == Some(e)
  }

  lemma TSectionSource(row: Row, t: TripletMap, e: Entry) returns (k: (Weekday, string))
    requires t.Valid() && e in TSection(row, t)
    ensures k in t.vals && TEntry(row, k, t.vals[k]) == Some(e)
  {
    var d := ForDaysSource(Week, d => TDay(row, t, d), e);
    var j := EmitSource(TOrder(t, d), k => TEntry(row, k, Slot(t, k)), e);
    k := TOrder(t, d)[j];
    TOrderSpec(t, d, k);
  }

  lemma TSectionHas(row: Row, t: TripletMap, k: (Weekday, string))
    requires t.Valid() && k in t.vals && TEntry(row, k, t.vals[k]).Some?
    ensures TEntry(row, k, t.vals[k]).value in TSection(row, t)
  {
    var d := k.0;
    TOrderSpec(t, d, k);
    var j :| 0 <= j < |TOrder(t, d)| && TOrder(t, d)[j] == k;
    EmitHas(TOrder(t, d), k => TEntry(row, k, Slot(t, k)), j);
    ForDaysHas(Week, d => TDay(row, t, d), d, TEntry(row, k, t.vals[k]).value);
  }

  /** An entry is in the triplet section exactly when some kept triplet
      yields it, that is, when its assortment cell is non-empty. */
  lemma TSectionMembers(row: Row, t: TripletMap, e: Entry)
    requires t.Valid()
    ensures e in TSection(row, t) <==> FromTriplet(row, t, e)
  {
    if e in TSection(row, t) {
      var k := TSectionSource(row, t, e);
    }
    if FromTriplet(row, t, e) {
      var k :| k in t.vals && TEntry(row, k, t.vals[k]) == Some(e);
      TSectionHas(row, t, k);
    }
  }

  // ---------------------------------------------------------------------------
  // The DS block (lines 881-895) and the tours (lines 829-831)
  // ---------------------------------------------------------------------------

  /** The DS entries, in the order of the DS map (`ds_triplets` is a dict,
      so its keys come in insertion order): at most one per key, each
      carrying a key of the map. */
  function DsSection(row: Row, ds: DsMap): (r: seq<DsEntry>)
    ensures |r| <= |ds.keys|
    ensures forall i | 0 <= i < |r| :: r[i].dsKey in ds.keys
    ensures ds.Valid() ==> forall i, j | 0 <= i < j < |r| :: Position(ds.keys, r[i].dsKey) < Position(ds.keys, r[j].dsKey)
    ensures ds.Valid() ==> forall i, j | 0 <= i < j < |r| :: r[i].dsKey != r[j].dsKey
  {
    var r := Emit(ds.keys, DsMaker(row, ds));
    DsEmitFacts(row, ds, r);
    r
  }

  /** The entry maker of the DS block, one key at a time. */
  function DsMaker(row: Row, ds: DsMap): string -> Option<DsEntry> {
    k => DsEntryOf(row, k, Slot(ds, k))
  }

  lemma DsEmitFacts(row: Row, ds: DsMap, r: seq<DsEntry>)
    requires r == Emit(ds.keys, DsMaker(row, ds))
    ensures && (forall i | 0 <= i < |r| :: r[i].dsKey in ds.keys)
      && (ds.Valid() ==> forall i, j | 0 <= i < j < |r| :: Position(ds.keys, r[i].dsKey) < Position(ds.keys, r[j].dsKey))
  {
    var make := DsMaker(row, ds);
    forall i | 0 <= i < |r| ensures r[i].dsKey in ds.keys {
      var j := EmitSource(ds.keys, make, r[i]);
    }
    if ds.Valid() {
      EmitKeyOrder(ds.keys, make, (e: DsEntry) => e.dsKey);
    }
  }

  lemma DsSectionSource(row: Row, ds: DsMap, e: DsEntry) returns (k: string)
    requires ds.Valid() && e in DsSection(row, ds)
    ensures k in ds.vals && DsEntryOf(row, k, ds.vals[k]) == Some(e)
  {
    var j := EmitSource(ds.keys, DsMaker(row, ds), e);
    k := ds.keys[j];
  }

  lemma DsSectionHas(row: Row, ds: DsMap, k: string)
    requires ds.Valid() && k in ds.vals && DsEntryOf(row, k, ds.vals[k]).Some?
    ensures DsEntryOf(row, k, ds.vals[k]).value in DsSection(row, ds)
  {
    var j :| 0 <= j < |ds.keys| && ds.keys[j] == k;
    EmitHas(ds.keys, DsMaker(row, ds), j);
  }

  /** A DS entry is listed exactly when some kept DS key yields it, that is,
      when one of its three cells is non-empty. */
  lemma DsSectionMembers(row: Row, ds: DsMap, e: DsEntry)
    requires ds.Valid()
    ensures e in DsSection(row, ds) <==> exists k | k in ds.vals :: DsEntryOf(row, k, ds.vals[k]) == Some(e)
  {
    if e in DsSection(row, ds) {
      var k := DsSectionSource(row, ds, e);
    }
    if exists k | k in ds.vals :: DsEntryOf(row, k, ds.vals[k]) == Some(e) {
      var k :| k in ds.vals && DsEntryOf(row, k, ds.vals[k]) == Some(e);
      DsSectionHas(row, ds, k);
    }
  }

  /** `tours`: Monday to Saturday, each day with the normalised cell of its
      tour column, or "" when the sheet has no such column. */
  function Tours(row: Row): (r: seq<(Weekday, string)>)
    ensures |r| == |Week|
    ensures forall i | 0 <= i < |r| :: r[i].0 == Week[i]
    ensures forall i | 0 <= i < |r| :: TourColumn(Week[i]) !in row ==> r[i].1 == ""
    ensures forall i | 0 <= i < |r| :: TourColumn(Week[i]) in row ==> r[i].1 == Norm(row[TourColumn(Week[i])])
  {
    seq(|Week|, i requires 0 <= i < |Week| => (Week[i], Value(row, TourColumn(Week[i]))))
  }

  /** The tour of day d sits at d's index: empty without d's tour column,
      else that column's normalised cell. */
  lemma ToursLookup(row: Row, d: Weekday)
    ensures TourColumn(d) !in row ==> Tours(row)[Index(d)] == (d, "")
    ensures TourColumn(d) in row ==> Tours(row)[Index(d)] == (d, Norm(row[TourColumn(d)]))
  {
  }
}

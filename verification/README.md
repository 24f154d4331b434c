# Order-plan extraction from the customer spreadsheet

`quelldrucksendezeiten.py` turns a customer spreadsheet into order plans. Each
row describes one customer. The columns follow three naming dialects:

- triplet columns, such as `Mo 21 Zeit` / `Mo 21 Sort` / `Mo 21 Tag`;
- order-day ("B") columns, such as `Mo Z 0 B_Sa` (deadline) and `Mo 0 B_Sa`
  (assortment), where the order day is written in the header;
- DS columns, such as `DS Fr zu Mi Zeit`.

The program finds these columns by regular expression. For every row with a
customer number, it builds a record holding:

- the tour code of each weekday;
- the order lines (`bestell`): first the B lines, then the triplet lines,
  Monday to Saturday, each day's lines sorted by group;
- a separate DS block.

This project models the following parts of the program:

- the cell normalisation `norm`;
- the group sort key and the stable sorts built on it;
- the day tables;
- the three header detectors;
- the row loop, as pure functions over a row (a map from column name to
  cell) and the list of column names.

Modules, leaves first:

- `Options`: an option type.
- `Text`: Python's `str.strip`, `split`/`join`, whitespace collapsing,
  `lower`, and ASCII case folding for `re.IGNORECASE`.
- `Cells`: cells and `norm`.
- `Days`: `DAYS_DE`, the short-form tables, `TOUR_COLS`.
- `GroupOrder`: `group_sort_key` and tuple order.
- `Sorting`: Python's stable `sort(key=...)`.
- `Tables`: insertion-ordered `dict` and the `setdefault(...)[field] = c`
  loop.
- `Patterns` and `Headers`: the three regular expressions, written as
  exact match conditions, plus functions that decide them.
- `HeaderSpec`: match iff classification, plus header round trips.
- `Detect`: the three detectors.
- `Entries`: the per-row entry rules and section order.
- `Schedule`: the record and the `data` dict.

## Model

| member | source | states |
|---|---|---|
| Cells.NormText | quelldrucksendezeiten.py:69-74 | `norm` of a text equals `" ".join(x.split())` with the ".0" of a float artifact cut off. The result is tidy (no outer whitespace, single plain spaces) and never again a float artifact |
| Cells.Norm | quelldrucksendezeiten.py:64-74 | A missing cell (None/NaN) normalises to "". Every result is tidy and not a float artifact |
| Cells.NormIdempotent | quelldrucksendezeiten.py:64-74 | Normalising an already normalised value changes nothing |
| Cells.NormWord | quelldrucksendezeiten.py:69-74 | A text without whitespace normalises to itself, apart from cutting a trailing ".0" after digits |
| Cells.NormFloatExamples | quelldrucksendezeiten.py:72-73 | The documented case: Excel's "1001.0" becomes "1001" |
| Cells.NormPlainNumberExample | quelldrucksendezeiten.py:64-74 | "1001" stays "1001"; an empty or missing cell gives "" |
| Text.Strip | quelldrucksendezeiten.py:69 | `str.strip()`: the result has no outer whitespace and is the input with its leading and trailing whitespace runs removed |
| Text.StripUnique | quelldrucksendezeiten.py:69 | Any trimmed middle framed by whitespace runs is the strip, so strip is characterised by its contract |
| Text.CollapseStripIsJoinedWords | quelldrucksendezeiten.py:69-70 | Stripping and then replacing each whitespace run by one space gives the words of the text joined by single spaces |
| Text.CollapseCollapsed | quelldrucksendezeiten.py:70 | Collapsing text that is already collapsed changes nothing |
| Text.LexLeTotal | quelldrucksendezeiten.py:81 | Python's string comparison is total |
| Text.LexLeTransitive | quelldrucksendezeiten.py:81 | Python's string comparison is transitive |
| Days.ShortToDayDomain | quelldrucksendezeiten.py:26-38 | The short-form table names a day for exactly its eleven case-sensitive keys |
| Days.WeekIndex | quelldrucksendezeiten.py:24 | `DAYS_DE.index` inverts `DAYS_DE`: each day sits at its own index |
| Days.NameInjective | quelldrucksendezeiten.py:24 | Distinct days have distinct German names |
| Days.TourColumnIsShortForm | quelldrucksendezeiten.py:54-61 | Each day's tour column is a short form naming that same day |
| GroupOrder.GroupSortKey | quelldrucksendezeiten.py:77-81 | A group gets a numeric key exactly when its stripped text is all digits, and that key is the text's decimal value. Any other group's key is its stripped text, lower-cased |
| GroupOrder.TextGroupsByLowerText | quelldrucksendezeiten.py:78-81 | Groups that are not all digits compare by their stripped, lower-cased text |
| GroupOrder.KeyLeTotalOrder | quelldrucksendezeiten.py:77-81 | Tuple order on (group key, rank) is reflexive, total, antisymmetric and transitive, so the sorts have a single answer up to ties |
| GroupOrder.DigitGroupsFirst | quelldrucksendezeiten.py:79-81 | Every all-digit group sorts strictly before every other group |
| GroupOrder.DigitGroupsByValue | quelldrucksendezeiten.py:79-80 | All-digit groups compare by numeric value, in both directions |
| GroupOrder.TwoBeforeTen | quelldrucksendezeiten.py:79-80 | "2" sorts before "10", although "10" < "2" as text |
| GroupOrder.GroupKeyIgnoresCase | quelldrucksendezeiten.py:81 | Groups that agree after lower-casing get the same key |
| GroupOrder.GroupKeyIgnoresPadding | quelldrucksendezeiten.py:78 | Surrounding whitespace does not affect a group's key |
| GroupOrder.StripLower | quelldrucksendezeiten.py:78-81 | Strip then lower equals lower then strip, so the order of the two steps does not matter |
| Sorting.SortBy | quelldrucksendezeiten.py:840 | `sort(key=...)` returns a permutation of its input, sorted by key and stable: the elements of each key keep their input order |
| Sorting.SortByMembers | quelldrucksendezeiten.py:864 | Sorting neither adds nor drops an element |
| Tables.Put | quelldrucksendezeiten.py:108 | `d[k] = v`: the mapping gains k ↦ v; a new key is appended and an existing key keeps its place |
| Tables.CollectKeys | quelldrucksendezeiten.py:157-158 | A key is in the detected table exactly when some column classifies under it |
| Tables.CollectHits | quelldrucksendezeiten.py:157-165 | A key's field is filled exactly when some column classifies as that key and field |
| Tables.CollectLast | quelldrucksendezeiten.py:157-165 | A filled field holds the last column that classifies as it: later columns overwrite earlier ones |
| Tables.CollectOrder | quelldrucksendezeiten.py:157-158 | Keys are listed in the order of their first column |
| Tables.CollectIgnores | quelldrucksendezeiten.py:136-139 | A column that matches no pattern leaves the table unchanged |
| Tables.GatherKeys | quelldrucksendezeiten.py:823-826 | A key is in the gathered dict exactly when some row yields a value under it |
| Tables.GatherLast | quelldrucksendezeiten.py:896 | The value under a key comes from the last row yielding that key |
| Patterns.PaddedIff | quelldrucksendezeiten.py:90 | The decision procedure for `\s+(.+?)\s+` accepts a middle exactly when some split into whitespace, a non-empty group and whitespace exists |
| Patterns.SplitsGroup | quelldrucksendezeiten.py:90 | Whichever split the lazy group takes, the captured text after `.strip()` is the strip of the whole middle |
| Patterns.DayTokenIff | quelldrucksendezeiten.py:90 | The day alternation matches (ignoring case) exactly the case-folded eleven short forms |
| Patterns.SuffixTokenUnique | quelldrucksendezeiten.py:131 | At most one day token can end a header, and the finder returns it |
| Patterns.FieldSuffixUnique | quelldrucksendezeiten.py:90 | At most one field word can end a header, and the finder returns it |
| Patterns.FieldWordRoundTrip | quelldrucksendezeiten.py:90-100 | Each field's own word matches the field alternation, and its `capitalize()` gives that field back |
| Patterns.BTailUnique | quelldrucksendezeiten.py:130-131 | The `B[_ ]?<day>` tail of a B header is unique and is found by the finder |
| Headers.Classify21 | quelldrucksendezeiten.py:94-108 | A triplet header's group is stripped and holds no line feed; `HeaderSpec.Classify21Spec` gives the full match condition |
| Headers.ClassifyB | quelldrucksendezeiten.py:136-157 | An order-day header's group is stripped and holds no line feed; `HeaderSpec.ClassifyBSpec` gives the full match condition |
| Headers.ClassifyDS | quelldrucksendezeiten.py:180-187 | A DS key is "DS " and the route with no "zu" left; `HeaderSpec.ClassifyDSSpec` gives the full match condition |
| Headers.DayOfCases | quelldrucksendezeiten.py:102-107 | A matched day token names a day exactly when it is one of the eleven spellings, or "Donn" in any case (which means Thursday) |
| Headers.ShortFormIsToken | quelldrucksendezeiten.py:26-38 | Each spelling in the table is matched by the day alternation |
| Headers.ReplaceZu | quelldrucksendezeiten.py:186 | After `replace("zu", "→")` no "zu" remains |
| Headers.ZuRoundTrip | quelldrucksendezeiten.py:186 | Turning arrows back into "zu" recovers a route that had no arrow of its own |
| Headers.DsKey | quelldrucksendezeiten.py:186 | The key is "DS " followed by the route with each "zu" replaced; the prefix is untouched |
| Headers.DsKeyInjective | quelldrucksendezeiten.py:186 | Distinct arrow-free routes get distinct DS keys, and the route can be read back from its key |
| HeaderSpec.Classify21Spec | quelldrucksendezeiten.py:89-107 | A column is filed as (day, group) and field exactly when the triplet pattern matches with a day token naming that day, a group stripping to that group, and the field word |
| HeaderSpec.Classify21RoundTrip | quelldrucksendezeiten.py:89-107 | Writing a triplet header from a short form, a trimmed group and a field, then classifying it, gives back the day, group and field |
| HeaderSpec.ClassifyDSSpec | quelldrucksendezeiten.py:177-186 | A column is filed under DS key k and field f exactly when the DS pattern matches with a route whose key is k and the field word for f |
| HeaderSpec.ClassifyDSRoundTrip | quelldrucksendezeiten.py:177-186 | Writing a DS header and classifying it gives back the route's key and the field |
| HeaderSpec.GroupsBMarkerSpec | quelldrucksendezeiten.py:127-143 | The pattern reports a Z or L marker exactly when a match that uses the marker exists, with the same day tokens and group |
| HeaderSpec.GroupsBPlainSpec | quelldrucksendezeiten.py:127-143 | The pattern reports no marker exactly when no match uses one and a match without one exists, with the same day tokens and group |
| HeaderSpec.ClassifyBSpec | quelldrucksendezeiten.py:127-157 | A column is filed under (day, group, order day) with a role exactly when the B pattern matches it that way and both day tokens name days |
| HeaderSpec.ClassifyBRoundTrip | quelldrucksendezeiten.py:127-157 | Writing a B header and classifying it gives back the two days, the group and the role (with one exception, listed under Left out) |
| Detect.DetectTriplets | quelldrucksendezeiten.py:84-115 | The triplet map is a well-formed dict, and each of its (day, group) keys has all of Zeit, Sort and Tag |
| Detect.DetectB | quelldrucksendezeiten.py:118-167 | The order-day map is a well-formed dict, and each key has at least one role filled, by the column that created it |
| Detect.DetectDS | quelldrucksendezeiten.py:170-193 | The DS map is a well-formed dict, and each key has all of Zeit, Sort and Tag |
| Detect.CompleteIffFound | quelldrucksendezeiten.py:110-114 | A key of a collected table is complete exactly when a Zeit, a Sort and a Tag column were all found for it |
| Detect.TripletKeys | quelldrucksendezeiten.py:84-115 | A (day, group) survives detection exactly when a Zeit, a Sort and a Tag column were all found for it |
| Detect.TripletLast | quelldrucksendezeiten.py:108-115 | Each field of a kept triplet is the last stripped column filed under it |
| Detect.BKeys | quelldrucksendezeiten.py:118-167 | A B key is present exactly when some column classifies under it; there is no completeness filter |
| Detect.BSlots | quelldrucksendezeiten.py:157-165 | A role of a B key is filled exactly when a column of that role was found, and it holds the last such column |
| Detect.DsKeys | quelldrucksendezeiten.py:170-193 | A DS key survives exactly when a Zeit, a Sort and a Tag column were all found for it |
| Detect.DsLast | quelldrucksendezeiten.py:187-193 | Each field of a kept DS key is the last column filed under it |
| Entries.Value | quelldrucksendezeiten.py:844 | `norm(r.get(col, ""))` is tidy, and it is "" for a column the sheet lacks |
| Entries.ClockHasNoUhr | quelldrucksendezeiten.py:851-852 | A clock time contains no "uhr" in any case, so the "uhr" test never blocks a clock time |
| Entries.TimeNorm | quelldrucksendezeiten.py:851-853 | Exactly the values that fully match `\d{1,2}:\d{2}` get " Uhr" appended; other values stay unchanged |
| Entries.TimeNormIdempotent | quelldrucksendezeiten.py:871-872 | Applying the deadline rule twice is the same as applying it once |
| Entries.TimeNormTidy | quelldrucksendezeiten.py:887-888 | The deadline rule keeps a normalised value tidy |
| Entries.BEntry | quelldrucksendezeiten.py:843-860 | A B key yields no entry exactly when both its assortment and deadline cells are empty. An entry carries the key's delivery day, the order-day name, the normalised assortment cell, and the normalised deadline cell with " Uhr" added to a clock time |
| Entries.TEntry | quelldrucksendezeiten.py:865-878 | A triplet yields no entry exactly when its assortment cell is empty. An entry carries the day, the normalised Sort and Tag cells, and the normalised Zeit cell with " Uhr" added to a clock time |
| Entries.DsEntryOf | quelldrucksendezeiten.py:882-894 | A DS key yields no entry exactly when all three of its cells are empty. An entry carries the key, the normalised Sort and Tag cells, and the normalised Zeit cell with " Uhr" added to a clock time |
| Entries.SuppressionRulesNested | quelldrucksendezeiten.py:847-886 | For any keys and the same cells: anything the triplet rule keeps, the B rule keeps, and anything the B rule keeps, the DS rule keeps |
| Entries.BOrderSpec | quelldrucksendezeiten.py:838-840 | The B keys of a day are exactly that day's keys, sorted by (group key, order-day index), with ties in map order |
| Entries.TOrderSpec | quelldrucksendezeiten.py:864 | The triplet groups of a day are exactly that day's groups, sorted by group key, with ties in map order |
| Entries.BSection | quelldrucksendezeiten.py:837-860 | The B entries come in weekday order, Monday to Saturday |
| Entries.TSection | quelldrucksendezeiten.py:863-878 | The triplet entries come in weekday order, Monday to Saturday |
| Entries.DsSection | quelldrucksendezeiten.py:881-894 | Each entry of the DS block carries a key of the DS map. For a well-formed map, the entries follow the map's insertion order, so no key appears twice |
| Entries.BSectionMembers | quelldrucksendezeiten.py:837-860 | An entry is in the B section exactly when some key of the B map yields it |
| Entries.TSectionMembers | quelldrucksendezeiten.py:863-878 | An entry is in the triplet section exactly when some kept triplet yields it |
| Entries.DsSectionMembers | quelldrucksendezeiten.py:881-894 | A DS entry is listed exactly when some kept DS key yields it |
| Entries.Tours | quelldrucksendezeiten.py:829-831 | One tour per weekday, Monday to Saturday. Each is "" when the sheet lacks that day's tour column, else that column's normalised cell |
| Entries.ToursLookup | quelldrucksendezeiten.py:829-831 | Day d's tour sits at d's index: "" without d's tour column, else that column's normalised cell |
| Schedule.Detected | quelldrucksendezeiten.py:812-814 | The three detected tables are well formed: keys unique and listed exactly once |
| Schedule.AssembleRow | quelldrucksendezeiten.py:824-826 | A row yields no record exactly when its normalised customer number is empty; otherwise the record carries that number |
| Schedule.Bestell | quelldrucksendezeiten.py:834-878 | The order lines are two runs, B entries then triplet entries, each in weekday order |
| Schedule.Record | quelldrucksendezeiten.py:896-910 | A record carries the given number and the two constants. Each text field is the normalised cell of its column (SAP-Nr., Name, Strasse, Plz, Ort, Fax, Fachberater), so it is tidy, and "Fax" and "Fachberater" are "" when the sheet lacks those columns |
| Schedule.BuildData | quelldrucksendezeiten.py:821-910 | `data` is a well-formed dict: no customer number is listed twice, and the listed numbers are exactly the mapped ones |
| Schedule.RecordFields | quelldrucksendezeiten.py:896-910 | A record holds the two constants and the row's number. Each text field is the normalised cell of its own column and is tidy. The record also holds the row's tours, order lines and DS block |
| Schedule.BestellSpec | quelldrucksendezeiten.py:834-878 | The order plan is the B entries followed by the triplet entries. Each part runs Monday to Saturday, and each entry comes from a key of its own map |
| Schedule.YieldsIff | quelldrucksendezeiten.py:824-826 | A row yields a record under k exactly when k is non-empty and is the row's customer number |
| Schedule.BuildDataKeys | quelldrucksendezeiten.py:821-910 | A customer number is a key of `data` exactly when it is non-empty and some row carries it |
| Schedule.BuildDataLast | quelldrucksendezeiten.py:896-910 | The record under a number is the record of the last row carrying that number |

Behaviour worth noting:

- A later B column of the same key and role overwrites an earlier one
  (lines 157-165).
- A triplet or DS key is kept only when all of Zeit, Sort and Tag were found;
  a B key needs no such set.
- An `L` column is filed (under the role `LabelRole`) but never read.
- Within a day, lines are ordered by `group_sort_key` alone (and, for B keys,
  by the order-day index).
- The deadline rule appends " Uhr" only to `h:mm`/`hh:mm` values.

## Left out

- User interface and I/O are left out: the upload and reading of the Excel
  file (lines 794-802), the debug expander (lines 815-820), and the success
  message, HTML template, JSON output and download (lines 912-923). Line 803
  (stripping the column names) is modelled by making a row a map from the
  stripped column names to cells; the next line says what that assumes.
  Lines 812-814 (the three detector calls) are `Schedule.Detected`, and
  lines 821-823 (the `data` loop) are `Schedule.BuildData`.
- Column names: the model assumes the stripped column names are distinct
  text. Two headers that are equal after stripping (pandas then returns a
  Series for each lookup, and `norm` renders its repr) and non-text headers
  (the `c.strip()` at line 803 then raises) are left out.
- The required-columns check (lines 804-811) stops the program before the
  loop; it is I/O around the model. The model treats a missing column as
  yielding "".
- Cell types: pandas values are modelled as `Missing` (None or NaN) or the
  text `str(x)` renders. Float formatting itself is not modelled.
- Unicode classes: `\d`, `str.isdigit` and `int()` are modelled on ASCII
  digits. `str.lower` is modelled on ASCII and Latin-1 upper-case letters.
  `re.IGNORECASE` is modelled on ASCII letters. These are the characters the
  headers and groups use.
- The rank 99 fallback of line 840 cannot fire, because every order day of
  a key comes from the day table; the model's rank is the day index.
- The `KeyError` that `cols["Zeit"]` could raise (lines 866-868, 883-885)
  cannot happen, because the detectors keep only complete keys. The model
  reads fields through a total lookup.
- The triplet map is nested by day and group in the program and flat by
  (day, group) in the model. This keeps the order of groups within a day.
- `r.get(cols.get("sort", ""), "")` reads the column named "" when the role
  is missing. The model does the same through `ColumnOf`, and a sheet
  without such a column gives "".
- HeaderSpec.ClassifyBRoundTrip: a marker-less B header whose group starts
  with "Z " or "L " (in any case) is excluded, because the pattern then
  reads that letter as the marker; the round trip holds for every other
  group.
- HeaderSpec.Classify21RoundTrip: only groups without a newline are
  covered, since `.` in the pattern does not match a newline.
- The classifiers take stripped headers, as the program passes them (line
  803 and each detector's own strip). On an unstripped header they differ
  from Python's `$`, which also matches before one trailing "\n": Python
  matches "Mo x Zeit\n", while `Headers.Classify21` returns none for it.

/** The row loop of quelldrucksendezeiten.py (lines 823-910) as a pure
    function: each row with a customer number becomes one customer record,
    stored under that number, a later row replacing an earlier one. */
module Schedule {
  import opened Options
  import opened Text
  import opened Days
  import opened Tables
  import opened Detect
  import opened Entries

  const PlanTyp: string := "Standard"
  const Bereich: string := "Alle Sortimente Fleischwerk"

  /** The three column maps, detected once from the sheet's column names. */
  datatype Sources = Sources(trip: TripletMap, b: BMap, ds: DsMap) {
    ghost predicate Valid() {
      trip.Valid() && b.Valid() && ds.Valid()
    }
  }

  /** The three detectors run on the column names (lines 812-814). */
  function Detected(cols: seq<string>): (s: Sources)
    ensures s.Valid()
  {
    Sources(DetectTriplets(cols), DetectB(cols), DetectDS(cols))
  }

  /** One customer record (`data[knr]`). */
  datatype Customer = Customer(
    planTyp: string,
    bereich: string,
    kundenNr: string,
    sapNr: string,
    name: string,
    strasse: string,
    plz: string,
    ort: string,
    fax: string,
    fachberater: string,
    tours: seq<(Weekday, string)>,
    bestell: seq<Entry>,
    ds: seq<DsEntry>)

  /** The customer number of a row: `norm(r.get("Nr", ""))`. */
  function Nr(row: Row): string {
    Value(row, "Nr")
  }

  /** `bestell`: the order-day entries, then the triplet entries; each of
      the two runs goes Monday to Saturday. */
  function Bestell(row: Row, src: Sources): (r: seq<Entry>)
    ensures var nb := |BSection(row, src.b)|;
      nb <= |r| && DaysAscending(r[..nb]) && DaysAscending(r[nb..])
  {
    var bs := BSection(row, src.b);
    var ts := TSection(row, src.trip);
    assert (bs + ts)[..|bs|] == bs && (bs + ts)[|bs|..] == ts;
    bs + ts
  }

  /** The record of a row with customer number `knr` (lines 896-909). A
      missing "Fax" or "Fachberater" column gives "", as `norm` of a missing
      cell does. */
  function Record(row: Row, src: Sources, knr: string): (c: Customer)
    ensures c.kundenNr == knr
    ensures c.planTyp == PlanTyp && c.bereich == Bereich
    ensures Tidy(c.sapNr) && Tidy(c.name) && Tidy(c.strasse) && Tidy(c.plz) && Tidy(c.ort)
    ensures Tidy(c.fax) && Tidy(c.fachberater)
    ensures c.sapNr == Value(row, "SAP-Nr.") && c.name == Value(row, "Name") && c.strasse == Value(row, "Strasse")
    ensures c.plz == Value(row, "Plz") && c.ort == Value(row, "Ort")
    ensures c.fax == Value(row, "Fax") && c.fachberater == Value(row, "Fachberater")
    ensures "Fax" !in row ==> c.fax == ""
    ensures "Fachberater" !in row ==> c.fachberater == ""
  {
    Customer(
      PlanTyp, Bereich, knr,
      Value(row, "SAP-Nr."), Value(row, "Name"), Value(row, "Strasse"),
      Value(row, "Plz"), Value(row, "Ort"), Value(row, "Fax"), Value(row, "Fachberater"),
      Tours(row),
      Bestell(row, src),
      DsSection(row, src.ds))
  }

  /** The record of one row; none when its customer number is empty
      (lines 824-826). */
  function AssembleRow(row: Row, src: Sources): (r: Option<Customer>)
    ensures r.None? <==> Nr(row) == ""
    ensures r.Some? ==> r.value.kundenNr == Nr(row)
  {
    var knr := Nr(row);
    if knr == "" then None else Some(Record(row, src, knr))
  }

  /** The text fields of a record: the row's customer number, the two
      constants, and the normalised cell of each column, each tidy. */
  lemma RecordFields(row: Row, src: Sources)
    requires Nr(row) != ""
    ensures var c := AssembleRow(row, src).value;
      && c.kundenNr == Nr(row)
      && c.planTyp == PlanTyp && c.bereich == Bereich
      && Tidy(c.kundenNr) && Tidy(c.sapNr) && Tidy(c.name) && Tidy(c.strasse) && Tidy(c.plz) && Tidy(c.ort)
      && Tidy(c.fax) && Tidy(c.fachberater)
      && c.sapNr == Value(row, "SAP-Nr.") && c.name == Value(row, "Name") && c.strasse == Value(row, "Strasse")
      && c.plz == Value(row, "Plz") && c.ort == Value(row, "Ort")
      && c.fax == Value(row, "Fax") && c.fachberater == Value(row, "Fachberater")
      && c.tours == Tours(row) && c.bestell == Bestell(row, src) && c.ds == DsSection(row, src.ds)
  {
  }

  /** The order plan of a record: first the order-day entries, Monday to
      Saturday, each from a key of the order-day map whose assortment or
      deadline is filled; then the triplet entries, Monday to Saturday, each
      from a triplet with a filled assortment. */
  lemma BestellSpec(row: Row, src: Sources)
    requires src.Valid()
    ensures var plan := Bestell(row, src);
      var nb := |BSection(row, src.b)|;
      && nb <= |plan|
      && DaysAscending(plan[..nb])
      && DaysAscending(plan[nb..])
      && (forall i | 0 <= i < nb :: FromBKey(row, src.b, plan[i]))
      && (forall i | nb <= i < |plan| :: FromTriplet(row, src.trip, plan[i]))
  {
    var bs := BSection(row, src.b);
    var ts := TSection(row, src.trip);
    var plan := Bestell(row, src);
    var nb := |bs|;
    assert plan[..nb] == bs && plan[nb..] == ts;
    forall i | 0 <= i < nb ensures FromBKey(row, src.b, plan[i]) {
      assert plan[i] == bs[i];
      BSectionMembers(row, src.b, bs[i]);
    }
    forall i | nb <= i < |plan| ensures FromTriplet(row, src.trip, plan[i]) {
      assert plan[i] == ts[i - nb];
      TSectionMembers(row, src.trip, ts[i - nb]);
    }
  }

  /** The `data` dict after the rows, in order: `data[knr] = record` for
      every row with a customer number. */
  function BuildData(rows: seq<Row>, src: Sources): (r: Table<string, Customer>)
    ensures r.Valid()
  {
    Gather(rows, row => AssembleRow(row, src), (c: Customer) => c.kundenNr)
  }

  /** Row i is the last row whose customer number is k. */
  ghost predicate LastRow(rows: seq<Row>, i: int, k: string) {
    0 <= i < |rows| && Nr(rows[i]) == k && forall j | i < j < |rows| :: Nr(rows[j]) != k
  }

  /** A row yields a record under k exactly when its customer number is k
      and k is non-empty. */
  lemma YieldsIff(rows: seq<Row>, src: Sources, i: int, k: string)
    ensures Yields(rows, row => AssembleRow(row, src), (c: Customer) => c.kundenNr, i, k) <==>
      0 <= i < |rows| && k != "" && Nr(rows[i]) == k
  {
  }

  /** A customer number is a key of `data` exactly when it is non-empty and
      some row carries it. */
  lemma BuildDataKeys(rows: seq<Row>, src: Sources, k: string)
    ensures k in BuildData(rows, src).vals <==> k != "" && exists i | 0 <= i < |rows| :: Nr(rows[i]) == k
  {
    var make := row => AssembleRow(row, src);
    var key := (c: Customer) => c.kundenNr;
    GatherKeys(rows, make, key, k);
    if k in BuildData(rows, src).vals {
      var i :| Yields(rows, make, key, i, k);
      YieldsIff(rows, src, i, k);
    }
    if k != "" && exists i | 0 <= i < |rows| :: Nr(rows[i]) == k {
      var i :| 0 <= i < |rows| && Nr(rows[i]) == k;
      YieldsIff(rows, src, i, k);
    }
  }

  /** The record under a number is the record of the last row carrying it:
      a later row with the same number replaces the earlier record. */
  lemma BuildDataLast(rows: seq<Row>, src: Sources, k: string) returns (i: int)
    requires k in BuildData(rows, src).vals
    ensures LastRow(rows, i, k) && AssembleRow(rows[i], src) == Some(BuildData(rows, src).vals[k])
  {
    var make := row => AssembleRow(row, src);
    var key := (c: Customer) => c.kundenNr;
    i := GatherLast(rows, make, key, k);
    YieldsIff(rows, src, i, k);
    forall j | i < j < |rows| ensures Nr(rows[j]) != k {
      YieldsIff(rows, src, j, k);
    }
  }
}

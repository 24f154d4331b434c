/** The weekday tables of quelldrucksendezeiten.py (lines 24-61): the delivery
    days Monday to Saturday, their German names, the short forms a header may
    use, and the tour column of each day. */
module Days {
  import opened Options

  datatype Weekday = Mon | Tue | Wed | Thu | Fri | Sat

  /** `DAYS_DE`: the delivery days in the order every output lists them. */
  const Week: seq<Weekday> := [Mon, Tue, Wed, Thu, Fri, Sat]

  /** The German name the program stores for a day ("Montag", ...). */
  function Name(d: Weekday): string {
    match d
    case Mon => "Montag"
    case Tue => "Dienstag"
    case Wed => "Mittwoch"
    case Thu => "Donnerstag"
    case Fri => "Freitag"
    case Sat => "Samstag"
  }

  /** `DAYS_DE.index(name)`: the position of the day in the week. */
  function Index(d: Weekday): (i: nat)
    ensures i < |Week| && Week[i] == d
  {
    match d
    case Mon => 0
    case Tue => 1
    case Wed => 2
    case Thu => 3
    case Fri => 4
    case Sat => 5
  }

  /** `DAY_SHORT_TO_DE.get(s)`, a case-sensitive lookup. `BESTELL_SHORT_TO_DE`
      has exactly the same entries, so both tables are this one function. */
  function ShortToDay(s: string): Option<Weekday> {
    if s == "Mo" then Some(Mon)
    else if s == "Di" || s == "Die" then Some(Tue)
    else if s == "Mi" || s == "Mitt" then Some(Wed)
    else if s == "Do" || s == "Don" || s == "Donn" then Some(Thu)
    else if s == "Fr" then Some(Fri)
    else if s == "Sa" || s == "Sam" then Some(Sat)
    else None
  }

  /** The keys of `DAY_SHORT_TO_DE`. */
  const ShortForms: set<string> := {"Mo", "Di", "Die", "Mi", "Mitt", "Do", "Don", "Donn", "Fr", "Sa", "Sam"}

  /** `TOUR_COLS`: the column holding the tour code of each day. */
  function TourColumn(d: Weekday): string {
    match d
    case Mon => "Mo"
    case Tue => "Die"
    case Wed => "Mitt"
    case Thu => "Don"
    case Fri => "Fr"
    case Sat => "Sam"
  }

  /** The lookup knows exactly its eleven keys. */
  lemma ShortToDayDomain(s: string)
    ensures ShortToDay(s).Some? <==> s in ShortForms
  {
  }

  /** `Index` and `Week` are inverse: every day sits at its own index, and
      the week lists each day once. */
  lemma WeekIndex(i: nat)
    requires i < |Week|
    ensures Index(Week[i]) == i
  {
  }

  /** Distinct days have distinct names, so the stored name identifies the day. */
  lemma NameInjective(d: Weekday, e: Weekday)
    requires Name(d) == Name(e)
    ensures d == e
  {
  }

  /** Each tour column is itself a short form of its day. */
  lemma TourColumnIsShortForm(d: Weekday)
    ensures ShortToDay(TourColumn(d)) == Some(d)
  {
  }
}

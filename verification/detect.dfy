/** The three header detectors of quelldrucksendezeiten.py: each strips every
    column name, classifies it and files it under its key and field
    (`detect_triplets_21`, lines 84-115; `detect_bspalten`, lines 118-167;
    `detect_ds_triplets`, lines 170-193). The triplet and DS detectors then
    keep only the keys for which all three fields were found. */
module Detect {
  import opened Options
  import opened Text
  import opened Days
  import opened Patterns
  import opened Tables
  import opened Headers

  /** `[c.strip() for c in columns]`. */
  function StripAll(cols: seq<string>): (r: seq<string>)
    ensures |r| == |cols| && forall i | 0 <= i < |cols| :: r[i] == Strip(cols[i])
  {
    seq(|cols|, i requires 0 <= i < |cols| => Strip(cols[i]))
  }

  /** `all(k in fields for k in ("Zeit", "Sort", "Tag"))`. */
  predicate Complete(fields: map<Field, string>) {
    Zeit in fields && Sort in fields && Tag in fields
  }

  /** The triplet map. Python nests it as day -> group -> fields; the model
      keys it by the pair (day, group), which lists the groups of one day in
      the same order as the nested dict. */
  type TripletMap = Table<(Weekday, string), map<Field, string>>

  /** The order-day map: (delivery day, group, order day) -> role -> column. */
  type BMap = Table<(Weekday, string, Weekday), map<Role, string>>

  /** The DS map: "DS <route>" with "zu" replaced -> field -> column. */
  type DsMap = Table<string, map<Field, string>>

  /** Only (day, group) keys with all three fields survive. */
  function DetectTriplets(cols: seq<string>): (r: TripletMap)
    ensures r.Valid()
    ensures forall k | k in r.vals :: Complete(r.vals[k])
  {
    KeepWhere(Collect(StripAll(cols), Classify21), Complete)
  }

  /** Every key is kept, and each has at least one role filled: the column
      that created it. */
  function DetectB(cols: seq<string>): (r: BMap)
    ensures r.Valid()
    ensures forall k | k in r.vals :: r.vals[k] != map[]
  {
    var sc := StripAll(cols);
    var r := Collect(sc, ClassifyB);
    forall k | k in r.vals ensures r.vals[k] != map[] {
      CollectKeys(sc, ClassifyB, k);
      var i :| KeyAt(sc, ClassifyB, i, k);
      var role := ClassifyB(sc[i]).value.1;
      CollectHits(sc, ClassifyB, k, role);
      assert HitAt(sc, ClassifyB, i, k, role);
    }
    r
  }

  /** Only DS keys with all three fields survive. */
  function DetectDS(cols: seq<string>): (r: DsMap)
    ensures r.Valid()
    ensures forall k | k in r.vals :: Complete(r.vals[k])
  {
    KeepWhere(Collect(StripAll(cols), ClassifyDS), Complete)
  }

  /** Some stripped column classifies as (k, f). */
  ghost predicate Found<K(!new), F(!new)>(cols: seq<string>, classify: string -> Option<(K, F)>, k: K, f: F) {
    exists i :: HitAt(StripAll(cols), classify, i, k, f)
  }

  /** A complete key of a collected table is one for which every field was found. */
  lemma CompleteIffFound<K(!new)>(cols: seq<string>, classify: string -> Option<(K, Field)>, k: K)
    ensures var t := Collect(StripAll(cols), classify);
      (k in t.vals && Complete(t.vals[k])) <==>
      Found(cols, classify, k, Zeit) && Found(cols, classify, k, Sort) && Found(cols, classify, k, Tag)
  {
    CollectHits(StripAll(cols), classify, k, Zeit);
    CollectHits(StripAll(cols), classify, k, Sort);
    CollectHits(StripAll(cols), classify, k, Tag);
  }

  /** A (day, group) is kept exactly when a Zeit, a Sort and a Tag column
      were all found for it. */
  lemma TripletKeys(cols: seq<string>, d: Weekday, g: string)
    ensures (d, g) in DetectTriplets(cols).vals <==>
      Found(cols, Classify21, (d, g), Zeit) && Found(cols, Classify21, (d, g), Sort) && Found(cols, Classify21, (d, g), Tag)
  {
    CompleteIffFound(cols, Classify21, (d, g));
  }

  /** Each field of a kept triplet names the last stripped column that
      classifies as that field of that (day, group). */
  lemma TripletLast(cols: seq<string>, d: Weekday, g: string, f: Field)
    requires (d, g) in DetectTriplets(cols).vals
    ensures f in DetectTriplets(cols).vals[(d, g)]
    ensures exists i :: LastHit(StripAll(cols), Classify21, i, (d, g), f) && DetectTriplets(cols).vals[(d, g)][f] == StripAll(cols)[i]
  {
    var i := CollectLast(StripAll(cols), Classify21, (d, g), f);
  }

  /** An order-day key is present exactly when some column classifies under
      it: there is no completeness filter. */
  lemma BKeys(cols: seq<string>, k: (Weekday, string, Weekday))
    ensures k in DetectB(cols).vals <==> exists i :: KeyAt(StripAll(cols), ClassifyB, i, k)
  {
    CollectKeys(StripAll(cols), ClassifyB, k);
  }

  /** A role is filled exactly when a column of that role was found, and it
      holds the last one: a later header overwrites an earlier one. */
  lemma BSlots(cols: seq<string>, k: (Weekday, string, Weekday), role: Role)
    ensures var t := DetectB(cols);
      (k in t.vals && role in t.vals[k]) <==> Found(cols, ClassifyB, k, role)
    ensures var t := DetectB(cols);
      k in t.vals && role in t.vals[k] ==>
      exists i :: LastHit(StripAll(cols), ClassifyB, i, k, role) && t.vals[k][role] == StripAll(cols)[i]
  {
    var t := DetectB(cols);
    CollectHits(StripAll(cols), ClassifyB, k, role);
    if k in t.vals && role in t.vals[k] {
      var i := CollectLast(StripAll(cols), ClassifyB, k, role);
    }
  }

  /** A DS key is kept exactly when a Zeit, a Sort and a Tag column were all
      found for it. */
  lemma DsKeys(cols: seq<string>, k: string)
    ensures k in DetectDS(cols).vals <==>
      Found(cols, ClassifyDS, k, Zeit) && Found(cols, ClassifyDS, k, Sort) && Found(cols, ClassifyDS, k, Tag)
  {
    CompleteIffFound(cols, ClassifyDS, k);
  }

  /** Each field of a kept DS key names the last column of that field. */
  lemma DsLast(cols: seq<string>, k: string, f: Field)
    requires k in DetectDS(cols).vals
    ensures f in DetectDS(cols).vals[k]
    ensures exists i :: LastHit(StripAll(cols), ClassifyDS, i, k, f) && DetectDS(cols).vals[k][f] == StripAll(cols)[i]
  {
    var i := CollectLast(StripAll(cols), ClassifyDS, k, f);
  }
}

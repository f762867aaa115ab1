/**
 * The JSON value the report is serialised from, and `_json_safe`, the
 * recursive scrubber that turns every NaN float into null before the
 * sanitised sample is emitted.
 */
module JsonSafe {

  /** A Python float: finite, NaN, or an infinity. */
  datatype FloatValue = Finite(r: real) | NaN | Infinity(negative: bool)

  /** A JSON-able Python value; dict entries keep their insertion order. */
  datatype Json =
    | Null
    | Bool(b: bool)
    | Int(i: int)
    | Float(f: FloatValue)
    | Str(s: string)
    | List(items: seq<Json>)
    | Dict(entries: seq<(string, Json)>)

  /** No NaN float anywhere inside `j`. */
  predicate NoNaN(j: Json)
  {
    match j
    case Float(f) => !f.NaN?
    case List(items) => forall i :: 0 <= i < |items| ==> NoNaN(items[i])
    case Dict(entries) => forall i :: 0 <= i < |entries| ==> NoNaN(entries[i].1)
    case _ => true
  }

  /**
   * `_json_safe`: dicts and lists are rebuilt entry by entry with the same
   * keys and order, a NaN float becomes null, everything else is returned as is.
   */
  function Scrub(j: Json): (r: Json)
    ensures j == Float(NaN) ==> r == Null
    ensures j.List? ==> r.List? && |r.items| == |j.items| &&
                        forall i :: 0 <= i < |j.items| ==> r.items[i] == Scrub(j.items[i])
    ensures j.Dict? ==> r.Dict? && |r.entries| == |j.entries| &&
                        forall i :: 0 <= i < |j.entries| ==>
                          r.entries[i].0 == j.entries[i].0 && r.entries[i].1 == Scrub(j.entries[i].1)
    ensures !j.List? && !j.Dict? && j != Float(NaN) ==> r == j
  {
    match j
    case Dict(entries) =>
      Dict(seq(|entries|, i requires 0 <= i < |entries| => (entries[i].0, Scrub(entries[i].1))))
    case List(items) =>
      List(seq(|items|, i requires 0 <= i < |items| => Scrub(items[i])))
    case Float(NaN) => Null
    case _ => j
  }

  /** After scrubbing, no NaN is left anywhere. */
  lemma {:induction false} ScrubRemovesNaN(j: Json)
    ensures NoNaN(Scrub(j))
  {
    match j
    case Dict(entries) =>
      forall i | 0 <= i < |entries| ensures NoNaN(Scrub(j).entries[i].1) {
        ScrubRemovesNaN(entries[i].1);
      }
    case List(items) =>
      forall i | 0 <= i < |items| ensures NoNaN(Scrub(j).items[i]) {
        ScrubRemovesNaN(items[i]);
      }
    case _ =>
  }

  /** A value without NaN passes the scrubber unchanged. */
  lemma {:induction false} ScrubKeepsNaNFree(j: Json)
    requires NoNaN(j)
    ensures Scrub(j) == j
  {
    match j
    case Dict(entries) =>
      forall i | 0 <= i < |entries| ensures Scrub(j).entries[i] == entries[i] {
        ScrubKeepsNaNFree(entries[i].1);
      }
      assert Scrub(j).entries == entries;
    case List(items) =>
      forall i | 0 <= i < |items| ensures Scrub(j).items[i] == items[i] {
        ScrubKeepsNaNFree(items[i]);
      }
      assert Scrub(j).items == items;
    case _ =>
  }

  /**
   * Inside a list or dict, every item or value without NaN is kept as it is,
   * even when its neighbours hold NaN.
   */
  lemma ScrubKeepsCleanNeighbours(j: Json)
    ensures j.List? ==> forall i :: 0 <= i < |j.items| && NoNaN(j.items[i]) ==> Scrub(j).items[i] == j.items[i]
    ensures j.Dict? ==> forall i :: 0 <= i < |j.entries| && NoNaN(j.entries[i].1) ==> Scrub(j).entries[i] == j.entries[i]
  {
    match j
    case List(items) =>
      forall i | 0 <= i < |items| && NoNaN(items[i]) ensures Scrub(j).items[i] == items[i] {
        ScrubKeepsNaNFree(items[i]);
      }
    case Dict(entries) =>
      forall i | 0 <= i < |entries| && NoNaN(entries[i].1) ensures Scrub(j).entries[i] == entries[i] {
        ScrubKeepsNaNFree(entries[i].1);
      }
    case _ =>
  }

  /** A record with one NaN field: only that field becomes null. */
  lemma RecordWithNaNExample()
    ensures Scrub(Dict([("symbol", Str("A")), ("shares", Float(Finite(2.0))), ("note", Float(NaN))])) ==
            Dict([("symbol", Str("A")), ("shares", Float(Finite(2.0))), ("note", Null)])
  {
    var j := Dict([("symbol", Str("A")), ("shares", Float(Finite(2.0))), ("note", Float(NaN))]);
    ScrubKeepsCleanNeighbours(j);
    assert NoNaN(j.entries[0].1) && NoNaN(j.entries[1].1);
  }

  /** Scrubbing twice is scrubbing once. */
  lemma ScrubIdempotent(j: Json)
    ensures Scrub(Scrub(j)) == Scrub(j)
  {
    ScrubRemovesNaN(j);
    ScrubKeepsNaNFree(Scrub(j));
  }
}

/**
 * `select_random_shay_id`: the candidate ids are every id from MIN(id) to
 * MAX(id) except the previous pick, unless MAX(id) is 1; one of them is drawn
 * by `random.choice`, here the index `choice % |candidates|`. When the range
 * query yields NULL (an empty table) or no candidate is left, the id 1 is
 * returned and the previous pick is kept.
 */
module Selection {
  import opened Wrappers
  import opened Catalog

  /** The id returned when selection fails. */
  const FallbackId := 1

  /** The previous pick is excluded unless the largest id is 1. */
  predicate Allowed(id: int, hi: int, last: Option<int>) {
    last != Some(id) || hi == 1
  }

  /** `[id for id in range(lo, hi + 1) if id != last or hi == 1]`, built from
      `from` upwards (`from` starts at lo). */
  function CandidatesFrom(from: int, hi: int, last: Option<int>): (c: seq<int>)
    ensures forall k :: 0 <= k < |c| ==> from <= c[k] <= hi && Allowed(c[k], hi, last)
    ensures forall k1, k2 :: 0 <= k1 < k2 < |c| ==> c[k1] < c[k2]
    decreases hi - from
  {
    if from > hi then []
    else
      var rest := CandidatesFrom(from + 1, hi, last);
      if Allowed(from, hi, last) then [from] + rest else rest
  }

  /** The candidate list of the range lo..hi. */
  function Candidates(lo: int, hi: int, last: Option<int>): seq<int> {
    CandidatesFrom(lo, hi, last)
  }

  /** Every allowed id in range is a candidate: with the soundness stated on
      CandidatesFrom, the candidates are exactly the allowed ids of lo..hi. */
  lemma {:induction false} CandidatesComplete(from: int, hi: int, last: Option<int>, id: int)
    requires from <= id <= hi && Allowed(id, hi, last)
    ensures id in CandidatesFrom(from, hi, last)
    decreases hi - from
  {
    if from < id {
      CandidatesComplete(from + 1, hi, last, id);
    }
  }

  /** No candidate is left exactly when the range is empty, or it is the single
      id of the previous pick and that id is not 1. */
  lemma CandidatesEmptyIff(lo: int, hi: int, last: Option<int>)
    ensures Candidates(lo, hi, last) == [] <==>
      lo > hi || (lo == hi && last == Some(lo) && hi != 1)
  {
    if lo <= hi {
      if Allowed(lo, hi, last) {
        CandidatesComplete(lo, hi, last, lo);
      } else if lo < hi {
        CandidatesComplete(lo, hi, last, hi);
      } else {
        assert CandidatesFrom(lo + 1, hi, last) == [];
      }
    }
  }

  /** `random.choice(c)` with the random index given as `choice`. */
  function Draw(c: seq<int>, choice: nat): (id: int)
    requires c != []
    ensures id in c
  {
    c[choice % |c|]
  }

  /** A choice below the length draws the element at that index. */
  lemma DrawAt(c: seq<int>, k: nat)
    requires k < |c|
    ensures Draw(c, k) == c[k]
  {
  }

  /** What one selection yields: the id and the new value of `last_shay_id`. */
  datatype Pick = Pick(id: int, last: Option<int>)

  /** `select_random_shay_id` against the table and the previous pick. */
  function SelectId(rows: seq<Row>, last: Option<int>, choice: nat): (p: Pick)
    ensures p.last == last || p.last == Some(p.id)
  {
    match IdRange(rows)
    case None => Pick(FallbackId, last)
    case Some((lo, hi)) =>
      var c := Candidates(lo, hi, last);
      if c == [] then Pick(FallbackId, last)
      else
        var id := Draw(c, choice);
        Pick(id, Some(id))
  }

  /** When some candidate exists, the pick lies in MIN(id)..MAX(id), becomes
      the new previous pick, and differs from the old previous pick unless
      MAX(id) is 1. */
  lemma SelectInRangeNoRepeat(rows: seq<Row>, last: Option<int>, choice: nat)
    requires rows != []
    requires Candidates(MinId(rows), MaxId(rows), last) != []
    ensures var p := SelectId(rows, last, choice);
      && MinId(rows) <= p.id <= MaxId(rows)
      && p.last == Some(p.id)
      && (MaxId(rows) != 1 ==> last != Some(p.id))
  {
  }

  /** On an empty table or with no candidate left, the result is id 1 and the
      previous pick is kept. */
  lemma SelectFallback(rows: seq<Row>, last: Option<int>, choice: nat)
    requires rows == [] || Candidates(MinId(rows), MaxId(rows), last) == []
    ensures SelectId(rows, last, choice) == Pick(FallbackId, last)
  {
  }

  /** The fallback happens on a non-empty table exactly when it spans a single
      id greater than 1 and that id was the previous pick. */
  lemma FallbackOnNonEmptyTable(rows: seq<Row>, last: Option<int>)
    requires rows != []
    ensures Candidates(MinId(rows), MaxId(rows), last) == [] <==>
      MinId(rows) == MaxId(rows) && last == Some(MaxId(rows)) && MaxId(rows) != 1
  {
    CandidatesEmptyIff(MinId(rows), MaxId(rows), last);
  }

  /** The position of x in s. */
  function IndexOf(s: seq<int>, x: int): (k: nat)
    requires x in s
    ensures k < |s| && s[k] == x
  {
    if s[0] == x then 0 else 1 + IndexOf(s[1..], x)
  }

  /** Every candidate is drawn for some value of the random choice. */
  lemma EveryCandidateReachable(rows: seq<Row>, last: Option<int>, id: int)
    requires rows != []
    requires MinId(rows) <= id <= MaxId(rows) && Allowed(id, MaxId(rows), last)
    ensures exists choice: nat :: SelectId(rows, last, choice).id == id
  {
    var lo, hi := MinId(rows), MaxId(rows);
    var c := Candidates(lo, hi, last);
    CandidatesComplete(lo, hi, last, id);
    assert IdRange(rows) == Some((lo, hi));
    var k := IndexOf(c, id);
    DrawAt(c, k);
    assert SelectId(rows, last, k) == Pick(id, Some(id));
  }
}

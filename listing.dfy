/**
 * `send_shay_list` (the `/db` command): every name in id order, one numbered
 * line each, between a header and a footer that both give the count; an empty
 * table gets its own reply.
 */
module Listing {
  import opened Text
  import opened Catalog

  /** `f"{i+1}. {name}"` for every name, numbering from `from`. */
  function NumberedLines(names: seq<string>, from: nat): (ls: seq<string>)
    ensures |ls| == |names|
    ensures forall i :: 0 <= i < |names| ==> ls[i] == NatToString(from + i) + ". " + names[i]
  {
    if names == [] then []
    else [NatToString(from) + ". " + names[0]] + NumberedLines(names[1..], from + 1)
  }

  /** `names_list`: the numbered lines joined by newlines. */
  function ListBody(names: seq<string>): (r: string)
    ensures r == [] <==> names == []
  {
    JoinLines(NumberedLines(names, 1))
  }

  /** The reply to `/db`. */
  datatype ListReply =
    | EmptyDatabase          // "the database is empty"
    | NameList(text: string) // header, numbered lines, footer

  /** `send_shay_list` on the table: the names are read in id order. */
  function ListReplyFor(rows: seq<Row>): (r: ListReply)
    ensures r == EmptyDatabase <==> rows == []
  {
    var names := Names(rows);
    if names == [] then EmptyDatabase
    else
      var count := NatToString(|names|);
      NameList("**Список всех имен (" + count + "):**\n\n" + ListBody(names)
        + "\n\nВсего имен: **" + count + "**")
  }

  /** The body splits back, at its newlines, into one line per name: line i
      is the number i + 1, a dot, a space and the i-th name, and the number
      reads back as i + 1. Names holding a newline would break this, so they
      are excluded. */
  lemma {:induction false} ListBodyLines(names: seq<string>)
    requires names != []
    requires forall k :: 0 <= k < |names| ==> '\n' !in names[k]
    ensures var ls := SplitLines(ListBody(names));
      && |ls| == |names|
      && forall i :: 0 <= i < |names| ==>
           ls[i] == NatToString(i + 1) + ". " + names[i] && DigitsValue(NatToString(i + 1)) == i + 1
  {
    var ls := NumberedLines(names, 1);
    forall k | 0 <= k < |ls| ensures '\n' !in ls[k] {
      var digits := NatToString(1 + k);
      assert ls[k] == digits + (". " + names[k]);
      assert '\n' !in digits;
    }
    SplitJoinLines(ls);
    forall n: nat | 1 <= n <= |names| ensures DigitsValue(NatToString(n)) == n {
      NatToStringRoundTrip(n);
    }
  }
}

/**
 * `add_shay`: the text after the five-character `/add ` prefix, stripped,
 * must split into exactly two words; each word is capitalized and the two
 * are joined by one space. The INSERT either appends the name or hits the
 * UNIQUE constraint, in which case the row already holding the name is
 * reported.
 */
module Adding {
  import opened Wrappers
  import opened Text
  import opened Catalog

  /** `event.raw_text[5:]`: everything after the first five characters, or
      the empty string when the text is no longer than that. */
  function Payload(raw: string): (p: string)
    ensures |raw| > 5 ==> raw == raw[..5] + p
    ensures |raw| <= 5 ==> p == []
  {
    if |raw| <= 5 then [] else raw[5..]
  }

  /** The name `add_shay` stores for the message text, or None when the message
      is rejected with the "two words" reply. */
  function ParseName(raw: string): (r: Option<string>)
    ensures r.None? <==> |SplitWords(Strip(Payload(raw)))| != 2
  {
    var name := Strip(Payload(raw));
    var ws := SplitWords(name);
    if name == [] || |ws| != 2 then None
    else Some(Capitalize(ws[0]) + " " + Capitalize(ws[1]))
  }

  /** The message is accepted exactly when the text after the prefix holds
      two words; the stored name is those two words capitalized and joined by
      one space, it splits back into exactly them, and it has no whitespace at
      either end. */
  lemma {:induction false} ParseNameSpec(raw: string)
    ensures var ws := SplitWords(Payload(raw));
      && (ParseName(raw).Some? <==> |ws| == 2)
      && (ParseName(raw).Some? ==>
            var n := ParseName(raw).value;
            && n == Capitalize(ws[0]) + " " + Capitalize(ws[1])
            && SplitWords(n) == [Capitalize(ws[0]), Capitalize(ws[1])]
            && IsStripped(n))
  {
    var p := Payload(raw);
    SplitIgnoresStrip(p);
    var ws := SplitWords(p);
    if |ws| == 2 {
      StoredForm(ws[0], ws[1]);
    }
  }

  /** Two words capitalized and joined by a space split back into the two
      capitalized words and have no whitespace at either end. */
  lemma StoredForm(a: string, b: string)
    requires IsWord(a) && IsWord(b)
    ensures var n := Capitalize(a) + " " + Capitalize(b);
      SplitWords(n) == [Capitalize(a), Capitalize(b)] && IsStripped(n)
  {
    var ca, cb := Capitalize(a), Capitalize(b);
    CapitalizeKeepsWord(a);
    CapitalizeKeepsWord(b);
    SplitJoinSpace([ca, cb]);
    assert JoinSpace([ca, cb]) == ca + " " + JoinSpace([cb]);
    var n := ca + " " + cb;
    assert n[0] == ca[0] && n[|n| - 1] == cb[|cb| - 1];
  }

  /** Sending the stored name back with `/add ` yields the same name, so a
      second add of it takes the duplicate path. */
  lemma {:induction false} ReAddRoundTrip(raw: string)
    requires ParseName(raw).Some?
    ensures ParseName("/add " + ParseName(raw).value) == ParseName(raw)
  {
    var n := ParseName(raw).value;
    ParseNameSpec(raw);
    var ws := SplitWords(Payload(raw));
    var raw2 := "/add " + n;
    assert Payload(raw2) == n;
    StrippedIsFixed(n);
    CapitalizeIdempotent(ws[0]);
    CapitalizeIdempotent(ws[1]);
  }

  /** What `add_shay` replies. */
  datatype AddReply =
    | Invalid                  // not two words
    | Added(name: string)      // the new name
    | Exists(name: string)     // the name of the row that already holds it

  /** `add_shay` against the table. */
  method AddShay(table: Table, raw: string) returns (reply: AddReply)
    requires table.Valid()
    modifies table
    ensures table.Valid()
    ensures ParseName(raw).None? ==>
      reply == Invalid && table.rows == old(table.rows) && table.nextId == old(table.nextId)
    ensures ParseName(raw).Some? && ParseName(raw).value in old(Names(table.rows)) ==>
      && reply == Exists(ParseName(raw).value)
      && table.rows == old(table.rows) && table.nextId == old(table.nextId)
    ensures ParseName(raw).Some? && ParseName(raw).value !in old(Names(table.rows)) ==>
      && reply == Added(ParseName(raw).value)
      && table.rows == old(table.rows) + [Row(old(table.nextId), ParseName(raw).value)]
      && table.nextId == old(table.nextId) + 1
    ensures old(Compact(table.rows, table.nextId)) ==> Compact(table.rows, table.nextId)
  {
    var parsed := ParseName(raw);
    if parsed.None? {
      return Invalid;
    }
    var capitalized := parsed.value;
    var inserted := table.Insert(capitalized);
    if inserted.Ok? {
      return Added(capitalized);
    }
    var existing := FindByName(table.rows, capitalized);
    reply := Exists(existing.value.name);
  }

  /** A payload made of two words and one space between them is accepted,
      each word capitalized. */
  lemma TwoWordPayload(raw: string, a: string, b: string)
    requires IsWord(a) && IsWord(b)
    requires Payload(raw) == a + " " + b
    ensures ParseName(raw) == Some(Capitalize(a) + " " + Capitalize(b))
  {
    var p := Payload(raw);
    assert p[0] == a[0] && p[|p| - 1] == b[|b| - 1];
    StrippedIsFixed(p);
    SplitJoinSpace([a, b]);
    assert JoinSpace([a, b]) == a + " " + JoinSpace([b]);
  }

  /** `/add <word> <word>` stores both words capitalized. */
  lemma AddTwoWords(a: string, b: string)
    requires IsWord(a) && IsWord(b)
    ensures ParseName("/add " + a + " " + b) == Some(Capitalize(a) + " " + Capitalize(b))
  {
    var raw := "/add " + a + " " + b;
    assert raw[5..] == a + " " + b;
    TwoWordPayload(raw, a, b);
  }

  /** Only the first five characters are cut, whatever they are: in a message
      with no space after `/add` the first character of the name is lost. */
  lemma FirstCharacterAfterCommandLost(c: char, a: string, b: string)
    requires IsWord(a) && IsWord(b)
    ensures ParseName("/add" + [c] + a + " " + b) == Some(Capitalize(a) + " " + Capitalize(b))
  {
    var raw := "/add" + [c] + a + " " + b;
    assert raw[5..] == a + " " + b;
    TwoWordPayload(raw, a, b);
  }

  /** `capitalize()` on Latin and Cyrillic words in any mix of cases. */
  lemma CapitalizeExamples()
    ensures Capitalize("ivan") == "Ivan"
    ensures Capitalize("pETROV") == "Petrov"
    ensures Capitalize("иВАН") == "Иван"
  {
  }
}

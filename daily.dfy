/**
 * `get_daily_shay` and the process-wide `STATE` dict it works on. The first
 * request of a day selects an id, looks its name up and caches it; later
 * requests whose day of the month equals the cached one get the cached name
 * back with the "already said" wording. The day is only the day of the month,
 * and `current_day` is set before the name lookup, so a failed lookup leaves
 * the previous name cached as the current day's.
 */
module Daily {
  import opened Wrappers
  import opened Catalog
  import opened Selection

  /** The `STATE` dict: `current_day`, `last_shay_id`, `current_shay_name`. */
  datatype State = State(currentDay: Option<int>, lastId: Option<int>, currentName: Option<string>)

  /** `STATE` when the process starts: every field None. */
  const Initial := State(None, None, None)

  /** The reply text of `get_daily_shay`, by variant, with the name it returns
      beside the text. */
  datatype Reply =
    | AlreadySaid(name: string)  // the cached name, "already said" wording
    | SelfPick(name: string)     // id 1 was picked: the DEFAULT_NAME wording
    | NewPick(name: string)      // any other id was picked
    | Failure                    // the generic error text; the name is None
  {
    /** The second component of the tuple `get_daily_shay` returns. */
    function PickedName(): Option<string> {
      if Failure? then None else Some(name)
    }
  }

  /** `today == STATE['current_day'] and STATE['current_shay_name']`: the cached
      name is used only when it is present and not the empty string. */
  predicate CacheHit(s: State, today: int) {
    s.currentDay == Some(today) && s.currentName.Some? && s.currentName.value != []
  }

  /** `get_daily_shay` on the state, the table, the day of the month and the
      random choice: the new state and the reply. */
  function GetDaily(s: State, rows: seq<Row>, today: int, choice: nat): (res: (State, Reply))
    ensures res.0.currentDay == Some(today)
    ensures res.1.Failure? ==> res.0.currentName == s.currentName
  {
    if CacheHit(s, today) then (s, AlreadySaid(s.currentName.value))
    else
      var p := SelectId(rows, s.lastId, choice);
      var picked := s.(currentDay := Some(today), lastId := p.last);
      match NameById(rows, p.id)
      case None => (picked, Failure)
      case Some(n) =>
        (picked.(currentName := Some(n)), if p.id == FallbackId then SelfPick(n) else NewPick(n))
  }

  /** Cache hit: the cached name comes back with the "already said" wording,
      nothing is selected and the state is unchanged, whatever the table and
      the random choice. */
  lemma CacheHitIsIdempotent(s: State, rows: seq<Row>, today: int, choice: nat)
    requires CacheHit(s, today)
    ensures GetDaily(s, rows, today, choice) == (s, AlreadySaid(s.currentName.value))
  {
  }

  /** The "already said" wording is used exactly on a cache hit: a request
      that has to select never gets it. */
  lemma AlreadySaidIffCacheHit(s: State, rows: seq<Row>, today: int, choice: nat)
    ensures GetDaily(s, rows, today, choice).1.AlreadySaid? <==> CacheHit(s, today)
  {
  }

  /** Cache miss: `current_day` becomes today and `last_shay_id` what the
      selection left; when the selected id names a row, that name is cached and
      the reply uses the DEFAULT_NAME wording exactly when the id is 1; when it
      names none, the reply is the failure and the old name stays cached. */
  lemma CacheMiss(s: State, rows: seq<Row>, today: int, choice: nat)
    requires !CacheHit(s, today)
    ensures var p := SelectId(rows, s.lastId, choice);
      var (s', r) := GetDaily(s, rows, today, choice);
      && s'.currentDay == Some(today)
      && s'.lastId == p.last
      && (NameById(rows, p.id).Some? ==>
            && s'.currentName == NameById(rows, p.id)
            && r.PickedName() == NameById(rows, p.id)
            && (r.SelfPick? <==> p.id == 1)
            && (r.NewPick? <==> p.id != 1))
      && (NameById(rows, p.id).None? ==> r == Failure && s'.currentName == s.currentName)
  {
  }

  /** A repeat request on the same day: once a request has produced a non-empty
      name, every further request that day returns that name with the "already
      said" wording and leaves the state as it is. */
  lemma {:induction false} SameDayRepeat(s: State, rows: seq<Row>, today: int, c1: nat, c2: nat)
    requires GetDaily(s, rows, today, c1).1.PickedName().Some?
    requires GetDaily(s, rows, today, c1).1.PickedName().value != []
    ensures var (s1, r1) := GetDaily(s, rows, today, c1);
      GetDaily(s1, rows, today, c2) == (s1, AlreadySaid(r1.PickedName().value))
  {
    var (s1, r1) := GetDaily(s, rows, today, c1);
    if !CacheHit(s, today) {
      CacheMiss(s, rows, today, c1);
    }
    assert CacheHit(s1, today);
  }

  /** The lookup that fails after `current_day` was set: the next request on
      the same day is served the name cached on an earlier day. */
  lemma {:induction false} StaleNameServed(s: State, rows: seq<Row>, today: int, c1: nat, c2: nat)
    requires !CacheHit(s, today)
    requires NameById(rows, SelectId(rows, s.lastId, c1).id).None?
    requires s.currentName.Some? && s.currentName.value != []
    ensures GetDaily(s, rows, today, c1).1 == Failure
    ensures var s1 := GetDaily(s, rows, today, c1).0;
      GetDaily(s1, rows, today, c2) == (s1, AlreadySaid(s.currentName.value))
  {
    CacheMiss(s, rows, today, c1);
  }

  /** An input that takes that path: a table whose only row has id 2, picked the
      day before, falls back to id 1, which names no row, so day 5 is answered
      with day 4's name. */
  lemma StaleNameExample()
    ensures var rows := [Row(2, "B")];
      var s := State(Some(4), Some(2), Some("B"));
      var (s1, r1) := GetDaily(s, rows, 5, 0);
      && r1 == Failure
      && GetDaily(s1, rows, 5, 0) == (s1, AlreadySaid("B"))
  {
    var rows := [Row(2, "B")];
    var s := State(Some(4), Some(2), Some("B"));
    assert MinId(rows) == 2 && MaxId(rows) == 2;
    FallbackOnNonEmptyTable(rows, Some(2));
    SelectFallback(rows, Some(2), 0);
    StaleNameServed(s, rows, 5, 0, 0);
  }

  /** On a non-empty table built only by this program (ids 1..n), every
      request is answered with a name: the failure reply cannot occur. */
  lemma {:induction false} CompactTableNeverFails(s: State, rows: seq<Row>, nextId: int, today: int, choice: nat)
    requires Compact(rows, nextId) && rows != []
    ensures GetDaily(s, rows, today, choice).1 != Failure
  {
    if !CacheHit(s, today) {
      CompactIdsAllNamed(rows, nextId);
      var p := SelectId(rows, s.lastId, choice);
      if Candidates(MinId(rows), MaxId(rows), s.lastId) != [] {
        SelectInRangeNoRepeat(rows, s.lastId, choice);
      } else {
        SelectFallback(rows, s.lastId, choice);
      }
      assert 1 <= p.id <= |rows|;
      CacheMiss(s, rows, today, choice);
    }
  }

  /** `STATE` as an object: `get_daily_shay` and `select_random_shay_id`
      update its fields in place. */
  class SelectionState {
    var currentDay: Option<int>
    var lastId: Option<int>
    var currentName: Option<string>

    /** The three fields as a value. */
    function Value(): State
      reads this
    {
      State(currentDay, lastId, currentName)
    }

    constructor ()
      ensures Value() == Initial
    {
      currentDay, lastId, currentName := None, None, None;
    }

    /** `select_random_shay_id`: only `last_shay_id` changes, and only when a
        candidate was drawn. */
    method SelectRandomShayId(table: Table, choice: nat) returns (id: int)
      modifies this`lastId
      ensures Pick(id, lastId) == SelectId(table.rows, old(lastId), choice)
    {
      var range := IdRange(table.rows);
      if range.None? {
        return FallbackId;
      }
      var (lo, hi) := range.value;
      var c := Candidates(lo, hi, lastId);
      if c == [] {
        return FallbackId;
      }
      id := Draw(c, choice);
      lastId := Some(id);
    }

    /** `get_daily_shay`, field by field as the source assigns them. */
    method GetDailyShay(table: Table, today: int, choice: nat) returns (reply: Reply)
      modifies this
      ensures (Value(), reply) == GetDaily(old(Value()), table.rows, today, choice)
    {
      if currentDay == Some(today) && currentName.Some? && currentName.value != [] {
        return AlreadySaid(currentName.value);
      }
      currentDay := Some(today);
      var id := SelectRandomShayId(table, choice);
      var name := NameById(table.rows, id);
      if name.None? {
        return Failure;
      }
      currentName := name;
      reply := if id == FallbackId then SelfPick(name.value) else NewPick(name.value);
    }

    /** One wake-up of the `send_daily_message` loop: the reply is sent to the
        target chat only when the returned name is present and not empty. */
    method BroadcastOnce(table: Table, today: int, choice: nat) returns (sent: Option<Reply>)
      modifies this
      ensures Value() == GetDaily(old(Value()), table.rows, today, choice).0
      ensures var r := GetDaily(old(Value()), table.rows, today, choice).1;
        sent == if r.PickedName().Some? && r.PickedName().value != [] then Some(r) else None
    {
      var reply := GetDailyShay(table, today, choice);
      var name := reply.PickedName();
      if name.None? || name.value == [] {
        return None;
      }
      sent := Some(reply);
    }
  }
}

/**
 * The reconciliation of the SCHEDULE table with the array the timetable
 * editor posts: the items are visited in order, an item without a usable start
 * time is skipped, and otherwise its `_state` decides between insert, update
 * and delete. Every statement commits on its own, so the first statement that
 * fails ends the batch with the earlier ones already applied.
 *
 * Two things the program hands to code outside this model are parameters:
 * `parse` is the `new Date("2026-01-01T<time>:00")` conversion (None for an
 * invalid date), and `rejects` says which writes Oracle refuses for a
 * constraint of the table (a foreign key, a NOT NULL column).
 */
module ScheduleBatch {
  import opened Wrappers
  import opened JsValues

  /** The fixed day that the time of day is attached to. */
  const DummyDate: string := "2026-01-01"

  /** One SCHEDULE row. `start` and `end` are the timestamps the parser
      produced; an end time that does not parse is bound as an invalid date,
      which is None here. */
  datatype Slot = Slot(group: Cell, room: Cell, classDate: Value, start: int, end: Option<int>, day: Value)

  /** One element of the posted array, field by field as the client sends it. */
  datatype Item = Item(
    scheduleId: Value, groupId: Value, roomId: Value, classDate: Value,
    startTime: Value, endTime: Value, days: Value, state: Value)

  /** The SCHEDULE table and the next value of its identity column. */
  datatype Table = Table(slots: map<int, Slot>, next: int)

  /** Every stored id was handed out before `next`. */
  predicate Fresh(t: Table) {
    forall k :: k in t.slots ==> k < t.next
  }

  /** The statement an item issues, as Oracle sees it. An id bound as NULL
      matches no row. */
  datatype Write = Insert(slot: Slot) | Update(id: Cell, slot: Slot) | Delete(id: Cell)

  /** The text handed to `new Date`: the dummy day, a `T`, the time as sent and `:00`. */
  function TimeText(time: Value): string {
    DummyDate + "T" + ToStr(time) + ":00"
  }

  /** An item is skipped when its start time is falsy or does not parse;
      its `_state` is not looked at before this test. */
  predicate Skipped(item: Item, parse: string -> Option<int>) {
    !Truthy(item.startTime) || parse(TimeText(item.startTime)).None?
  }

  /** The skip test reads only the start time: `_state` plays no part in it. */
  lemma SkippedIgnoresState(item: Item, state: Value, parse: string -> Option<int>)
    ensures Skipped(item.(state := state), parse) == Skipped(item, parse)
  {
  }

  /** The `_state` values that issue a statement. */
  predicate Dispatched(state: Value) {
    state == Str("new") || state == Str("updated") || state == Str("deleted")
  }

  /** The existing row an item may change: the bound `schedule_id` of an
      update or a delete. */
  function Targets(item: Item): (ids: set<int>)
    ensures |ids| <= 1
    ensures forall k :: k in ids ==> BindNumber(item.scheduleId) == Some(NumCell(k))
  {
    if (item.state == Str("updated") || item.state == Str("deleted"))
       && BindNumber(item.scheduleId).Some? && BindNumber(item.scheduleId).value.NumCell?
    then {BindNumber(item.scheduleId).value.n}
    else {}
  }

  /** The row an insert or update writes, once the start time has parsed;
      None when `group_id` or `room_id` cannot be bound to a NUMBER. */
  function SlotOf(item: Item, start: int, parse: string -> Option<int>): (s: Option<Slot>)
    ensures s.Some? <==> BindNumber(item.groupId).Some? && BindNumber(item.roomId).Some?
    ensures s.Some? ==> s.value.start == start && s.value.classDate == item.classDate
    ensures s.Some? ==> Some(s.value.group) == BindNumber(item.groupId) && Some(s.value.room) == BindNumber(item.roomId)
                        && s.value.end == parse(TimeText(item.endTime)) && s.value.day == item.days
  {
    match (BindNumber(item.groupId), BindNumber(item.roomId))
    case (Some(g), Some(r)) =>
      Some(Slot(g, r, item.classDate, start, parse(TimeText(item.endTime)), item.days))
    case _ => None
  }

  /** One turn of the loop: the new table, or None when the statement fails. */
  function Step(t: Table, item: Item, parse: string -> Option<int>,
                rejects: (map<int, Slot>, Write) -> bool): (r: Option<Table>)
    ensures Skipped(item, parse) || !Dispatched(item.state) ==> r == Some(t)
    ensures r.Some? ==> t.next <= r.value.next <= t.next + 1
    ensures r.Some? ==> forall k :: k in t.slots && k !in Targets(item) && k != t.next ==>
      k in r.value.slots && r.value.slots[k] == t.slots[k]
    ensures r.Some? ==> forall k :: k in r.value.slots ==> k in t.slots || k == t.next
    ensures r.Some? && r.value.next == t.next + 1 ==>
      item.state == Str("new") && t.next in r.value.slots && r.value.slots[t.next].start == parse(TimeText(item.startTime)).value
    ensures r.Some? && item.state == Str("updated") ==> r.value.slots.Keys == t.slots.Keys
    ensures !Skipped(item, parse) && item.state == Str("new") ==>
      var slot := SlotOf(item, parse(TimeText(item.startTime)).value, parse);
      if slot.None? || rejects(t.slots, Insert(slot.value)) then r.None?
      else r == Some(Table(t.slots[t.next := slot.value], t.next + 1))
    ensures !Skipped(item, parse) && item.state == Str("updated") ==>
      var slot := SlotOf(item, parse(TimeText(item.startTime)).value, parse);
      var id := BindNumber(item.scheduleId);
      if id.None? || slot.None? || rejects(t.slots, Update(id.value, slot.value)) then r.None?
      else
        && r.Some? && r.value.next == t.next
        && (id.value.NumCell? && id.value.n in t.slots ==> r.value.slots == t.slots[id.value.n := slot.value])
        && (!(id.value.NumCell? && id.value.n in t.slots) ==> r.value.slots == t.slots)
    ensures !Skipped(item, parse) && item.state == Str("deleted") ==>
      var id := BindNumber(item.scheduleId);
      if id.None? || rejects(t.slots, Delete(id.value)) then r.None?
      else r.Some? && r.value.next == t.next
    ensures r.Some? && item.state == Str("deleted") && !Skipped(item, parse) ==>
      r.value.slots.Keys == t.slots.Keys - Targets(item)
  {
    if Skipped(item, parse) then Some(t)
    else
      var start := parse(TimeText(item.startTime)).value;
      if item.state == Str("new") then
        match SlotOf(item, start, parse)
        case None => None
        case Some(slot) =>
          if rejects(t.slots, Insert(slot)) then None
          else Some(Table(t.slots[t.next := slot], t.next + 1))
      else if item.state == Str("updated") then
        match (BindNumber(item.scheduleId), SlotOf(item, start, parse))
        case (Some(id), Some(slot)) =>
          if rejects(t.slots, Update(id, slot)) then None
          else if id.NumCell? && id.n in t.slots then Some(Table(t.slots[id.n := slot], t.next))
          else Some(t)
        case _ => None
      else if item.state == Str("deleted") then
        match BindNumber(item.scheduleId)
        case None => None
        case Some(id) =>
          if rejects(t.slots, Delete(id)) then None
          else if id.NumCell? then Some(Table(t.slots - {id.n}, t.next))
          else Some(t)
      else Some(t)
  }

  /** The outcome of a batch: the table it leaves and whether every statement
      succeeded (200) or one failed (500). */
  datatype BatchResult = BatchResult(table: Table, ok: bool)

  /** No item of the batch targets the row `k`. */
  predicate Untargeted(items: seq<Item>, k: int) {
    forall j :: 0 <= j < |items| ==> k !in Targets(items[j])
  }

  /** The whole loop, in array order, stopping at the first failed statement. */
  function Run(t: Table, items: seq<Item>, parse: string -> Option<int>,
               rejects: (map<int, Slot>, Write) -> bool): (r: BatchResult)
    ensures t.next <= r.table.next
    ensures Fresh(t) ==> Fresh(r.table)
    ensures Fresh(t) ==> forall k :: k in t.slots && Untargeted(items, k) ==>
      k in r.table.slots && r.table.slots[k] == t.slots[k]
    ensures forall k :: k in r.table.slots ==> k in t.slots || t.next <= k < r.table.next
    decreases |items|
  {
    if items == [] then BatchResult(t, true)
    else
      match Step(t, items[0], parse, rejects)
      case None => BatchResult(t, false)
      case Some(t') =>
        var r := Run(t', items[1..], parse, rejects);
        assert forall k :: Untargeted(items, k) ==> Untargeted(items[1..], k) by {
          forall k | Untargeted(items, k) ensures Untargeted(items[1..], k) {
            forall j | 0 <= j < |items[1..]| ensures k !in Targets(items[1..][j]) {
              assert items[1..][j] == items[j + 1];
            }
          }
        }
        assert forall k :: Untargeted(items, k) ==> k !in Targets(items[0]);
        r
  }

  /** The items that reach the dispatch, in their original order. */
  function WellFormed(items: seq<Item>, parse: string -> Option<int>): (kept: seq<Item>)
    ensures |kept| <= |items|
    ensures forall it :: it in kept <==> it in items && !Skipped(it, parse)
  {
    if items == [] then []
    else if Skipped(items[0], parse) then WellFormed(items[1..], parse)
    else [items[0]] + WellFormed(items[1..], parse)
  }

  /** The selection keeps the order of the array: it distributes over concatenation. */
  lemma {:induction false} WellFormedAppend(a: seq<Item>, b: seq<Item>, parse: string -> Option<int>)
    ensures WellFormed(a + b, parse) == WellFormed(a, parse) + WellFormed(b, parse)
  {
    if a != [] {
      var c := a + b;
      assert c != [] && c[0] == a[0];
      assert c[1..] == a[1..] + b;
      WellFormedAppend(a[1..], b, parse);
      var rest := WellFormed(a[1..], parse);
      var wb := WellFormed(b, parse);
      if Skipped(a[0], parse) {
        assert WellFormed(c, parse) == WellFormed(a[1..] + b, parse);
      } else {
        assert WellFormed(c, parse) == [a[0]] + WellFormed(a[1..] + b, parse);
        assert [a[0]] + (rest + wb) == ([a[0]] + rest) + wb;
      }
    } else {
      assert a + b == b;
    }
  }

  /** Skipped items change nothing: the batch does what its well-formed items do. */
  lemma {:induction false} RunSkipsMalformed(t: Table, items: seq<Item>, parse: string -> Option<int>,
                                            rejects: (map<int, Slot>, Write) -> bool)
    ensures Run(t, items, parse, rejects) == Run(t, WellFormed(items, parse), parse, rejects)
    decreases |items|
  {
    if items != [] {
      RunSkipsMalformed(t, items[1..], parse, rejects);
      if !Skipped(items[0], parse) {
        var w := WellFormed(items, parse);
        assert w[0] == items[0];
        assert w[1..] == WellFormed(items[1..], parse);
        match Step(t, items[0], parse, rejects)
        case None =>
        case Some(t') =>
          RunSkipsMalformed(t', items[1..], parse, rejects);
      }
    }
  }

  /** Running two batches back to back is running their concatenation: the
      second starts from what the first left, unless the first failed. */
  lemma {:induction false} RunAppend(t: Table, a: seq<Item>, b: seq<Item>, parse: string -> Option<int>,
                                    rejects: (map<int, Slot>, Write) -> bool)
    ensures Run(t, a + b, parse, rejects) ==
      var ra := Run(t, a, parse, rejects);
      if ra.ok then Run(ra.table, b, parse, rejects) else ra
    decreases |a|
  {
    if a == [] {
      assert a + b == b;
    } else {
      assert (a + b)[0] == a[0];
      assert (a + b)[1..] == a[1..] + b;
      match Step(t, a[0], parse, rejects)
      case None =>
      case Some(t') =>
        RunAppend(t', a[1..], b, parse, rejects);
    }
  }

  /** Item `i` is where the batch stopped: the items before it all ran and
      the statement of item `i` failed. */
  predicate FailsAt(t: Table, items: seq<Item>, i: int, parse: string -> Option<int>,
                    rejects: (map<int, Slot>, Write) -> bool)
    requires 0 <= i < |items|
  {
    Run(t, items[..i], parse, rejects).ok
    && Step(Run(t, items[..i], parse, rejects).table, items[i], parse, rejects).None?
  }

  /** A failed batch stops at one item: everything before it was applied and
      committed, that item's statement failed, and nothing after it ran. */
  lemma {:induction false} RunFailsAtOneItem(t: Table, items: seq<Item>, parse: string -> Option<int>,
                                            rejects: (map<int, Slot>, Write) -> bool)
    returns (i: nat)
    requires !Run(t, items, parse, rejects).ok
    ensures i < |items| && FailsAt(t, items, i, parse, rejects)
    ensures Run(t, items[..i], parse, rejects).table == Run(t, items, parse, rejects).table
    decreases |items|
  {
    assert items != [];
    match Step(t, items[0], parse, rejects)
    case None =>
      i := 0;
      assert items[..0] == [];
    case Some(t') =>
      var j := RunFailsAtOneItem(t', items[1..], parse, rejects);
      i := j + 1;
      assert items[..i][0] == items[0];
      assert items[..i][1..] == items[1..][..j];
      assert items[i] == items[1..][j];
  }

  /** A batch in which every statement succeeds ends with `ok`, and the
      outcome of a single item is its step. */
  lemma RunSingle(t: Table, item: Item, parse: string -> Option<int>,
                  rejects: (map<int, Slot>, Write) -> bool)
    ensures Run(t, [item], parse, rejects) ==
      match Step(t, item, parse, rejects)
      case None => BatchResult(t, false)
      case Some(t') => BatchResult(t', true)
  {
    assert [item][1..] == [];
  }
}

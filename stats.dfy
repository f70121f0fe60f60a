/** The revenue summary `stats` (App.tsx:158-171): over the month's records,
    the expected total, the part already collected and the rest. */
module Stats {
  import opened Wrappers
  import opened Ledger
  import opened Tariff
  import opened Sequences

  /** What one record contributes: its room's total, or nothing when no
      room has its id. */
  function Amount(r: Reading, rooms: seq<Room>, rates: Rates): int {
    match FindRoom(rooms, r.roomId)
    case None => 0
    case Some(room) => RoomTotal(room, Some(r), rates)
  }

  /** Sum of the amounts of the records `cur`. */
  function Expected(cur: seq<Reading>, rooms: seq<Room>, rates: Rates): int {
    if cur == [] then 0
    else Expected(cur[..|cur| - 1], rooms, rates) + Amount(cur[|cur| - 1], rooms, rates)
  }

  /** The same sum over paid records only. */
  function Collected(cur: seq<Reading>, rooms: seq<Room>, rates: Rates): int {
    if cur == [] then 0
    else
      var r := cur[|cur| - 1];
      Collected(cur[..|cur| - 1], rooms, rates) + (if r.paid then Amount(r, rooms, rates) else 0)
  }

  /** The same sum over unpaid records only. */
  function Outstanding(cur: seq<Reading>, rooms: seq<Room>, rates: Rates): int {
    if cur == [] then 0
    else
      var r := cur[|cur| - 1];
      Outstanding(cur[..|cur| - 1], rooms, rates) + (if r.paid then 0 else Amount(r, rooms, rates))
  }

  /** The `forEach` fold of App.tsx:161-170. */
  method Compute(readings: seq<Reading>, rooms: seq<Room>, selectedMonth: string, rates: Rates)
    returns (total: int, collected: int, unpaid: int)
    ensures total == Expected(CurrentReadings(readings, selectedMonth), rooms, rates)
    ensures collected == Collected(CurrentReadings(readings, selectedMonth), rooms, rates)
    ensures unpaid == total - collected
  {
    var currentReadings := CurrentReadings(readings, selectedMonth);
    total, collected := 0, 0;
    var i := 0;
    while i < |currentReadings|
      invariant 0 <= i <= |currentReadings|
      invariant total == Expected(currentReadings[..i], rooms, rates)
      invariant collected == Collected(currentReadings[..i], rooms, rates)
    {
      var r := currentReadings[i];
      assert currentReadings[..i + 1][..i] == currentReadings[..i];
      var room := FindRoom(rooms, r.roomId);
      if room.Some? {
        var amt := RoomTotal(room.value, Some(r), rates);
        total := total + amt;
        if r.paid {
          collected := collected + amt;
        }
      }
      i := i + 1;
    }
    assert currentReadings[..i] == currentReadings;
    unpaid := total - collected;
  }

  /** The unpaid figure is exactly the sum over the unpaid records. */
  lemma {:induction false} ExpectedSplits(cur: seq<Reading>, rooms: seq<Room>, rates: Rates)
    ensures Expected(cur, rooms, rates) == Collected(cur, rooms, rates) + Outstanding(cur, rooms, rates)
  {
    if cur != [] {
      ExpectedSplits(cur[..|cur| - 1], rooms, rates);
    }
  }

  /** Non-negative rents, rates and fees: every billed amount is. */
  predicate NonNegativeBilling(cur: seq<Reading>, rooms: seq<Room>, rates: Rates) {
    && NonNegativeRates(rates)
    && (forall j | 0 <= j < |rooms| :: rooms[j].baseRent >= 0)
    && (forall j | 0 <= j < |cur| :: cur[j].otherFees >= 0)
  }

  lemma AmountNonNegative(r: Reading, rooms: seq<Room>, rates: Rates)
    requires NonNegativeRates(rates) && (forall j | 0 <= j < |rooms| :: rooms[j].baseRent >= 0)
    requires r.otherFees >= 0
    ensures Amount(r, rooms, rates) >= 0
  {
    match FindRoom(rooms, r.roomId)
    case None =>
    case Some(room) =>
      TotalAtLeastBaseline(room, r, rates);
  }

  /** With non-negative billing nothing is collected beyond the total and
      nothing below zero. */
  lemma {:induction false} CollectedWithinTotal(cur: seq<Reading>, rooms: seq<Room>, rates: Rates)
    requires NonNegativeBilling(cur, rooms, rates)
    ensures 0 <= Collected(cur, rooms, rates) <= Expected(cur, rooms, rates)
    ensures Outstanding(cur, rooms, rates) >= 0
  {
    if cur != [] {
      var init := cur[..|cur| - 1];
      assert forall j | 0 <= j < |init| :: init[j] == cur[j];
      CollectedWithinTotal(init, rooms, rates);
      AmountNonNegative(cur[|cur| - 1], rooms, rates);
    }
  }

  /** A record whose room is unknown contributes nothing, wherever it
      stands among the month's records. */
  lemma UnknownRoomAddsNothing(a: seq<Reading>, r: Reading, b: seq<Reading>, rooms: seq<Room>, rates: Rates)
    requires forall j | 0 <= j < |rooms| :: rooms[j].id != r.roomId
    ensures Expected(a + [r] + b, rooms, rates) == Expected(a + b, rooms, rates)
    ensures Collected(a + [r] + b, rooms, rates) == Collected(a + b, rooms, rates)
  {
    assert Amount(r, rooms, rates) == 0;
    ExpectedSkips(a, r, b, rooms, rates);
    CollectedSkips(a, r, b, rooms, rates);
  }

  lemma ExpectedLast(s: seq<Reading>, init: seq<Reading>, last: Reading, rooms: seq<Room>, rates: Rates)
    requires s == init + [last]
    ensures Expected(s, rooms, rates) == Expected(init, rooms, rates) + Amount(last, rooms, rates)
  {
    assert s[..|s| - 1] == init;
  }

  lemma {:induction false} ExpectedSkips(a: seq<Reading>, r: Reading, b: seq<Reading>, rooms: seq<Room>, rates: Rates)
    requires Amount(r, rooms, rates) == 0
    ensures Expected(a + [r] + b, rooms, rates) == Expected(a + b, rooms, rates)
  {
    if b == [] {
      assert a + [r] + b == a + [r] && a + b == a;
      ExpectedLast(a + [r], a, r, rooms, rates);
    } else {
      var init := b[..|b| - 1];
      var last := b[|b| - 1];
      assert a + [r] + b == (a + [r] + init) + [last];
      assert a + b == (a + init) + [last];
      ExpectedSkips(a, r, init, rooms, rates);
      ExpectedLast(a + [r] + b, a + [r] + init, last, rooms, rates);
      ExpectedLast(a + b, a + init, last, rooms, rates);
    }
  }

  lemma CollectedLast(s: seq<Reading>, init: seq<Reading>, last: Reading, rooms: seq<Room>, rates: Rates)
    requires s == init + [last]
    ensures Collected(s, rooms, rates) == Collected(init, rooms, rates) + (if last.paid then Amount(last, rooms, rates) else 0)
  {
    assert s[..|s| - 1] == init;
  }

  lemma {:induction false} CollectedSkips(a: seq<Reading>, r: Reading, b: seq<Reading>, rooms: seq<Room>, rates: Rates)
    requires Amount(r, rooms, rates) == 0
    ensures Collected(a + [r] + b, rooms, rates) == Collected(a + b, rooms, rates)
  {
    if b == [] {
      assert a + [r] + b == a + [r] && a + b == a;
      CollectedLast(a + [r], a, r, rooms, rates);
    } else {
      var init := b[..|b| - 1];
      var last := b[|b| - 1];
      assert a + [r] + b == (a + [r] + init) + [last];
      assert a + b == (a + init) + [last];
      CollectedSkips(a, r, init, rooms, rates);
      CollectedLast(a + [r] + b, a + [r] + init, last, rooms, rates);
      CollectedLast(a + b, a + init, last, rooms, rates);
    }
  }

  /** A room without a record for the month contributes nothing, not even
      its no-reading total: adding it anywhere among the rooms changes no
      figure. */
  lemma {:induction false} RoomWithoutReadingAddsNothing(cur: seq<Reading>, ra: seq<Room>, room: Room, rb: seq<Room>, rates: Rates)
    requires forall j | 0 <= j < |cur| :: cur[j].roomId != room.id
    ensures Expected(cur, ra + [room] + rb, rates) == Expected(cur, ra + rb, rates)
    ensures Collected(cur, ra + [room] + rb, rates) == Collected(cur, ra + rb, rates)
  {
    if cur != [] {
      var init := cur[..|cur| - 1];
      var r := cur[|cur| - 1];
      assert cur == init + [r];
      assert forall j | 0 <= j < |init| :: init[j] == cur[j];
      RoomWithoutReadingAddsNothing(init, ra, room, rb, rates);
      FirstWhereSkips(ra, room, rb, (x: Room) => x.id == r.roomId);
      assert FindRoom(ra + [room] + rb, r.roomId) == FindRoom(ra + rb, r.roomId);
      assert Amount(r, ra + [room] + rb, rates) == Amount(r, ra + rb, rates);
      ExpectedLast(cur, init, r, ra + [room] + rb, rates);
      ExpectedLast(cur, init, r, ra + rb, rates);
      CollectedLast(cur, init, r, ra + [room] + rb, rates);
      CollectedLast(cur, init, r, ra + rb, rates);
    }
  }

  /** Records of other months never enter the figures, wherever they
      stand in the ledger. */
  lemma {:induction false} OtherMonthsIgnored(a: seq<Reading>, x: Reading, b: seq<Reading>, month: string)
    requires x.month != month
    ensures CurrentReadings(a + [x] + b, month) == CurrentReadings(a + b, month)
  {
    if a == [] {
      assert a + [x] + b == [x] + b;
      assert ([x] + b)[1..] == b;
      assert a + b == b;
    } else {
      assert (a + [x] + b)[1..] == a[1..] + [x] + b;
      assert (a + b)[1..] == a[1..] + b;
      OtherMonthsIgnored(a[1..], x, b, month);
    }
  }
}

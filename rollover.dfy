/** Opening a month (the effect at App.tsx:72-99): when the month's record
    count differs from the number of rooms, every room without a record for
    the month gets one, seeded from its record for the previous month. Both
    lookups read the ledger as it was before the run, never the list being
    built. */
module Rollover {
  import opened Wrappers
  import opened Period
  import opened Ledger
  import opened Sequences

  /** The record pushed for a room that has none for `month` (App.tsx:82-93).
      "Prior" is that room's record for the previous month, if any. */
  function SeedFor(prev: seq<Reading>, roomId: string, month: string): Reading {
    var prior := Find(prev, roomId, PrevMonth(month));
    Reading(
      roomId := roomId,
      month := month,
      prevElectricity := if prior.Some? then prior.value.currElectricity else 0,
      currElectricity := if prior.Some? then prior.value.currElectricity else 0,
      prevWater := if prior.Some? then prior.value.prevWater else 0,
      currWater := if prior.Some? then prior.value.currWater else 0,
      otherFees := 0,
      paid := false,
      receiptImage := None)
  }

  /** What one room adds: its seed when it has no record, nothing otherwise. */
  function PushedFor(prev: seq<Reading>, room: Room, month: string): seq<Reading> {
    if Find(prev, room.id, month).None? then [SeedFor(prev, room.id, month)] else []
  }

  /** The records a run appends, in room order. */
  function Seeds(prev: seq<Reading>, rooms: seq<Room>, month: string): seq<Reading>
    decreases |rooms|
  {
    if rooms == [] then []
    else Seeds(prev, rooms[..|rooms| - 1], month) + PushedFor(prev, rooms[|rooms| - 1], month)
  }

  /** The ledger after one run. */
  function After(prev: seq<Reading>, rooms: seq<Room>, month: string): seq<Reading> {
    if |CurrentReadings(prev, month)| == |rooms| then prev
    else prev + Seeds(prev, rooms, month)
  }

  /** The run itself: copy the list, push a seed for each room that lacks a
      record, and hand back the old list when nothing was pushed. */
  method Run(readings: seq<Reading>, rooms: seq<Room>, selectedMonth: string)
    returns (result: seq<Reading>)
    ensures result == After(readings, rooms, selectedMonth)
  {
    var currentMonthReadings := CurrentReadings(readings, selectedMonth);
    if |currentMonthReadings| == |rooms| {
      return readings;
    }
    var newReadings := readings;
    var hasChanged := false;
    var i := 0;
    while i < |rooms|
      invariant 0 <= i <= |rooms|
      invariant newReadings == readings + Seeds(readings, rooms[..i], selectedMonth)
      invariant hasChanged <==> Seeds(readings, rooms[..i], selectedMonth) != []
    {
      var room := rooms[i];
      SeedsStep(readings, rooms, i, selectedMonth);
      AppendAssoc(readings, Seeds(readings, rooms[..i], selectedMonth), PushedFor(readings, room, selectedMonth));
      var found := Find(readings, room.id, selectedMonth);
      if found.None? {
        hasChanged := true;
        newReadings := newReadings + [SeedFor(readings, room.id, selectedMonth)];
      }
      i := i + 1;
    }
    assert rooms[..i] == rooms;
    result := if hasChanged then newReadings else readings;
  }

  /** One more room adds its own seed, if any, after the others. */
  lemma SeedsStep(prev: seq<Reading>, rooms: seq<Room>, i: nat, month: string)
    requires i < |rooms|
    ensures Seeds(prev, rooms[..i + 1], month) == Seeds(prev, rooms[..i], month) + PushedFor(prev, rooms[i], month)
  {
    assert rooms[..i + 1][..i] == rooms[..i];
  }

  function Ids(rooms: seq<Room>): (ids: seq<string>)
    ensures |ids| == |rooms|
    ensures forall j | 0 <= j < |rooms| :: ids[j] == rooms[j].id
  {
    seq(|rooms|, j requires 0 <= j < |rooms| => rooms[j].id)
  }

  predicate UniqueIds(rooms: seq<Room>) {
    forall i, j | 0 <= i < j < |rooms| :: rooms[i].id != rooms[j].id
  }

  /** At most one record per (roomId, month) key. */
  predicate UniqueKeys(rs: seq<Reading>) {
    forall i, j | 0 <= i < j < |rs| :: !IsFor(rs[j], rs[i].roomId, rs[i].month)
  }

  /** `s` is the seed of one of the rooms, a room that had no record for
      `month` in `prev`. */
  predicate IsSeedOf(prev: seq<Reading>, rooms: seq<Room>, month: string, s: Reading) {
    s.month == month && s.roomId in Ids(rooms) &&
    Find(prev, s.roomId, month).None? && s == SeedFor(prev, s.roomId, month)
  }

  /** Every appended record is a seed for `month`, for one of the rooms, of
      a room that had no record for `month`. */
  lemma {:induction false} SeedsAreSeeds(prev: seq<Reading>, rooms: seq<Room>, month: string)
    ensures forall k | 0 <= k < |Seeds(prev, rooms, month)| ::
      IsSeedOf(prev, rooms, month, Seeds(prev, rooms, month)[k])
    decreases |rooms|
  {
    if rooms != [] {
      var init := rooms[..|rooms| - 1];
      var x := rooms[|rooms| - 1];
      SeedsAreSeeds(prev, init, month);
      var t, u := Seeds(prev, init, month), PushedFor(prev, x, month);
      assert Seeds(prev, rooms, month) == t + u;
      forall k | 0 <= k < |t + u|
        ensures IsSeedOf(prev, rooms, month, (t + u)[k])
      {
        if k < |t| {
          assert (t + u)[k] == t[k];
          assert IsSeedOf(prev, init, month, t[k]);
          var j :| 0 <= j < |init| && Ids(init)[j] == t[k].roomId;
          assert Ids(rooms)[j] == t[k].roomId;
        } else {
          assert (t + u)[k] == u[0];
          assert Ids(rooms)[|rooms| - 1] == x.id;
        }
      }
    }
  }

  /** Every room either had a record for `month` or has a seed among the
      appended records. */
  lemma {:induction false} SeedsCover(prev: seq<Reading>, rooms: seq<Room>, month: string, j: nat)
    requires j < |rooms|
    ensures Find(prev, rooms[j].id, month).Some? || Find(Seeds(prev, rooms, month), rooms[j].id, month).Some?
    decreases |rooms|
  {
    var init := rooms[..|rooms| - 1];
    var s := Seeds(prev, rooms, month);
    if j == |rooms| - 1 {
      if Find(prev, rooms[j].id, month).None? {
        assert s[|s| - 1] == SeedFor(prev, rooms[j].id, month);
        assert IsFor(s[|s| - 1], rooms[j].id, month);
      }
    } else {
      assert init[j] == rooms[j];
      SeedsCover(prev, init, month, j);
      if Find(prev, rooms[j].id, month).None? {
        var t := Seeds(prev, init, month);
        var m := FirstIndex(t, (x: Reading) => IsFor(x, rooms[j].id, month));
        assert s[m] == t[m];
        assert IsFor(s[m], rooms[j].id, month);
      }
    }
  }

  /** A room with a record in the first part of a ledger still has one after
      more records are appended. */
  lemma FindAppend(a: seq<Reading>, b: seq<Reading>, roomId: string, month: string)
    requires Find(a, roomId, month).Some? || Find(b, roomId, month).Some?
    ensures Find(a + b, roomId, month).Some?
  {
    if Find(a, roomId, month).Some? {
      var k := FirstIndex(a, (x: Reading) => IsFor(x, roomId, month));
      assert (a + b)[k] == a[k];
    } else {
      var k := FirstIndex(b, (x: Reading) => IsFor(x, roomId, month));
      assert (a + b)[|a| + k] == b[k];
    }
  }

  /** Coverage: when the count guard lets the run through, every room has
      a record for the month afterwards. */
  lemma RolloverCovers(prev: seq<Reading>, rooms: seq<Room>, month: string)
    requires |CurrentReadings(prev, month)| != |rooms|
    ensures forall j | 0 <= j < |rooms| :: Find(After(prev, rooms, month), rooms[j].id, month).Some?
  {
    forall j | 0 <= j < |rooms|
      ensures Find(After(prev, rooms, month), rooms[j].id, month).Some?
    {
      SeedsCover(prev, rooms, month, j);
      FindAppend(prev, Seeds(prev, rooms, month), rooms[j].id, month);
    }
  }

  /** The old ledger is an untouched prefix, and each appended record is the
      seed of a listed room that had no record for the month: it starts
      where the prior month's record ends, with no fees and unpaid. */
  lemma RolloverAppendsSeeds(prev: seq<Reading>, rooms: seq<Room>, month: string)
    ensures |After(prev, rooms, month)| >= |prev|
    ensures After(prev, rooms, month)[..|prev|] == prev
    ensures forall k | |prev| <= k < |After(prev, rooms, month)| ::
      var s := After(prev, rooms, month)[k];
      var prior := Find(prev, s.roomId, PrevMonth(month));
      && s.month == month && s.roomId in Ids(rooms)
      && Find(prev, s.roomId, month).None?
      && s.prevElectricity == (if prior.Some? then prior.value.currElectricity else 0)
      && s.currElectricity == (if prior.Some? then prior.value.currElectricity else 0)
      && s.prevWater == (if prior.Some? then prior.value.prevWater else 0)
      && s.currWater == (if prior.Some? then prior.value.currWater else 0)
      && s.otherFees == 0 && !s.paid && s.receiptImage.None?
  {
    SeedsAreSeeds(prev, rooms, month);
    var r := After(prev, rooms, month);
    if r != prev {
      assert forall k | |prev| <= k < |r| :: r[k] == Seeds(prev, rooms, month)[k - |prev|];
    }
  }

  /** A seed's electricity starts with zero usage, but its water starts with
      the prior month's water usage, since the starting water value is
      copied from the prior record's starting value (App.tsx:89). */
  lemma SeedUsage(prev: seq<Reading>, roomId: string, month: string)
    ensures var s := SeedFor(prev, roomId, month);
      var prior := Find(prev, roomId, PrevMonth(month));
      && s.currElectricity - s.prevElectricity == 0
      && s.currWater - s.prevWater == (if prior.Some? then prior.value.currWater - prior.value.prevWater else 0)
  {
  }

  lemma {:induction false} SeedsIdsIn(prev: seq<Reading>, rooms: seq<Room>, month: string, k: nat)
    requires k < |Seeds(prev, rooms, month)|
    ensures exists j :: 0 <= j < |rooms| && rooms[j].id == Seeds(prev, rooms, month)[k].roomId
  {
    SeedsAreSeeds(prev, rooms, month);
    var id := Seeds(prev, rooms, month)[k].roomId;
    var j :| 0 <= j < |rooms| && Ids(rooms)[j] == id;
  }

  lemma {:induction false} SeedsUnique(prev: seq<Reading>, rooms: seq<Room>, month: string)
    requires UniqueIds(rooms)
    ensures UniqueKeys(Seeds(prev, rooms, month))
    decreases |rooms|
  {
    if rooms != [] {
      var init := rooms[..|rooms| - 1];
      var last := rooms[|rooms| - 1];
      SeedsUnique(prev, init, month);
      var t := Seeds(prev, init, month);
      if Find(prev, last.id, month).None? {
        forall k | 0 <= k < |t| ensures t[k].roomId != last.id {
          SeedsIdsIn(prev, init, month, k);
        }
      }
    }
  }

  /** No key is duplicated: with unique room ids, a ledger without
      duplicate keys stays without them. */
  lemma RolloverKeepsKeysUnique(prev: seq<Reading>, rooms: seq<Room>, month: string)
    requires UniqueKeys(prev) && UniqueIds(rooms)
    ensures UniqueKeys(After(prev, rooms, month))
  {
    if |CurrentReadings(prev, month)| != |rooms| {
      var s := Seeds(prev, rooms, month);
      SeedsUnique(prev, rooms, month);
      SeedsAreSeeds(prev, rooms, month);
      var r := prev + s;
      forall i, j | 0 <= i < j < |r| ensures !IsFor(r[j], r[i].roomId, r[i].month) {
        if j >= |prev| && i < |prev| {
          assert r[j] == s[j - |prev|];
          assert r[i] == prev[i];
        } else if i >= |prev| {
          assert r[i] == s[i - |prev|] && r[j] == s[j - |prev|];
        }
      }
    }
  }

  /** When every room already has a record for the month, nothing is pushed. */
  lemma {:induction false} SeedsEmptyWhenCovered(prev: seq<Reading>, rooms: seq<Room>, month: string)
    requires forall j | 0 <= j < |rooms| :: Find(prev, rooms[j].id, month).Some?
    ensures Seeds(prev, rooms, month) == []
    decreases |rooms|
  {
    if rooms != [] {
      SeedsEmptyWhenCovered(prev, rooms[..|rooms| - 1], month);
    }
  }

  /** The two ways the run hands back the ledger unchanged: every room
      already has a record, or the month already holds as many records as
      there are rooms. */
  lemma RolloverNoOp(prev: seq<Reading>, rooms: seq<Room>, month: string)
    requires (forall j | 0 <= j < |rooms| :: Find(prev, rooms[j].id, month).Some?)
          || |CurrentReadings(prev, month)| == |rooms|
    ensures After(prev, rooms, month) == prev
  {
    if |CurrentReadings(prev, month)| != |rooms| {
      SeedsEmptyWhenCovered(prev, rooms, month);
    }
  }

  /** The count guard is not a coverage test: two records of one room can
      stand in for a room that has none, and the run then adds nothing. */
  lemma CountGuardCanSkipARoom()
    ensures var a := Room("room-1", "1", 0, "1234");
      var b := Room("room-2", "2", 0, "1234");
      var r := Reading("room-1", "2024-05", 0, 0, 0, 0, 0, false, None);
      && After([r, r], [a, b], "2024-05") == [r, r]
      && Find(After([r, r], [a, b], "2024-05"), b.id, "2024-05").None?
  {
    var r := Reading("room-1", "2024-05", 0, 0, 0, 0, 0, false, None);
    assert CurrentReadings([r, r], "2024-05") == [r, r] by {
      assert [r, r][1..] == [r];
      assert [r][1..] == [];
    }
  }

  /** Running twice changes nothing the first run did not. */
  lemma RolloverIdempotent(prev: seq<Reading>, rooms: seq<Room>, month: string)
    ensures After(After(prev, rooms, month), rooms, month) == After(prev, rooms, month)
  {
    if |CurrentReadings(prev, month)| != |rooms| {
      RolloverCovers(prev, rooms, month);
      RolloverNoOp(After(prev, rooms, month), rooms, month);
    }
  }

  lemma {:induction false} SeedsConcat(prev: seq<Reading>, a: seq<Room>, b: seq<Room>, month: string)
    ensures Seeds(prev, a + b, month) == Seeds(prev, a, month) + Seeds(prev, b, month)
    decreases |b|
  {
    if b == [] {
      assert a + b == a;
    } else {
      assert (a + b)[..|a + b| - 1] == a + b[..|b| - 1];
      SeedsConcat(prev, a, b[..|b| - 1], month);
    }
  }

  lemma {:induction false} SeedsPermutation(prev: seq<Reading>, rooms1: seq<Room>, rooms2: seq<Room>, month: string)
    requires multiset(rooms1) == multiset(rooms2)
    ensures multiset(Seeds(prev, rooms1, month)) == multiset(Seeds(prev, rooms2, month))
    decreases |rooms1|
  {
    assert |rooms1| == |multiset(rooms1)| == |multiset(rooms2)| == |rooms2|;
    if rooms1 != [] {
      var x := rooms1[|rooms1| - 1];
      var init := rooms1[..|rooms1| - 1];
      assert rooms1 == init + [x];
      assert x in multiset(rooms2);
      var k :| 0 <= k < |rooms2| && rooms2[k] == x;
      var a, b := rooms2[..k], rooms2[k + 1..];
      assert rooms2 == a + [x] + b;
      MultisetCancel(init, x, a, b);
      SeedsPermutation(prev, init, a + b, month);
      var s := PushedFor(prev, x, month);
      var sa, sb := Seeds(prev, a, month), Seeds(prev, b, month);
      assert Seeds(prev, rooms1, month) == Seeds(prev, init, month) + s;
      SeedsConcat(prev, a, b, month);
      SeedsConcat(prev, a + [x], b, month);
      SeedsConcat(prev, a, [x], month);
      assert Seeds(prev, [x], month) == s by {
        assert [x][..0] == [];
      }
      assert Seeds(prev, rooms2, month) == sa + s + sb;
      MultisetInsert(Seeds(prev, init, month), sa, sb, s);
    }
  }

  /** Room order does not matter: the same rooms in any order append the
      same records, each depending only on its own room and the old ledger. */
  lemma RolloverOrderIndependent(prev: seq<Reading>, rooms1: seq<Room>, rooms2: seq<Room>, month: string)
    requires multiset(rooms1) == multiset(rooms2)
    ensures After(prev, rooms1, month)[..|prev|] == After(prev, rooms2, month)[..|prev|] == prev
    ensures multiset(After(prev, rooms1, month)) == multiset(After(prev, rooms2, month))
  {
    assert |rooms1| == |multiset(rooms1)| == |multiset(rooms2)| == |rooms2|;
    SeedsPermutation(prev, rooms1, rooms2, month);
  }
}

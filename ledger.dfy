/** The billing ledger: the `Room` and `Reading` records (types.ts:2-22),
    the `find` / `filter` lookups App.tsx performs on them, and the field
    update with one-month propagation, `updateReading` (App.tsx:101-111). */
module Ledger {
  import opened Wrappers
  import opened Period
  import opened Sequences

  /** A room. The per-room rate fields of the stored record are not part of
      the model: no calculation reads them. */
  datatype Room = Room(id: string, name: string, baseRent: int, pin: string)

  /** One room's record for one month, keyed by (roomId, month). */
  datatype Reading = Reading(
    roomId: string,
    month: string,
    prevElectricity: int,
    currElectricity: int,
    prevWater: int,
    currWater: int,
    otherFees: int,
    paid: bool,
    receiptImage: Option<string>)

  /** The ledger key test `r.roomId === roomId && r.month === month`. */
  predicate IsFor(r: Reading, roomId: string, month: string) {
    r.roomId == roomId && r.month == month
  }

  /** `readings.find(r => r.roomId === roomId && r.month === month)`. */
  function Find(rs: seq<Reading>, roomId: string, month: string): (r: Option<Reading>)
    ensures r.None? <==> forall j | 0 <= j < |rs| :: !IsFor(rs[j], roomId, month)
    ensures r.Some? ==> r.value in rs && IsFor(r.value, roomId, month)
    ensures r.Some? ==> exists k | 0 <= k < |rs| ::
      rs[k] == r.value && forall j | 0 <= j < k :: !IsFor(rs[j], roomId, month)
  {
    FirstWhere(rs, (x: Reading) => IsFor(x, roomId, month))
  }

  /** `rooms.find(rm => rm.id === roomId)`. */
  function FindRoom(rooms: seq<Room>, roomId: string): (r: Option<Room>)
    ensures r.None? <==> forall j | 0 <= j < |rooms| :: rooms[j].id != roomId
    ensures r.Some? ==> r.value in rooms && r.value.id == roomId
    ensures r.Some? ==> exists k | 0 <= k < |rooms| ::
      rooms[k] == r.value && forall j | 0 <= j < k :: rooms[j].id != roomId
  {
    FirstWhere(rooms, (x: Room) => x.id == roomId)
  }

  /** `currentMonthReadings.find(x => x.roomId === roomId)`. */
  function FindByRoom(rs: seq<Reading>, roomId: string): (r: Option<Reading>)
    ensures r.None? <==> forall j | 0 <= j < |rs| :: rs[j].roomId != roomId
    ensures r.Some? ==> r.value in rs && r.value.roomId == roomId
    ensures r.Some? ==> exists k | 0 <= k < |rs| ::
      rs[k] == r.value && forall j | 0 <= j < k :: rs[j].roomId != roomId
  {
    FirstWhere(rs, (x: Reading) => x.roomId == roomId)
  }

  /** `readings.filter(r => r.month === month)`: the month's records, in
      ledger order. */
  function CurrentReadings(rs: seq<Reading>, month: string): (cur: seq<Reading>)
    ensures |cur| <= |rs|
  {
    if rs == [] then []
    else (if rs[0].month == month then [rs[0]] else []) + CurrentReadings(rs[1..], month)
  }

  /** The filter keeps exactly the records of the month. */
  lemma {:induction false} CurrentReadingsMembers(rs: seq<Reading>, month: string, r: Reading)
    ensures r in CurrentReadings(rs, month) <==> r in rs && r.month == month
  {
    if rs != [] {
      CurrentReadingsMembers(rs[1..], month, r);
      assert rs == [rs[0]] + rs[1..];
    }
  }

  /** The filter keeps every record of the month as often as the ledger
      holds it, and no other record: so its length, which the rollover's
      count guard compares, counts duplicates too. */
  lemma {:induction false} CurrentReadingsCount(rs: seq<Reading>, month: string, x: Reading)
    ensures multiset(CurrentReadings(rs, month))[x] == if x.month == month then multiset(rs)[x] else 0
  {
    if rs != [] {
      CurrentReadingsCount(rs[1..], month, x);
      var head := if rs[0].month == month then [rs[0]] else [];
      assert rs == [rs[0]] + rs[1..];
      assert multiset(rs) == multiset{rs[0]} + multiset(rs[1..]);
      assert multiset(CurrentReadings(rs, month)) == multiset(head) + multiset(CurrentReadings(rs[1..], month));
    }
  }

  /** Looking a room up among the month's records finds what looking it up
      by the full key in the whole ledger finds. */
  lemma {:induction false} FindInCurrent(rs: seq<Reading>, month: string, roomId: string)
    ensures FindByRoom(CurrentReadings(rs, month), roomId) == Find(rs, roomId, month)
  {
    if rs != [] {
      FindInCurrent(rs[1..], month, roomId);
      FindStep(rs, roomId, month);
      var cur := CurrentReadings(rs, month);
      var tail := CurrentReadings(rs[1..], month);
      if rs[0].month == month {
        assert cur == [rs[0]] + tail;
        assert cur[1..] == tail;
        FindByRoomStep(cur, roomId);
      } else {
        assert cur == tail;
      }
    }
  }

  /** `find` by key tests the head and otherwise searches the rest. */
  lemma FindStep(rs: seq<Reading>, roomId: string, month: string)
    requires rs != []
    ensures Find(rs, roomId, month) ==
      if IsFor(rs[0], roomId, month) then Some(rs[0]) else Find(rs[1..], roomId, month)
  {
  }

  /** `find` by room tests the head and otherwise searches the rest. */
  lemma FindByRoomStep(rs: seq<Reading>, roomId: string)
    requires rs != []
    ensures FindByRoom(rs, roomId) ==
      if rs[0].roomId == roomId then Some(rs[0]) else FindByRoom(rs[1..], roomId)
  {
  }

  /** The fields `updateReading` is called with, each with a value of its
      type (the source passes a field name and an untyped value). */
  datatype Change =
    | SetPrevElectricity(v: int)
    | SetCurrElectricity(v: int)
    | SetPrevWater(v: int)
    | SetCurrWater(v: int)
    | SetOtherFees(v: int)
    | SetPaid(paid: bool)
    | SetReceiptImage(image: Option<string>)
  {
    /** The two meter fields whose edit is carried into the next month. */
    predicate IsMeter() {
      SetCurrElectricity? || SetCurrWater?
    }
  }

  /** `{ ...r, [field]: value }`. */
  function Apply(r: Reading, c: Change): Reading {
    match c
    case SetPrevElectricity(v) => r.(prevElectricity := v)
    case SetCurrElectricity(v) => r.(currElectricity := v)
    case SetPrevWater(v) => r.(prevWater := v)
    case SetCurrWater(v) => r.(currWater := v)
    case SetOtherFees(v) => r.(otherFees := v)
    case SetPaid(b) => r.(paid := b)
    case SetReceiptImage(img) => r.(receiptImage := img)
  }

  /** `{ ...r, [prevField]: value }` on the next month's record. */
  function CarryForward(r: Reading, c: Change): Reading
    requires c.IsMeter()
  {
    if c.SetCurrElectricity? then r.(prevElectricity := c.v) else r.(prevWater := c.v)
  }

  /** updateReading (App.tsx:101-111): rewrite the (roomId, month) record;
      for a meter field also rewrite the matching starting value of the
      (roomId, next month) record. Both passes are `map`s over the list. */
  function UpdateReading(rs: seq<Reading>, roomId: string, month: string, c: Change): (r: seq<Reading>)
    ensures |r| == |rs|
  {
    var updated := seq(|rs|, i requires 0 <= i < |rs| =>
      if IsFor(rs[i], roomId, month) then Apply(rs[i], c) else rs[i]);
    if c.IsMeter() then
      var nextMonth := NextMonth(month);
      seq(|updated|, i requires 0 <= i < |updated| =>
        if IsFor(updated[i], roomId, nextMonth) then CarryForward(updated[i], c) else updated[i])
    else updated
  }

  /** Every record keeps its place and its key. */
  lemma UpdateKeepsKeys(rs: seq<Reading>, roomId: string, month: string, c: Change)
    ensures forall i | 0 <= i < |rs| ::
      UpdateReading(rs, roomId, month, c)[i].roomId == rs[i].roomId &&
      UpdateReading(rs, roomId, month, c)[i].month == rs[i].month
  {
  }

  /** Every record of the targeted key gets the new field value. */
  lemma UpdateRewritesTarget(rs: seq<Reading>, roomId: string, month: string, c: Change, i: nat)
    requires month != InvalidPeriod
    requires i < |rs| && IsFor(rs[i], roomId, month)
    ensures UpdateReading(rs, roomId, month, c)[i] == Apply(rs[i], c)
  {
    NextMonthMovesOn(month);
  }

  /** A meter edit overwrites the starting value of the same room's
      next-month record with the edited value. */
  lemma UpdateCarriesMeterForward(rs: seq<Reading>, roomId: string, month: string, c: Change, i: nat)
    requires c.IsMeter() && month != InvalidPeriod
    requires i < |rs| && IsFor(rs[i], roomId, NextMonth(month))
    ensures UpdateReading(rs, roomId, month, c)[i] ==
      if c.SetCurrElectricity? then rs[i].(prevElectricity := c.v) else rs[i].(prevWater := c.v)
  {
    NextMonthMovesOn(month);
  }

  /** Nothing else changes: a record of another key is left as it was, and
      for fees, payment and evidence even the next month's record is. */
  lemma UpdateLeavesOthers(rs: seq<Reading>, roomId: string, month: string, c: Change, i: nat)
    requires i < |rs| && !IsFor(rs[i], roomId, month)
    requires c.IsMeter() ==> !IsFor(rs[i], roomId, NextMonth(month))
    ensures UpdateReading(rs, roomId, month, c)[i] == rs[i]
  {
  }

  /** The propagation is one month deep: on a canonical key the month after
      next is untouched. */
  lemma UpdateStopsAfterOneMonth(rs: seq<Reading>, roomId: string, p: YearMonth, c: Change, i: nat)
    requires Calendar(p)
    requires i < |rs| && IsFor(rs[i], roomId, NextMonth(NextMonth(Format(p))))
    ensures UpdateReading(rs, roomId, Format(p), c)[i] == rs[i]
  {
    MonthAfterNextIsNew(p);
  }
}

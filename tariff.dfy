/** The tariff formula `calculateRoomTotal` (App.tsx:113-118) over the
    global rates (App.tsx:32-35). */
module Tariff {
  import opened Wrappers
  import opened Ledger

  /** The global rates, in the smallest currency unit. */
  datatype Rates = Rates(electricityRate: int, waterRate: int, serviceFee: int, otherFee: int)

  /** The values used when nothing is stored (App.tsx:32-35). */
  const DefaultRates: Rates := Rates(3500, 25000, 150000, 0)

  /** `Math.max(0, curr - prev)`: the usage, floored at zero. */
  function Usage(prev: int, curr: int): (u: int)
    ensures u >= 0 && u >= curr - prev
    ensures u == 0 || u == curr - prev
  {
    if curr - prev > 0 then curr - prev else 0
  }

  /** calculateRoomTotal (App.tsx:113-118). */
  function RoomTotal(room: Room, reading: Option<Reading>, rates: Rates): (total: int)
    ensures reading.None? ==> total == room.baseRent + rates.serviceFee + rates.otherFee
  {
    match reading
    case None => room.baseRent + rates.serviceFee + rates.otherFee
    case Some(r) =>
      var elecUsage := Usage(r.prevElectricity, r.currElectricity);
      var waterUsage := Usage(r.prevWater, r.currWater);
      room.baseRent + elecUsage * rates.electricityRate + waterUsage * rates.waterRate
        + rates.serviceFee + rates.otherFee + r.otherFees
  }

  predicate NonNegativeRates(rates: Rates) {
    rates.electricityRate >= 0 && rates.waterRate >= 0 && rates.serviceFee >= 0 && rates.otherFee >= 0
  }

  /** With a reading the total is the no-reading total plus the clamped usage
      charges and the record's own fees. */
  lemma TotalWithReading(room: Room, r: Reading, rates: Rates)
    ensures RoomTotal(room, Some(r), rates) ==
      RoomTotal(room, None, rates)
        + Usage(r.prevElectricity, r.currElectricity) * rates.electricityRate
        + Usage(r.prevWater, r.currWater) * rates.waterRate
        + r.otherFees
  {
  }

  /** With non-negative rates a reading never bills less than the
      no-reading total plus its own fees: usage never counts negatively. */
  lemma TotalAtLeastBaseline(room: Room, r: Reading, rates: Rates)
    requires NonNegativeRates(rates)
    ensures RoomTotal(room, Some(r), rates) >= RoomTotal(room, None, rates) + r.otherFees
  {
    var e := Usage(r.prevElectricity, r.currElectricity);
    var w := Usage(r.prevWater, r.currWater);
    assert e * rates.electricityRate >= 0 by { MulNonNegative(e, rates.electricityRate); }
    assert w * rates.waterRate >= 0 by { MulNonNegative(w, rates.waterRate); }
  }

  lemma MulNonNegative(a: int, b: int)
    requires a >= 0 && b >= 0
    ensures a * b >= 0
  {
  }

  /** A meter that went backwards (reset or mistyped) bills no usage. */
  lemma MeterRollbackBillsNothing(room: Room, r: Reading, rates: Rates)
    requires r.currElectricity <= r.prevElectricity && r.currWater <= r.prevWater
    ensures RoomTotal(room, Some(r), rates) == RoomTotal(room, None, rates) + r.otherFees
  {
  }

  /** A higher closing meter value never lowers the bill. */
  lemma TotalMonotoneInMeters(room: Room, r: Reading, e: int, w: int, rates: Rates)
    requires NonNegativeRates(rates) && e >= r.currElectricity && w >= r.currWater
    ensures RoomTotal(room, Some(r.(currElectricity := e, currWater := w)), rates) >= RoomTotal(room, Some(r), rates)
  {
    var r2 := r.(currElectricity := e, currWater := w);
    var de := Usage(r.prevElectricity, e) - Usage(r.prevElectricity, r.currElectricity);
    var dw := Usage(r.prevWater, w) - Usage(r.prevWater, r.currWater);
    assert de >= 0 && dw >= 0;
    MulNonNegative(de, rates.electricityRate);
    MulNonNegative(dw, rates.waterRate);
    assert Usage(r.prevElectricity, e) * rates.electricityRate
      == Usage(r.prevElectricity, r.currElectricity) * rates.electricityRate + de * rates.electricityRate;
    assert Usage(r.prevWater, w) * rates.waterRate
      == Usage(r.prevWater, r.currWater) * rates.waterRate + dw * rates.waterRate;
  }

  /** A default room with meters 100 to 150 and 10 to 13 and 50,000 of
      other fees: 3,500,000 + 175,000 + 75,000 + 150,000 + 50,000. */
  lemma ExampleTotal()
    ensures RoomTotal(Room("room-1", "1", 3500000, "1234"),
                      Some(Reading("room-1", "2024-05", 100, 150, 10, 13, 50000, false, None)),
                      DefaultRates) == 3950000
  {
  }

  /** The usage floor: 100 down to 80 is no usage. */
  lemma ExampleUsageFloor()
    ensures Usage(100, 80) == 0
  {
  }
}

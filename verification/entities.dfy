/**
 * The persisted records the controllers read and write: vehicles and the
 * payment ledger. Amounts are whole XOF (West African CFA francs).
 */
module Entities {
  import opened Common

  /** Payment statuses accepted by createVehiclePayment. */
  const Pending: string := "pending"
  const Completed: string := "completed"
  const Failed: string := "failed"

  /** The status the payment controller sets once a vehicle is paid up. */
  const ReadyForRelease: string := "ready_for_release"

  /** One row of the payments table. */
  datatype Payment = Payment(
    vehicleId: nat,
    amount: int,
    paymentType: string,
    paymentMethod: string,
    status: string
  )

  /**
   * One row of the vehicles table. `typeKey` is the raw `type` column
   * (absent when null); `photos` is the JSON photo list (absent when null).
   */
  datatype Vehicle = Vehicle(
    id: nat,
    licensePlate: string,
    typeKey: Option<string>,
    status: string,
    description: Option<string>,
    photos: Option<seq<string>>
  )

  /** Whether payment `p` is one of vehicle `vid`'s completed payments. */
  predicate IsCompletedFor(p: Payment, vid: nat) {
    p.vehicleId == vid && p.status == Completed
  }

  /**
   * `Payment::where('vehicle_id', vid)->where('status', 'completed')->sum('amount')`,
   * folded over the ledger from its newest row backwards.
   */
  function CompletedPaid(ledger: seq<Payment>, vid: nat): int {
    if |ledger| == 0 then 0
    else
      var last := ledger[|ledger| - 1];
      CompletedPaid(ledger[..|ledger| - 1], vid) + (if IsCompletedFor(last, vid) then last.amount else 0)
  }

  /** `Payment::where('vehicle_id', vid)->sum('amount')`: every status counts. */
  function AllPaid(ledger: seq<Payment>, vid: nat): int {
    if |ledger| == 0 then 0
    else
      var last := ledger[|ledger| - 1];
      AllPaid(ledger[..|ledger| - 1], vid) + (if last.vehicleId == vid then last.amount else 0)
  }

  /** The amounts the completed-only sum adds up, in ledger order. */
  function CompletedAmounts(ledger: seq<Payment>, vid: nat): seq<int> {
    if |ledger| == 0 then []
    else
      var last := ledger[|ledger| - 1];
      CompletedAmounts(ledger[..|ledger| - 1], vid) + (if IsCompletedFor(last, vid) then [last.amount] else [])
  }

  /** The ledger positions the completed-only sum adds up, in ledger order. */
  function CompletedRows(ledger: seq<Payment>, vid: nat): seq<nat> {
    if |ledger| == 0 then []
    else
      CompletedRows(ledger[..|ledger| - 1], vid)
        + (if IsCompletedFor(ledger[|ledger| - 1], vid) then [|ledger| - 1] else [])
  }

  /** Appending a payment changes the completed total by its amount exactly when it counts. */
  lemma CompletedPaidAppend(ledger: seq<Payment>, p: Payment, vid: nat)
    ensures CompletedPaid(ledger + [p], vid)
         == CompletedPaid(ledger, vid) + (if IsCompletedFor(p, vid) then p.amount else 0)
  {
    assert (ledger + [p])[..|ledger|] == ledger;
  }

  /**
   * Only the vehicle's own completed payments count: a payment for another
   * vehicle, or one that is not completed, leaves the total unchanged.
   */
  lemma CompletedPaidIgnores(ledger: seq<Payment>, p: Payment, vid: nat)
    requires p.vehicleId != vid || p.status != Completed
    ensures CompletedPaid(ledger + [p], vid) == CompletedPaid(ledger, vid)
  {
    CompletedPaidAppend(ledger, p, vid);
  }

  /**
   * The completed total is the sum of the amounts of exactly the vehicle's
   * completed payments: the summed amounts correspond one to one, in ledger
   * order, to the rows that are completed payments of the vehicle, each row
   * counted once.
   */
  lemma {:induction false} CompletedPaidIsSumOfCounted(ledger: seq<Payment>, vid: nat)
    ensures CompletedPaid(ledger, vid) == Sum(CompletedAmounts(ledger, vid))
    ensures forall x :: x in CompletedAmounts(ledger, vid) ==>
              exists i :: 0 <= i < |ledger| && IsCompletedFor(ledger[i], vid) && ledger[i].amount == x
    ensures var rows := CompletedRows(ledger, vid);
      && |rows| == |CompletedAmounts(ledger, vid)|
      && (forall j :: 0 <= j < |rows| ==>
            rows[j] < |ledger| && IsCompletedFor(ledger[rows[j]], vid)
            && CompletedAmounts(ledger, vid)[j] == ledger[rows[j]].amount)
      && (forall j, l :: 0 <= j < l < |rows| ==> rows[j] < rows[l])
      && (forall i :: 0 <= i < |ledger| && IsCompletedFor(ledger[i], vid) ==> i in rows)
  {
    if |ledger| > 0 {
      var init := ledger[..|ledger| - 1];
      var last := ledger[|ledger| - 1];
      CompletedPaidIsSumOfCounted(init, vid);
      var tail := if IsCompletedFor(last, vid) then [last.amount] else [];
      SumAppend(CompletedAmounts(init, vid), tail);
      assert Sum(tail) == (if IsCompletedFor(last, vid) then last.amount else 0);
      RowsMatchAmounts(ledger, vid);
      forall x | x in CompletedAmounts(ledger, vid)
        ensures exists i :: 0 <= i < |ledger| && IsCompletedFor(ledger[i], vid) && ledger[i].amount == x
      {
        if x in CompletedAmounts(init, vid) {
          var i :| 0 <= i < |init| && IsCompletedFor(init[i], vid) && init[i].amount == x;
          assert ledger[i] == init[i];
        } else {
          assert x in tail;
          assert ledger[|ledger| - 1] == last;
        }
      }
    }
  }

  /** One inductive step of the row correspondence, from the ledger without its last row. */
  lemma RowsMatchAmounts(ledger: seq<Payment>, vid: nat)
    requires |ledger| > 0
    requires var init := ledger[..|ledger| - 1]; var rows := CompletedRows(init, vid);
      && |rows| == |CompletedAmounts(init, vid)|
      && (forall j :: 0 <= j < |rows| ==>
            rows[j] < |init| && IsCompletedFor(init[rows[j]], vid)
            && CompletedAmounts(init, vid)[j] == init[rows[j]].amount)
      && (forall j, l :: 0 <= j < l < |rows| ==> rows[j] < rows[l])
      && (forall i :: 0 <= i < |init| && IsCompletedFor(init[i], vid) ==> i in rows)
    ensures var rows := CompletedRows(ledger, vid);
      && |rows| == |CompletedAmounts(ledger, vid)|
      && (forall j :: 0 <= j < |rows| ==>
            rows[j] < |ledger| && IsCompletedFor(ledger[rows[j]], vid)
            && CompletedAmounts(ledger, vid)[j] == ledger[rows[j]].amount)
      && (forall j, l :: 0 <= j < l < |rows| ==> rows[j] < rows[l])
      && (forall i :: 0 <= i < |ledger| && IsCompletedFor(ledger[i], vid) ==> i in rows)
  {
    var init := ledger[..|ledger| - 1];
    assert forall i :: 0 <= i < |init| ==> init[i] == ledger[i];
    var rows := CompletedRows(ledger, vid);
    var amounts := CompletedAmounts(ledger, vid);
    assert rows[..|CompletedRows(init, vid)|] == CompletedRows(init, vid);
    assert amounts[..|CompletedAmounts(init, vid)|] == CompletedAmounts(init, vid);
  }

  /** The all-status total is the completed total plus the total of the vehicle's other-status payments. */
  lemma {:induction false} AllPaidSplits(ledger: seq<Payment>, vid: nat)
    ensures AllPaid(ledger, vid) == CompletedPaid(ledger, vid) + OtherPaid(ledger, vid)
  {
    if |ledger| > 0 {
      AllPaidSplits(ledger[..|ledger| - 1], vid);
    }
  }

  /** Sum of the vehicle's payments whose status is not `completed`. */
  function OtherPaid(ledger: seq<Payment>, vid: nat): int {
    if |ledger| == 0 then 0
    else
      var last := ledger[|ledger| - 1];
      OtherPaid(ledger[..|ledger| - 1], vid)
        + (if last.vehicleId == vid && last.status != Completed then last.amount else 0)
  }

  /** With non-negative amounts, no payment total is negative and the all-status sum dominates. */
  lemma {:induction false} PaidTotalsNonNegative(ledger: seq<Payment>, vid: nat)
    requires forall i :: 0 <= i < |ledger| ==> ledger[i].amount >= 0
    ensures 0 <= CompletedPaid(ledger, vid) <= AllPaid(ledger, vid)
    ensures OtherPaid(ledger, vid) >= 0
  {
    if |ledger| > 0 {
      PaidTotalsNonNegative(ledger[..|ledger| - 1], vid);
      AllPaidSplits(ledger, vid);
    }
  }

  /**
   * `Vehicle::where('license_plate', $plate)->first()` over the rows in
   * query order: the position of the first row carrying the plate.
   */
  function FirstWithPlate(vehicles: seq<Vehicle>, plate: string): (r: Option<nat>)
    ensures r.Some? ==> r.value < |vehicles| && vehicles[r.value].licensePlate == plate
    ensures r.Some? ==> forall j :: 0 <= j < r.value ==> vehicles[j].licensePlate != plate
    ensures r.None? <==> forall i :: 0 <= i < |vehicles| ==> vehicles[i].licensePlate != plate
  {
    if |vehicles| == 0 then None
    else if vehicles[0].licensePlate == plate then Some(0)
    else match FirstWithPlate(vehicles[1..], plate)
      case None => None
      case Some(k) => Some(k + 1)
  }
}

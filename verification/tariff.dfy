/**
 * The payment controller's own fee formula (calculateVehicleTotalDue): a
 * removal fee plus a daily rate, both taken from a table keyed by vehicle
 * type, and the rule that moves a vehicle to `ready_for_release` when a
 * completed release-fee payment brings its completed payments up to the
 * total due. Which form the `type` column holds (enum case name or French
 * label) is not decided here: the key is an opaque string.
 */
module Tariff {
  import opened Common
  import opened Entities

  datatype TariffRow = TariffRow(removal: nat, daily: nat)

  /** The eight rows of `$typeMap`, keyed by enum case name. */
  const TypeMap: map<string, TariffRow> := map[
    "MOTORCYCLE" := TariffRow(5000, 2000),
    "TRICYCLE" := TariffRow(10000, 3000),
    "SMALL_VEHICLE" := TariffRow(30000, 5000),
    "MEDIUM_VEHICLE" := TariffRow(50000, 10000),
    "LARGE_VEHICLE" := TariffRow(80000, 15000),
    "SMALL_TRUCK" := TariffRow(50000, 10000),
    "MEDIUM_TRUCK" := TariffRow(120000, 15000),
    "LARGE_TRUCK" := TariffRow(150000, 20000)
  ]

  /** The row used for any other key, or for a vehicle without a type. */
  const FallbackRow: TariffRow := TariffRow(30000, 5000)

  /** `$typeMap[$typeKey] ?? [...]`. */
  function RowFor(typeKey: Option<string>): (r: TariffRow)
    ensures typeKey.Some? && typeKey.value in TypeMap ==> r == TypeMap[typeKey.value]
    ensures typeKey.None? || typeKey.value !in TypeMap ==> r == FallbackRow
  {
    match typeKey
    case Some(k) => if k in TypeMap then TypeMap[k] else FallbackRow
    case None => FallbackRow
  }

  /** calculateVehicleTotalDue: removal fee plus days times the daily rate. */
  function VehicleTotalDue(typeKey: Option<string>, days: nat): (r: nat)
    ensures r >= RowFor(typeKey).removal
    ensures r - RowFor(typeKey).removal == days * RowFor(typeKey).daily
  {
    RowFor(typeKey).removal + days * RowFor(typeKey).daily
  }

  /** The table as a list of (key, removal, daily) triples, written out independently. */
  const TariffListing: seq<(string, nat, nat)> := [
    ("MOTORCYCLE", 5000, 2000),
    ("TRICYCLE", 10000, 3000),
    ("SMALL_VEHICLE", 30000, 5000),
    ("MEDIUM_VEHICLE", 50000, 10000),
    ("LARGE_VEHICLE", 80000, 15000),
    ("SMALL_TRUCK", 50000, 10000),
    ("MEDIUM_TRUCK", 120000, 15000),
    ("LARGE_TRUCK", 150000, 20000)
  ]

  /** For each listed key, the total due is that row's removal plus days times its daily rate. */
  lemma ListedTypesUseTheirRow(days: nat)
    ensures forall i :: 0 <= i < |TariffListing| ==>
      VehicleTotalDue(Some(TariffListing[i].0), days) == TariffListing[i].1 + days * TariffListing[i].2
    ensures TypeMap.Keys == set i | 0 <= i < |TariffListing| :: TariffListing[i].0
  {
    forall i | 0 <= i < |TariffListing|
      ensures VehicleTotalDue(Some(TariffListing[i].0), days) == TariffListing[i].1 + days * TariffListing[i].2
    {
      assert TariffListing[i].0 in TypeMap;
      assert TypeMap[TariffListing[i].0] == TariffRow(TariffListing[i].1, TariffListing[i].2);
    }
    ListedKeysAreTableKeys();
  }

  /** The table's keys are exactly the listed type keys. */
  lemma ListedKeysAreTableKeys()
    ensures TypeMap.Keys == set i | 0 <= i < |TariffListing| :: TariffListing[i].0
  {
    var listed := set i | 0 <= i < |TariffListing| :: TariffListing[i].0;
    assert TariffListing[0].0 in listed && TariffListing[1].0 in listed && TariffListing[2].0 in listed;
    assert TariffListing[3].0 in listed && TariffListing[4].0 in listed && TariffListing[5].0 in listed;
    assert TariffListing[6].0 in listed && TariffListing[7].0 in listed;
  }

  /** An unlisted key, or no type at all, is charged 30000 plus 5000 per day. */
  lemma UnlistedTypeFallsBack(typeKey: Option<string>, days: nat)
    requires typeKey.None? || typeKey.value !in TypeMap
    ensures VehicleTotalDue(typeKey, days) == 30000 + days * 5000
  {
  }

  /** The labels of the VehicleType enum (its backed values). */
  const VehicleTypeLabels: seq<string> := [
    "Deux-roues motorisés",
    "Tricycles",
    "Véhicule de 4 à 12 places",
    "Véhicule de 13 à 30 places",
    "Véhicule à partir de 31 places",
    "Camion inférieur à 5 tonnes",
    "Camion de 5 à 10 tonnes",
    "Camion supérieur à 10 tonnes",
    "Autre"
  ]

  /**
   * If the `type` column holds the enum's labels rather than its case
   * names, no key of the table ever matches and every vehicle is charged
   * the fallback row.
   */
  lemma LabelsNeverMatchTheTable(days: nat)
    ensures forall i :: 0 <= i < |VehicleTypeLabels| ==>
      RowFor(Some(VehicleTypeLabels[i])) == FallbackRow
  {
    forall i | 0 <= i < |VehicleTypeLabels|
      ensures VehicleTypeLabels[i] !in TypeMap
    {
      assert VehicleTypeLabels[i][0] != 'M' && VehicleTypeLabels[i][0] != 'S' && VehicleTypeLabels[i][0] != 'L';
    }
  }

  /** The `OTHER` case has no row of its own. */
  lemma OtherCaseFallsBack()
    ensures RowFor(Some("OTHER")) == FallbackRow
  {
  }

  lemma MulMonotone(a: nat, b: nat, c: nat)
    requires a <= b
    ensures a * c <= b * c
  {
    assert b * c - a * c == (b - a) * c;
  }

  /** The total due never decreases as the days go by. */
  lemma VehicleTotalDueNonDecreasing(typeKey: Option<string>, d1: nat, d2: nat)
    requires d1 <= d2
    ensures VehicleTotalDue(typeKey, d1) <= VehicleTotalDue(typeKey, d2)
  {
    MulMonotone(d1, d2, RowFor(typeKey).daily);
  }

  /** Whether the new payment moves its vehicle to `ready_for_release`. */
  predicate ReleaseTriggered(v: Vehicle, ledger: seq<Payment>, days: nat) {
    |ledger| > 0
    && ledger[|ledger| - 1].paymentType == "release_fee"
    && ledger[|ledger| - 1].status == Completed
    && CompletedPaid(ledger, v.id) >= VehicleTotalDue(v.typeKey, days)
  }

  /**
   * The common tail of `store` and `createVehiclePayment`: the payment is
   * recorded first; then, for a completed release fee, the vehicle's
   * completed payments (the new one included) are compared with the
   * total due.
   */
  function RecordPayment(v: Vehicle, ledger: seq<Payment>, p: Payment, days: nat): (r: (Vehicle, seq<Payment>))
    requires p.vehicleId == v.id
    ensures r.1 == ledger + [p]
    ensures ReleaseTriggered(v, r.1, days) ==> r.0 == v.(status := ReadyForRelease)
    ensures !ReleaseTriggered(v, r.1, days) ==> r.0 == v
  {
    var ledger' := ledger + [p];
    if p.paymentType == "release_fee" && p.status == Completed then
      var totalDue := VehicleTotalDue(v.typeKey, days);
      var totalPaid := CompletedPaid(ledger', v.id);
      if totalPaid >= totalDue then (v.(status := ReadyForRelease), ledger') else (v, ledger')
    else (v, ledger')
  }

  /**
   * A completed release fee releases the vehicle exactly when the
   * completed payments recorded before it, plus its own amount, reach the
   * total due.
   */
  lemma ReleaseThreshold(v: Vehicle, ledger: seq<Payment>, p: Payment, days: nat)
    requires p.vehicleId == v.id && p.paymentType == "release_fee" && p.status == Completed
    ensures RecordPayment(v, ledger, p, days).0.status == ReadyForRelease
        <== CompletedPaid(ledger, v.id) + p.amount >= VehicleTotalDue(v.typeKey, days)
    ensures RecordPayment(v, ledger, p, days).0 == v
        <== CompletedPaid(ledger, v.id) + p.amount < VehicleTotalDue(v.typeKey, days)
  {
    CompletedPaidAppend(ledger, p, v.id);
  }

  /** Any payment that is not a completed release fee leaves the vehicle untouched but is still recorded. */
  lemma OtherPaymentsLeaveVehicle(v: Vehicle, ledger: seq<Payment>, p: Payment, days: nat)
    requires p.vehicleId == v.id
    requires p.paymentType != "release_fee" || p.status != Completed
    ensures RecordPayment(v, ledger, p, days) == (v, ledger + [p])
  {
  }

  /** The request fields createVehiclePayment validates; a missing field is `None`. */
  datatype PaymentRequest = PaymentRequest(
    amount: Option<int>,
    paymentType: Option<string>,
    paymentMethod: Option<string>,
    notes: Option<Json>,
    status: Option<string>
  )

  const PaymentTypes: set<string> := {"impound_fee", "storage_fee", "release_fee"}
  const PaymentMethods: set<string> := {"cash", "mobile_money", "card", "bank_transfer"}
  const PaymentStatuses: set<string> := {Pending, Completed, Failed}

  /** The `$request->validate([...])` rules of createVehiclePayment. */
  predicate ValidPaymentRequest(req: PaymentRequest) {
    && req.amount.Some? && req.amount.value >= 0
    && req.paymentType.Some? && req.paymentType.value in PaymentTypes
    && req.paymentMethod.Some? && req.paymentMethod.value in PaymentMethods
    && NullableString(req.notes)
    && req.status.Some? && req.status.value in PaymentStatuses
  }

  /** `nullable|string`: absent, null, or a string. */
  predicate NullableString(field: Option<Json>) {
    field.None? || field.value == JNull || field.value.JText?
  }

  /** A status code with the vehicle and ledger after the request. */
  datatype PaymentReply = PaymentReply(status: nat, vehicle: Vehicle, ledger: seq<Payment>)

  /**
   * createVehiclePayment: a failed validation is answered 422 and nothing
   * is written; otherwise the payment is recorded for this vehicle and the
   * resource of the freshly created payment is answered 201.
   */
  function CreateVehiclePayment(v: Vehicle, ledger: seq<Payment>, req: PaymentRequest, days: nat): (r: PaymentReply)
    ensures !ValidPaymentRequest(req) ==> r == PaymentReply(StatusUnprocessable, v, ledger)
    ensures ValidPaymentRequest(req) ==>
      && r.status == StatusCreated
      && |r.ledger| == |ledger| + 1 && r.ledger[..|ledger|] == ledger
      && r.ledger[|ledger|] == Payment(v.id, req.amount.value, req.paymentType.value,
                                       req.paymentMethod.value, req.status.value)
      && (r.vehicle == v || r.vehicle == v.(status := ReadyForRelease))
      && (r.vehicle.status == ReadyForRelease <==> ReleaseTriggered(v, r.ledger, days) || v.status == ReadyForRelease)
  {
    if !ValidPaymentRequest(req) then PaymentReply(StatusUnprocessable, v, ledger)
    else
      var p := Payment(v.id, req.amount.value, req.paymentType.value, req.paymentMethod.value, req.status.value);
      var (v', ledger') := RecordPayment(v, ledger, p, days);
      assert ledger'[..|ledger|] == ledger;
      PaymentReply(StatusCreated, v', ledger')
  }

  /** A note that is present but neither null nor a string is refused, whatever the other fields. */
  lemma NonStringNoteRefused(v: Vehicle, ledger: seq<Payment>, req: PaymentRequest, days: nat)
    requires req.notes.Some? && req.notes.value != JNull && !req.notes.value.JText?
    ensures CreateVehiclePayment(v, ledger, req, days) == PaymentReply(StatusUnprocessable, v, ledger)
  {
  }

  /** A negative amount is refused, whatever the other fields. */
  lemma NegativeAmountRefused(v: Vehicle, ledger: seq<Payment>, req: PaymentRequest, days: nat)
    requires req.amount.Some? && req.amount.value < 0
    ensures CreateVehiclePayment(v, ledger, req, days).status == StatusUnprocessable
    ensures CreateVehiclePayment(v, ledger, req, days).ledger == ledger
  {
  }
}

/**
 * The flat storage-fee quotes: 2000 per day plus a 10000 administrative
 * fee, with no penalty. Two controllers add the amount already paid and
 * the remaining balance; they differ only in which payments count. The
 * public quote has no balance at all.
 */
module Quotes {
  import opened Common
  import opened Entities
  import FeeEngine

  const FlatDailyRate: int := 2000
  const FlatAdminFee: int := 10000

  /** The `data` object of the storage-fee endpoints. */
  datatype StorageQuote = StorageQuote(
    daysImpounded: nat,
    dailyRate: int,
    storageFee: int,
    adminFee: int,
    totalDue: int,
    amountPaid: int,
    balance: int
  )

  /** `max(0, totalDue - amountPaid)`. */
  function Balance(totalDue: int, amountPaid: int): (b: int)
    ensures b >= 0
    ensures b == 0 <==> amountPaid >= totalDue
    ensures amountPaid >= 0 && totalDue >= 0 ==> b <= totalDue
    ensures b > 0 ==> amountPaid + b == totalDue
  {
    if totalDue - amountPaid > 0 then totalDue - amountPaid else 0
  }

  /** The flat total: storage at 2000 per day plus the 10000 fee. */
  function FlatTotal(days: nat): int {
    days * FlatDailyRate + FlatAdminFee
  }

  /** The quote shared by both storage-fee endpoints, given the amount already paid. */
  function Quote(days: nat, amountPaid: int): (q: StorageQuote)
    ensures q.daysImpounded == days && q.dailyRate == FlatDailyRate && q.adminFee == FlatAdminFee
    ensures q.storageFee == days * q.dailyRate
    ensures q.totalDue == q.storageFee + q.adminFee == FlatTotal(days)
    ensures q.amountPaid == amountPaid
    ensures q.balance >= 0 && (q.balance == 0 <==> q.amountPaid >= q.totalDue)
  {
    var storage := days * FlatDailyRate;
    var total := storage + FlatAdminFee;
    StorageQuote(days, FlatDailyRate, storage, FlatAdminFee, total, amountPaid, Balance(total, amountPaid))
  }

  /** VehiclePaymentsController::calculateStorageFee: only completed payments count as paid. */
  function CompletedOnlyQuote(ledger: seq<Payment>, vid: nat, days: nat): (q: StorageQuote)
    ensures q.storageFee == days * FlatDailyRate && q.totalDue == q.storageFee + FlatAdminFee
    ensures q.amountPaid == CompletedPaid(ledger, vid)
    ensures q.balance >= 0 && (q.balance == 0 <==> CompletedPaid(ledger, vid) >= q.totalDue)
  {
    Quote(days, CompletedPaid(ledger, vid))
  }

  /** VehicleController::calculateStorageFee: every payment of the vehicle counts, whatever its status. */
  function AllPaymentsQuote(ledger: seq<Payment>, vid: nat, days: nat): (q: StorageQuote)
    ensures q.storageFee == days * FlatDailyRate && q.totalDue == q.storageFee + FlatAdminFee
    ensures q.amountPaid == AllPaid(ledger, vid)
    ensures q.balance >= 0 && (q.balance == 0 <==> AllPaid(ledger, vid) >= q.totalDue)
  {
    Quote(days, AllPaid(ledger, vid))
  }

  /**
   * The two quotes differ only in the amount paid: the all-payments variant
   * also credits pending and failed payments, so with non-negative amounts
   * its balance is never larger, and the two agree when the vehicle has no
   * payment outside `completed`.
   */
  lemma QuoteVariantsCompared(ledger: seq<Payment>, vid: nat, days: nat)
    requires forall i :: 0 <= i < |ledger| ==> ledger[i].amount >= 0
    ensures AllPaymentsQuote(ledger, vid, days).totalDue == CompletedOnlyQuote(ledger, vid, days).totalDue
    ensures AllPaymentsQuote(ledger, vid, days).amountPaid
         == CompletedOnlyQuote(ledger, vid, days).amountPaid + OtherPaid(ledger, vid)
    ensures AllPaymentsQuote(ledger, vid, days).balance <= CompletedOnlyQuote(ledger, vid, days).balance
  {
    AllPaidSplits(ledger, vid);
    PaidTotalsNonNegative(ledger, vid);
  }

  /** A pending payment lowers the all-payments balance but not the completed-only one. */
  lemma PendingPaymentDivergence()
    ensures var ledger := [Payment(1, 5000, "storage_fee", "cash", Pending)];
      && CompletedOnlyQuote(ledger, 1, 0).balance == 10000
      && AllPaymentsQuote(ledger, 1, 0).balance == 5000
  {
    var ledger := [Payment(1, 5000, "storage_fee", "cash", Pending)];
    assert ledger[..0] == [];
    assert CompletedPaid(ledger, 1) == CompletedPaid([], 1) + 0 == 0;
    assert AllPaid(ledger, 1) == AllPaid([], 1) + 5000 == 5000;
  }

  /** The public quote: the same flat arithmetic, no payments and no balance. */
  datatype PublicQuote = PublicQuote(daysImpounded: nat, dailyRate: int, storageFees: int, adminFee: int, totalDue: int)

  /** PublicVehicleController::calculateFees, answered 404 when no vehicle has that plate. */
  datatype PublicFeesReply = PublicFeesFound(vehicle: Vehicle, fees: PublicQuote) | PublicFeesNotFound

  function PublicFees(vehicles: seq<Vehicle>, plate: string, days: nat): (r: PublicFeesReply)
    ensures r.PublicFeesNotFound? <==> forall i :: 0 <= i < |vehicles| ==> vehicles[i].licensePlate != plate
    ensures r.PublicFeesFound? ==>
      && r.vehicle.licensePlate == plate
      && r.fees.daysImpounded == days
      && r.fees.storageFees == days * r.fees.dailyRate && r.fees.dailyRate == FlatDailyRate
      && r.fees.totalDue == r.fees.storageFees + r.fees.adminFee && r.fees.adminFee == FlatAdminFee
  {
    match FirstWithPlate(vehicles, plate)
    case None => PublicFeesNotFound
    case Some(i) =>
      var v := vehicles[i];
      var storage := days * FlatDailyRate;
      PublicFeesFound(v, PublicQuote(days, FlatDailyRate, storage, FlatAdminFee, storage + FlatAdminFee))
  }

  /** The public quote and both storage-fee quotes agree on the total; payments never change it. */
  lemma PublicAgreesWithStorageQuotes(vehicles: seq<Vehicle>, plate: string, ledger: seq<Payment>, days: nat)
    requires PublicFees(vehicles, plate, days).PublicFeesFound?
    ensures PublicFees(vehicles, plate, days).fees.totalDue == CompletedOnlyQuote(ledger, PublicFees(vehicles, plate, days).vehicle.id, days).totalDue
    ensures PublicFees(vehicles, plate, days).fees.totalDue == AllPaymentsQuote(ledger, PublicFees(vehicles, plate, days).vehicle.id, days).totalDue
  {
  }

  /**
   * With every setting absent and at most 30 days, the settings-driven
   * engine charges exactly the flat total.
   */
  lemma EngineMatchesFlatUpToThreshold(table: FeeEngine.SettingTable, days: nat, decode: FeeEngine.JsonDecoder)
    requires FeeEngine.DailyStorageFeeKey !in table && FeeEngine.AdministrativeFeeKey !in table
    requires FeeEngine.PenaltyThresholdDaysKey !in table && FeeEngine.PenaltyRateKey !in table
    requires days <= 30
    ensures FeeEngine.CalculateFees(table, days, decode).Fees?
    ensures FeeEngine.CalculateFees(table, days, decode).breakdown.totalDue == FlatTotal(days)
  {
    FeeEngine.DefaultsWhenUnset(table, days, decode);
  }

  /**
   * Past 30 days, the engine with default settings charges 1000 more per
   * extra day than the flat quotes: the two formulas drift apart.
   */
  lemma EngineExceedsFlatPastThreshold(table: FeeEngine.SettingTable, days: nat, decode: FeeEngine.JsonDecoder)
    requires FeeEngine.DailyStorageFeeKey !in table && FeeEngine.AdministrativeFeeKey !in table
    requires FeeEngine.PenaltyThresholdDaysKey !in table && FeeEngine.PenaltyRateKey !in table
    requires days > 30
    ensures FeeEngine.CalculateFees(table, days, decode).Fees?
    ensures FeeEngine.CalculateFees(table, days, decode).breakdown.totalDue == FlatTotal(days) + (days - 30) * 1000
    ensures FeeEngine.CalculateFees(table, days, decode).breakdown.totalDue > FlatTotal(days)
  {
    FeeEngine.DefaultsWhenUnset(table, days, decode);
  }
}

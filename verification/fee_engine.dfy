/**
 * The settings-driven fee engine (FeeCalculationService): storage fees per
 * day, a flat administrative fee and a per-day penalty once the impound
 * exceeds a threshold. The elapsed days are an input; the clock is not
 * modelled.
 */
module FeeEngine {
  import opened Common

  /**
   * The `settings` table as the engine reads it: each key mapped to
   * `$setting->value`, that is the `value` column after the model's `json`
   * cast has decoded it once (JNull for a null column).
   */
  type SettingTable = map<string, Json>

  /**
   * PHP's `json_decode($text, true)`, which getSetting applies a second
   * time; text that is not valid JSON decodes to JNull. A JSON parser is
   * not part of this model, so the decoder is a parameter.
   */
  type JsonDecoder = string -> Json

  const DailyStorageFeeKey: string := "daily_storage_fee"
  const AdministrativeFeeKey: string := "administrative_fee"
  const PenaltyThresholdDaysKey: string := "penalty_threshold_days"
  const PenaltyRateKey: string := "penalty_rate"

  const DefaultDailyRate: int := 2000
  const DefaultAdminFee: int := 10000
  const DefaultThresholdDays: int := 30
  const DefaultPenaltyRate: int := 1000

  /**
   * Whether the cast value is a PHP array (a JSON object or list, as a
   * column holding `{"amount": 2000}` casts to): `json_decode` then
   * refuses its argument with a TypeError.
   */
  predicate CastIsArray(table: SettingTable, key: string) {
    key in table && (table[key].JObject? || table[key].JList?)
  }

  /**
   * The second `json_decode` of a cast value that is not an array. Text is
   * parsed; a number or boolean is first turned into its decimal text
   * (`true` into "1", `false` into ""), and null into "", which decodes
   * to null.
   */
  function Redecoded(j: Json, decode: JsonDecoder): Json {
    match j
    case JText(text) => decode(text)
    case JInt(n) => JInt(n)
    case JBool(b) => if b then JInt(1) else JNull
    case _ => JNull
  }

  /** Whether the twice-decoded setting carries a non-null `amount` field. */
  predicate HasAmount(table: SettingTable, key: string, decode: JsonDecoder) {
    key in table && !CastIsArray(table, key)
    && var v := Redecoded(table[key], decode);
       v.JObject? && "amount" in v.fields && v.fields["amount"] != JNull
  }

  /** The `amount` field of a setting that has one. */
  function AmountField(table: SettingTable, key: string, decode: JsonDecoder): Json
    requires HasAmount(table, key, decode)
  {
    Redecoded(table[key], decode).fields["amount"]
  }

  /** What getSetting yields: a value, or the TypeError of `json_decode` given an array. */
  datatype Lookup = Found(value: Json) | ArrayGiven

  /**
   * getSetting: `json_decode` of the cast value, then its `amount`, or
   * `default` when the key is missing, the decoded value is not an object,
   * or its `amount` is absent or null. An array-valued cast value makes
   * `json_decode` throw.
   */
  function GetSetting(table: SettingTable, key: string, default: Json, decode: JsonDecoder): (r: Lookup)
    ensures r.ArrayGiven? <==> CastIsArray(table, key)
    ensures HasAmount(table, key, decode) ==> r == Found(AmountField(table, key, decode))
    ensures !CastIsArray(table, key) && !HasAmount(table, key, decode) ==> r == Found(default)
    ensures key !in table ==> r == Found(default)
    ensures r.Found? && default != JNull ==> r.value != JNull
  {
    if key !in table then Found(default)
    else if table[key].JObject? || table[key].JList? then ArrayGiven
    else
      match Redecoded(table[key], decode)
      case JObject(fields) =>
        if "amount" in fields && fields["amount"] != JNull then Found(fields["amount"]) else Found(default)
      case _ => Found(default)
  }

  /** The four rates the engine reads, once resolved to integers. */
  datatype FeeSettings = FeeSettings(dailyRate: int, adminFee: int, thresholdDays: int, penaltyRate: int)

  const DefaultSettings: FeeSettings :=
    FeeSettings(DefaultDailyRate, DefaultAdminFee, DefaultThresholdDays, DefaultPenaltyRate)

  /** The array calculateFees returns. */
  datatype FeeBreakdown = FeeBreakdown(
    daysImpounded: nat,
    dailyRate: int,
    storageFees: int,
    adminFee: int,
    penaltyFees: int,
    totalDue: int
  )

  /**
   * The fee arithmetic of calculateFees once the settings are known. The
   * penalty is computed with the source's strict `days > threshold` test;
   * the contract states it through the clamped formula
   * `max(0, days - threshold) * rate`.
   */
  function Breakdown(days: nat, s: FeeSettings): (r: FeeBreakdown)
    ensures r.daysImpounded == days && r.dailyRate == s.dailyRate && r.adminFee == s.adminFee
    ensures r.storageFees == r.daysImpounded * r.dailyRate
    ensures r.penaltyFees == Max0(days - s.thresholdDays) * s.penaltyRate
    ensures r.totalDue == r.storageFees + r.adminFee + r.penaltyFees
  {
    var storage := days * s.dailyRate;
    var penalty := if days > s.thresholdDays then (days - s.thresholdDays) * s.penaltyRate else 0;
    FeeBreakdown(days, s.dailyRate, storage, s.adminFee, penalty, storage + s.adminFee + penalty)
  }

  /**
   * Why the engine cannot produce a breakdown: a setting's cast value is an
   * array (the TypeError), or its amount is not an integer.
   */
  datatype FeeError = ArrayPassedToDecode(key: string) | NonIntegerSetting(key: string)

  datatype FeeResult = Fees(breakdown: FeeBreakdown) | FeeFailure(error: FeeError)

  /** One setting resolved to an integer amount, or the reason it cannot be. */
  datatype AmountRead = Amount(n: int) | Unreadable(error: FeeError)

  function AmountOr(a: AmountRead, default: int): int {
    if a.Amount? then a.n else default
  }

  /** Resolves one setting to an integer amount with the given default. */
  function ReadAmount(table: SettingTable, key: string, default: int, decode: JsonDecoder): (r: AmountRead)
    ensures CastIsArray(table, key) ==> r == Unreadable(ArrayPassedToDecode(key))
    ensures !CastIsArray(table, key) && !HasAmount(table, key, decode) ==> r == Amount(default)
    ensures HasAmount(table, key, decode) ==>
      r == (if AmountField(table, key, decode).JInt? then Amount(AmountField(table, key, decode).n)
            else Unreadable(NonIntegerSetting(key)))
  {
    match GetSetting(table, key, JInt(default), decode)
    case ArrayGiven => Unreadable(ArrayPassedToDecode(key))
    case Found(v) => if v.JInt? then Amount(v.n) else Unreadable(NonIntegerSetting(key))
  }

  /** The four keys, in the order calculateFees reads them. */
  const FeeKeys: seq<string> := [DailyStorageFeeKey, AdministrativeFeeKey, PenaltyThresholdDaysKey, PenaltyRateKey]

  /**
   * calculateFees for a vehicle impounded `days` whole days ago. Every
   * setting falls back to its default; the first setting, in read order,
   * that cannot be resolved to an integer makes the call fail.
   */
  function CalculateFees(table: SettingTable, days: nat, decode: JsonDecoder): (r: FeeResult)
    ensures r.Fees? <==>
      && ReadAmount(table, DailyStorageFeeKey, DefaultDailyRate, decode).Amount?
      && ReadAmount(table, AdministrativeFeeKey, DefaultAdminFee, decode).Amount?
      && ReadAmount(table, PenaltyThresholdDaysKey, DefaultThresholdDays, decode).Amount?
      && ReadAmount(table, PenaltyRateKey, DefaultPenaltyRate, decode).Amount?
    ensures (exists i :: 0 <= i < |FeeKeys| && CastIsArray(table, FeeKeys[i])) ==> r.FeeFailure?
    ensures r.FeeFailure? ==>
      && r.error.key in FeeKeys
      && (r.error.ArrayPassedToDecode? ==> CastIsArray(table, r.error.key))
      && (r.error.NonIntegerSetting? ==>
            HasAmount(table, r.error.key, decode) && !AmountField(table, r.error.key, decode).JInt?)
    ensures r.Fees? ==> r.breakdown == Breakdown(days, ResolvedSettings(table, decode))
  {
    var daily := ReadAmount(table, DailyStorageFeeKey, DefaultDailyRate, decode);
    var admin := ReadAmount(table, AdministrativeFeeKey, DefaultAdminFee, decode);
    var threshold := ReadAmount(table, PenaltyThresholdDaysKey, DefaultThresholdDays, decode);
    var rate := ReadAmount(table, PenaltyRateKey, DefaultPenaltyRate, decode);
    if daily.Unreadable? then FeeFailure(daily.error)
    else if admin.Unreadable? then FeeFailure(admin.error)
    else if threshold.Unreadable? then FeeFailure(threshold.error)
    else if rate.Unreadable? then FeeFailure(rate.error)
    else Fees(Breakdown(days, FeeSettings(daily.n, admin.n, threshold.n, rate.n)))
  }

  /** The settings the engine resolves, each read falling back to its default. */
  function ResolvedSettings(table: SettingTable, decode: JsonDecoder): FeeSettings {
    FeeSettings(
      AmountOr(ReadAmount(table, DailyStorageFeeKey, DefaultDailyRate, decode), DefaultDailyRate),
      AmountOr(ReadAmount(table, AdministrativeFeeKey, DefaultAdminFee, decode), DefaultAdminFee),
      AmountOr(ReadAmount(table, PenaltyThresholdDaysKey, DefaultThresholdDays, decode), DefaultThresholdDays),
      AmountOr(ReadAmount(table, PenaltyRateKey, DefaultPenaltyRate, decode), DefaultPenaltyRate))
  }

  /** With none of the four keys present, the defaults 2000/10000/30/1000 apply. */
  lemma DefaultsWhenUnset(table: SettingTable, days: nat, decode: JsonDecoder)
    requires DailyStorageFeeKey !in table && AdministrativeFeeKey !in table
    requires PenaltyThresholdDaysKey !in table && PenaltyRateKey !in table
    ensures CalculateFees(table, days, decode) == Fees(Breakdown(days, DefaultSettings))
  {
  }

  /** The penalty is zero up to and including the threshold day: the comparison is strict. */
  lemma NoPenaltyUpToThreshold(days: nat, s: FeeSettings)
    requires days <= s.thresholdDays
    ensures Breakdown(days, s).penaltyFees == 0
    ensures Breakdown(days, s).totalDue == days * s.dailyRate + s.adminFee
  {
  }

  /** Past the threshold, each extra day costs the penalty rate. */
  lemma PenaltyPastThreshold(days: nat, s: FeeSettings)
    requires days > s.thresholdDays
    ensures Breakdown(days, s).penaltyFees == (days - s.thresholdDays) * s.penaltyRate
  {
  }

  lemma MulMonotone(a: int, b: int, c: int)
    requires a <= b && c >= 0
    ensures a * c <= b * c
  {
    assert b * c - a * c == (b - a) * c;
  }

  /** With non-negative rates, the total due never decreases as the days go by. */
  lemma TotalNonDecreasing(d1: nat, d2: nat, s: FeeSettings)
    requires d1 <= d2
    requires s.dailyRate >= 0 && s.penaltyRate >= 0
    ensures Breakdown(d1, s).totalDue <= Breakdown(d2, s).totalDue
  {
    MulMonotone(d1, d2, s.dailyRate);
    MulMonotone(Max0(d1 - s.thresholdDays), Max0(d2 - s.thresholdDays), s.penaltyRate);
  }

  /** With non-negative rates and fee, every component and the total are non-negative. */
  lemma BreakdownNonNegative(days: nat, s: FeeSettings)
    requires s.dailyRate >= 0 && s.adminFee >= 0 && s.penaltyRate >= 0
    ensures var r := Breakdown(days, s);
      r.storageFees >= 0 && r.penaltyFees >= 0 && r.totalDue >= r.adminFee >= 0
  {
    MulMonotone(0, days, s.dailyRate);
    MulMonotone(0, Max0(days - s.thresholdDays), s.penaltyRate);
  }

  /** `json_encode(['amount' => n])`, the text the tests store in the `value` column. */
  function AmountText(n: string): string {
    "{\"amount\":" + n + "}"
  }

  /** Ten days at 2000 per day and a 10000 fee, no penalty settings: 20000 / 0 / 30000. */
  lemma TenDayScenario(decode: JsonDecoder)
    requires decode(AmountText("2000")) == JObject(map["amount" := JInt(2000)])
    requires decode(AmountText("10000")) == JObject(map["amount" := JInt(10000)])
    ensures var t := map[DailyStorageFeeKey := JText(AmountText("2000")),
                         AdministrativeFeeKey := JText(AmountText("10000"))];
      CalculateFees(t, 10, decode) == Fees(FeeBreakdown(10, 2000, 20000, 10000, 0, 30000))
  {
  }

  /** Thirty-five days with threshold 30 and penalty rate 1000: 70000 / 5000 / 85000. */
  lemma ThirtyFiveDayScenario(decode: JsonDecoder)
    requires decode(AmountText("2000")) == JObject(map["amount" := JInt(2000)])
    requires decode(AmountText("10000")) == JObject(map["amount" := JInt(10000)])
    requires decode(AmountText("30")) == JObject(map["amount" := JInt(30)])
    requires decode(AmountText("1000")) == JObject(map["amount" := JInt(1000)])
    ensures var t := map[DailyStorageFeeKey := JText(AmountText("2000")),
                         AdministrativeFeeKey := JText(AmountText("10000")),
                         PenaltyThresholdDaysKey := JText(AmountText("30")),
                         PenaltyRateKey := JText(AmountText("1000"))];
      CalculateFees(t, 35, decode) == Fees(FeeBreakdown(35, 2000, 70000, 10000, 5000, 85000))
  {
  }

  /**
   * A column holding the object itself, `{"amount": 2000}`, casts to a PHP
   * array, and the second `json_decode` refuses it: the fees cannot be
   * computed at all, whatever the decoder.
   */
  lemma ObjectValuedSettingFails(days: nat, decode: JsonDecoder)
    ensures var t := map[DailyStorageFeeKey := JObject(map["amount" := JInt(2000)])];
      CalculateFees(t, days, decode) == FeeFailure(ArrayPassedToDecode(DailyStorageFeeKey))
  {
  }
}

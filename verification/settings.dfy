/**
 * The system-settings endpoints: a cached map of six display and fee
 * values, read with defaults and updated by merging the non-null request
 * values over it. This store is separate from the `settings` table the
 * fee engine reads.
 */
module SystemSettings {
  import opened Common
  import opened Roles
  import FeeEngine

  /** String-keyed settings, as the six defaults are written. */
  type SettingsMap = map<string, Json>

  const DailyStorageFee: string := "daily_storage_fee"
  const AdminFee: string := "admin_fee"
  const NotificationEmail: string := "notification_email"
  const SystemName: string := "system_name"
  const ContactPhone: string := "contact_phone"
  const Address: string := "address"

  /** The defaults `index` stores when the cache is empty. */
  const IndexDefaults: SettingsMap := map[
    DailyStorageFee := JInt(2000),
    AdminFee := JInt(10000),
    NotificationEmail := JText("contact@cotonou-garage.bj"),
    SystemName := JText("Système de Gestion de la Fourrière Municipale de Cotonou"),
    ContactPhone := JText("+229 21 30 30 30"),
    Address := JText("Hôtel de ville de Cotonou, Bénin")
  ]

  /** The defaults `update` merges into when the cache is empty (written separately in the controller). */
  const UpdateDefaults: SettingsMap := map[
    DailyStorageFee := JInt(2000),
    AdminFee := JInt(10000),
    NotificationEmail := JText("contact@cotonou-garage.bj"),
    SystemName := JText("Système de Gestion de la Fourrière Municipale de Cotonou"),
    ContactPhone := JText("+229 21 30 30 30"),
    Address := JText("Hôtel de ville de Cotonou, Bénin")
  ]

  /** The largest integer a PHP array key can hold (64-bit `PHP_INT_MAX`). */
  const PhpIntMax: int := 0x7FFF_FFFF_FFFF_FFFF

  predicate IsDigit(c: char) {
    '0' <= c <= '9'
  }

  /** A non-empty run of decimal digits without a leading zero (other than "0" itself). */
  predicate CanonicalDigits(d: string) {
    |d| > 0 && (forall i :: 0 <= i < |d| ==> IsDigit(d[i])) && (d[0] == '0' ==> |d| == 1)
  }

  function DigitValue(c: char): nat
    requires IsDigit(c)
  {
    c as int - '0' as int
  }

  /** The value of a run of decimal digits. */
  function DigitsValue(d: string): nat
    requires forall i :: 0 <= i < |d| ==> IsDigit(d[i])
  {
    if |d| == 0 then 0 else DigitsValue(d[..|d| - 1]) * 10 + DigitValue(d[|d| - 1])
  }

  /**
   * Whether PHP stores this array key as an integer: the canonical decimal
   * form of an integer in the 64-bit range, with no plus sign, no leading
   * zero and no "-0".
   */
  predicate IsIntegerKey(k: string) {
    if |k| > 0 && k[0] == '-' then
      CanonicalDigits(k[1..]) && k[1..] != "0" && DigitsValue(k[1..]) <= PhpIntMax + 1
    else CanonicalDigits(k) && DigitsValue(k) <= PhpIntMax
  }

  /** The integer an integer key string stands for. */
  function IntegerKeyValue(k: string): int
    requires IsIntegerKey(k)
  {
    if k[0] == '-' then -(DigitsValue(k[1..]) as int) else DigitsValue(k)
  }

  /**
   * A PHP array of settings: its string-keyed entries, and its
   * integer-keyed entries in array order. The order of the string keys is
   * not modelled.
   */
  datatype PhpArray = PhpArray(named: SettingsMap, numbered: seq<(int, Json)>)

  /** The values of integer-keyed entries, in array order. */
  function Values(ps: seq<(int, Json)>): (r: seq<Json>)
    ensures |r| == |ps|
    ensures forall i :: 0 <= i < |ps| ==> r[i] == ps[i].1
  {
    seq(|ps|, i requires 0 <= i < |ps| => ps[i].1)
  }

  /** Writing integer key `n`: an existing entry keeps its place, a new one is appended. */
  function PutNumbered(ps: seq<(int, Json)>, n: int, v: Json): (r: seq<(int, Json)>)
    ensures (exists i :: 0 <= i < |ps| && ps[i].0 == n) ==> |r| == |ps|
    ensures (forall i :: 0 <= i < |ps| ==> ps[i].0 != n) ==> r == ps + [(n, v)]
    ensures forall i :: 0 <= i < |ps| && ps[i].0 != n ==> r[i] == ps[i]
    ensures (n, v) in r
    ensures forall x :: x in r ==> x == (n, v) || x in ps
  {
    if |ps| == 0 then [(n, v)]
    else if ps[0].0 == n then [(n, v)] + ps[1..]
    else [ps[0]] + PutNumbered(ps[1..], n, v)
  }

  /** `$array[$k] = $v` with PHP's key conversion. */
  function SetEntry(a: PhpArray, k: string, v: Json): (r: PhpArray)
    ensures !IsIntegerKey(k) ==> r == a.(named := a.named[k := v])
    ensures IsIntegerKey(k) ==> r.named == a.named
  {
    if IsIntegerKey(k) then a.(numbered := PutNumbered(a.numbered, IntegerKeyValue(k), v))
    else a.(named := a.named[k := v])
  }

  /**
   * `$request->all()` for a JSON body: `json_decode($body, true)` of its
   * members in order, a repeated member overwriting the earlier one.
   */
  function RequestArray(body: seq<(string, Json)>): PhpArray {
    if |body| == 0 then PhpArray(map[], [])
    else SetEntry(RequestArray(body[..|body| - 1]), body[|body| - 1].0, body[|body| - 1].1)
  }

  /** The cache: absent, or the stored settings. */
  type Cache = Option<PhpArray>

  datatype IndexReply = IndexReply(data: PhpArray, cache: Cache)

  /** index: `Cache::remember`, which stores the defaults when nothing is cached. */
  function Index(cache: Cache): (r: IndexReply)
    ensures cache.Some? ==> r.data == cache.value && r.cache == cache
    ensures cache.None? ==> r.data == PhpArray(IndexDefaults, []) && r.cache == Some(r.data)
    ensures r.cache == Some(r.data)
  {
    match cache
    case Some(m) => IndexReply(m, cache)
    case None => IndexReply(PhpArray(IndexDefaults, []), Some(PhpArray(IndexDefaults, [])))
  }

  /** `nullable|numeric|min:0`, with numbers modelled as integers. */
  predicate NullableAmount(req: SettingsMap, key: string) {
    key !in req || req[key] == JNull || (req[key].JInt? && req[key].n >= 0)
  }

  /** `nullable|string|max:<limit>`. */
  predicate NullableText(req: SettingsMap, key: string, limit: nat) {
    key !in req || req[key] == JNull || (req[key].JText? && |req[key].s| <= limit)
  }

  /** `nullable|email`; the address syntax check is the `emailOk` parameter. */
  predicate NullableEmail(req: SettingsMap, key: string, emailOk: string -> bool) {
    key !in req || req[key] == JNull || (req[key].JText? && emailOk(req[key].s))
  }

  /** The validator of `update`; keys it does not list pass unchecked. */
  predicate ValidSettingsRequest(req: SettingsMap, emailOk: string -> bool) {
    && NullableAmount(req, DailyStorageFee)
    && NullableAmount(req, AdminFee)
    && NullableEmail(req, NotificationEmail, emailOk)
    && NullableText(req, SystemName, 255)
    && NullableText(req, ContactPhone, 50)
    && NullableText(req, Address, 255)
  }

  /** The integer-keyed entries whose value is not null, in array order. */
  function NonNullNumbered(ps: seq<(int, Json)>): (r: seq<(int, Json)>)
    ensures |r| <= |ps|
    ensures forall x :: x in r ==> x in ps && x.1 != JNull
    ensures forall i :: 0 <= i < |ps| && ps[i].1 != JNull ==> ps[i] in r
  {
    if |ps| == 0 then []
    else (if ps[0].1 != JNull then [ps[0]] else []) + NonNullNumbered(ps[1..])
  }

  /** `array_filter($request->all(), fn ($v) => $v !== null)`: keys are kept. */
  function NonNull(req: PhpArray): (r: PhpArray)
    ensures forall k :: k in r.named <==> k in req.named && req.named[k] != JNull
    ensures forall k :: k in r.named ==> r.named[k] == req.named[k]
    ensures r.numbered == NonNullNumbered(req.numbered)
  {
    PhpArray(map k | k in req.named && req.named[k] != JNull :: req.named[k], NonNullNumbered(req.numbered))
  }

  /** Integer keys 0, 1, 2, ... over the given values. */
  function Renumber(vs: seq<Json>): (r: seq<(int, Json)>)
    ensures |r| == |vs|
    ensures forall i :: 0 <= i < |vs| ==> r[i] == (i, vs[i])
  {
    seq(|vs|, i requires 0 <= i < |vs| => (i, vs[i]))
  }

  /**
   * `array_merge($base, $extra)`: for string keys the right-hand value
   * wins; integer-keyed entries are never overwritten but appended, the
   * base's first, and all of them renumbered from 0.
   */
  function Merge(base: PhpArray, extra: PhpArray): (r: PhpArray)
    ensures r.named.Keys == base.named.Keys + extra.named.Keys
    ensures forall k :: k in extra.named ==> r.named[k] == extra.named[k]
    ensures forall k :: k in base.named && k !in extra.named ==> r.named[k] == base.named[k]
    ensures |r.numbered| == |base.numbered| + |extra.numbered|
    ensures forall i :: 0 <= i < |r.numbered| ==> r.numbered[i].0 == i
    ensures Values(r.numbered) == Values(base.numbered) + Values(extra.numbered)
  {
    MapUnionEntries(base.named, extra.named);
    PhpArray(base.named + extra.named, Renumber(Values(base.numbered) + Values(extra.numbered)))
  }

  /** Position by position: the base's integer-keyed values first, then the extra's. */
  lemma MergeKeepsPositions(base: PhpArray, extra: PhpArray)
    ensures forall i :: 0 <= i < |base.numbered| ==> Merge(base, extra).numbered[i].1 == base.numbered[i].1
    ensures forall i :: 0 <= i < |extra.numbered| ==>
      Merge(base, extra).numbered[|base.numbered| + i].1 == extra.numbered[i].1
  {
    var r := Merge(base, extra);
    ValuesAppend(base.numbered, extra.numbered);
    forall i | 0 <= i < |base.numbered|
      ensures r.numbered[i].1 == base.numbered[i].1
    {
      assert Values(r.numbered)[i] == r.numbered[i].1;
    }
    forall i | 0 <= i < |extra.numbered|
      ensures r.numbered[|base.numbered| + i].1 == extra.numbered[i].1
    {
      assert Values(r.numbered)[|base.numbered| + i] == r.numbered[|base.numbered| + i].1;
    }
  }

  /** Map union: every key of either side, the right-hand value winning. */
  lemma MapUnionEntries(a: SettingsMap, b: SettingsMap)
    ensures (a + b).Keys == a.Keys + b.Keys
    ensures forall k :: k in b ==> (a + b)[k] == b[k]
    ensures forall k :: k in a && k !in b ==> (a + b)[k] == a[k]
  {
  }

  /** The values of two integer-keyed runs, one after the other. */
  lemma ValuesAppend(front: seq<(int, Json)>, back: seq<(int, Json)>)
    ensures |Values(front) + Values(back)| == |front| + |back|
    ensures forall i :: 0 <= i < |front| ==> (Values(front) + Values(back))[i] == front[i].1
    ensures forall i :: 0 <= i < |back| ==> (Values(front) + Values(back))[|front| + i] == back[i].1
  {
    var vs := Values(front) + Values(back);
    forall i | 0 <= i < |back|
      ensures vs[|front| + i] == back[i].1
    {
      assert vs[|front| + i] == Values(back)[i];
    }
  }

  datatype UpdateReply = UpdateReply(status: nat, data: PhpArray, cache: Cache)

  /** The settings update merges into: the cached ones, or the defaults. */
  function UpdateBase(cache: Cache): PhpArray {
    cache.GetOr(PhpArray(UpdateDefaults, []))
  }

  /**
   * update: validation first (400), then the caller's `role` attribute is
   * compared with the string `'admin'` (403), then the non-null request
   * values are merged over the cached settings (or the defaults) and
   * cached.
   */
  function Update(caller: Actor, cache: Cache, req: PhpArray, emailOk: string -> bool): (r: UpdateReply)
    ensures !ValidSettingsRequest(req.named, emailOk) ==> r.status == StatusBadRequest && r.cache == cache
    ensures ValidSettingsRequest(req.named, emailOk) && !RoleIsText(caller.role, "admin") ==>
      r.status == StatusForbidden && r.cache == cache
    ensures r.status == StatusOk <==>
      ValidSettingsRequest(req.named, emailOk) && RoleIsText(caller.role, "admin")
    ensures r.status == StatusOk ==>
      var sent := req.named;
      var base := UpdateBase(cache);
      && r.cache == Some(r.data)
      && (forall k :: k in sent && sent[k] != JNull ==> k in r.data.named && r.data.named[k] == sent[k])
      && (forall k :: k in base.named && (k !in sent || sent[k] == JNull) ==>
            k in r.data.named && r.data.named[k] == base.named[k])
      && (forall k :: k in r.data.named ==> k in base.named || (k in sent && sent[k] != JNull))
    ensures r.status == StatusOk ==> forall i :: 0 <= i < |r.data.numbered| ==> r.data.numbered[i].0 == i
    ensures r.status == StatusOk ==>
      Values(r.data.numbered)
        == Values(UpdateBase(cache).numbered) + Values(NonNullNumbered(req.numbered))
  {
    if !ValidSettingsRequest(req.named, emailOk) then UpdateReply(StatusBadRequest, PhpArray(map[], []), cache)
    else if !RoleIsText(caller.role, "admin") then UpdateReply(StatusForbidden, PhpArray(map[], []), cache)
    else
      var settings := Merge(UpdateBase(cache), NonNull(req));
      UpdateReply(StatusOk, settings, Some(settings))
  }

  /**
   * Sending the same update again keeps every string-keyed setting, but
   * appends the request's non-null integer-keyed values once more.
   */
  lemma UpdateTwice(caller: Actor, cache: Cache, req: PhpArray, emailOk: string -> bool)
    requires ValidSettingsRequest(req.named, emailOk) && RoleIsText(caller.role, "admin")
    ensures var once := Update(caller, cache, req, emailOk);
      var twice := Update(caller, once.cache, req, emailOk);
      && twice.status == StatusOk
      && twice.data.named == once.data.named
      && Values(twice.data.numbered)
           == Values(once.data.numbered) + Values(NonNullNumbered(req.numbered))
  {
    var once := Update(caller, cache, req, emailOk);
    var twice := Update(caller, once.cache, req, emailOk);
    assert twice.data.named.Keys == once.data.named.Keys;
  }

  /** No non-null integer-keyed value survives the filter exactly when there is none. */
  lemma NonNullNumberedEmpty(ps: seq<(int, Json)>)
    ensures NonNullNumbered(ps) == [] <==> forall i :: 0 <= i < |ps| ==> ps[i].1 == JNull
  {
    if NonNullNumbered(ps) != [] {
      assert NonNullNumbered(ps)[0] in NonNullNumbered(ps);
    }
  }

  /** Two renumbered lists with the same values are the same list. */
  lemma RenumberedEqual(a: seq<(int, Json)>, b: seq<(int, Json)>)
    requires forall i :: 0 <= i < |a| ==> a[i].0 == i
    requires forall i :: 0 <= i < |b| ==> b[i].0 == i
    requires Values(a) == Values(b)
    ensures a == b
  {
    assert |a| == |Values(a)| == |b|;
    forall i | 0 <= i < |a|
      ensures a[i] == b[i]
    {
      assert Values(a)[i] == Values(b)[i];
    }
  }

  /**
   * The update is idempotent exactly when the request carries no non-null
   * value under an integer key.
   */
  lemma UpdateIdempotentIff(caller: Actor, cache: Cache, req: PhpArray, emailOk: string -> bool)
    requires ValidSettingsRequest(req.named, emailOk) && RoleIsText(caller.role, "admin")
    ensures var once := Update(caller, cache, req, emailOk);
      (Update(caller, once.cache, req, emailOk).data == once.data)
        <==> (forall i :: 0 <= i < |req.numbered| ==> req.numbered[i].1 == JNull)
  {
    var once := Update(caller, cache, req, emailOk);
    var twice := Update(caller, once.cache, req, emailOk);
    var ps := req.numbered;
    UpdateTwice(caller, cache, req, emailOk);
    NonNullNumberedEmpty(ps);
    if NonNullNumbered(ps) == [] {
      assert Values(twice.data.numbered) == Values(once.data.numbered);
      RenumberedEqual(twice.data.numbered, once.data.numbered);
    } else {
      assert |Values(twice.data.numbered)| > |Values(once.data.numbered)|;
    }
  }

  lemma FiveIsAnIntegerKey()
    ensures IsIntegerKey("5") && IntegerKeyValue("5") == 5
  {
    assert "5"[..0] == "";
    assert DigitsValue("5") == 5;
  }

  /** A JSON member named "5" lands under the integer key 5 of `$request->all()`. */
  lemma NumericMemberDecoded()
    ensures RequestArray([("5", JText("x"))]) == PhpArray(map[], [(5, JText("x"))])
  {
    FiveIsAnIntegerKey();
    assert [("5", JText("x"))][..0] == [];
  }

  /** A successful update's integer-keyed part is the renumbered list with the merged values. */
  lemma UpdateNumberedIs(caller: Actor, cache: Cache, req: PhpArray, emailOk: string -> bool,
                         expected: seq<(int, Json)>)
    requires ValidSettingsRequest(req.named, emailOk) && RoleIsText(caller.role, "admin")
    requires forall i :: 0 <= i < |expected| ==> expected[i].0 == i
    requires Values(expected) == Values(UpdateBase(cache).numbered) + Values(NonNullNumbered(req.numbered))
    ensures Update(caller, cache, req, emailOk).data.numbered == expected
  {
    RenumberedEqual(Update(caller, cache, req, emailOk).data.numbered, expected);
  }

  /** An update without string-keyed members succeeds and keeps every string-keyed setting as it was. */
  lemma NumberedOnlyUpdate(caller: Actor, cache: Cache, req: PhpArray, emailOk: string -> bool)
    requires req.named == map[] && RoleIsText(caller.role, "admin")
    ensures Update(caller, cache, req, emailOk).status == StatusOk
    ensures Update(caller, cache, req, emailOk).data.named == UpdateBase(cache).named
  {
    assert NonNull(req).named == map[];
  }

  /** The single entry `(n, v)` with a non-null value survives the null filter. */
  lemma SingleNonNull(n: int, v: Json)
    requires v != JNull
    ensures Values(NonNullNumbered([(n, v)])) == [v]
  {
    assert [(n, v)][1..] == [];
  }

  /**
   * The request `{"5": "x"}` replaces nothing: on the defaults its value
   * becomes entry 0, and sending it again adds entry 1.
   */
  lemma NumericKeyIsAppended(caller: Actor, emailOk: string -> bool)
    requires RoleIsText(caller.role, "admin")
    ensures var req := PhpArray(map[], [(5, JText("x"))]);
      var once := Update(caller, None, req, emailOk);
      && once.status == StatusOk
      && once.data.named == UpdateDefaults
      && once.data.numbered == [(0, JText("x"))]
      && Update(caller, once.cache, req, emailOk).data.numbered == [(0, JText("x")), (1, JText("x"))]
  {
    var req := PhpArray(map[], [(5, JText("x"))]);
    NumberedOnlyUpdate(caller, None, req, emailOk);
    SingleNonNull(5, JText("x"));
    UpdateNumberedIs(caller, None, req, emailOk, [(0, JText("x"))]);
    var once := Update(caller, None, req, emailOk);
    NumericKeyAgain(caller, emailOk, once.data);
  }

  /** Sending `{"5": "x"}` to settings holding `x` at entry 0 adds it at entry 1. */
  lemma NumericKeyAgain(caller: Actor, emailOk: string -> bool, prev: PhpArray)
    requires RoleIsText(caller.role, "admin")
    requires prev.numbered == [(0, JText("x"))]
    ensures Update(caller, Some(prev), PhpArray(map[], [(5, JText("x"))]), emailOk).data.numbered
         == [(0, JText("x")), (1, JText("x"))]
  {
    var req := PhpArray(map[], [(5, JText("x"))]);
    SingleNonNull(5, JText("x"));
    assert Values(prev.numbered) == [JText("x")];
    UpdateNumberedIs(caller, Some(prev), req, emailOk, [(0, JText("x")), (1, JText("x"))]);
  }

  /** After a successful update, index returns exactly what update returned. */
  lemma IndexShowsLastUpdate(caller: Actor, cache: Cache, req: PhpArray, emailOk: string -> bool)
    requires ValidSettingsRequest(req.named, emailOk) && RoleIsText(caller.role, "admin")
    ensures Index(Update(caller, cache, req, emailOk).cache).data == Update(caller, cache, req, emailOk).data
  {
  }

  /** A null value never erases a setting: it keeps the previous value. */
  lemma NullKeepsPrevious(caller: Actor, cache: Cache, req: PhpArray, emailOk: string -> bool, key: string)
    requires ValidSettingsRequest(req.named, emailOk) && RoleIsText(caller.role, "admin")
    requires key in req.named && req.named[key] == JNull
    requires key in UpdateBase(cache).named
    ensures Update(caller, cache, req, emailOk).data.named[key] == UpdateBase(cache).named[key]
  {
  }

  /** A member the validator does not list is stored as sent. */
  lemma UnlistedKeysAreStored(caller: Actor, body: seq<(string, Json)>, emailOk: string -> bool)
    requires RoleIsText(caller.role, "admin")
    requires ValidSettingsRequest(RequestArray(body).named, emailOk)
    ensures var body' := body + [("anything", JBool(true))];
      && Update(caller, None, RequestArray(body'), emailOk).status == StatusOk
      && Update(caller, None, RequestArray(body'), emailOk).data.named["anything"] == JBool(true)
  {
    var body' := body + [("anything", JBool(true))];
    assert body'[..|body|] == body;
    assert !IsIntegerKey("anything");
    assert RequestArray(body').named == RequestArray(body).named["anything" := JBool(true)];
    assert ValidSettingsRequest(RequestArray(body').named, emailOk);
  }

  /**
   * The role check compares the attribute with a string: an account whose
   * role is the `admin` enum case is refused, even with a valid request.
   */
  lemma EnumAdminIsRefused(id: nat, cache: Cache, req: PhpArray, emailOk: string -> bool)
    requires ValidSettingsRequest(req.named, emailOk)
    ensures Update(Actor(id, EnumRole(Admin)), cache, req, emailOk).status == StatusForbidden
  {
  }

  /** The two default maps coincide, so index and a first update agree on the untouched keys. */
  lemma DefaultsAgree()
    ensures IndexDefaults == UpdateDefaults
    ensures Index(None).data == UpdateBase(None)
  {
  }

  /**
   * The cached `admin_fee` is not what the fee engine reads: it looks up
   * `administrative_fee` in the settings table, so an update here never
   * changes a computed fee.
   */
  lemma StoreIsSeparateFromFeeEngine()
    ensures AdminFee != FeeEngine.AdministrativeFeeKey
    ensures DailyStorageFee == FeeEngine.DailyStorageFeeKey
  {
  }
}

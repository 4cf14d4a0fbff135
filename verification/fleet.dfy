/**
 * Vehicle record operations: deletion guarded by dependent procedures and
 * payments, appending uploaded photos, and the public status updates by
 * id and by licence plate.
 */
module Fleet {
  import opened Common
  import opened Entities

  /** The vehicles table keyed by id. */
  type VehicleTable = map<nat, Vehicle>

  datatype FleetReply = FleetReply(status: nat, fleet: VehicleTable)

  /** Whether the vehicle has any payment in the ledger. */
  predicate HasPayments(ledger: seq<Payment>, vid: nat) {
    exists i :: 0 <= i < |ledger| && ledger[i].vehicleId == vid
  }

  /**
   * destroy: a vehicle that has procedures (its id is in
   * `withProcedures`) or payments is refused with 422; otherwise it is
   * removed and 204 returned. An unknown id is 404 from route binding.
   */
  function Destroy(fleet: VehicleTable, id: nat, withProcedures: set<nat>, ledger: seq<Payment>): (r: FleetReply)
    ensures id !in fleet ==> r == FleetReply(StatusNotFound, fleet)
    ensures id in fleet && (id in withProcedures || HasPayments(ledger, id)) ==>
      r == FleetReply(StatusUnprocessable, fleet)
    ensures r.status == StatusNoContent <==> id in fleet && id !in withProcedures && !HasPayments(ledger, id)
    ensures r.status == StatusNoContent ==> r.fleet.Keys == fleet.Keys - {id}
    ensures forall k :: k in r.fleet ==> k in fleet && r.fleet[k] == fleet[k]
  {
    if id !in fleet then FleetReply(StatusNotFound, fleet)
    else if id in withProcedures || HasPayments(ledger, id) then FleetReply(StatusUnprocessable, fleet)
    else FleetReply(StatusNoContent, fleet - {id})
  }

  /** `$vehicle->photos ?? []` followed by one `$photos[] = $path` per upload. */
  function AppendPhotos(existing: Option<seq<string>>, newPaths: seq<string>): (r: seq<string>)
    ensures |r| == |existing.GetOr([])| + |newPaths|
    ensures r[..|existing.GetOr([])|] == existing.GetOr([])
    ensures r[|existing.GetOr([])|..] == newPaths
    ensures forall i :: 0 <= i < |newPaths| ==> r[|existing.GetOr([])| + i] == newPaths[i]
  {
    var photos := existing.GetOr([]);
    photos + newPaths
  }

  /** Appending in two batches is appending both batches in upload order. */
  lemma AppendPhotosTwice(existing: Option<seq<string>>, a: seq<string>, b: seq<string>)
    ensures AppendPhotos(Some(AppendPhotos(existing, a)), b) == AppendPhotos(existing, a + b)
  {
    assert existing.GetOr([]) + a + b == existing.GetOr([]) + (a + b);
  }

  /** One uploaded file: its MIME subtype, size in kilobytes and the path storage gave it. */
  datatype Upload = Upload(mimeSubtype: string, sizeKb: nat, storedPath: string)

  /** `photos` required as a non-empty array, each a jpeg/png/jpg image of at most 2048 KB. */
  predicate ValidUploads(uploads: seq<Upload>) {
    |uploads| > 0
    && forall i :: 0 <= i < |uploads| ==>
         uploads[i].mimeSubtype in {"jpeg", "png", "jpg"} && uploads[i].sizeKb <= 2048
  }

  function StoredPaths(uploads: seq<Upload>): (r: seq<string>)
    ensures |r| == |uploads|
    ensures forall i :: 0 <= i < |uploads| ==> r[i] == uploads[i].storedPath
  {
    if |uploads| == 0 then [] else [uploads[0].storedPath] + StoredPaths(uploads[1..])
  }

  /**
   * uploadPhotos: 404 for an unknown vehicle, 422 when validation fails,
   * otherwise the stored paths are appended to the vehicle's photo list.
   */
  function UploadPhotos(fleet: VehicleTable, id: nat, uploads: seq<Upload>): (r: FleetReply)
    ensures id !in fleet ==> r == FleetReply(StatusNotFound, fleet)
    ensures id in fleet && !ValidUploads(uploads) ==> r == FleetReply(StatusUnprocessable, fleet)
    ensures id in fleet && ValidUploads(uploads) ==>
      && r.status == StatusOk
      && r.fleet == fleet[id := fleet[id].(photos := Some(AppendPhotos(fleet[id].photos, StoredPaths(uploads))))]
  {
    if id !in fleet then FleetReply(StatusNotFound, fleet)
    else if !ValidUploads(uploads) then FleetReply(StatusUnprocessable, fleet)
    else
      var v := fleet[id];
      FleetReply(StatusOk, fleet[id := v.(photos := Some(AppendPhotos(v.photos, StoredPaths(uploads))))])
  }

  /**
   * The photo part of update: with files attached the list is extended
   * exactly as uploadPhotos does; without files it is left alone.
   */
  function UpdatePhotos(v: Vehicle, uploads: seq<Upload>): (r: Vehicle)
    ensures |uploads| == 0 ==> r == v
    ensures |uploads| > 0 ==> r.photos.Some? && v.photos.GetOr([]) < r.photos.value
    ensures |uploads| > 0 ==> r == v.(photos := Some(AppendPhotos(v.photos, StoredPaths(uploads))))
    ensures r.(photos := v.photos) == v
  {
    if |uploads| > 0 then v.(photos := Some(AppendPhotos(v.photos, StoredPaths(uploads)))) else v
  }

  /** VehicleStatus values the public endpoints accept. */
  const Impounded: string := "impounded"
  const Claimed: string := "claimed"
  const Sold: string := "sold"
  const Destroyed: string := "destroyed"
  const PendingDestruction: string := "pending_destruction"

  const PublicStatuses: seq<string> := [Impounded, Claimed, Sold, Destroyed, PendingDestruction]

  /** `$request->input('status', 'claimed')`. */
  function RequestedStatus(input: Option<string>): string {
    input.GetOr(Claimed)
  }

  /**
   * publicUpdate: 404 for an unknown id, 400 for a status outside the
   * whitelist, otherwise only the status changes.
   */
  function PublicUpdate(fleet: VehicleTable, id: nat, statusInput: Option<string>): (r: FleetReply)
    ensures id !in fleet ==> r == FleetReply(StatusNotFound, fleet)
    ensures id in fleet && RequestedStatus(statusInput) !in PublicStatuses ==> r == FleetReply(StatusBadRequest, fleet)
    ensures r.status == StatusOk <==> id in fleet && RequestedStatus(statusInput) in PublicStatuses
    ensures r.status == StatusOk ==> r.fleet == fleet[id := fleet[id].(status := RequestedStatus(statusInput))]
  {
    if id !in fleet then FleetReply(StatusNotFound, fleet)
    else
      var status := RequestedStatus(statusInput);
      if status !in PublicStatuses then FleetReply(StatusBadRequest, fleet)
      else FleetReply(StatusOk, fleet[id := fleet[id].(status := status)])
  }

  /** The request of publicUpdateByPlate: `description` is `Some` when the key is present (its value may be null). */
  datatype PlateUpdate = PlateUpdate(status: Option<string>, description: Option<Option<string>>)

  /** `order` lists every row of the table exactly as the query sees them. */
  predicate ListsTable(fleet: VehicleTable, order: seq<nat>) {
    && (forall i :: 0 <= i < |order| ==> order[i] in fleet)
    && (forall k :: k in fleet ==> k in order)
  }

  /** The table's rows in query order. */
  function Rows(fleet: VehicleTable, order: seq<nat>): (r: seq<Vehicle>)
    requires forall i :: 0 <= i < |order| ==> order[i] in fleet
    ensures |r| == |order|
    ensures forall i :: 0 <= i < |order| ==> r[i] == fleet[order[i]]
  {
    seq(|order|, i requires 0 <= i < |order| => fleet[order[i]])
  }

  /** The id of the first vehicle in query order with this plate, as `->first()` returns it. */
  function FirstIdWithPlate(fleet: VehicleTable, order: seq<nat>, plate: string): (r: Option<nat>)
    requires ListsTable(fleet, order)
    ensures r.Some? ==> r.value in fleet && fleet[r.value].licensePlate == plate
    ensures r.Some? ==> exists i :: 0 <= i < |order| && order[i] == r.value
                          && forall j :: 0 <= j < i ==> fleet[order[j]].licensePlate != plate
    ensures r.None? <==> forall k :: k in fleet ==> fleet[k].licensePlate != plate
  {
    var rows := Rows(fleet, order);
    match FirstWithPlate(rows, plate)
    case None =>
      assert forall k :: k in fleet ==> fleet[k].licensePlate != plate by {
        forall k | k in fleet
          ensures fleet[k].licensePlate != plate
        {
          var i :| 0 <= i < |order| && order[i] == k;
          assert rows[i] == fleet[k];
        }
      }
      None
    case Some(i) =>
      assert rows[i] == fleet[order[i]];
      Some(order[i])
  }

  /**
   * publicUpdateByPlate: like publicUpdate, but the description is also
   * replaced when the request carries one. `order` is the row order the
   * query sees.
   */
  function PublicUpdateByPlate(fleet: VehicleTable, order: seq<nat>, plate: string, req: PlateUpdate): (r: FleetReply)
    requires ListsTable(fleet, order)
    ensures FirstIdWithPlate(fleet, order, plate).None? ==> r == FleetReply(StatusNotFound, fleet)
    ensures RequestedStatus(req.status) !in PublicStatuses ==> r.fleet == fleet && r.status != StatusOk
    ensures FirstIdWithPlate(fleet, order, plate).Some? && RequestedStatus(req.status) !in PublicStatuses ==>
      r == FleetReply(StatusBadRequest, fleet)
    ensures r.status == StatusOk <==>
      FirstIdWithPlate(fleet, order, plate).Some? && RequestedStatus(req.status) in PublicStatuses
    ensures r.status == StatusOk ==>
      var id := FirstIdWithPlate(fleet, order, plate).value;
      && r.fleet.Keys == fleet.Keys
      && (forall k :: k in fleet && k != id ==> r.fleet[k] == fleet[k])
      && r.fleet[id].status == RequestedStatus(req.status)
      && r.fleet[id].description == (if req.description.Some? then req.description.value else fleet[id].description)
      && r.fleet[id].(status := fleet[id].status, description := fleet[id].description) == fleet[id]
  {
    match FirstIdWithPlate(fleet, order, plate)
    case None => FleetReply(StatusNotFound, fleet)
    case Some(id) =>
      var status := RequestedStatus(req.status);
      if status !in PublicStatuses then FleetReply(StatusBadRequest, fleet)
      else
        var v := fleet[id].(status := status);
        var v' := if req.description.Some? then v.(description := req.description.value) else v;
        FleetReply(StatusOk, fleet[id := v'])
  }

  /** An omitted status means `claimed`, which is accepted; `ready_for_release` never is. */
  lemma StatusWhitelist()
    ensures RequestedStatus(None) == Claimed && Claimed in PublicStatuses
    ensures ReadyForRelease !in PublicStatuses
  {
  }
}

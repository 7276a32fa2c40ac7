/** Room administration (functions/src/rooms.ts): creating a room and
    updating it, including the QR version bump that invalidates printed codes
    when an admin asks for it or the room is retired. Whether the users
    collection records the caller as an admin is the parameter `isAdmin`. */
module Rooms {
  import opened Wrappers
  import opened Models
  import opened Errors
  import opened Store

  /** The create payload after the room schema has parsed it. */
  datatype RoomInput = RoomInput(name: string, capacity: int, isRetired: Option<bool>)

  /** The update payload: every room field is optional, plus an explicit QR version. */
  datatype RoomPatch = RoomPatch(name: Option<string>, capacity: Option<int>, isRetired: Option<bool>, qrVersion: Option<int>)

  /** What the update handler returns. */
  datatype RoomUpdate = RoomUpdate(roomId: RoomId, qrVersion: int)

  const RoomSchemaPrefix := "Invalid room data: "

  /** The room schema's issues for a name and a capacity, in field order. */
  function NameIssues(name: string): (issues: seq<string>)
    ensures issues == [] <==> |name| >= 1
  {
    if |name| >= 1 then [] else ["Room name is required"]
  }

  function CapacityIssues(capacity: int): (issues: seq<string>)
    ensures issues == [] <==> capacity >= 1
  {
    if capacity >= 1 then [] else ["Capacity must be at least 1"]
  }

  function RoomIssues(input: RoomInput): (issues: seq<string>)
    ensures issues == [] <==> |input.name| >= 1 && input.capacity >= 1
  {
    NameIssues(input.name) + CapacityIssues(input.capacity)
  }

  /** The partial schema checks only the fields that are present. */
  function PatchIssues(patch: RoomPatch): (issues: seq<string>)
    ensures issues == [] <==>
      (patch.name.Some? ==> |patch.name.value| >= 1) && (patch.capacity.Some? ==> patch.capacity.value >= 1)
  {
    (if patch.name.Some? then NameIssues(patch.name.value) else []) +
    (if patch.capacity.Some? then CapacityIssues(patch.capacity.value) else [])
  }

  /** A new room is live with QR version 1, whatever retirement flag the input carried. */
  function NewRoom(input: RoomInput): (room: Room)
    ensures !room.isRetired && room.qrVersion == 1
    ensures room.name == input.name && room.capacity == input.capacity
  {
    Room(input.name, input.capacity, false, 1)
  }

  /** The update bumps the QR version when asked to, or when it retires a live room. */
  predicate QrBumped(current: Room, patch: RoomPatch, bumpRequested: bool) {
    bumpRequested || (patch.isRetired == Some(true) && !current.isRetired)
  }

  /** The stored room after an update. */
  function ApplyRoomPatch(current: Room, patch: RoomPatch, bumpRequested: bool): Room {
    Room(patch.name.GetOr(current.name),
         patch.capacity.GetOr(current.capacity),
         patch.isRetired.GetOr(current.isRetired),
         if QrBumped(current, patch, bumpRequested) then current.qrVersion + 1
         else patch.qrVersion.GetOr(current.qrVersion))
  }

  /** The QR version the handler reports: the written one unless it is missing
      or zero (JavaScript treats 0 as false), otherwise the stored one before
      the update. */
  function ReturnedQrVersion(current: Room, patch: RoomPatch, bumpRequested: bool): int {
    var written := if QrBumped(current, patch, bumpRequested) then Some(current.qrVersion + 1) else patch.qrVersion;
    if written.Some? && written.value != 0 then written.value else current.qrVersion
  }

  /** Retiring a live room always invalidates its QR codes, and a bump wins
      over an explicitly supplied version. */
  lemma RetiringBumpsQrVersion(current: Room, patch: RoomPatch, bumpRequested: bool)
    requires !current.isRetired && patch.isRetired == Some(true)
    ensures ApplyRoomPatch(current, patch, bumpRequested).isRetired
    ensures ApplyRoomPatch(current, patch, bumpRequested).qrVersion == current.qrVersion + 1
  {
  }

  /** Without a bump request, un-retiring, re-retiring or leaving the flag
      alone never changes the version except to an explicitly supplied one. */
  lemma OnlyRetirementOrRequestBumps(current: Room, patch: RoomPatch)
    requires patch.isRetired != Some(true) || current.isRetired
    ensures ApplyRoomPatch(current, patch, false).qrVersion == patch.qrVersion.GetOr(current.qrVersion)
  {
  }

  /** Fields absent from the patch keep their stored values. */
  lemma AbsentFieldsAreKept(current: Room, patch: RoomPatch, bumpRequested: bool)
    ensures patch.name.None? ==> ApplyRoomPatch(current, patch, bumpRequested).name == current.name
    ensures patch.capacity.None? ==> ApplyRoomPatch(current, patch, bumpRequested).capacity == current.capacity
    ensures patch.isRetired.None? ==> ApplyRoomPatch(current, patch, bumpRequested).isRetired == current.isRetired
    ensures patch.qrVersion.None? && !bumpRequested && patch.isRetired != Some(true) ==> ApplyRoomPatch(current, patch, bumpRequested).qrVersion == current.qrVersion
  {
  }

  /** The reported version equals the stored one exactly when the handler did
      not write a zero over a non-zero version. */
  lemma ReturnedQrVersionMatchesStored(current: Room, patch: RoomPatch, bumpRequested: bool)
    ensures ReturnedQrVersion(current, patch, bumpRequested) == ApplyRoomPatch(current, patch, bumpRequested).qrVersion
      <==> ApplyRoomPatch(current, patch, bumpRequested).qrVersion != 0 || current.qrVersion == 0
  {
    if !QrBumped(current, patch, bumpRequested) && patch.qrVersion.Some? {
      assert ApplyRoomPatch(current, patch, bumpRequested).qrVersion == patch.qrVersion.value;
    }
  }

  /** A concrete case: supplying version 0 stores 0 but reports the old version. */
  lemma ReturnedQrVersionCanDiffer()
    ensures var current := Room("Lab 1", 40, false, 3);
            var patch := RoomPatch(None, None, None, Some(0));
            ApplyRoomPatch(current, patch, false).qrVersion == 0 && ReturnedQrVersion(current, patch, false) == 3
  {
  }

  method CreateRoom(db: Db, caller: Option<UserId>, isAdmin: bool, input: RoomInput, newRoomId: RoomId)
    returns (r: Result<RoomId, HttpsError>)
    requires db.Valid()
    requires newRoomId !in db.rooms
    modifies db
    ensures db.Valid()
    ensures r.Failure? ==> unchanged(db)
    ensures caller.None? ==> r == Failure(HttpsError(Unauthenticated, "User must be authenticated"))
    ensures caller.Some? && !isAdmin ==> r == Failure(HttpsError(PermissionDenied, "Only admins can create rooms"))
    ensures caller.Some? && isAdmin && RoomIssues(input) != [] ==>
      r == Failure(Rethrow(SchemaError(RoomIssues(input)), RoomSchemaPrefix, "Failed to create room"))
    ensures caller.Some? && isAdmin && RoomIssues(input) == [] ==>
      && r == Success(newRoomId)
      && db.rooms == old(db.rooms)[newRoomId := NewRoom(input)]
      && db.reservations == old(db.reservations) && db.checkins == old(db.checkins) && db.nextId == old(db.nextId)
  {
    if caller.None? {
      return Failure(HttpsError(Unauthenticated, "User must be authenticated"));
    }
    if !isAdmin {
      return Failure(HttpsError(PermissionDenied, "Only admins can create rooms"));
    }
    var issues := RoomIssues(input);
    if issues != [] {
      return Failure(Rethrow(SchemaError(issues), RoomSchemaPrefix, "Failed to create room"));
    }
    db.rooms := db.rooms[newRoomId := Room(input.name, input.capacity, false, 1)];
    return Success(newRoomId);
  }

  method UpdateRoom(db: Db, caller: Option<UserId>, isAdmin: bool, roomId: RoomId, patch: RoomPatch, bumpRequested: bool)
    returns (r: Result<RoomUpdate, HttpsError>)
    requires db.Valid()
    modifies db
    ensures db.Valid()
    ensures r.Failure? ==> unchanged(db)
    ensures caller.None? ==> r == Failure(HttpsError(Unauthenticated, "User must be authenticated"))
    ensures caller.Some? && !isAdmin ==> r == Failure(HttpsError(PermissionDenied, "Only admins can update rooms"))
    ensures caller.Some? && isAdmin && roomId == "" ==> r == Failure(HttpsError(InvalidArgument, "Room ID is required"))
    ensures caller.Some? && isAdmin && roomId != "" && PatchIssues(patch) != [] ==>
      r == Failure(Rethrow(SchemaError(PatchIssues(patch)), RoomSchemaPrefix, "Failed to update room"))
    ensures caller.Some? && isAdmin && roomId != "" && PatchIssues(patch) == [] && roomId !in old(db.rooms) ==>
      r == Failure(HttpsError(Internal, "Failed to update room"))
    ensures caller.Some? && isAdmin && roomId != "" && PatchIssues(patch) == [] && roomId in old(db.rooms) ==>
      var current := old(db.rooms)[roomId];
      && r == Success(RoomUpdate(roomId, ReturnedQrVersion(current, patch, bumpRequested)))
      && db.rooms == old(db.rooms)[roomId := ApplyRoomPatch(current, patch, bumpRequested)]
      && db.reservations == old(db.reservations) && db.checkins == old(db.checkins) && db.nextId == old(db.nextId)
  {
    if caller.None? {
      return Failure(HttpsError(Unauthenticated, "User must be authenticated"));
    }
    if !isAdmin {
      return Failure(HttpsError(PermissionDenied, "Only admins can update rooms"));
    }
    if roomId == "" {
      return Failure(HttpsError(InvalidArgument, "Room ID is required"));
    }
    var issues := PatchIssues(patch);
    if issues != [] {
      return Failure(Rethrow(SchemaError(issues), RoomSchemaPrefix, "Failed to update room"));
    }
    if roomId !in db.rooms {
      return Failure(Rethrow(Raised(HttpsError(NotFound, "Room not found")), RoomSchemaPrefix, "Failed to update room"));
    }
    var current := db.rooms[roomId];
    var written := patch.qrVersion;
    if bumpRequested || (patch.isRetired == Some(true) && !current.isRetired) {
      written := Some(current.qrVersion + 1);
    }
    db.rooms := db.rooms[roomId := Room(patch.name.GetOr(current.name), patch.capacity.GetOr(current.capacity),
                                        patch.isRetired.GetOr(current.isRetired), written.GetOr(current.qrVersion))];
    var reported := if written.Some? && written.value != 0 then written.value else current.qrVersion;
    return Success(RoomUpdate(roomId, reported));
  }
}

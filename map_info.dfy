/** The two `/mapinfo` subcommands: `get` decodes the held map item's tag record
    and joins it with the world's saved map data; `snbt` dumps the tag record as
    text. Each handler is a total function from the invocation to an outcome,
    which the host then renders to the command output. */
module MapInfoCommand {
  import opened Wrappers
  import opened Nbt

  // ---------------------------------------------------------------- inputs

  /** An item stack: the null stack, or an item with its raw name id, its
      auxiliary value and the tag record attached to it, if any. */
  datatype ItemStack =
    | NullItem
    | Item(rawNameId: string, aux: int, userData: Option<Compound>)

  /** The entity behind a command origin, and the item it carries. */
  datatype Actor = Actor(isPlayer: bool, carried: ItemStack)

  /** A command origin; `entity` is None when the origin has no entity. */
  datatype CommandOrigin = CommandOrigin(entity: Option<Actor>)

  /** The world's saved data for one map. */
  datatype MapRecord = MapRecord(scale: int, locked: bool, originX: int32, originZ: int32)

  /** The world's saved map data, by map id. */
  type MapStore = map<int64, MapRecord>

  const EmptyMapId := "map"
  const FilledMapId := "filled_map"
  const MapUuidKey := "map_uuid"
  const MapIsScalingKey := "map_is_scaling"
  const MapNameIndexKey := "map_name_index"

  /** The defaults the `get` handler starts from, and its "no value" sentinels. */
  const NoMapId: int64 := -1
  const NoNameIndex: int32 := -1

  // ---------------------------------------------------------------- outcomes

  /** Why either handler refused before looking at the item's payload. */
  datatype Rejection = NotAPlayer | EmptyHand | NotAMap(rawNameId: string)

  /** The name index as reported: "N/A", or the stored index. */
  datatype NameIndex = NotAvailable | Index(n: int32)

  /** The fields of the success report of `get`. */
  datatype MapReport = MapReport(
    id: int64, scale: int, locked: bool, originX: int32, originZ: int32,
    isScaling: bool, nameIndex: NameIndex)

  /** Which host channel an outcome is written to. */
  datatype Channel = SuccessChannel | ErrorChannel | NotReported

  datatype GetOutcome =
    | GetRejected(why: Rejection)
    | EmptyMapReport(potentialId: int)
    | MissingUuid
    | MapNotFound(id: int64)
    | Report(report: MapReport)
      /** A key holds a value of another kind than the handler reads it as.
          The handler does not check for this; what happens is up to the host
          library, so this outcome is not a report of the handler. */
    | KindNotHandled(key: string, found: TagKind)
  {
    function Channel(): Channel
    {
      match this
      case EmptyMapReport(_) => SuccessChannel
      case Report(_) => SuccessChannel
      case KindNotHandled(_, _) => NotReported
      case _ => ErrorChannel
    }
  }

  datatype SnbtOutcome =
    | SnbtRejected(why: Rejection)
    | Dump(text: string)
    | DumpFailed
  {
    function Channel(): Channel
    {
      if SnbtRejected? then ErrorChannel else SuccessChannel
    }
  }

  // ---------------------------------------------------------------- guards

  /** The kinds of held item the command tells apart, by raw name id alone. */
  datatype ItemKind = EmptyMap | FilledMap | NotAMapItem

  function Classify(rawNameId: string): (k: ItemKind)
    ensures k == EmptyMap <==> rawNameId == "map"
    ensures k == FilledMap <==> rawNameId == "filled_map"
  {
    if rawNameId != FilledMapId && rawNameId != EmptyMapId then NotAMapItem
    else if rawNameId == EmptyMapId then EmptyMap
    else FilledMap
  }

  predicate IsPlayerOrigin(origin: CommandOrigin)
  {
    origin.entity.Some? && origin.entity.value.isPlayer
  }

  /** The guard chain both handlers start with: the origin must be a player,
      its hand must not be empty and it must hold a map or a filled map. */
  function HeldMap(origin: CommandOrigin): (r: Result<ItemStack, Rejection>)
    ensures r == Failure(NotAPlayer) <==> !IsPlayerOrigin(origin)
    ensures r == Failure(EmptyHand) <==>
      IsPlayerOrigin(origin) && origin.entity.value.carried.NullItem?
    ensures r.Failure? && r.error.NotAMap? <==>
      IsPlayerOrigin(origin) && origin.entity.value.carried.Item? &&
      Classify(origin.entity.value.carried.rawNameId) == NotAMapItem
    ensures r.Failure? && r.error.NotAMap? ==>
      r.error.rawNameId == origin.entity.value.carried.rawNameId
    ensures r.Success? ==>
      IsPlayerOrigin(origin) && r.value == origin.entity.value.carried &&
      r.value.Item? && Classify(r.value.rawNameId) != NotAMapItem
  {
    if !IsPlayerOrigin(origin) then Failure(NotAPlayer)
    else
      var itemInHand := origin.entity.value.carried;
      if itemInHand.NullItem? then Failure(EmptyHand)
      else if Classify(itemInHand.rawNameId) == NotAMapItem then Failure(NotAMap(itemInHand.rawNameId))
      else Success(itemInHand)
  }

  // ---------------------------------------------------------------- get

  /** The three fields the `get` handler takes from a filled map's tag record,
      each already replaced by its default when the key is absent. */
  datatype MapTagFields = MapTagFields(mapId: int64, isScaling: bool, nameIndex: int32)

  /** A key whose value has another kind than the handler reads it as. */
  datatype KindError = KindError(key: string, found: TagKind)

  /** The key holds a value of another kind than `kind`. */
  predicate Clashes(nbt: Option<Compound>, key: string, kind: TagKind)
  {
    Contains(nbt, key) && KindOf(nbt.value[key]) != kind
  }

  /** Reads `map_uuid`, `map_is_scaling` and `map_name_index`, in that order,
      each defaulting when absent: id -1, not scaling, name index -1. A key
      holding another kind stops the reads at the first such key. */
  function ReadMapTag(nbt: Option<Compound>): (r: Result<MapTagFields, KindError>)
    ensures r.Success? ==>
      && (Contains(nbt, MapUuidKey) ==> nbt.value[MapUuidKey] == Int64Tag(r.value.mapId))
      && (!Contains(nbt, MapUuidKey) ==> r.value.mapId == NoMapId)
      && (r.value.isScaling <==> Contains(nbt, MapIsScalingKey) && nbt.value[MapIsScalingKey] != ByteTag(0))
      && (Contains(nbt, MapNameIndexKey) ==> nbt.value[MapNameIndexKey] == IntTag(r.value.nameIndex))
      && (!Contains(nbt, MapNameIndexKey) ==> r.value.nameIndex == NoNameIndex)
    ensures r.Failure? <==>
      Clashes(nbt, MapUuidKey, Int64Kind) || Clashes(nbt, MapIsScalingKey, ByteKind) ||
      Clashes(nbt, MapNameIndexKey, IntKind)
    ensures r.Failure? ==>
      && r.error.key == (if Clashes(nbt, MapUuidKey, Int64Kind) then MapUuidKey
                         else if Clashes(nbt, MapIsScalingKey, ByteKind) then MapIsScalingKey
                         else MapNameIndexKey)
      && Contains(nbt, r.error.key) && r.error.found == KindOf(nbt.value[r.error.key])
  {
    var uuid := GetInt64(nbt, MapUuidKey);
    var scaling := GetByte(nbt, MapIsScalingKey);
    var name := GetInt(nbt, MapNameIndexKey);
    if uuid.Mismatch? then Failure(KindError(MapUuidKey, uuid.found))
    else if scaling.Mismatch? then Failure(KindError(MapIsScalingKey, scaling.found))
    else if name.Mismatch? then Failure(KindError(MapNameIndexKey, name.found))
    else Success(MapTagFields(
      if uuid.Present? then uuid.value else NoMapId,
      scaling.Present? && scaling.value != 0,
      if name.Present? then name.value else NoNameIndex))
  }

  /** Where the `get` handler stands before it consults the world's map data:
      either it has already decided, or it goes on to look up `fields.mapId`. */
  datatype Stage = Decided(outcome: GetOutcome) | Lookup(fields: MapTagFields)

  /** The `get` handler up to the lookup: the guards, the empty-map report,
      the three tag reads and the check for a missing id. */
  function PreLookup(origin: CommandOrigin): (s: Stage)
    ensures s.Decided? ==> !s.outcome.MapNotFound? && !s.outcome.Report?
    ensures s.Lookup? ==> s.fields.mapId != NoMapId
  {
    match HeldMap(origin)
    case Failure(why) => Decided(GetRejected(why))
    case Success(item) =>
      if Classify(item.rawNameId) == EmptyMap then Decided(EmptyMapReport(item.aux))
      else
        match ReadMapTag(item.userData)
        case Failure(e) => Decided(KindNotHandled(e.key, e.found))
        case Success(fields) =>
          if fields.mapId == NoMapId then Decided(MissingUuid) else Lookup(fields)
  }

  /** The map id the `get` handler looks up in the world's map data, if any. */
  function DecodedId(origin: CommandOrigin): (id: Option<int64>)
    ensures id.Some? ==> id.value != NoMapId
    ensures id.Some? ==>
      && HeldMap(origin).Success? && HeldMap(origin).value.rawNameId == "filled_map"
      && Contains(HeldMap(origin).value.userData, MapUuidKey)
      && HeldMap(origin).value.userData.value[MapUuidKey] == Int64Tag(id.value)
    ensures id.None? <==> PreLookup(origin).Decided?
  {
    match PreLookup(origin)
    case Decided(_) => None
    case Lookup(fields) => Some(fields.mapId)
  }

  /** The `get` handler. */
  function DecodeGet(origin: CommandOrigin, store: MapStore): (r: GetOutcome)
    ensures r.GetRejected? <==> HeldMap(origin).Failure?
    ensures r.GetRejected? ==> r.why == HeldMap(origin).error
    ensures r.MapNotFound? <==> DecodedId(origin).Some? && DecodedId(origin).value !in store
    ensures r.Report? <==> DecodedId(origin).Some? && DecodedId(origin).value in store
    ensures r.MapNotFound? ==> r.id == DecodedId(origin).value
    ensures r.Report? ==>
      var rec := store[DecodedId(origin).value];
      && r.report.id == DecodedId(origin).value
      && r.report.scale == rec.scale && r.report.locked == rec.locked
      && r.report.originX == rec.originX && r.report.originZ == rec.originZ
    ensures r.KindNotHandled? <==>
      && HeldMap(origin).Success? && Classify(HeldMap(origin).value.rawNameId) == FilledMap
      && ReadMapTag(HeldMap(origin).value.userData).Failure?
    ensures r.KindNotHandled? ==>
      var nbt := HeldMap(origin).value.userData;
      && r.key == (if Clashes(nbt, MapUuidKey, Int64Kind) then MapUuidKey
                   else if Clashes(nbt, MapIsScalingKey, ByteKind) then MapIsScalingKey
                   else MapNameIndexKey)
      && Contains(nbt, r.key) && KindOf(nbt.value[r.key]) == r.found
  {
    match PreLookup(origin)
    case Decided(outcome) => outcome
    case Lookup(fields) =>
      if fields.mapId !in store then MapNotFound(fields.mapId)
      else
        var rec := store[fields.mapId];
        Report(MapReport(fields.mapId, rec.scale, rec.locked, rec.originX, rec.originZ, fields.isScaling,
                         if fields.nameIndex != NoNameIndex then Index(fields.nameIndex) else NotAvailable))
  }

  /** The `get` handler written as the source writes it: start from the
      defaults, overwrite each from the tag record when its key is present,
      then check the id and look it up. */
  method ResolveGet(origin: CommandOrigin, store: MapStore) returns (r: GetOutcome)
    ensures r == DecodeGet(origin, store)
  {
    if origin.entity.None? || !origin.entity.value.isPlayer {
      return GetRejected(NotAPlayer);
    }
    var player := origin.entity.value;
    var itemInHand := player.carried;
    if itemInHand.NullItem? {
      return GetRejected(EmptyHand);
    }
    var rawNameId := itemInHand.rawNameId;
    if rawNameId != FilledMapId && rawNameId != EmptyMapId {
      return GetRejected(NotAMap(rawNameId));
    }
    if rawNameId == EmptyMapId {
      return EmptyMapReport(itemInHand.aux);
    }
    var mapIdValue := NoMapId;
    var mapIsScaling := false;
    var mapNameIndex := NoNameIndex;
    var nbt := itemInHand.userData;
    if nbt.Some? && MapUuidKey in nbt.value {
      var t := nbt.value[MapUuidKey];
      if !t.Int64Tag? {
        return KindNotHandled(MapUuidKey, KindOf(t));
      }
      mapIdValue := t.l;
    }
    if nbt.Some? && MapIsScalingKey in nbt.value {
      var t := nbt.value[MapIsScalingKey];
      if !t.ByteTag? {
        return KindNotHandled(MapIsScalingKey, KindOf(t));
      }
      mapIsScaling := t.b != 0;
    }
    if nbt.Some? && MapNameIndexKey in nbt.value {
      var t := nbt.value[MapNameIndexKey];
      if !t.IntTag? {
        return KindNotHandled(MapNameIndexKey, KindOf(t));
      }
      mapNameIndex := t.i;
    }
    if mapIdValue == NoMapId {
      return MissingUuid;
    }
    if mapIdValue !in store {
      return MapNotFound(mapIdValue);
    }
    var mapData := store[mapIdValue];
    var nameIndex := if mapNameIndex != NoNameIndex then Index(mapNameIndex) else NotAvailable;
    r := Report(MapReport(mapIdValue, mapData.scale, mapData.locked, mapData.originX, mapData.originZ,
                          mapIsScaling, nameIndex));
  }

  // ---------------------------------------------------------------- snbt

  /** The `snbt` handler. The host's tag-to-text serialisation is the
      parameter `toSnbt`. */
  function DumpSnbt(origin: CommandOrigin, toSnbt: Compound -> string): (r: SnbtOutcome)
    ensures r.SnbtRejected? <==> HeldMap(origin).Failure?
    ensures r.SnbtRejected? ==> r.why == HeldMap(origin).error
    ensures r.Channel() == SuccessChannel <==> HeldMap(origin).Success?
  {
    match HeldMap(origin)
    case Failure(why) => SnbtRejected(why)
    case Success(item) =>
      match item.userData
      case Some(tag) => Dump(toSnbt(tag))
      case None => DumpFailed
  }
}

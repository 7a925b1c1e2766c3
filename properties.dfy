/** What the `/mapinfo` handlers promise, stated over all invocations. */
module MapInfoProperties {
  import opened Wrappers
  import opened Nbt
  import opened MapInfoCommand

  /** A player origin carrying `item`. */
  function PlayerHolding(item: ItemStack): (o: CommandOrigin)
    ensures IsPlayerOrigin(o) && o.entity.value.carried == item
  {
    CommandOrigin(Some(Actor(true, item)))
  }

  /** The key is absent or holds a value of the kind the handler reads it as. */
  predicate ReadableAs(nbt: Compound, key: string, kind: TagKind)
  {
    key in nbt ==> KindOf(nbt[key]) == kind
  }

  /** The two optional keys of a filled map can be read without a kind clash. */
  predicate OptionalKeysReadable(nbt: Compound)
  {
    ReadableAs(nbt, MapIsScalingKey, ByteKind) && ReadableAs(nbt, MapNameIndexKey, IntKind)
  }

  // ------------------------------------------------------------ guards

  /** Without a player behind the origin, both handlers refuse, whatever is
      carried and whatever the world holds. */
  lemma NonPlayerIsRejected(origin: CommandOrigin, store: MapStore, toSnbt: Compound -> string)
    requires origin.entity.None? || !origin.entity.value.isPlayer
    ensures DecodeGet(origin, store) == GetRejected(NotAPlayer)
    ensures DumpSnbt(origin, toSnbt) == SnbtRejected(NotAPlayer)
  {
  }

  /** An empty hand is refused by both handlers. */
  lemma EmptyHandIsRejected(store: MapStore, toSnbt: Compound -> string)
    ensures DecodeGet(PlayerHolding(NullItem), store) == GetRejected(EmptyHand)
    ensures DumpSnbt(PlayerHolding(NullItem), toSnbt) == SnbtRejected(EmptyHand)
  {
  }

  /** Any item other than a map or a filled map is refused by both handlers,
      and the refusal names the item's own raw name id. */
  lemma OtherItemIsRejected(name: string, aux: int, userData: Option<Compound>, store: MapStore,
                            toSnbt: Compound -> string)
    requires name != "map" && name != "filled_map"
    ensures DecodeGet(PlayerHolding(Item(name, aux, userData)), store) == GetRejected(NotAMap(name))
    ensures DumpSnbt(PlayerHolding(Item(name, aux, userData)), toSnbt) == SnbtRejected(NotAMap(name))
  {
  }

  /** Whether an item is accepted as a map depends on its raw name id alone. */
  lemma AcceptanceByNameOnly(name: string, aux1: int, aux2: int, tag1: Option<Compound>, tag2: Option<Compound>)
    ensures HeldMap(PlayerHolding(Item(name, aux1, tag1))).Success?
        <==> HeldMap(PlayerHolding(Item(name, aux2, tag2))).Success?
    ensures HeldMap(PlayerHolding(Item(name, aux1, tag1))).Success? <==> name in {"map", "filled_map"}
  {
  }

  // ------------------------------------------------------------ get

  /** An empty map is reported from its auxiliary value; its tag record, even
      a malformed one, is not read and the world's map data is not consulted. */
  lemma EmptyMapReportsAux(aux: int, userData: Option<Compound>, store: MapStore)
    ensures DecodeGet(PlayerHolding(Item("map", aux, userData)), store) == EmptyMapReport(aux)
  {
  }

  /** A filled map without a usable id gets the "missing uuid" error, whatever
      the world holds: no tag record, no `map_uuid` key, or `map_uuid` stored
      as -1. */
  lemma FilledMapWithoutUuid(aux: int, userData: Option<Compound>, store: MapStore)
    requires userData.Some? ==> OptionalKeysReadable(userData.value)
    requires userData.None? || MapUuidKey !in userData.value || userData.value[MapUuidKey] == Int64Tag(NoMapId)
    ensures DecodeGet(PlayerHolding(Item("filled_map", aux, userData)), store) == MissingUuid
  {
  }

  /** An id with no saved data gets the "not found" error carrying that id. */
  lemma UnknownIdIsNotFound(aux: int, nbt: Compound, id: int64, store: MapStore)
    requires OptionalKeysReadable(nbt)
    requires MapUuidKey in nbt && nbt[MapUuidKey] == Int64Tag(id) && id != NoMapId
    requires id !in store
    ensures DecodeGet(PlayerHolding(Item("filled_map", aux, Some(nbt))), store) == MapNotFound(id)
  {
  }

  /** The report for a filled map whose id has saved data: the id from the tag
      record, scale, lock and origin from the saved data, "scaling" when the
      stored byte is nonzero (absent means no), and the name index unless it
      is absent or stored as -1. */
  lemma ReportOfKnownMap(aux: int, nbt: Compound, id: int64, store: MapStore)
    requires OptionalKeysReadable(nbt)
    requires MapUuidKey in nbt && nbt[MapUuidKey] == Int64Tag(id) && id != NoMapId
    requires id in store
    ensures DecodeGet(PlayerHolding(Item("filled_map", aux, Some(nbt))), store).Report?
    ensures var r := DecodeGet(PlayerHolding(Item("filled_map", aux, Some(nbt))), store).report;
      && r.id == id
      && r.scale == store[id].scale && r.locked == store[id].locked
      && r.originX == store[id].originX && r.originZ == store[id].originZ
      && (r.isScaling <==> MapIsScalingKey in nbt && nbt[MapIsScalingKey] != ByteTag(0))
      && (r.nameIndex == NotAvailable <==> MapNameIndexKey !in nbt || nbt[MapNameIndexKey] == IntTag(NoNameIndex))
      && (r.nameIndex.Index? ==> nbt[MapNameIndexKey] == IntTag(r.nameIndex.n))
  {
  }

  /** Two stores look the same to a lookup of `id`. */
  predicate AgreeAt(s1: MapStore, s2: MapStore, id: Option<int64>)
  {
    id.Some? ==> (id.value in s1 <==> id.value in s2) && (id.value in s1 ==> s1[id.value] == s2[id.value])
  }

  /** The `get` handler sees the world's map data only through one lookup of
      exactly the decoded id, and not at all when there is no id to look up. */
  lemma StoreSeenOnlyAtDecodedId(origin: CommandOrigin, s1: MapStore, s2: MapStore)
    requires AgreeAt(s1, s2, DecodedId(origin))
    ensures DecodeGet(origin, s1) == DecodeGet(origin, s2)
  {
  }

  /** The three tag reads all happen before the id is checked: a wrongly
      typed `map_is_scaling` is met even when `map_uuid` is missing. */
  lemma ScalingClashBeforeMissingUuid(aux: int, nbt: Compound, store: MapStore)
    requires MapUuidKey !in nbt
    requires MapIsScalingKey in nbt && !nbt[MapIsScalingKey].ByteTag?
    ensures DecodeGet(PlayerHolding(Item("filled_map", aux, Some(nbt))), store)
         == KindNotHandled(MapIsScalingKey, KindOf(nbt[MapIsScalingKey]))
  {
  }

  /** Which channel `get` writes to: success exactly for an empty map or a map
      whose id has saved data; error for a rejection, a missing id or an
      unknown id; nothing the handler writes when a key has another kind. */
  lemma GetOutcomeChannels(origin: CommandOrigin, store: MapStore)
    ensures DecodeGet(origin, store).Channel() == SuccessChannel <==>
      HeldMap(origin).Success? &&
      (Classify(HeldMap(origin).value.rawNameId) == EmptyMap ||
       (DecodedId(origin).Some? && DecodedId(origin).value in store))
    ensures DecodeGet(origin, store).Channel() == ErrorChannel <==>
      HeldMap(origin).Failure? ||
      (Classify(HeldMap(origin).value.rawNameId) == FilledMap &&
       ReadMapTag(HeldMap(origin).value.userData).Success? &&
       (DecodedId(origin).None? || DecodedId(origin).value !in store))
    ensures DecodeGet(origin, store).Channel() == NotReported <==>
      HeldMap(origin).Success? && Classify(HeldMap(origin).value.rawNameId) == FilledMap &&
      ReadMapTag(HeldMap(origin).value.userData).Failure?
  {
  }

  /** Which channel `snbt` writes to: error exactly when the guards refuse;
      success otherwise, with or without a tag record. It always reports. */
  lemma SnbtOutcomeChannels(origin: CommandOrigin, toSnbt: Compound -> string)
    ensures DumpSnbt(origin, toSnbt).Channel() == ErrorChannel <==> HeldMap(origin).Failure?
    ensures DumpSnbt(origin, toSnbt).Channel() == SuccessChannel <==> HeldMap(origin).Success?
    ensures DumpSnbt(origin, toSnbt).Channel() != NotReported
  {
  }

  // ------------------------------------------------------------ round trip

  /** The tag record of a filled map that should report `id`, `isScaling` and
      `nameIndex`. */
  function MapTagFor(id: int64, isScaling: bool, nameIndex: NameIndex): (nbt: Compound)
    ensures MapUuidKey in nbt && MapIsScalingKey in nbt
    ensures MapNameIndexKey in nbt <==> nameIndex.Index?
  {
    var base := map[MapUuidKey := Int64Tag(id), MapIsScalingKey := ByteTag(if isScaling then 1 else 0)];
    match nameIndex
    case NotAvailable => base
    case Index(n) => base[MapNameIndexKey := IntTag(n)]
  }

  /** A report the `get` handler can produce: a real id, and a name index that
      is not the -1 the handler shows as "N/A". */
  predicate Reportable(r: MapReport)
  {
    r.id != NoMapId && (r.nameIndex.Index? ==> r.nameIndex.n != NoNameIndex)
  }

  /** Holding the filled map built by MapTagFor gives back exactly the report
      it was built from, joined with the saved data for its id. */
  lemma RoundTrip(r: MapReport, aux: int, store: MapStore)
    requires Reportable(r)
    requires r.id in store && store[r.id] == MapRecord(r.scale, r.locked, r.originX, r.originZ)
    ensures DecodeGet(PlayerHolding(Item("filled_map", aux, Some(MapTagFor(r.id, r.isScaling, r.nameIndex)))), store)
         == Report(r)
  {
  }

  /** Every map the world has saved data for (other than id -1) can be viewed
      with `get`, and no other map can. */
  lemma ViewableIds(store: MapStore, id: int64)
    requires id != NoMapId
    ensures (exists o :: DecodeGet(o, store).Report? && DecodeGet(o, store).report.id == id) <==> id in store
  {
    if id in store {
      var rec := store[id];
      var r := MapReport(id, rec.scale, rec.locked, rec.originX, rec.originZ, false, NotAvailable);
      RoundTrip(r, 0, store);
    }
  }

  // ------------------------------------------------------------ snbt

  /** An attached tag record is dumped as its text. */
  lemma SnbtDumpsAttachedTag(name: string, aux: int, nbt: Compound, toSnbt: Compound -> string)
    requires name == "map" || name == "filled_map"
    ensures DumpSnbt(PlayerHolding(Item(name, aux, Some(nbt))), toSnbt) == Dump(toSnbt(nbt))
  {
  }

  /** A map without a tag record is a success carrying the failure notice,
      not an error. */
  lemma SnbtWithoutTagIsSoftFailure(name: string, aux: int, toSnbt: Compound -> string)
    requires name == "map" || name == "filled_map"
    ensures DumpSnbt(PlayerHolding(Item(name, aux, None)), toSnbt) == DumpFailed
    ensures DumpFailed.Channel() == SuccessChannel
  {
  }

  /** `snbt` does not tell empty maps from filled ones. */
  lemma SnbtIgnoresMapKind(aux: int, userData: Option<Compound>, toSnbt: Compound -> string)
    ensures DumpSnbt(PlayerHolding(Item("map", aux, userData)), toSnbt)
         == DumpSnbt(PlayerHolding(Item("filled_map", aux, userData)), toSnbt)
  {
  }
}

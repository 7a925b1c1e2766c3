# MapInfo `/mapinfo` command, modelled in Dafny

MapInfo is a server mod that adds a `/mapinfo` command. It has two subcommands
that inspect the map item a player holds:

- `get` checks the guards, then reads `map_uuid`, `map_is_scaling` and
  `map_name_index` from the item's tag record ("NBT"). It looks the id up in
  the world's saved map data and reports the id, scale, lock state, origin
  (x, z), whether the map is scaling and its name index.
- `snbt` checks the same guards, then reports the tag record as text.

Both handlers are modelled as total, stateless functions from the invocation
to an outcome datatype. The host renders that outcome on its success or error
channel.

- `wrappers.dfy`, module `Wrappers`: `Option` (a host pointer that may be null)
  and `Result`.
- `nbt.dfy`, module `Nbt`: the tag record is a map from string keys to a
  variant `Tag`. `Contains` is the presence check. `GetAs`, `GetInt64`,
  `GetByte` and `GetInt` are typed reads that return `Absent`, `Present(v)` or
  `Mismatch(kind)`. Payload widths are newtypes: `int64`, `int32`, `uint8` and
  `int16`.
- `map_info.dfy`, module `MapInfoCommand`:
  - `HeldMap` is the guard chain both handlers share.
  - `ReadMapTag` reads the three fields with their defaults (-1, false, -1).
  - `PreLookup` is the `get` handler up to the lookup in the world's map
    data, and `DecodedId` is the id it then looks up.
  - `DecodeGet` is the `get` handler.
  - `GetOutcome.Channel` and `SnbtOutcome.Channel` say which outcomes go to
    `output.success` and which to `output.error`.
  - `ResolveGet` writes the same handler the way the source does: locals start
    at their defaults, are overwritten step by step, and the method returns
    early. It is proved equal to `DecodeGet`.
  - `DumpSnbt` is the `snbt` handler.
- `properties.dfy`, module `MapInfoProperties`: the properties, stated over all
  invocations. It also holds `MapTagFor`, which builds the tag record for a
  desired report. The round trip through `DecodeGet` uses it, and it is the
  witness that every saved map is viewable.

How the inputs are modelled:

- The world's saved map data (`Level::getMapSavedData` on the player's level)
  is a `map<int64, MapRecord>`. It is passed as a parameter.
- The host's tag-to-text serialisation (`CompoundTag::toString`) is the
  function parameter `toSnbt`.

Two points where the handler's behaviour is narrower than a tag-record
accessor would usually promise:

- A typed read of a key that holds another kind is not checked by the
  handler: it calls `get<Int64Tag>()`, `get<ByteTag>()` and `get<IntTag>()`
  directly. The model therefore has a separate outcome,
  `KindNotHandled(key, kind)`, on channel `NotReported`. It stands for
  behaviour the host library defines, not for a report of the handler. The
  three reads happen in source order, all before the -1 check, so a wrongly
  typed `map_is_scaling` wins over a missing `map_uuid`.
- The "missing uuid" error covers three cases alike: no tag record, no
  `map_uuid` key, or `map_uuid` stored as -1. Likewise a `map_name_index`
  stored as -1 is shown as "N/A", the same as an absent key.

## Model

| member | source | states |
|---|---|---|
| `Nbt.GetAs` | src/mod/MyMod.cpp:98-105 | a key missing from the record (or no record at all) reads as Absent for every kind; a present key reads as Present with its stored value exactly for its own kind, and as Mismatch naming the stored kind otherwise |
| `Nbt.GetInt64` | src/mod/MyMod.cpp:98-100 | `map_uuid`-style read: Present(v) exactly when the key holds Int64Tag(v), Absent exactly when the key is missing, Mismatch otherwise |
| `Nbt.GetByte` | src/mod/MyMod.cpp:101-103 | Present(v) exactly when the key holds ByteTag(v), Absent exactly when missing, Mismatch otherwise |
| `Nbt.GetInt` | src/mod/MyMod.cpp:104-106 | Present(v) exactly when the key holds IntTag(v), Absent exactly when missing, Mismatch otherwise |
| `MapInfoCommand.Classify` | src/mod/MyMod.cpp:80-85 | an id is an empty map exactly when it is "map", a filled map exactly when it is "filled_map", otherwise not a map |
| `MapInfoCommand.HeldMap` | src/mod/MyMod.cpp:70-84 | NotAPlayer exactly when the origin has no entity or a non-player one; EmptyHand exactly for a player with the null item; NotAMap carrying the item's own raw name id exactly for other items; otherwise it yields the carried item, which is a map or a filled map |
| `MapInfoCommand.ReadMapTag` | src/mod/MyMod.cpp:94-106 | on success the id is the Int64Tag value under `map_uuid` when that key is present and -1 when it is missing; scaling is on exactly when `map_is_scaling` is present and is not ByteTag(0); the name index is the IntTag value under `map_name_index` when present and -1 when missing; it fails exactly when one of the three keys holds another kind than the handler reads it as, naming the first such key in source order and the kind it actually holds |
| `MapInfoCommand.PreLookup` | src/mod/MyMod.cpp:70-110 | everything the handler decides before consulting the world's map data: a result decided at this stage is never a report or a not-found, and a stage that goes on to the lookup carries an id other than -1 |
| `MapInfoCommand.DecodedId` | src/mod/MyMod.cpp:107-113 | the id the get handler looks up is never -1, and is the Int64Tag value under `map_uuid` of a held filled map; there is no id exactly when the handler decides before the lookup |
| `MapInfoCommand.DecodeGet` | src/mod/MyMod.cpp:69-137 | rejected exactly when the guard chain rejects, with its reason; not-found exactly when there is a decoded id the store lacks, carrying that id; a report exactly when the store holds the decoded id, with that id and the saved scale, lock and origin x/z; the kind outcome exactly for a filled map whose tag reads fail, naming the first clashing key in source order |
| `MapInfoCommand.ResolveGet` | src/mod/MyMod.cpp:69-137 | the default-then-overwrite version of the handler, with early returns, gives the same outcome as DecodeGet on every origin and store |
| `MapInfoCommand.DumpSnbt` | src/mod/MyMod.cpp:143-168 | the dump is rejected exactly when the guard chain rejects, with the same reason; otherwise it goes to the success channel, with or without a tag record |
| `MapInfoProperties.NonPlayerIsRejected` | src/mod/MyMod.cpp:70-74 | an origin with no entity or a non-player entity gets NotAPlayer from both handlers, whatever is carried and whatever the store holds (lines 144-148 for snbt) |
| `MapInfoProperties.EmptyHandIsRejected` | src/mod/MyMod.cpp:75-79 | a player holding the null item gets EmptyHand from both handlers (lines 150-154 for snbt) |
| `MapInfoProperties.OtherItemIsRejected` | src/mod/MyMod.cpp:80-84 | any item named neither "map" nor "filled_map" is refused by both handlers with an error carrying that exact name, whatever its aux value and tag (lines 156-160 for snbt) |
| `MapInfoProperties.AcceptanceByNameOnly` | src/mod/MyMod.cpp:80-85 | whether an item passes the guard depends only on its raw name id, never on aux value or tag, and it passes exactly for "map" and "filled_map" |
| `MapInfoProperties.EmptyMapReportsAux` | src/mod/MyMod.cpp:85-93 | an empty map gives the empty-map report carrying its aux value, whatever its tag record holds (even wrongly typed keys) and whatever the store holds |
| `MapInfoProperties.FilledMapWithoutUuid` | src/mod/MyMod.cpp:94-110 | a filled map with no tag record, no `map_uuid` key, or `map_uuid` stored as -1 gets the missing-uuid error for every store (given the optional keys are of their expected kinds) |
| `MapInfoProperties.UnknownIdIsNotFound` | src/mod/MyMod.cpp:111-120 | a filled map whose `map_uuid` is an id other than -1 that the store lacks gets not-found carrying exactly that id |
| `MapInfoProperties.ScalingClashBeforeMissingUuid` | src/mod/MyMod.cpp:94-110 | a filled map with no `map_uuid` but a `map_is_scaling` of another kind than a byte reaches that kind clash rather than the missing-uuid error, because all three reads come before the -1 check |
| `MapInfoProperties.ReportOfKnownMap` | src/mod/MyMod.cpp:101-126 | for a stored id the report carries that id, the record's scale, lock and origin x/z, scaling exactly when `map_is_scaling` is present and not ByteTag(0), and "N/A" exactly when `map_name_index` is absent or IntTag(-1), the stored index otherwise |
| `MapInfoProperties.StoreSeenOnlyAtDecodedId` | src/mod/MyMod.cpp:111-114 | two stores that agree at the looked-up id (or any two stores when nothing is looked up) give the same outcome: the lookup uses exactly the decoded id |
| `MapInfoProperties.GetOutcomeChannels` | src/mod/MyMod.cpp:69-137 | `GetOutcome.Channel` on the get handler's outcome: `output.success` exactly for an empty map or a decoded id the store holds; `output.error` exactly for a rejection, a missing id or an id the store lacks; not written by the handler exactly when a tag read meets another kind |
| `MapInfoProperties.SnbtOutcomeChannels` | src/mod/MyMod.cpp:143-168 | `SnbtOutcome.Channel` on the snbt handler's outcome: `output.error` exactly when the guards refuse, `output.success` otherwise, and the handler always writes one of the two |
| `MapInfoProperties.MapTagFor` | src/mod/MyMod.cpp:97-106 | the tag record built for a report holds `map_uuid` and `map_is_scaling`, and holds `map_name_index` exactly when the report has a name index |
| `MapInfoProperties.RoundTrip` | src/mod/MyMod.cpp:94-126 | holding a filled map whose tag record is built from a report (real id, name index not -1) in a world that stores that id's record gives back exactly that report, whatever the aux value |
| `MapInfoProperties.ViewableIds` | src/mod/MyMod.cpp:107-120 | for an id other than -1, some invocation of get reports the map with that id exactly when the store holds that id |
| `MapInfoProperties.SnbtDumpsAttachedTag` | src/mod/MyMod.cpp:162-164 | a map or filled map with a tag record is dumped as that record's text |
| `MapInfoProperties.SnbtWithoutTagIsSoftFailure` | src/mod/MyMod.cpp:165-167 | a map or filled map without a tag record gives the failure notice on the success channel, not an error |
| `MapInfoProperties.SnbtIgnoresMapKind` | src/mod/MyMod.cpp:156-167 | snbt gives the same outcome for "map" and "filled_map" with the same aux value and tag record |

## Left out

- Mod lifecycle: the singleton, load/enable/disable, command and enum
  registration, logging and `LL_REGISTER_MOD` (src/mod/MyMod.cpp:38-67,
  141, 171-177; src/mod/MyMod.h). This is plugin-loader glue with no decision
  logic.
- Rendered messages: the display text, the colour codes, `std::to_string`
  formatting and the yes/no strings. The model keeps the structured fields and
  the "N/A" choice.
- `CompoundTag::toString` (SNBT serialisation) belongs to the host library. It
  is the parameter `toSnbt`, and nothing is proved about its text.
- `Level::getMapSavedData` and `ActorUniqueID` become one map lookup. The
  host's persistence, and the delay before a new map's data becomes visible,
  are not modelled. A map whose data is not yet visible is simply absent from
  the store.
- Reading a key as the wrong kind: the source does not handle this, and what
  happens is up to the host library. It is the separate outcome
  `KindNotHandled`, not a modelled report.
- `ItemStack::isNull` is a null-item variant. What the host counts as null
  (air, a zero count) is not modelled.
- Floating-point tag kinds are not part of the `Tag` datatype.
- The aux value is an unbounded `int`, because its width is defined by the
  host. The record's scale is also an unbounded `int`.

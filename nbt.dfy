/** The host's structured tag records ("NBT"): a compound tag is a mapping from
    string keys to tagged values of one declared kind each, possibly nested.
    Only what the map-info command uses is given an accessor here: presence of
    a key and extraction of a value of an expected kind. */
module Nbt {
  import opened Wrappers

  /** The payload widths of the tag kinds the command reads. */
  newtype uint8 = x: int | 0 <= x < 0x100
  newtype int16 = x: int | -0x8000 <= x < 0x8000
  newtype int32 = x: int | -0x8000_0000 <= x < 0x8000_0000
  newtype int64 = x: int | -0x8000_0000_0000_0000 <= x < 0x8000_0000_0000_0000

  /** One tagged value. Floating-point kinds are not part of this model. */
  datatype Tag =
    | ByteTag(b: uint8)
    | ShortTag(s: int16)
    | IntTag(i: int32)
    | Int64Tag(l: int64)
    | StringTag(str: string)
    | ByteArrayTag(bytes: seq<uint8>)
    | IntArrayTag(ints: seq<int32>)
    | ListTag(elements: seq<Tag>)
    | CompoundTag(entries: map<string, Tag>)

  /** A compound tag record, as attached to an item. */
  type Compound = map<string, Tag>

  /** The declared kind of a tagged value. */
  datatype TagKind =
    ByteKind | ShortKind | IntKind | Int64Kind | StringKind
    | ByteArrayKind | IntArrayKind | ListKind | CompoundKind

  function KindOf(t: Tag): TagKind
  {
    match t
    case ByteTag(_) => ByteKind
    case ShortTag(_) => ShortKind
    case IntTag(_) => IntKind
    case Int64Tag(_) => Int64Kind
    case StringTag(_) => StringKind
    case ByteArrayTag(_) => ByteArrayKind
    case IntArrayTag(_) => IntArrayKind
    case ListTag(_) => ListKind
    case CompoundTag(_) => CompoundKind
  }

  /** Presence check on a possibly missing record: `nbt && nbt->contains(key)`. */
  predicate Contains(nbt: Option<Compound>, key: string)
  {
    nbt.Some? && key in nbt.value
  }

  /** What a typed read finds: nothing under the key, a value of the expected
      kind, or a value of another kind (named by `found`). */
  datatype Read<+T> = Absent | Present(value: T) | Mismatch(found: TagKind)

  /** Reads `key` expecting a value of `kind`. Absence and a kind mismatch are
      both ordinary results. */
  function GetAs(nbt: Option<Compound>, key: string, kind: TagKind): (r: Read<Tag>)
    ensures r.Absent? <==> !Contains(nbt, key)
    ensures r.Present? <==> Contains(nbt, key) && KindOf(nbt.value[key]) == kind
    ensures r.Present? ==> r.value == nbt.value[key]
    ensures r.Mismatch? ==> Contains(nbt, key) && r.found == KindOf(nbt.value[key]) != kind
  {
    if !Contains(nbt, key) then Absent
    else if KindOf(nbt.value[key]) == kind then Present(nbt.value[key])
    else Mismatch(KindOf(nbt.value[key]))
  }

  /** `get<Int64Tag>().data` on the value under `key`. */
  function GetInt64(nbt: Option<Compound>, key: string): (r: Read<int64>)
    ensures r.Absent? <==> !Contains(nbt, key)
    ensures r.Present? <==> Contains(nbt, key) && nbt.value[key].Int64Tag?
    ensures r.Present? ==> nbt.value[key] == Int64Tag(r.value)
    ensures r.Mismatch? ==> r.found == KindOf(nbt.value[key])
  {
    match GetAs(nbt, key, Int64Kind)
    case Absent => Absent
    case Mismatch(k) => Mismatch(k)
    case Present(t) => Present(t.l)
  }

  /** `get<ByteTag>().data` on the value under `key`. */
  function GetByte(nbt: Option<Compound>, key: string): (r: Read<uint8>)
    ensures r.Absent? <==> !Contains(nbt, key)
    ensures r.Present? <==> Contains(nbt, key) && nbt.value[key].ByteTag?
    ensures r.Present? ==> nbt.value[key] == ByteTag(r.value)
    ensures r.Mismatch? ==> r.found == KindOf(nbt.value[key])
  {
    match GetAs(nbt, key, ByteKind)
    case Absent => Absent
    case Mismatch(k) => Mismatch(k)
    case Present(t) => Present(t.b)
  }

  /** `get<IntTag>().data` on the value under `key`. */
  function GetInt(nbt: Option<Compound>, key: string): (r: Read<int32>)
    ensures r.Absent? <==> !Contains(nbt, key)
    ensures r.Present? <==> Contains(nbt, key) && nbt.value[key].IntTag?
    ensures r.Present? ==> nbt.value[key] == IntTag(r.value)
    ensures r.Mismatch? ==> r.found == KindOf(nbt.value[key])
  {
    match GetAs(nbt, key, IntKind)
    case Absent => Absent
    case Mismatch(k) => Mismatch(k)
    case Present(t) => Present(t.i)
  }
}

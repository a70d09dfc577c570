/**
 * The binary tag algebra, as far as the list builder needs it: the thirteen
 * tag kinds and tag values carrying their payloads.
 * Float and double payloads are kept as their IEEE 754 bit patterns.
 */
module Nbt {
  import opened Ints

  datatype TagType =
    | End | Byte | Short | Int | Long | Float | Double
    | ByteArray | String | List | Compound | IntArray | LongArray

  datatype BinaryTag =
    | EndTag
    | ByteTag(byteValue: int8)
    | ShortTag(shortValue: int16)
    | IntTag(intValue: int32)
    | LongTag(longValue: int64)
    | FloatTag(floatBits: bv32)
    | DoubleTag(doubleBits: bv64)
    | ByteArrayTag(bytes: seq<int8>)
    | StringTag(text: string)
    | ListTag(elementType: TagType, elements: seq<BinaryTag>)
    | CompoundTag(entries: map<string, BinaryTag>)
    | IntArrayTag(ints: seq<int32>)
    | LongArrayTag(longs: seq<int64>)
  {
    /** `BinaryTag.type()`. */
    function Type(): (t: TagType)
      ensures t == End <==> this.EndTag?
      ensures t == List <==> this.ListTag?
    {
      match this
      case EndTag => End
      case ByteTag(_) => Byte
      case ShortTag(_) => Short
      case IntTag(_) => Int
      case LongTag(_) => Long
      case FloatTag(_) => Float
      case DoubleTag(_) => Double
      case ByteArrayTag(_) => ByteArray
      case StringTag(_) => String
      case ListTag(_, _) => List
      case CompoundTag(_) => Compound
      case IntArrayTag(_) => IntArray
      case LongArrayTag(_) => LongArray
    }
  }
}

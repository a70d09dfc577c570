/**
 * `ListTagBuilder`: a mutable accumulator of list elements and an element
 * type. End tags are refused; the first accepted tag fixes the element type
 * when none was given; `Build` snapshots the elements.
 */
module ListTags {
  import opened Wrappers
  import opened Nbt

  datatype ListError = IllegalArgument(message: string)

  /** Message of the `IllegalArgumentException` thrown for an End tag. */
  const CannotAddEnd: string := "Cannot add a 'EndBinaryTag' to a 'ListBinaryTag'"

  /** No End tag among the elements. */
  predicate NoEndTags(tags: seq<BinaryTag>) {
    forall k :: 0 <= k < |tags| ==> !tags[k].EndTag?
  }

  class ListTagBuilder {
    var tags: seq<BinaryTag>
    var elementType: TagType

    /** End tags are never stored, and the type is set as soon as a tag is. */
    ghost predicate Valid()
      reads this
    {
      NoEndTags(tags) && (elementType == End ==> tags == [])
    }

    /** `ListTagBuilder()`: untyped and empty. */
    constructor ()
      ensures Valid()
      ensures elementType == End && tags == []
    {
      elementType := End;
      tags := [];
    }

    /** `ListTagBuilder(type)`: typed in advance and empty. */
    constructor OfType(t: TagType)
      ensures Valid()
      ensures elementType == t && tags == []
    {
      elementType := t;
      tags := [];
    }

    /**
     * `add(tag)`: an End tag fails and changes nothing; any other tag is
     * appended, and sets the type if none is set yet. A tag whose type
     * differs from an already-set type is accepted.
     */
    method Add(tag: BinaryTag) returns (r: Result<ListTagBuilder, ListError>)
      requires Valid()
      modifies this
      ensures Valid()
      ensures tag.EndTag? ==> r == Err(IllegalArgument(CannotAddEnd)) && tags == old(tags) && elementType == old(elementType)
      ensures !tag.EndTag? ==> r == Ok(this) && tags == old(tags) + [tag]
      ensures !tag.EndTag? ==> elementType == if old(elementType) == End then tag.Type() else old(elementType)
    {
      if tag.Type() == End {
        return Err(IllegalArgument(CannotAddEnd));
      }
      if elementType == End {
        elementType := tag.Type();
      }
      tags := tags + [tag];
      return Ok(this);
    }

    /** `build()`: a list tag of the current type holding a copy of the current elements. */
    method Build() returns (list: BinaryTag)
      requires Valid()
      ensures list.ListTag? && list.elementType == elementType && list.elements == tags
      ensures NoEndTags(list.elements)
      ensures list.elements != [] ==> list.elementType != End
    {
      list := ListTag(elementType, tags);
    }
  }

  /**
   * A list built before a further add keeps its elements; the second add is
   * accepted even when its type differs from the first.
   */
  method BuildIsSnapshot(first: BinaryTag, second: BinaryTag) returns (before: BinaryTag, after: BinaryTag)
    requires !first.EndTag? && !second.EndTag?
    ensures before == ListTag(first.Type(), [first])
    ensures after == ListTag(first.Type(), [first, second])
  {
    var b := new ListTagBuilder();
    var r := b.Add(first);
    before := b.Build();
    r := b.Add(second);
    after := b.Build();
  }

  /** Adding an End tag to a fresh builder fails, and the builder still builds an empty untyped list. */
  method EndTagRefused() returns (r: Result<ListTagBuilder, ListError>, list: BinaryTag)
    ensures r == Err(IllegalArgument(CannotAddEnd))
    ensures list == ListTag(End, [])
  {
    var b := new ListTagBuilder();
    r := b.Add(EndTag);
    list := b.Build();
  }
}

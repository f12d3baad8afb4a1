/**
 * The ORM objects the serializer works on, as in-memory state: the Tag table
 * behind `Tag.objects`, and a Recipe instance with its field values and its
 * many-to-many `tags` manager (a set of Tag ids).
 */
module Models {
  import opened TagTable

  /** A field value in validated data: opaque for ordinary fields, a list of entries for `tags`. */
  datatype Value = Scalar(raw: string) | TagList(entries: seq<TagInput>)

  /** What a recipe holds: its field values by name, and the ids of its associated tags. */
  datatype RecipeState = RecipeState(attrs: map<string, Value>, tags: set<nat>)

  /** `Tag.objects`: the manager of the Tag table. */
  class TagManager {
    var rows: seq<Tag>
    var nextId: nat

    function State(): TagRows
      reads this
    {
      TagRows(rows, nextId)
    }

    constructor (initial: TagRows)
      ensures State() == initial
    {
      rows := initial.rows;
      nextId := initial.nextId;
    }

    /** `get_or_create(user=user, **entry)`: returns the matching row, or inserts one, or raises. */
    method GetOrCreate(user: UserId, entry: TagInput) returns (lookup: Lookup)
      modifies this
      ensures Resolved(lookup, State()) == TagTable.GetOrCreate(old(State()), user, entry)
    {
      var found := Matching(rows, user, entry.name);
      if |found| == 0 {
        var t := Tag(nextId, user, entry.name);
        rows := rows + [t];
        nextId := nextId + 1;
        lookup := Got(t, true);
      } else if |found| == 1 {
        lookup := Got(found[0], false);
      } else {
        lookup := MultipleObjectsReturned;
      }
    }
  }

  /**
   * A Recipe instance. Its id is set when the row is created and never changes; its
   * owner is the `user` field value, as every other field, set from what create supplies.
   */
  class Recipe {
    const id: nat
    var attrs: map<string, Value>
    var tags: set<nat>

    function State(): RecipeState
      reads this
    {
      RecipeState(attrs, tags)
    }

    /** `Recipe.objects.create(**fields)`: a new row with no tag associations yet. */
    constructor (id: nat, fields: map<string, Value>)
      ensures this.id == id
      ensures State() == RecipeState(fields, {})
    {
      this.id := id;
      attrs := fields;
      tags := {};
    }

    /** `recipe.tags.add(tag)`: adding an associated tag again changes nothing. */
    method AddTag(tag: Tag)
      modifies this`tags
      ensures tags == old(tags) + {tag.id}
    {
      tags := tags + {tag.id};
    }

    /** `recipe.tags.clear()`. */
    method ClearTags()
      modifies this`tags
      ensures tags == {}
    {
      tags := {};
    }

    /** `setattr(recipe, name, value)`. */
    method SetAttr(name: string, value: Value)
      modifies this`attrs
      ensures attrs == old(attrs)[name := value]
    {
      attrs := attrs[name := value];
    }
  }
}

/**
 * RecipeSerializer's write paths: `_get_or_create_tags`, `create` and `update`.
 *
 * Validated data is a map from field name to value; the `tags` entry, when
 * present, holds the validated nested tag list. The requesting user is a
 * parameter. An exception raised by get-or-create is returned as `failed`,
 * with the state reached before it.
 */
module RecipeSerializer {
  import opened TagTable
  import opened Reconcile
  import opened Models

  /** The shape validation guarantees: the `tags` entry, when present, is a tag list. */
  predicate TagsValidated(data: map<string, Value>)
  {
    "tags" in data ==> data["tags"].TagList?
  }

  /** `validated_data.pop('tags', [])`: the tag list, empty when the key is absent. */
  function TagsOrEmpty(data: map<string, Value>): seq<TagInput>
    requires TagsValidated(data)
  {
    if "tags" in data then data["tags"].entries else []
  }

  /** The other fields, once `tags` has been popped. */
  function OtherFields(data: map<string, Value>): map<string, Value>
  {
    data - {"tags"}
  }

  /** The Tag table, the recipe afterwards, and whether an exception was raised. */
  datatype Outcome = Outcome(db: TagRows, recipe: RecipeState, failed: bool)

  /** What `create` leaves behind. */
  function CreateSpec(db: TagRows, user: UserId, data: map<string, Value>): Outcome
    requires TagsValidated(data)
  {
    var r := AddTags(Run(db, {}, false), user, TagsOrEmpty(data));
    Outcome(r.db, RecipeState(OtherFields(data), r.attached), r.failed)
  }

  /** What `update` leaves behind: the fields are assigned only if tag reconciliation did not raise. */
  function UpdateSpec(db: TagRows, user: UserId, before: RecipeState, data: map<string, Value>): Outcome
    requires TagsValidated(data)
  {
    if "tags" !in data then
      Outcome(db, RecipeState(before.attrs + OtherFields(data), before.tags), false)
    else
      var r := AddTags(Run(db, {}, false), user, data["tags"].entries);
      var attrs := if r.failed then before.attrs else before.attrs + OtherFields(data);
      Outcome(r.db, RecipeState(attrs, r.attached), r.failed)
  }

  /** `_get_or_create_tags(tags, recipe)`. */
  method GetOrCreateTags(manager: TagManager, user: UserId, entries: seq<TagInput>, recipe: Recipe)
    returns (failed: bool)
    modifies manager, recipe`tags
    ensures Run(manager.State(), recipe.tags, failed)
         == AddTags(Run(old(manager.State()), old(recipe.tags), false), user, entries)
  {
    ghost var start := Run(manager.State(), recipe.tags, false);
    failed := false;
    var i := 0;
    while i < |entries|
      invariant i <= |entries|
      invariant Run(manager.State(), recipe.tags, false) == AddTags(start, user, entries[..i])
    {
      assert entries[..i + 1][..i] == entries[..i];
      var lookup := manager.GetOrCreate(user, entries[i]);
      if lookup.MultipleObjectsReturned? {
        failed := true;
        FailureSticks(start, user, entries, i + 1);
        return;
      }
      recipe.AddTag(lookup.tag);
      i := i + 1;
    }
    assert entries[..i] == entries;
  }

  /** `create(validated_data)`; `id` is the one the database assigns to the new row. */
  method Create(manager: TagManager, user: UserId, id: nat, data: map<string, Value>)
    returns (recipe: Recipe, failed: bool)
    requires TagsValidated(data)
    modifies manager
    ensures fresh(recipe) && recipe.id == id
    ensures Outcome(manager.State(), recipe.State(), failed) == CreateSpec(old(manager.State()), user, data)
  {
    var tags := TagsOrEmpty(data);
    recipe := new Recipe(id, OtherFields(data));
    failed := GetOrCreateTags(manager, user, tags, recipe);
  }

  /** `update(instance, validated_data)`; `save()` writes back what the model already holds. */
  method Update(manager: TagManager, user: UserId, instance: Recipe, data: map<string, Value>)
    returns (failed: bool)
    requires TagsValidated(data)
    modifies manager, instance
    ensures Outcome(manager.State(), instance.State(), failed)
         == UpdateSpec(old(manager.State()), user, old(instance.State()), data)
  {
    var fields := OtherFields(data);
    failed := false;
    if "tags" in data {
      instance.ClearTags();
      failed := GetOrCreateTags(manager, user, data["tags"].entries, instance);
      if failed {
        return;
      }
    }
    ghost var db := manager.State();
    ghost var tags := instance.tags;
    var pending := fields.Keys;
    while pending != {}
      invariant pending <= fields.Keys
      invariant instance.attrs == old(instance.attrs) + (map k | k in fields && k !in pending :: fields[k])
      invariant manager.State() == db && instance.tags == tags
      decreases pending
    {
      var k :| k in pending;
      instance.SetAttr(k, fields[k]);
      pending := pending - {k};
    }
    assert (map k | k in fields && k !in pending :: fields[k]) == fields;
  }

  /** `create` without a `tags` key: no tag is associated and the Tag table is untouched. */
  lemma CreateWithoutTags(db: TagRows, user: UserId, data: map<string, Value>)
    requires "tags" !in data
    ensures CreateSpec(db, user, data) == Outcome(db, RecipeState(data, {}), false)
  {
  }

  /**
   * `create` with a tag list: the recipe shows exactly the names in the list, every
   * associated tag belongs to the user, and the fields are the other supplied ones.
   */
  lemma CreateTagNames(db: TagRows, user: UserId, data: map<string, Value>)
    requires TagsValidated(data) && Valid(db) && Unique(db)
    ensures var o := CreateSpec(db, user, data);
      !o.failed && Valid(o.db) && Unique(o.db) &&
      TagNames(o.db, o.recipe.tags) == EntryNames(TagsOrEmpty(data)) &&
      (forall t :: t in o.db.rows && t.id in o.recipe.tags ==> t.user == user) &&
      "tags" !in o.recipe.attrs &&
      (forall k :: k in data && k != "tags" ==> k in o.recipe.attrs && o.recipe.attrs[k] == data[k])
  {
    AddTagsAttaches(Run(db, {}, false), user, TagsOrEmpty(data));
    FreshAttachNames(db, user, TagsOrEmpty(data));
  }

  /** Two recipes created by one user with the same tag name share one Tag row. */
  lemma CreateTwiceSharesTag(db: TagRows, user: UserId, first: map<string, Value>, second: map<string, Value>, name: string)
    requires TagsValidated(first) && TagsValidated(second) && Valid(db) && Unique(db)
    requires name in EntryNames(TagsOrEmpty(first)) && name in EntryNames(TagsOrEmpty(second))
    ensures var o1 := CreateSpec(db, user, first);
      var o2 := CreateSpec(o1.db, user, second);
      exists t :: t in o2.db.rows && IsMatch(t, user, name) &&
        IdsFor(o1.db, user, {name}) == IdsFor(o2.db, user, {name}) == {t.id} &&
        t.id in o1.recipe.tags && t.id in o2.recipe.tags
  {
    var o1 := CreateSpec(db, user, first);
    AddTagsAttaches(Run(db, {}, false), user, TagsOrEmpty(first));
    var o2 := CreateSpec(o1.db, user, second);
    AddTagsAttaches(Run(o1.db, {}, false), user, TagsOrEmpty(second));
    var t :| t in o1.db.rows && IsMatch(t, user, name);
    CoversExtends(o1.db, o2.db, user, {name});
    assert t in o2.db.rows by {
      var i :| 0 <= i < |o1.db.rows| && o1.db.rows[i] == t;
      assert o2.db.rows[i] == t;
    }
    IdsForSingle(o1.db, user, t);
    IdsForSingle(o2.db, user, t);
  }

  /** `update` without a `tags` key leaves the associations and the Tag table as they were. */
  lemma UpdateWithoutTagsKeepsTags(db: TagRows, user: UserId, before: RecipeState, data: map<string, Value>)
    requires "tags" !in data
    ensures var o := UpdateSpec(db, user, before, data);
      !o.failed && o.db == db && o.recipe.tags == before.tags
  {
  }

  /**
   * `update` with a tag list replaces the associations: the recipe shows exactly the
   * names in the list, all owned by the user, whatever it showed before; an empty
   * list leaves no association at all.
   */
  lemma UpdateReplacesTags(db: TagRows, user: UserId, before: RecipeState, data: map<string, Value>)
    requires TagsValidated(data) && "tags" in data && Valid(db) && Unique(db)
    ensures var o := UpdateSpec(db, user, before, data);
      !o.failed && Valid(o.db) && Unique(o.db) &&
      TagNames(o.db, o.recipe.tags) == EntryNames(data["tags"].entries) &&
      (forall t :: t in o.db.rows && t.id in o.recipe.tags ==> t.user == user) &&
      (data["tags"].entries == [] ==> o.recipe.tags == {})
  {
    AddTagsAttaches(Run(db, {}, false), user, data["tags"].entries);
    FreshAttachNames(db, user, data["tags"].entries);
  }

  /**
   * `update` assigns every supplied field other than `tags` and keeps every other field,
   * unless tag reconciliation raised, in which case no field is assigned.
   */
  lemma UpdateOverwritesFields(db: TagRows, user: UserId, before: RecipeState, data: map<string, Value>)
    requires TagsValidated(data)
    ensures var o := UpdateSpec(db, user, before, data);
      (o.failed ==> o.recipe.attrs == before.attrs) &&
      (!o.failed ==>
        o.recipe.attrs.Keys == before.attrs.Keys + (data.Keys - {"tags"}) &&
        (forall k :: k in data && k != "tags" ==> o.recipe.attrs[k] == data[k]) &&
        (forall k :: k in before.attrs && k !in data ==> o.recipe.attrs[k] == before.attrs[k]))
  {
  }

  /**
   * The three cases of `update` differ on a recipe that has tags: an absent key keeps
   * them, an empty list removes them all, a list of one name leaves that name only.
   */
  lemma UpdateThreeCases(db: TagRows, user: UserId, before: RecipeState, name: string)
    requires Valid(db) && Unique(db) && before.tags != {}
    ensures UpdateSpec(db, user, before, map[]).recipe.tags == before.tags
    ensures UpdateSpec(db, user, before, map["tags" := TagList([])]).recipe.tags == {}
    ensures var o := UpdateSpec(db, user, before, map["tags" := TagList([TagInput(name)])]);
      o.recipe.tags != {} && TagNames(o.db, o.recipe.tags) == {name}
  {
    var one := map["tags" := TagList([TagInput(name)])];
    UpdateReplacesTags(db, user, before, one);
    assert EntryNames([TagInput(name)]) == {name};
  }
}

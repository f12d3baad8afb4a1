# Recipe serializer tag reconciliation — a Dafny model

This project models the write side of the recipe API's `RecipeSerializer` (app/recipe/serializers.py).
When a recipe is created or updated with a nested list of tags, each tag entry is resolved
against the Tag table. The lookup is get-or-create, scoped to the requesting user. The resolved
tags become the recipe's tag associations. The model also covers the field lists (`Meta.fields`,
`Meta.read_only_fields`) of the four serializers.

Files and modules:

- `fields.dfy` — module `Fields`. The `Meta` options of IngredientSerializer, TagSerializer,
  RecipeSerializer and RecipeDetailSerializer as constant sequences, plus `Writable`: the fields a client
  may write (exposed and not read-only).
- `tag_table.dfy` — module `TagTable`. The Tag table as a sequence of rows
  `Tag(id, user, name)` with the next id the database assigns. `GetOrCreate` is the pure meaning of
  `Tag.objects.get_or_create(user=u, **tag)`:
  - one matching row is returned;
  - no matching row inserts a new one;
  - several matching rows raise MultipleObjectsReturned.
- `reconcile.dfy` — module `Reconcile`. `AddTags` is the pure meaning of the loop in
  `_get_or_create_tags`: the table and the recipe's set of tag ids after the first k entries.
  It also holds the lemmas about that loop.
- `models.dfy` — module `Models`. The ORM objects as classes whose methods update fields in place.
  `TagManager` stands for `Tag.objects`. `Recipe` holds a field map and its `tags` set, with
  `AddTag` (`tags.add`), `ClearTags` (`tags.clear`) and `SetAttr` (`setattr`).
- `recipe_serializer.dfy` — module `RecipeSerializer`. The methods `GetOrCreateTags`, `Create` and `Update`,
  each proved against a specification function (`AddTags`, `CreateSpec`, `UpdateSpec`). It also holds the lemmas
  about create and update.

Modelling choices:

- The requesting user is a parameter (`user`). Tag lookups are scoped to this user.
- A nested tag entry is `TagInput(name)`. TagSerializer exposes only `id` (read-only) and `name`, so
  a validated entry carries at most `name` (`Fields.TagWritesOnlyName`). On a full write `name` is
  required, so the entry carries exactly `name`, and the lookup `user=u, **tag` is
  `user == u && name == n`. Entries without `name` are listed under "## Left out".
- Nothing in this code makes (user, name) unique in the Tag table. Tags can be renamed through the
  tag endpoints, and two requests can race. The model therefore does not assume uniqueness.
  `GetOrCreate` returns `MultipleObjectsReturned` when several rows match. The serializer methods
  report that exception as `failed = true`, together with the state reached before it: rows
  created and associations added earlier stay, because nothing wraps the walk in a transaction.
  The lemmas show that a table without duplicates (`Unique`) never makes the walk fail, and that
  the walk keeps the table without duplicates.
- Validated data is a `map<string, Value>`. Ordinary field values are opaque (`Scalar`), and
  `tags` holds a `TagList`. `TagsValidated` states the only shape the code relies on: a `tags` value
  is a list.
- `validated_data.pop('tags', [])` in `create` is `TagsOrEmpty`. The `pop('tags', None)` /
  `is not None` test in `update` is `"tags" in data`. Absent, empty and non-empty are three
  different outcomes (`UpdateThreeCases`).
- The source's `validated_data.items()` in `update` walks the remaining keys in insertion order. The
  model's loop picks the keys in any order, which includes insertion order. Keys are distinct, so every
  order gives the same result, `before.attrs + OtherFields(data)`.
- The recipe's new id comes from the database and is a parameter of `Create`.

## Model

| member | source | states |
|---|---|---|
| `TagTable.IsMatch` | app/recipe/serializers.py:41-44 | the lookup filter `user=auth_user, **tag`: a row matches when it is owned by the requesting user and has the entry's name (no `ensures`; helper predicate) |
| `TagTable.Matching` | app/recipe/serializers.py:41-44 | the rows selected by the lookup filter are exactly the table's rows owned by the user with that name |
| `TagTable.GetOrCreate` | app/recipe/serializers.py:41-44 | it raises MultipleObjectsReturned exactly when the filter selects two or more rows; a returned tag is owned by the requesting user, has the entry's name, and is in the table afterwards; a row is created exactly when the filter selects none; finding a row or raising leaves the table unchanged |
| `TagTable.MatchingAtMostOne` | app/recipe/serializers.py:41-44 | in a table without duplicate (user, name) the lookup selects at most one row |
| `TagTable.GetOrCreateReturnsExisting` | app/recipe/serializers.py:41-44 | on a valid table, when the user has exactly one row with that name, that row is returned and nothing is created, even if other names have duplicate rows |
| `TagTable.MatchingOnlyOne` | app/recipe/serializers.py:41-44 | on a valid table, when every row the filter accepts is one and the same row, the filter selects at most one row, whatever duplicates other names have |
| `TagTable.GetOrCreateCreatesWhenAbsent` | app/recipe/serializers.py:41-44 | when the user has no row with that name, one row owned by the user is appended, under an id no existing row has |
| `TagTable.GetOrCreatePreserves` | app/recipe/serializers.py:41-44 | on a valid table without duplicates get-or-create never raises, and keeps the table valid, without duplicates and with its old rows in place |
| `TagTable.GetOrCreateRaisesOnDuplicate` | app/recipe/serializers.py:41-44 | two rows of the user with the entry's name make get-or-create raise MultipleObjectsReturned and leave the table unchanged |
| `TagTable.GetOrCreateIdempotent` | app/recipe/serializers.py:41-44 | a second identical call returns the same row and creates nothing |
| `Reconcile.AddTags` | app/recipe/serializers.py:37-45 | the tag walk only adds associations, never removes one, only appends rows to the table, and after an exception changes nothing more |
| `Reconcile.FailureSticks` | app/recipe/serializers.py:40-45 | once an entry has raised, the later entries are not processed |
| `Reconcile.AddOneTag` | app/recipe/serializers.py:41-45 | one loop step in a table without duplicates attaches the row for the entry's name, creating it only if missing |
| `Reconcile.AddTagsAttaches` | app/recipe/serializers.py:37-45 | in a table without duplicates the walk never raises, keeps the table without duplicates, gives every supplied name a row of the user, and leaves attached exactly the old associations plus the user's rows for the supplied names |
| `Reconcile.AttachedAreOwned` | app/recipe/serializers.py:39-45 | on any valid table, with or without duplicates and whether or not an entry raises, the walk keeps the table valid and every newly attached id is that of a row of the requesting user |
| `Reconcile.ForeignTagsNeverAttached` | app/recipe/serializers.py:39-45 | on any valid table, with or without duplicates and whether or not an entry raises, a row owned by another user is never attached by the walk, whatever its name |
| `Reconcile.FreshAttachNames` | app/recipe/serializers.py:40-45 | on a valid table without duplicate (user, name), from no associations, the walk never raises, the recipe's tag names are exactly the set of supplied names and every attached tag is the user's |
| `Reconcile.RepeatedNameAttachesOnce` | app/recipe/serializers.py:40-45 | on a valid table without duplicate (user, name), a list repeating one name attaches exactly one tag |
| `Models.TagManager.GetOrCreate` | app/recipe/serializers.py:41-44 | the table and the answer after the ORM call are those `TagTable.GetOrCreate` gives for the table before |
| `Models.Recipe.constructor` | app/recipe/serializers.py:51 | a newly created recipe holds the supplied fields and no tag associations |
| `Models.Recipe.AddTag` | app/recipe/serializers.py:45 | adding a tag puts its id in the association set; adding it again changes nothing |
| `Models.Recipe.ClearTags` | app/recipe/serializers.py:60 | clearing leaves no association |
| `Models.Recipe.SetAttr` | app/recipe/serializers.py:64 | one field is overwritten and every other field is kept |
| `RecipeSerializer.TagsOrEmpty` | app/recipe/serializers.py:50 | `validated_data.pop('tags', [])`: the supplied tag list, or the empty list when the key is absent (no `ensures`; helper) |
| `RecipeSerializer.OtherFields` | app/recipe/serializers.py:50-58 | the validated data once `tags` has been popped, as in `create` and `update` (no `ensures`; helper) |
| `RecipeSerializer.CreateSpec` | app/recipe/serializers.py:48-54 | what `create` leaves behind: the other fields stored, tags reconciled from no associations with an empty default list. It has no `ensures`; `CreateWithoutTags`, `CreateTagNames` and `CreateTwiceSharesTag` state its meaning |
| `RecipeSerializer.UpdateSpec` | app/recipe/serializers.py:56-67 | what `update` leaves behind: with no `tags` key the associations are kept; otherwise they are cleared and the list reconciled; the other fields are overwritten unless reconciliation raised. It has no `ensures`; `UpdateWithoutTagsKeepsTags`, `UpdateReplacesTags`, `UpdateOverwritesFields` and `UpdateThreeCases` state its meaning |
| `RecipeSerializer.GetOrCreateTags` | app/recipe/serializers.py:37-45 | the loop leaves the table, the recipe's associations and the exception flag as `Reconcile.AddTags` gives them from the state before |
| `RecipeSerializer.Create` | app/recipe/serializers.py:48-54 | a fresh recipe under the new id, with the table, fields, associations and exception flag given by `CreateSpec` |
| `RecipeSerializer.Update` | app/recipe/serializers.py:56-67 | the table, the recipe's fields and associations and the exception flag are those `UpdateSpec` gives for the state before |
| `RecipeSerializer.CreateWithoutTags` | app/recipe/serializers.py:50-52 | create without a `tags` key associates no tag, leaves the Tag table unchanged and stores the supplied fields |
| `RecipeSerializer.CreateTagNames` | app/recipe/serializers.py:50-52 | create never raises on a table without duplicates; the recipe's tag names equal the set of supplied names; all its tags are the user's; its fields are the other supplied ones and `tags` is not among them |
| `RecipeSerializer.CreateTwiceSharesTag` | app/recipe/serializers.py:41-52 | on a valid table without duplicate (user, name), two creates by one user naming the same tag resolve to one and the same Tag row, associated with both recipes |
| `RecipeSerializer.UpdateWithoutTagsKeepsTags` | app/recipe/serializers.py:58-59 | update without a `tags` key leaves the associations and the Tag table exactly as they were |
| `RecipeSerializer.UpdateReplacesTags` | app/recipe/serializers.py:58-61 | on a valid table without duplicate (user, name), update with a `tags` list never raises and replaces the associations rather than merging them: the tag names become exactly the supplied set, all the user's, and an empty list leaves none |
| `RecipeSerializer.UpdateOverwritesFields` | app/recipe/serializers.py:58-66 | update overwrites each supplied field other than `tags`, keeps every field not supplied, adds no other key, and assigns nothing if tag reconciliation raised |
| `RecipeSerializer.UpdateThreeCases` | app/recipe/serializers.py:58-61 | on a valid table without duplicate (user, name) and a recipe with tags, an absent key keeps them, an empty list removes them all, and a one-name list leaves exactly that name |
| `Fields.Writable` | app/recipe/serializers.py:22-25 | the writable fields are exactly the exposed fields that are not read-only |
| `Fields.DetailIsBasePlusDescription` | app/recipe/serializers.py:69-72 | the detail field list is the base recipe list followed by `description`; the base list lacks `description`; the read-only list is inherited |
| `Fields.IdReadOnlyEverywhere` | app/recipe/serializers.py:14-72 | every serializer exposes `id`, marks it read-only, and never lets a client write it |
| `Fields.TagWritesOnlyName` | app/recipe/serializers.py:22-25 | a nested tag entry can carry only `name` |
| `Fields.RecipeWritableFields` | app/recipe/serializers.py:32-35 | a recipe write may carry title, time_minutes, price, link and tags, and for the detail serializer also description |

## Left out

- The serializer framework's parsing and validation, including `to_representation` and the nested
  `TagSerializer(many=True)` parsing. The model starts from validated data and requires only that a
  `tags` value is a list (`TagsValidated`).
- The request context: `self.context['request'].user` becomes the parameter `user`. A missing
  request or an unauthenticated caller is not modelled.
- Persistence round trips. `Recipe.objects.create`, the many-to-many writes and `instance.save()`
  are in-memory updates of the model's state. `save()` changes nothing here.
- Model defaults for fields a create does not supply. The Recipe model's field definitions
  (core/models.py) are not part of this model. A created recipe holds exactly the supplied fields.
- Field value types: `price` is a decimal and `time_minutes` an integer, but all values are opaque here.
- Concurrency: two requests racing on get-or-create for the same (user, name) are not modelled.
  Duplicates that exist beforehand are modelled, and they take the MultipleObjectsReturned path.
- IngredientSerializer has no logic; only its field lists are modelled.
- The owner of a created recipe: the source takes it from a `user` entry that the caller adds to the validated data (the view saves with user = the requesting user). Here it is an ordinary opaque field value in the data. The model does not state that the stored owner equals the user that tag lookups are scoped to.
- Name comparison: the model compares tag names by exact, case-sensitive string equality. The database's own comparison for the `name=` filter can be case-insensitive under some collations.
- Nested tag entries without `name`: on a partial update (PATCH) required fields are not enforced,
  and that includes fields inside the nested `tags` entries. An entry `{}` can therefore reach
  `get_or_create(user=auth_user)`. That lookup matches on the user alone: one tag of the user is
  returned whatever its name, two or more raise, and none creates a tag with the default name.
  `TagInput` always carries a name, so this case is not modelled.
- Exceptions are not raised: each method returns a `failed` flag with the state reached so far.

/**
 * The `Meta` options of the four serializers: the fields each exposes and the
 * ones it marks read-only. RecipeDetailSerializer's `Meta` derives from
 * RecipeSerializer's, so it overrides `fields` and inherits `read_only_fields`.
 */
module Fields {

  /** A serializer's `Meta.fields` and `Meta.read_only_fields`. */
  datatype Meta = Meta(fields: seq<string>, readOnly: seq<string>)

  const IngredientMeta := Meta(["id", "name"], ["id"])

  const TagMeta := Meta(["id", "name"], ["id"])

  const RecipeMeta := Meta(["id", "title", "time_minutes", "price", "link", "tags"], ["id"])

  /** `class Meta(RecipeSerializer.Meta)` with `fields = RecipeSerializer.Meta.fields + ['description']`. */
  const RecipeDetailMeta := Meta(RecipeMeta.fields + ["description"], RecipeMeta.readOnly)

  const AllMetas := [IngredientMeta, TagMeta, RecipeMeta, RecipeDetailMeta]

  /** The fields a client may write, in declaration order: exposed and not read-only. */
  function Writable(fields: seq<string>, readOnly: seq<string>): (w: seq<string>)
    ensures forall f :: f in w <==> f in fields && f !in readOnly
    ensures |w| <= |fields|
    decreases |fields|
  {
    if fields == [] then []
    else
      var rest := Writable(fields[1..], readOnly);
      assert forall f :: f in fields <==> f == fields[0] || f in fields[1..];
      if fields[0] in readOnly then rest else [fields[0]] + rest
  }

  /** Filtering a concatenation filters each part. */
  lemma {:induction false} WritableAppend(a: seq<string>, b: seq<string>, readOnly: seq<string>)
    ensures Writable(a + b, readOnly) == Writable(a, readOnly) + Writable(b, readOnly)
    decreases |a|
  {
    if a != [] {
      assert (a + b)[1..] == a[1..] + b;
      WritableAppend(a[1..], b, readOnly);
    } else {
      assert a + b == b;
    }
  }

  /** With nothing read-only among them, every field is writable. */
  lemma {:induction false} WritableAll(fields: seq<string>, readOnly: seq<string>)
    requires forall i :: 0 <= i < |fields| ==> fields[i] !in readOnly
    ensures Writable(fields, readOnly) == fields
    decreases |fields|
  {
    if fields != [] {
      WritableAll(fields[1..], readOnly);
    }
  }

  /** The detail view shows the list view's fields in the same order, then `description`, which the list view lacks. */
  lemma DetailIsBasePlusDescription()
    ensures RecipeDetailMeta.fields[..|RecipeMeta.fields|] == RecipeMeta.fields
    ensures RecipeDetailMeta.fields == RecipeMeta.fields + ["description"]
    ensures "description" !in RecipeMeta.fields && "description" in RecipeDetailMeta.fields
    ensures RecipeDetailMeta.readOnly == RecipeMeta.readOnly
  {
  }

  /** Every serializer exposes `id` and no client can write it. */
  lemma IdReadOnlyEverywhere()
    ensures forall m :: m in AllMetas ==>
      "id" in m.fields && "id" in m.readOnly && "id" !in Writable(m.fields, m.readOnly)
  {
  }

  /** A validated nested tag entry carries `name` and nothing else. */
  lemma TagWritesOnlyName()
    ensures Writable(TagMeta.fields, TagMeta.readOnly) == ["name"]
  {
  }

  /** What a recipe write may carry: every exposed field but `id`, `tags` included. */
  lemma RecipeWritableFields()
    ensures Writable(RecipeMeta.fields, RecipeMeta.readOnly) == ["title", "time_minutes", "price", "link", "tags"]
    ensures Writable(RecipeDetailMeta.fields, RecipeDetailMeta.readOnly)
         == ["title", "time_minutes", "price", "link", "tags", "description"]
  {
    var base := RecipeMeta.fields;
    WritableAll(base[1..], RecipeMeta.readOnly);
    WritableAll(["description"], RecipeMeta.readOnly);
    WritableAppend(base, ["description"], RecipeMeta.readOnly);
  }
}

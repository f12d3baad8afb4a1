/**
 * What `RecipeSerializer._get_or_create_tags` does to the Tag table and to a
 * recipe's tag associations, as a pure function of the entries processed so far.
 *
 * Entries are handled in order; each is resolved by get-or-create and its row is
 * added to the association set (adding an id already there changes nothing).
 * MultipleObjectsReturned stops the walk: rows created and associations added
 * before it stay, nothing after it happens.
 */
module Reconcile {
  import opened TagTable

  /** The Tag table, the recipe's associated tag ids, and whether an exception stopped the walk. */
  datatype Run = Run(db: TagRows, attached: set<nat>, failed: bool)

  /** The names a tag list asks for. */
  function EntryNames(entries: seq<TagInput>): set<string>
  {
    set e | e in entries :: e.name
  }

  /** The names of a non-empty list: those of all but its last entry, and the last one's. */
  lemma EntryNamesLast(entries: seq<TagInput>)
    requires entries != []
    ensures EntryNames(entries) == EntryNames(entries[..|entries| - 1]) + {entries[|entries| - 1].name}
  {
  }

  /** The ids of `user`'s rows whose name is one of `names`. */
  ghost function IdsFor(db: TagRows, user: UserId, names: set<string>): set<nat>
  {
    set t | t in db.rows && t.user == user && t.name in names :: t.id
  }

  /** The names of the rows whose ids are in `ids`: what a recipe's `tags` shows. */
  ghost function TagNames(db: TagRows, ids: set<nat>): set<string>
  {
    set t | t in db.rows && t.id in ids :: t.name
  }

  /** Every name in `names` has a row owned by `user`. */
  ghost predicate Covers(db: TagRows, user: UserId, names: set<string>)
  {
    forall n :: n in names ==> exists t :: t in db.rows && IsMatch(t, user, n)
  }

  /** The loop of `_get_or_create_tags` over `entries`, starting from `run`. */
  function AddTags(run: Run, user: UserId, entries: seq<TagInput>): (r: Run)
    ensures run.attached <= r.attached
    ensures run.failed ==> r == run
    ensures Extends(run.db, r.db)
    decreases |entries|
  {
    if entries == [] then run
    else
      var prev := AddTags(run, user, entries[..|entries| - 1]);
      if prev.failed then prev
      else
        match GetOrCreate(prev.db, user, entries[|entries| - 1])
        case Resolved(Got(t, _), db) => Run(db, prev.attached + {t.id}, false)
        case Resolved(MultipleObjectsReturned, db) => Run(db, prev.attached, true)
  }

  /** Once an entry has raised, the entries after it change nothing. */
  lemma {:induction false} FailureSticks(run: Run, user: UserId, entries: seq<TagInput>, k: nat)
    requires k <= |entries|
    requires AddTags(run, user, entries[..k]).failed
    ensures AddTags(run, user, entries) == AddTags(run, user, entries[..k])
    decreases |entries|
  {
    if k < |entries| {
      var init := entries[..|entries| - 1];
      assert init[..k] == entries[..k];
      FailureSticks(run, user, init, k);
    } else {
      assert entries[..k] == entries;
    }
  }

  /** Under Unique, the ids for one name owned by `user` are the id of its one row. */
  lemma IdsForSingle(db: TagRows, user: UserId, t: Tag)
    requires Unique(db) && t in db.rows && t.user == user
    ensures IdsFor(db, user, {t.name}) == {t.id}
  {
  }

  /** Rows that are kept keep covering the names they covered. */
  lemma CoversExtends(a: TagRows, b: TagRows, user: UserId, names: set<string>)
    requires Covers(a, user, names) && Extends(a, b)
    ensures Covers(b, user, names)
  {
  }

  /** The bookkeeping of one step, whether the row `t` for name `n` was found or just appended. */
  lemma StepIds(before: TagRows, after: TagRows, user: UserId, t: Tag, names: set<string>, attached: set<nat>, start: set<nat>)
    requires Unique(after) && Extends(before, after) && t in after.rows && t.user == user
    requires after == before || (after.rows == before.rows + [t] && t.name !in names)
    requires Covers(before, user, names)
    requires attached == start + IdsFor(before, user, names)
    ensures Covers(after, user, names + {t.name})
    ensures attached + {t.id} == start + IdsFor(after, user, names + {t.name})
  {
  }

  /** One step of the walk in a table without duplicates: the row for the entry's name is attached. */
  lemma AddOneTag(prev: Run, user: UserId, e: TagInput, names: set<string>, start: set<nat>)
    requires Valid(prev.db) && Unique(prev.db) && !prev.failed
    requires Covers(prev.db, user, names)
    requires prev.attached == start + IdsFor(prev.db, user, names)
    ensures var res := GetOrCreate(prev.db, user, e);
      res.lookup.Got? &&
      Valid(res.db) && Unique(res.db) && Extends(prev.db, res.db) &&
      Covers(res.db, user, names + {e.name}) &&
      prev.attached + {res.lookup.tag.id} == start + IdsFor(res.db, user, names + {e.name})
  {
    var res := GetOrCreate(prev.db, user, e);
    GetOrCreatePreserves(prev.db, user, e);
    if res.lookup.created {
      GetOrCreateCreatesWhenAbsent(prev.db, user, e);
    }
    StepIds(prev.db, res.db, user, res.lookup.tag, names, prev.attached, start);
  }

  /**
   * In a table without duplicates the walk never fails, keeps the table valid and
   * without duplicates, and attaches exactly the rows of `user` named in `entries`
   * on top of what was attached before, creating the ones that are missing.
   */
  lemma {:induction false} AddTagsAttaches(run: Run, user: UserId, entries: seq<TagInput>)
    requires Valid(run.db) && Unique(run.db) && !run.failed
    ensures var r := AddTags(run, user, entries);
      !r.failed && Valid(r.db) && Unique(r.db) &&
      Covers(r.db, user, EntryNames(entries)) &&
      r.attached == run.attached + IdsFor(r.db, user, EntryNames(entries))
    decreases |entries|
  {
    if entries == [] {
      assert EntryNames(entries) == {};
      assert IdsFor(run.db, user, {}) == {};
    } else {
      var init := entries[..|entries| - 1];
      var e := entries[|entries| - 1];
      AddTagsAttaches(run, user, init);
      var prev := AddTags(run, user, init);
      AddOneTag(prev, user, e, EntryNames(init), run.attached);
      var res := GetOrCreate(prev.db, user, e);
      assert AddTags(run, user, entries) == Run(res.db, prev.attached + {res.lookup.tag.id}, false);
      EntryNamesLast(entries);
    }
  }

  /** get-or-create keeps the table valid, duplicates or not. */
  lemma GetOrCreateKeepsValid(db: TagRows, user: UserId, entry: TagInput)
    requires Valid(db)
    ensures Valid(GetOrCreate(db, user, entry).db)
  {
  }

  /** Rows of a table are kept by every table that extends it. */
  lemma ExtendsKeepsRows(a: TagRows, b: TagRows)
    requires Extends(a, b)
    ensures forall s :: s in a.rows ==> s in b.rows
  {
    forall s | s in a.rows
      ensures s in b.rows
    {
      var i :| 0 <= i < |a.rows| && a.rows[i] == s;
      assert b.rows[i] == s;
    }
  }

  /**
   * On any valid table, duplicates or not and whether or not an entry raises, the walk
   * keeps the table valid and every id it newly attaches is the id of a row of `user`.
   */
  lemma {:induction false} AttachedAreOwned(run: Run, user: UserId, entries: seq<TagInput>)
    requires Valid(run.db)
    ensures var r := AddTags(run, user, entries);
      Valid(r.db) &&
      forall id :: id in r.attached && id !in run.attached ==>
        exists s :: s in r.db.rows && s.user == user && s.id == id
    decreases |entries|
  {
    if entries != [] {
      var init := entries[..|entries| - 1];
      AttachedAreOwned(run, user, init);
      var prev := AddTags(run, user, init);
      if !prev.failed {
        var res := GetOrCreate(prev.db, user, entries[|entries| - 1]);
        GetOrCreateKeepsValid(prev.db, user, entries[|entries| - 1]);
        ExtendsKeepsRows(prev.db, res.db);
      }
    }
  }

  /** A row owned by someone else is never attached by the walk, whatever its name, on any valid table. */
  lemma ForeignTagsNeverAttached(run: Run, user: UserId, entries: seq<TagInput>, t: Tag)
    requires Valid(run.db)
    requires t in AddTags(run, user, entries).db.rows && t.user != user && t.id !in run.attached
    ensures t.id !in AddTags(run, user, entries).attached
  {
    var r := AddTags(run, user, entries);
    AttachedAreOwned(run, user, entries);
    forall s | s in r.db.rows && s.user == user
      ensures s.id != t.id
    {
      var i :| 0 <= i < |r.db.rows| && r.db.rows[i] == s;
      var j :| 0 <= j < |r.db.rows| && r.db.rows[j] == t;
      assert i != j;
    }
  }

  /** Starting from no associations, the names shown are exactly the names asked for, all owned by `user`. */
  lemma FreshAttachNames(db: TagRows, user: UserId, entries: seq<TagInput>)
    requires Valid(db) && Unique(db)
    ensures var r := AddTags(Run(db, {}, false), user, entries);
      !r.failed &&
      TagNames(r.db, r.attached) == EntryNames(entries) &&
      (forall t :: t in r.db.rows && t.id in r.attached ==> t.user == user)
  {
    var r := AddTags(Run(db, {}, false), user, entries);
    AddTagsAttaches(Run(db, {}, false), user, entries);
    var names := EntryNames(entries);
    forall t | t in r.db.rows && t.id in r.attached
      ensures t.user == user && t.name in names
    {
      var s :| s in r.db.rows && s.user == user && s.name in names && s.id == t.id;
      var i :| 0 <= i < |r.db.rows| && r.db.rows[i] == s;
      var j :| 0 <= j < |r.db.rows| && r.db.rows[j] == t;
      assert i == j;
    }
    forall n | n in names
      ensures n in TagNames(r.db, r.attached)
    {
      var s :| s in r.db.rows && IsMatch(s, user, n);
      assert s.id in r.attached;
    }
  }

  /** Repeating one name any number of times attaches a single row. */
  lemma RepeatedNameAttachesOnce(db: TagRows, user: UserId, entries: seq<TagInput>)
    requires Valid(db) && Unique(db)
    requires |entries| > 0 && forall i :: 0 <= i < |entries| ==> entries[i] == entries[0]
    ensures |AddTags(Run(db, {}, false), user, entries).attached| == 1
  {
    var r := AddTags(Run(db, {}, false), user, entries);
    AddTagsAttaches(Run(db, {}, false), user, entries);
    var n := entries[0].name;
    assert EntryNames(entries) == {n};
    var t :| t in r.db.rows && IsMatch(t, user, n);
    OnlyMatch(r.db, user, n, t);
    assert r.attached == {t.id};
  }
}

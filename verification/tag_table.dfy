/**
 * The Tag table and the ORM's get-or-create on it, as pure functions.
 *
 * `Tag.objects.get_or_create(user=u, name=n)` first runs `get(user=u, name=n)`:
 * one matching row is returned as it is, several matching rows raise
 * MultipleObjectsReturned, and no matching row makes it insert a new row with
 * the next id the database assigns.
 */
module TagTable {

  type UserId = nat

  /** One row of the Tag table. */
  datatype Tag = Tag(id: nat, user: UserId, name: string)

  /** One validated entry of a nested `tags` list, on a full write: TagSerializer lets only `name` be written, and requires it. */
  datatype TagInput = TagInput(name: string)

  /** The Tag table: its rows in insertion order and the id the database assigns next. */
  datatype TagRows = TagRows(rows: seq<Tag>, nextId: nat)

  /** What get-or-create answers: a row (and whether it was just created), or the error raised by `get`. */
  datatype Lookup = Got(tag: Tag, created: bool) | MultipleObjectsReturned

  /** The answer of get-or-create together with the table afterwards. */
  datatype Resolved = Resolved(lookup: Lookup, db: TagRows)

  /** The lookup filter `user=u, **tag`. */
  predicate IsMatch(t: Tag, user: UserId, name: string)
  {
    t.user == user && t.name == name
  }

  /** What the database guarantees of its own: distinct ids, each below the next id it hands out. */
  ghost predicate Valid(db: TagRows)
  {
    (forall i, j :: 0 <= i < j < |db.rows| ==> db.rows[i].id != db.rows[j].id) &&
    (forall i :: 0 <= i < |db.rows| ==> db.rows[i].id < db.nextId)
  }

  /** No two rows share (user, name). Nothing in the database enforces this. */
  ghost predicate Unique(db: TagRows)
  {
    forall i, j :: 0 <= i < j < |db.rows| ==> !IsMatch(db.rows[j], db.rows[i].user, db.rows[i].name)
  }

  /** `after` holds the rows of `before`, in place, possibly followed by new ones. */
  ghost predicate Extends(before: TagRows, after: TagRows)
  {
    |before.rows| <= |after.rows| &&
    after.rows[..|before.rows|] == before.rows &&
    before.nextId <= after.nextId
  }

  /** The rows selected by the filter `user=u, name=n`, in table order. */
  function Matching(rows: seq<Tag>, user: UserId, name: string): (r: seq<Tag>)
    ensures |r| <= |rows|
    ensures forall t :: t in r <==> t in rows && IsMatch(t, user, name)
    decreases |rows|
  {
    if rows == [] then []
    else
      var last := rows[|rows| - 1];
      assert rows == rows[..|rows| - 1] + [last];
      Matching(rows[..|rows| - 1], user, name) + (if IsMatch(last, user, name) then [last] else [])
  }

  /** `Tag.objects.get_or_create(user=user, **entry)`. */
  function GetOrCreate(db: TagRows, user: UserId, entry: TagInput): (res: Resolved)
    ensures res.lookup.Got? ==> IsMatch(res.lookup.tag, user, entry.name) && res.lookup.tag in res.db.rows
    ensures res.lookup.Got? && !res.lookup.created ==> res.db == db
    ensures res.lookup.Got? && res.lookup.created <==> Matching(db.rows, user, entry.name) == []
    ensures res.lookup.MultipleObjectsReturned? <==> |Matching(db.rows, user, entry.name)| >= 2
    ensures res.lookup.MultipleObjectsReturned? ==> res.db == db
  {
    var found := Matching(db.rows, user, entry.name);
    if |found| == 0 then
      var t := Tag(db.nextId, user, entry.name);
      Resolved(Got(t, true), TagRows(db.rows + [t], db.nextId + 1))
    else if |found| == 1 then
      Resolved(Got(found[0], false), db)
    else
      Resolved(MultipleObjectsReturned, db)
  }

  /** A filter that no row passes selects nothing. */
  lemma {:induction false} MatchingEmpty(rows: seq<Tag>, user: UserId, name: string)
    requires forall t :: t in rows ==> !IsMatch(t, user, name)
    ensures Matching(rows, user, name) == []
    decreases |rows|
  {
    if rows != [] {
      var n := |rows|;
      assert rows == rows[..n - 1] + [rows[n - 1]];
      MatchingEmpty(rows[..n - 1], user, name);
    }
  }

  /** In a table without duplicates the filter selects at most one row. */
  lemma {:induction false} MatchingAtMostOne(db: TagRows, user: UserId, name: string)
    requires Unique(db)
    ensures |Matching(db.rows, user, name)| <= 1
    decreases |db.rows|
  {
    if db.rows != [] {
      var n := |db.rows|;
      var init := TagRows(db.rows[..n - 1], db.nextId);
      MatchingAtMostOne(init, user, name);
      assert db.rows == init.rows + [db.rows[n - 1]];
      if IsMatch(db.rows[n - 1], user, name) {
        forall t | t in init.rows
          ensures !IsMatch(t, user, name)
        {
          var i :| 0 <= i < n - 1 && init.rows[i] == t;
          assert db.rows[i] == t;
        }
        MatchingEmpty(init.rows, user, name);
      }
    }
  }

  /** Two matching rows at different positions make the filter select at least two rows. */
  lemma {:induction false} MatchingAtLeastTwo(rows: seq<Tag>, user: UserId, name: string, i: nat, j: nat)
    requires i < j < |rows| && IsMatch(rows[i], user, name) && IsMatch(rows[j], user, name)
    ensures |Matching(rows, user, name)| >= 2
    decreases |rows|
  {
    var n := |rows|;
    var init := rows[..n - 1];
    if j < n - 1 {
      MatchingAtLeastTwo(init, user, name, i, j);
    } else {
      assert rows[i] == init[i];
      assert rows[i] in Matching(init, user, name);
    }
  }

  /** Two rows of one user with one name make get-or-create raise MultipleObjectsReturned and change nothing. */
  lemma GetOrCreateRaisesOnDuplicate(db: TagRows, user: UserId, entry: TagInput, i: nat, j: nat)
    requires i < j < |db.rows|
    requires IsMatch(db.rows[i], user, entry.name) && IsMatch(db.rows[j], user, entry.name)
    ensures GetOrCreate(db, user, entry) == Resolved(MultipleObjectsReturned, db)
  {
    MatchingAtLeastTwo(db.rows, user, entry.name, i, j);
  }

  /** Under Unique, a row matching (user, name) is the only one. */
  lemma OnlyMatch(db: TagRows, user: UserId, name: string, t: Tag)
    requires Unique(db) && t in db.rows && IsMatch(t, user, name)
    ensures forall s :: s in db.rows && IsMatch(s, user, name) ==> s == t
  {
  }

  /**
   * In a valid table, when every matching row is `t`, the filter selects at most one row:
   * rows have distinct ids, so `t` occurs once. Other names may still have duplicates.
   */
  lemma {:induction false} MatchingOnlyOne(db: TagRows, user: UserId, name: string, t: Tag)
    requires Valid(db)
    requires forall s :: s in db.rows && IsMatch(s, user, name) ==> s == t
    ensures |Matching(db.rows, user, name)| <= 1
    decreases |db.rows|
  {
    if db.rows != [] {
      var n := |db.rows|;
      var init := TagRows(db.rows[..n - 1], db.nextId);
      assert db.rows == init.rows + [db.rows[n - 1]];
      if IsMatch(db.rows[n - 1], user, name) {
        forall s | s in init.rows
          ensures !IsMatch(s, user, name)
        {
          var i :| 0 <= i < n - 1 && init.rows[i] == s;
          assert db.rows[i] == s && db.rows[i].id != db.rows[n - 1].id;
        }
        MatchingEmpty(init.rows, user, name);
      } else {
        MatchingOnlyOne(init, user, name, t);
      }
    }
  }

  /**
   * A row present for (user, name), and the only one, is returned and nothing is created,
   * whatever duplicates the table holds under other names.
   */
  lemma GetOrCreateReturnsExisting(db: TagRows, user: UserId, entry: TagInput, t: Tag)
    requires Valid(db) && t in db.rows && IsMatch(t, user, entry.name)
    requires forall s :: s in db.rows && IsMatch(s, user, entry.name) ==> s == t
    ensures GetOrCreate(db, user, entry) == Resolved(Got(t, false), db)
  {
    MatchingOnlyOne(db, user, entry.name, t);
    var found := Matching(db.rows, user, entry.name);
    assert t in found;
  }

  /** With no row for (user, name) a new one is appended, owned by `user`, under an id no row has. */
  lemma GetOrCreateCreatesWhenAbsent(db: TagRows, user: UserId, entry: TagInput)
    requires Valid(db)
    requires forall t :: t in db.rows ==> !IsMatch(t, user, entry.name)
    ensures var res := GetOrCreate(db, user, entry);
      res.lookup.Got? && res.lookup.created &&
      res.lookup.tag == Tag(db.nextId, user, entry.name) &&
      res.db.rows == db.rows + [res.lookup.tag] &&
      (forall t :: t in db.rows ==> t.id != res.lookup.tag.id)
  {
    MatchingEmpty(db.rows, user, entry.name);
  }

  /** A table without duplicates never makes get-or-create fail, and stays valid and without duplicates. */
  lemma GetOrCreatePreserves(db: TagRows, user: UserId, entry: TagInput)
    requires Valid(db) && Unique(db)
    ensures var res := GetOrCreate(db, user, entry);
      res.lookup.Got? && Valid(res.db) && Unique(res.db) && Extends(db, res.db)
  {
    MatchingAtMostOne(db, user, entry.name);
    var found := Matching(db.rows, user, entry.name);
    if |found| == 0 {
      var res := GetOrCreate(db, user, entry);
      var rows := res.db.rows;
      var n := |db.rows|;
      assert rows[n] == res.lookup.tag;
      forall i, j | 0 <= i < j < |rows|
        ensures !IsMatch(rows[j], rows[i].user, rows[i].name)
      {
        if j == n {
          assert rows[i] in db.rows;
        } else {
          assert rows[i] == db.rows[i] && rows[j] == db.rows[j];
        }
      }
      assert rows[..n] == db.rows;
    }
  }

  /** Asking twice gives the same row, and the second call creates nothing. */
  lemma GetOrCreateIdempotent(db: TagRows, user: UserId, entry: TagInput)
    requires GetOrCreate(db, user, entry).lookup.Got?
    ensures var first := GetOrCreate(db, user, entry);
      GetOrCreate(first.db, user, entry) == Resolved(Got(first.lookup.tag, false), first.db)
  {
  }
}

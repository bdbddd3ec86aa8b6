/** The `add_tags` management command
    (backend/recipes/management/commands/add_tags.py): it reads the rows of a
    CSV file and inserts each tag whose name and slug are both new. The file
    is given as its parsed rows; the console messages become a log. */
module TagImport {

  import opened Schema

  /** One console message: `<name> уже есть!` or `Добавлен тег <name>`, the name
      written by `repr` (in quotes, usually single ones). */
  datatype Event = Skipped(name: string) | Added(name: string)

  /** What the command leaves behind: the Tag table, the next primary key the
      database hands out, the messages written, and whether the loop ran to the
      end (a row with fewer than two fields raises IndexError and stops it). */
  datatype Outcome = Outcome(tags: seq<Tag>, nextId: nat, log: seq<Event>, completed: bool)

  /** `Tag.objects.filter(Q(name=name) | Q(slug=slug)).exists()`. */
  predicate Clashes(tags: seq<Tag>, name: string, slug: string) {
    exists i :: 0 <= i < |tags| && (tags[i].name == name || tags[i].slug == slug)
  }

  function WithLog(log: seq<Event>, o: Outcome): Outcome {
    o.(log := log + o.log)
  }

  /** The loop over `rows`, row by row from a table `tags`. */
  function ImportRows(tags: seq<Tag>, nextId: nat, rows: seq<seq<string>>): (o: Outcome)
    ensures |o.log| <= |rows|
    decreases |rows|
  {
    if rows == [] then Outcome(tags, nextId, [], true)
    else if |rows[0]| < 2 then Outcome(tags, nextId, [], false)
    else
      var name, slug := rows[0][0], rows[0][1];
      if Clashes(tags, name, slug) then
        WithLog([Skipped(name)], ImportRows(tags, nextId, rows[1..]))
      else
        WithLog([Added(name)], ImportRows(tags + [Tag(nextId, name, slug)], nextId + 1, rows[1..]))
  }

  lemma LogAppend(prev: seq<Event>, e: Event, o: Outcome)
    ensures WithLog(prev, WithLog([e], o)) == WithLog(prev + [e], o)
  {
    assert prev + ([e] + o.log) == (prev + [e]) + o.log;
  }

  /** Primary keys below `nextId`, all different. */
  predicate IdsBelow(tags: seq<Tag>, nextId: nat) {
    && (forall i :: 0 <= i < |tags| ==> tags[i].id < nextId)
    && (forall i, j :: 0 <= i < j < |tags| ==> tags[i].id != tags[j].id)
  }

  // Properties of the import.

  lemma ClashesGrow(tags: seq<Tag>, more: seq<Tag>, name: string, slug: string)
    requires Clashes(tags, name, slug)
    ensures Clashes(tags + more, name, slug)
  {
    var i :| 0 <= i < |tags| && (tags[i].name == name || tags[i].slug == slug);
    assert (tags + more)[i] == tags[i];
  }

  /** Existing tags are never changed or removed: the import only appends,
      and the appended tags get the keys `nextId`, `nextId + 1`, ... */
  lemma {:induction false} ImportExtends(tags: seq<Tag>, nextId: nat, rows: seq<seq<string>>)
    ensures |tags| <= |ImportRows(tags, nextId, rows).tags|
    ensures ImportRows(tags, nextId, rows).tags[..|tags|] == tags
    ensures ImportRows(tags, nextId, rows).nextId == nextId + |ImportRows(tags, nextId, rows).tags| - |tags|
    ensures forall k :: |tags| <= k < |ImportRows(tags, nextId, rows).tags| ==>
              ImportRows(tags, nextId, rows).tags[k].id == nextId + (k - |tags|)
    decreases |rows|
  {
    if rows != [] && |rows[0]| >= 2 {
      var name, slug := rows[0][0], rows[0][1];
      if Clashes(tags, name, slug) {
        ImportExtends(tags, nextId, rows[1..]);
      } else {
        var t1 := tags + [Tag(nextId, name, slug)];
        ImportExtends(t1, nextId + 1, rows[1..]);
        var o := ImportRows(tags, nextId, rows).tags;
        assert o[..|tags|] == o[..|t1|][..|tags|];
        assert o[|tags|] == o[..|t1|][|tags|];
      }
    }
  }

  /** A tag is appended only when no tag before it, neither an old one nor
      one appended earlier in the same run, has its name or its slug. */
  lemma {:induction false} ImportAddsFresh(tags: seq<Tag>, nextId: nat, rows: seq<seq<string>>)
    ensures forall k :: |tags| <= k < |ImportRows(tags, nextId, rows).tags| ==>
              !Clashes(ImportRows(tags, nextId, rows).tags[..k],
                       ImportRows(tags, nextId, rows).tags[k].name, ImportRows(tags, nextId, rows).tags[k].slug)
    decreases |rows|
  {
    if rows != [] && |rows[0]| >= 2 {
      var name, slug := rows[0][0], rows[0][1];
      if Clashes(tags, name, slug) {
        ImportAddsFresh(tags, nextId, rows[1..]);
      } else {
        var t1 := tags + [Tag(nextId, name, slug)];
        ImportAddsFresh(t1, nextId + 1, rows[1..]);
        ImportExtends(t1, nextId + 1, rows[1..]);
        var o := ImportRows(tags, nextId, rows).tags;
        assert o[..|tags|] == o[..|t1|][..|tags|];
        assert o[|tags|] == o[..|t1|][|tags|];
      }
    }
  }

  /** If names and slugs are unique before the import, they are unique after
      it, and so are the primary keys. */
  lemma ImportKeepsValid(tags: seq<Tag>, nextId: nat, rows: seq<seq<string>>)
    requires TagsValid(tags) && IdsBelow(tags, nextId)
    ensures TagsValid(ImportRows(tags, nextId, rows).tags)
    ensures IdsBelow(ImportRows(tags, nextId, rows).tags, ImportRows(tags, nextId, rows).nextId)
  {
    var o := ImportRows(tags, nextId, rows);
    ImportExtends(tags, nextId, rows);
    ImportAddsFresh(tags, nextId, rows);
    forall i, j | 0 <= i < j < |o.tags|
      ensures o.tags[i].name != o.tags[j].name && o.tags[i].slug != o.tags[j].slug
    {
      if j < |tags| {
        assert o.tags[i] == tags[i] && o.tags[j] == tags[j];
      } else {
        assert o.tags[..j][i] == o.tags[i];
      }
    }
    forall i | 0 <= i < |o.tags| ensures o.tags[i].id < o.nextId {
      if i < |tags| {
        assert o.tags[i] == tags[i];
      }
    }
  }

  /** The log has one message per row read, naming the row's tag; the run
      completes exactly when every row has two fields, and otherwise stops
      at the first row that has fewer. */
  lemma {:induction false} ImportLog(tags: seq<Tag>, nextId: nat, rows: seq<seq<string>>)
    ensures var o := ImportRows(tags, nextId, rows);
      && (forall j :: 0 <= j < |o.log| ==> |rows[j]| >= 2 && o.log[j].name == rows[j][0])
      && (o.completed <==> |o.log| == |rows|)
      && (!o.completed ==> |o.log| < |rows| && |rows[|o.log|]| < 2)
    decreases |rows|
  {
    if rows != [] && |rows[0]| >= 2 {
      var name, slug := rows[0][0], rows[0][1];
      if Clashes(tags, name, slug) {
        ImportLog(tags, nextId, rows[1..]);
      } else {
        ImportLog(tags + [Tag(nextId, name, slug)], nextId + 1, rows[1..]);
      }
      assert forall j :: 1 <= j < |rows| ==> rows[1..][j - 1] == rows[j];
    }
  }

  /** After the import every row read clashes with the table: it was either
      there already or appended. */
  lemma {:induction false} ImportedRowsClash(tags: seq<Tag>, nextId: nat, rows: seq<seq<string>>)
    ensures forall j :: 0 <= j < |ImportRows(tags, nextId, rows).log| ==>
              |rows[j]| >= 2 && Clashes(ImportRows(tags, nextId, rows).tags, rows[j][0], rows[j][1])
    decreases |rows|
  {
    ImportLog(tags, nextId, rows);
    if rows != [] && |rows[0]| >= 2 {
      var name, slug := rows[0][0], rows[0][1];
      var o := ImportRows(tags, nextId, rows);
      var t1 := if Clashes(tags, name, slug) then tags else tags + [Tag(nextId, name, slug)];
      var n1 := if Clashes(tags, name, slug) then nextId else nextId + 1;
      assert o == WithLog([o.log[0]], ImportRows(t1, n1, rows[1..]));
      ImportedRowsClash(t1, n1, rows[1..]);
      ImportExtends(t1, n1, rows[1..]);
      assert o.tags == t1 + o.tags[|t1|..];
      if Clashes(tags, name, slug) {
        ClashesGrow(t1, o.tags[|t1|..], name, slug);
      } else {
        assert o.tags[|tags|] == t1[|tags|];
      }
      assert forall j :: 1 <= j < |rows| ==> rows[1..][j - 1] == rows[j];
    }
  }

  /** Rows that all clash with the table change nothing. */
  lemma {:induction false} ClashingRowsChangeNothing(tags: seq<Tag>, nextId: nat, rows: seq<seq<string>>)
    requires forall j :: 0 <= j < |rows| ==> |rows[j]| >= 2 && Clashes(tags, rows[j][0], rows[j][1])
    ensures ImportRows(tags, nextId, rows).tags == tags
    ensures ImportRows(tags, nextId, rows).nextId == nextId
    ensures ImportRows(tags, nextId, rows).completed
    decreases |rows|
  {
    if rows != [] {
      assert forall j :: 1 <= j < |rows| ==> rows[1..][j - 1] == rows[j];
      ClashingRowsChangeNothing(tags, nextId, rows[1..]);
    }
  }

  /** Running the command a second time on the same file adds nothing. */
  lemma ImportIdempotent(tags: seq<Tag>, nextId: nat, rows: seq<seq<string>>)
    requires ImportRows(tags, nextId, rows).completed
    ensures ImportRows(ImportRows(tags, nextId, rows).tags, ImportRows(tags, nextId, rows).nextId, rows).tags
         == ImportRows(tags, nextId, rows).tags
  {
    var o := ImportRows(tags, nextId, rows);
    ImportLog(tags, nextId, rows);
    ImportedRowsClash(tags, nextId, rows);
    ClashingRowsChangeNothing(o.tags, o.nextId, rows);
  }

  /** The same tag twice in one file is inserted once: the second row is
      skipped. */
  lemma DuplicateRowSkipped(tags: seq<Tag>, nextId: nat, name: string, slug: string)
    requires !Clashes(tags, name, slug)
    ensures ImportRows(tags, nextId, [[name, slug], [name, slug]])
         == Outcome(tags + [Tag(nextId, name, slug)], nextId + 1, [Added(name), Skipped(name)], true)
  {
    var t1 := tags + [Tag(nextId, name, slug)];
    assert t1[|tags|].name == name;
    assert Clashes(t1, name, slug);
    var rows := [[name, slug], [name, slug]];
    assert rows[1..] == [[name, slug]];
    assert rows[1..][1..] == [];
    var r1: seq<seq<string>> := [[name, slug]];
    assert r1[0][0] == name && r1[0][1] == slug && |r1[0]| == 2 && r1[1..] == [];
    assert ImportRows(t1, nextId + 1, r1[1..]) == Outcome(t1, nextId + 1, [], true);
    var last := ImportRows(t1, nextId + 1, r1);
    assert last == WithLog([Skipped(name)], Outcome(t1, nextId + 1, [], true));
    assert ImportRows(tags, nextId, rows) == WithLog([Added(name)], last);
  }

  class TagTable {
    var tags: seq<Tag>
    var nextId: nat

    predicate Valid()
      reads this
    {
      TagsValid(tags) && IdsBelow(tags, nextId)
    }

    constructor(tags: seq<Tag>, nextId: nat)
      requires TagsValid(tags) && IdsBelow(tags, nextId)
      ensures this.tags == tags && this.nextId == nextId && Valid()
    {
      this.tags := tags;
      this.nextId := nextId;
    }

    /** `Tag.objects.create(name=name, slug=slug)`. */
    method Create(name: string, slug: string)
      modifies this
      ensures tags == old(tags) + [Tag(old(nextId), name, slug)]
      ensures nextId == old(nextId) + 1
    {
      tags := tags + [Tag(nextId, name, slug)];
      nextId := nextId + 1;
    }

    /** The check of one row against the table. */
    method Exists(name: string, slug: string) returns (found: bool)
      ensures found <==> Clashes(tags, name, slug)
    {
      found := false;
      var i := 0;
      while i < |tags|
        invariant 0 <= i <= |tags|
        invariant found <==> exists k :: 0 <= k < i && (tags[k].name == name || tags[k].slug == slug)
      {
        if tags[i].name == name || tags[i].slug == slug {
          found := true;
        }
        i := i + 1;
      }
    }

    /** `Command.handle` over the parsed rows. */
    method Handle(rows: seq<seq<string>>) returns (log: seq<Event>, completed: bool)
      modifies this
      ensures Outcome(tags, nextId, log, completed) == ImportRows(old(tags), old(nextId), rows)
      ensures old(Valid()) ==> Valid()
    {
      if Valid() {
        ImportKeepsValid(tags, nextId, rows);
      }
      log := [];
      completed := true;
      var i := 0;
      while i < |rows|
        invariant 0 <= i <= |rows|
        invariant ImportRows(old(tags), old(nextId), rows) == WithLog(log, ImportRows(tags, nextId, rows[i..]))
      {
        var row := rows[i];
        assert rows[i..][0] == row && rows[i..][1..] == rows[i + 1..];
        if |row| < 2 {
          completed := false;
          assert log + [] == log;
          return;
        }
        ghost var t0, n0, prev := tags, nextId, log;
        var found := Exists(row[0], row[1]);
        var event;
        if found {
          event := Skipped(row[0]);
        } else {
          Create(row[0], row[1]);
          event := Added(row[0]);
        }
        log := log + [event];
        assert ImportRows(t0, n0, rows[i..]) == WithLog([event], ImportRows(tags, nextId, rows[i + 1..]));
        LogAppend(prev, event, ImportRows(tags, nextId, rows[i + 1..]));
        i := i + 1;
      }
      assert rows[i..] == [];
    }
  }
}

/**
  The tree scan: every entry the directory walk visits is classified by its
  name into the index of project sources, the index of generated mocks, both
  or neither. Both indices are keyed by the bare file name, so a later entry
  with the same name replaces an earlier one.
 */
module Scanner {
  import opened Strings

  /** One entry visited by the walk: its path, its base name, and whether it is a directory. */
  datatype Entry = Entry(path: string, name: string, isDir: bool)

  /** What is stored for a classified file. */
  datatype FileData = FileData(path: string, fileName: string)

  type FileIndex = map<string, FileData>

  datatype Indices = Indices(project: FileIndex, mocks: FileIndex)

  /** A file the project index keeps: a non-directory Go source that is not a test. */
  predicate IsProjectFile(e: Entry)
  {
    !e.isDir && Contains(e.name, ".go") && !Contains(e.name, "_test")
  }

  /** A generated mock; directories are not excluded here. */
  predicate IsMockFile(e: Entry)
  {
    Contains(e.name, "_mock.go")
  }

  function Record(e: Entry): FileData
  {
    FileData(e.path, e.name)
  }

  /** The two indices the scan fills. */
  datatype Kind = ProjectKind | MockKind

  predicate Selects(kind: Kind, e: Entry)
  {
    match kind
    case ProjectKind => IsProjectFile(e)
    case MockKind => IsMockFile(e)
  }

  function IndexOf(ix: Indices, kind: Kind): FileIndex
  {
    match kind
    case ProjectKind => ix.project
    case MockKind => ix.mocks
  }

  /** Entry `i` is selected for `kind` and is called `name`. */
  predicate SelectedAt(entries: seq<Entry>, kind: Kind, i: int, name: string)
  {
    0 <= i < |entries| && entries[i].name == name && Selects(kind, entries[i])
  }

  /** Entry `i` is the last entry selected for `kind` under `name`. */
  predicate LastSelectedAt(entries: seq<Entry>, kind: Kind, i: int, name: string)
  {
    SelectedAt(entries, kind, i, name)
    && forall j :: i < j < |entries| ==> !SelectedAt(entries, kind, j, name)
  }

  /** The index of `kind` after `e` has been visited. */
  function Insert(index: FileIndex, kind: Kind, e: Entry): FileIndex
  {
    if Selects(kind, e) then index[e.name := Record(e)] else index
  }

  /**
    `index` is what the walk over `entries` leaves for `kind` under `name`:
    `name` is a key exactly when some entry of that name was selected for
    `kind`, and it then maps to the record of the last such entry.
   */
  ghost predicate KeyedByLast(entries: seq<Entry>, kind: Kind, index: FileIndex, name: string)
  {
    && (name in index <==> exists i :: SelectedAt(entries, kind, i, name))
    && (name in index ==>
          exists i :: LastSelectedAt(entries, kind, i, name) && index[name] == Record(entries[i]))
  }

  /** `index` is what the walk over `entries` leaves for `kind`, for every name. */
  ghost predicate Faithful(entries: seq<Entry>, kind: Kind, index: FileIndex)
  {
    forall name :: KeyedByLast(entries, kind, index, name)
  }

  /**
    The walk, visiting `entries` in order and inserting each into the
    indices it is classified for.
   */
  function Scan(entries: seq<Entry>): (ix: Indices)
    ensures Faithful(entries, ProjectKind, ix.project)
    ensures Faithful(entries, MockKind, ix.mocks)
    decreases |entries|
  {
    if |entries| == 0 then Indices(map[], map[])
    else
      var n := |entries| - 1;
      var before := Scan(entries[..n]);
      var e := entries[n];
      assert entries == entries[..n] + [e];
      InsertKeepsFaithful(entries[..n], e, ProjectKind, before.project);
      InsertKeepsFaithful(entries[..n], e, MockKind, before.mocks);
      Indices(Insert(before.project, ProjectKind, e), Insert(before.mocks, MockKind, e))
  }

  /** Visiting one more entry keeps an index faithful to the walk so far. */
  lemma InsertKeepsFaithful(prefix: seq<Entry>, e: Entry, kind: Kind, index: FileIndex)
    requires Faithful(prefix, kind, index)
    ensures Faithful(prefix + [e], kind, Insert(index, kind, e))
  {
    forall name
      ensures KeyedByLast(prefix + [e], kind, Insert(index, kind, e), name)
    {
      InsertKeepsName(prefix, e, kind, index, name);
    }
  }

  lemma InsertKeepsName(prefix: seq<Entry>, e: Entry, kind: Kind, index: FileIndex, name: string)
    requires KeyedByLast(prefix, kind, index, name)
    ensures KeyedByLast(prefix + [e], kind, Insert(index, kind, e), name)
  {
    var entries := prefix + [e];
    var n := |prefix|;
    var after := Insert(index, kind, e);
    if Selects(kind, e) && e.name == name {
      assert SelectedAt(entries, kind, n, name);
      assert LastSelectedAt(entries, kind, n, name);
    } else {
      assert !SelectedAt(entries, kind, n, name);
      assert after == index || after == index[e.name := Record(e)];
      if name in after {
        var i :| LastSelectedAt(prefix, kind, i, name) && index[name] == Record(prefix[i]);
        assert SelectedAt(entries, kind, i, name);
        assert LastSelectedAt(entries, kind, i, name);
      }
      if exists i :: SelectedAt(entries, kind, i, name) {
        var i :| SelectedAt(entries, kind, i, name);
        assert SelectedAt(prefix, kind, i, name);
      }
    }
  }

  /** Every mock name also names a Go source. */
  lemma MockNameIsGoName(name: string)
    requires Contains(name, "_mock.go")
    ensures Contains(name, ".go")
  {
    var i: nat :| i <= |name| && OccursAt(name, "_mock.go", i);
    assert name[i + 5..i + 8] == name[i..i + 8][5..8];
    assert OccursAt(name, ".go", i + 5);
  }

  /** A mock that is neither a directory nor a test is put in both indices. */
  lemma NonTestMockInBoth(entries: seq<Entry>, i: int)
    requires 0 <= i < |entries|
    requires IsMockFile(entries[i]) && !entries[i].isDir && !Contains(entries[i].name, "_test")
    ensures entries[i].name in Scan(entries).project && entries[i].name in Scan(entries).mocks
  {
    var name := entries[i].name;
    var ix := Scan(entries);
    MockNameIsGoName(name);
    forall kind
      ensures name in IndexOf(ix, kind)
    {
      assert KeyedByLast(entries, kind, IndexOf(ix, kind), name);
      assert SelectedAt(entries, kind, i, name);
    }
    assert IndexOf(ix, ProjectKind) == ix.project;
    assert IndexOf(ix, MockKind) == ix.mocks;
  }

  /**
    A non-directory, non-test mock that is the last entry of its name is
    what both indices map that name to.
   */
  lemma LastMockMapsToItself(entries: seq<Entry>, i: int)
    requires 0 <= i < |entries|
    requires IsMockFile(entries[i]) && !entries[i].isDir && !Contains(entries[i].name, "_test")
    requires forall j :: i < j < |entries| ==> entries[j].name != entries[i].name
    ensures entries[i].name in Scan(entries).project && entries[i].name in Scan(entries).mocks
    ensures Scan(entries).project[entries[i].name] == Record(entries[i])
    ensures Scan(entries).mocks[entries[i].name] == Record(entries[i])
  {
    var name := entries[i].name;
    var ix := Scan(entries);
    NonTestMockInBoth(entries, i);
    forall kind
      ensures IndexOf(ix, kind)[name] == Record(entries[i])
    {
      assert KeyedByLast(entries, kind, IndexOf(ix, kind), name);
      assert SelectedAt(entries, kind, i, name);
      var w :| LastSelectedAt(entries, kind, w, name) && IndexOf(ix, kind)[name] == Record(entries[w]);
      assert w == i;
    }
    assert IndexOf(ix, ProjectKind) == ix.project;
    assert IndexOf(ix, MockKind) == ix.mocks;
  }
}

/** The resumable migration loop (internal/database/migrate.go). */
module Migrations {
  import opened Text
  import opened Encoding
  import opened Sorting

  datatype Entry = Entry(name: Bytes, isDir: bool, contents: Bytes)

  const SUFFIX: Bytes := ".up.sql"

  predicate EndsInSuffix(n: Bytes) { |n| >= |SUFFIX| && n[|n| - |SUFFIX|..] == SUFFIX }

  predicate IsMigration(e: Entry) { !e.isDir && EndsInSuffix(e.name) }

  /** strings.TrimSuffix(name, ".up.sql"), of a migration. */
  function Version(name: Bytes): Bytes {
    if EndsInSuffix(name) then name[..|name| - |SUFFIX|] else name
  }

  function Names(entries: seq<Entry>): seq<Bytes> {
    if entries == [] then []
    else (if IsMigration(entries[0]) then [entries[0].name] else []) + Names(entries[1..])
  }

  /** A directory: no two entries with one name. */
  predicate IsDirectory(entries: seq<Entry>) {
    forall i, j :: 0 <= i < j < |entries| ==> entries[i].name != entries[j].name
  }

  /** The migration files in lexical order. */
  function Files(entries: seq<Entry>): seq<Bytes> { Sort(Names(entries)) }

  function Contents(entries: seq<Entry>, name: Bytes): Bytes {
    if entries == [] then []
    else if entries[0].name == name then entries[0].contents
    else Contents(entries[1..], name)
  }

  /** The contents of the first n files, in order. */
  function Applied(entries: seq<Entry>, files: seq<Bytes>, n: nat): (r: seq<Bytes>)
    requires n <= |files|
    ensures |r| == n && forall k :: 0 <= k < n ==> r[k] == Contents(entries, files[k])
  {
    seq(n, k requires 0 <= k < n => Contents(entries, files[k]))
  }

  function Versions(files: seq<Bytes>, n: nat): set<Bytes>
    requires n <= |files|
  {
    set k | 0 <= k < n :: Version(files[k])
  }

  // ---- facts about the file list ----------------------------------------------------------

  lemma {:induction false} NamesFromEntries(entries: seq<Entry>, n: Bytes)
    requires n in Names(entries)
    ensures EndsInSuffix(n)
    ensures exists k :: 0 <= k < |entries| && entries[k].name == n
  {
    if !IsMigration(entries[0]) || entries[0].name != n {
      NamesFromEntries(entries[1..], n);
      var k :| 0 <= k < |entries[1..]| && entries[1..][k].name == n;
      assert entries[k + 1].name == n;
    }
  }

  /** The migration files are the files, not directories, whose names end in `.up.sql`. */
  lemma {:induction false} NamesExactly(entries: seq<Entry>, n: Bytes)
    ensures n in Names(entries) <==>
              exists k, v: Bytes :: 0 <= k < |entries| && !entries[k].isDir && entries[k].name == n && n == v + ".up.sql"
  {
    if entries != [] {
      NamesExactly(entries[1..], n);
      SuffixExactly(entries[0].name);
      if n in Names(entries[1..]) {
        var k, v: Bytes :| 0 <= k < |entries[1..]| && !entries[1..][k].isDir && entries[1..][k].name == n && n == v + ".up.sql";
        assert entries[k + 1].name == n;
      }
      if k, v: Bytes :| 0 <= k < |entries| && !entries[k].isDir && entries[k].name == n && n == v + ".up.sql" {
        if k > 0 { assert entries[1..][k - 1].name == n; }
      }
    }
  }

  lemma SuffixExactly(n: Bytes)
    ensures EndsInSuffix(n) <==> exists v: Bytes :: n == v + ".up.sql"
    ensures EndsInSuffix(n) ==> n == Version(n) + ".up.sql"
  {
    if EndsInSuffix(n) {
      var v: Bytes := Version(n);
      assert n == v + ".up.sql";
    }
    if v: Bytes :| n == v + ".up.sql" { assert n[|n| - |SUFFIX|..] == SUFFIX; }
  }

  /** In a directory a name has one content. */
  lemma {:induction false} ContentsExactly(entries: seq<Entry>, k: nat)
    requires IsDirectory(entries) && k < |entries|
    ensures Contents(entries, entries[k].name) == entries[k].contents
  {
    if k > 0 {
      var rest := entries[1..];
      assert forall i :: 0 <= i < |rest| ==> rest[i] == entries[i + 1];
      ContentsExactly(rest, k - 1);
    }
  }

  lemma {:induction false} NamesDistinct(entries: seq<Entry>)
    requires IsDirectory(entries)
    ensures NoRepeats(Names(entries))
  {
    if entries != [] {
      var rest := entries[1..];
      forall i, j | 0 <= i < j < |rest| ensures rest[i].name != rest[j].name {
        assert rest[i] == entries[i + 1] && rest[j] == entries[j + 1];
      }
      NamesDistinct(rest);
      forall k | 0 <= k < |rest| ensures rest[k].name != entries[0].name { assert rest[k] == entries[k + 1]; }
      NotNamed(rest, entries[0].name);
    }
  }

  lemma {:induction false} NotNamed(entries: seq<Entry>, n: Bytes)
    requires forall k :: 0 <= k < |entries| ==> entries[k].name != n
    ensures n !in Names(entries)
  {
    if entries != [] { NotNamed(entries[1..], n); }
  }

  lemma {:induction false} DistinctOnce(s: seq<Bytes>, x: Bytes)
    requires NoRepeats(s)
    ensures multiset(s)[x] <= 1
  {
    if s != [] {
      DistinctOnce(s[1..], x);
      assert s == [s[0]] + s[1..];
    }
  }

  predicate DistinctVersions(files: seq<Bytes>) {
    forall i, j :: 0 <= i < j < |files| ==> Version(files[i]) != Version(files[j])
  }

  lemma SortKeepsDistinct(s: seq<Bytes>)
    requires NoRepeats(s)
    ensures NoRepeats(Sort(s))
  {
    var t := Sort(s);
    forall i, j | 0 <= i < j < |t| ensures t[i] != t[j] {
      DistinctOnce(s, t[i]);
      if t[i] == t[j] { CountedTwice(t, i, j); }
    }
  }

  lemma VersionAndSuffix(n: Bytes)
    requires EndsInSuffix(n)
    ensures n == Version(n) + SUFFIX
  {
  }

  /** Different files record different versions. */
  lemma FilesDistinct(entries: seq<Entry>)
    requires IsDirectory(entries)
    ensures DistinctVersions(Files(entries))
  {
    var files := Files(entries);
    NamesDistinct(entries);
    SortKeepsDistinct(Names(entries));
    forall i, j | 0 <= i < j < |files| ensures Version(files[i]) != Version(files[j]) {
      assert files[i] in multiset(files) && files[j] in multiset(files);
      NamesFromEntries(entries, files[i]);
      NamesFromEntries(entries, files[j]);
      VersionAndSuffix(files[i]);
      VersionAndSuffix(files[j]);
    }
  }

  lemma FileExactly(entries: seq<Entry>, n: Bytes)
    ensures n in Files(entries) <==>
              exists k, v: Bytes :: 0 <= k < |entries| && !entries[k].isDir && entries[k].name == n && n == v + ".up.sql"
  {
    NamesExactly(entries, n);
    assert n in Files(entries) <==> n in multiset(Files(entries));
  }

  /** Exactly the versions of the migration files of the directory. */
  ghost predicate VersionsOf(entries: seq<Entry>, versions: set<Bytes>) {
    forall v: Bytes :: v in versions <==> exists k :: 0 <= k < |entries| && !entries[k].isDir && entries[k].name == v + ".up.sql"
  }

  lemma AllVersions(entries: seq<Entry>)
    ensures VersionsOf(entries, Versions(Files(entries), |Files(entries)|))
  {
    var files := Files(entries);
    var versions := Versions(files, |files|);
    forall v: Bytes
      ensures v in versions <==> exists k :: 0 <= k < |entries| && !entries[k].isDir && entries[k].name == v + ".up.sql"
    {
      if v in versions {
        var i :| 0 <= i < |files| && Version(files[i]) == v;
        FileExactly(entries, files[i]);
        SuffixExactly(files[i]);
      }
      if k :| 0 <= k < |entries| && !entries[k].isDir && entries[k].name == v + ".up.sql" {
        var n: Bytes := v + ".up.sql";
        FileExactly(entries, n);
        SuffixExactly(n);
        assert n in files && Version(n) == v;
      }
    }
  }

  // ---- the loop ------------------------------------------------------------------------------

  class Database {
    /** The migrations run so far, oldest first; each runs in one transaction with its record. */
    var schema: seq<Bytes>
    var versions: set<Bytes>

    constructor ()
      ensures schema == [] && versions == {}
    {
      schema, versions := [], {};
    }

    /** The database has exactly the first n files. */
    ghost predicate At(entries: seq<Entry>, n: nat)
      reads this
    {
      && n <= |Files(entries)|
      && schema == Applied(entries, Files(entries), n)
      && versions == Versions(Files(entries), n)
    }

    /** The transaction of file k: its contents and its record. */
    method Commit(entries: seq<Entry>, files: seq<Bytes>, k: nat)
      requires files == Files(entries) && k < |files| && At(entries, k)
      modifies this
      ensures At(entries, k + 1)
    {
      OneMore(entries, files, k);
      schema := schema + [Contents(entries, files[k])];
      versions := versions + {Version(files[k])};
    }

    /** The names of the migration files. */
    method ReadNames(entries: seq<Entry>) returns (names: seq<Bytes>)
      ensures names == Names(entries)
    {
      names := [];
      var i := 0;
      while i < |entries|
        invariant i <= |entries| && Names(entries) == names + Names(entries[i..])
      {
        if IsMigration(entries[i]) {
          names := names + [entries[i].name];
        }
        i := i + 1;
      }
    }

    /** One run. It stops with an error after `budget` committed transactions, at whatever file
        comes next; ok is a run that reached the end. */
    method Migrate(entries: seq<Entry>, budget: nat, ghost n: nat) returns (ok: bool)
      requires IsDirectory(entries) && At(entries, n)
      modifies this
      ensures ok <==> n + budget >= |Files(entries)|
      ensures At(entries, if ok then |Files(entries)| else n + budget)
    {
      var names := ReadNames(entries);
      var files := Sort(names);
      FilesDistinct(entries);
      var committed := 0;
      var k := 0;
      while k < |files|
        invariant k <= |files|
        invariant At(entries, if k <= n then n else k)
        invariant committed == (if k <= n then 0 else k - n) && committed <= budget
      {
        KnownExactly(files, if k <= n then n else k, k);
        if Version(files[k]) in versions {
          k := k + 1;
          continue;
        }
        if committed == budget {
          return false;
        }
        Commit(entries, files, k);
        committed := committed + 1;
        k := k + 1;
      }
      return true;
    }
  }

  lemma OneMore(entries: seq<Entry>, files: seq<Bytes>, k: nat)
    requires k < |files|
    ensures Applied(entries, files, k + 1) == Applied(entries, files, k) + [Contents(entries, files[k])]
    ensures Versions(files, k + 1) == Versions(files, k) + {Version(files[k])}
  {
  }

  lemma KnownExactly(files: seq<Bytes>, n: nat, k: nat)
    requires DistinctVersions(files) && n <= |files| && k < |files|
    ensures Version(files[k]) in Versions(files, n) <==> k < n
  {
    if Version(files[k]) in Versions(files, n) {
      var j :| 0 <= j < n && Version(files[j]) == Version(files[k]);
      assert j == k;
    }
  }

  /** Any number of runs that stop at arbitrary points. */
  method Runs(db: Database, entries: seq<Entry>, budgets: seq<nat>, ghost n: nat) returns (ghost reached: nat)
    requires IsDirectory(entries) && db.At(entries, n)
    modifies db
    ensures n <= reached && db.At(entries, reached)
    ensures (exists i :: 0 <= i < |budgets| && budgets[i] >= |Files(entries)|) ==> reached == |Files(entries)|
  {
    reached := n;
    for i := 0 to |budgets|
      invariant n <= reached && db.At(entries, reached)
      invariant (exists j :: 0 <= j < i && budgets[j] >= |Files(entries)|) ==> reached == |Files(entries)|
    {
      var ok := db.Migrate(entries, budgets[i], reached);
      reached := if ok then |Files(entries)| else reached + budgets[i];
    }
  }

  /** Resumable migration: from an empty database, any interrupted runs, one run that can finish
      and any further runs leave exactly every file applied once, in lexical order. */
  method InterruptedThenFinished(entries: seq<Entry>, before: seq<nat>, budget: nat, after: seq<nat>) returns (db: Database)
    requires IsDirectory(entries) && budget >= |Files(entries)|
    ensures fresh(db)
    ensures db.schema == Applied(entries, Files(entries), |Files(entries)|)
    ensures db.versions == Versions(Files(entries), |Files(entries)|) && VersionsOf(entries, db.versions)
    ensures Sorted(Files(entries)) && multiset(Files(entries)) == multiset(Names(entries))
  {
    SortSorts(Names(entries));
    AllVersions(entries);
    db := new Database();
    assert db.At(entries, 0);
    ghost var reached := Runs(db, entries, before, 0);
    var ok := db.Migrate(entries, budget, reached);
    reached := Runs(db, entries, after, |Files(entries)|);
  }
}

/**
 Monthly partitions of the scheduler service: their creation ahead of time and their archival
 after the retention period, over whole runs of calls with a clock that does not
 go back.
 */
module Partitions {
  import opened Calendar
  import opened PartitionNames

  // ------------------------------------------------------------------
  // The catalogue and the calls
  // ------------------------------------------------------------------

  const PARTITIONED_TABLES: seq<string> :=
    ["deposit_orders", "wallet_ledger", "withdrawals", "commissions",
     "sms_messages", "slip_verifications", "audit_logs", "webhook_deliveries"]

  /** The partitioned parents and how many months stay live. */
  datatype Config = Config(tables: seq<string>, retentionMonths: int)

  /** A table of the catalogue; once detached it no longer holds rows of its parent. */
  datatype Partition = Partition(parent: string, month: int, attached: bool)

  /** All tables by name, and the names whose archive file on disk is a complete dump. */
  datatype Catalogue = Catalogue(parts: map<string, Partition>, dumped: set<string>) {

    ghost predicate Valid() {
      forall n :: n in parts ==> n == Name(parts[n].parent, parts[n].month)
    }

    /** The parent has a partition for month `m`. */
    predicate Live(table: string, m: int) {
      Name(table, m) in parts && parts[Name(table, m)].attached
    }
  }

  /**
   What goes wrong: the names on which each database call fails, the tables whose partitions cannot be
   listed, the names for which bash does not start or cannot open the archive file, and the exit statuses
   of pg_dump and gzip, zero where none is given.
   */
  datatype Faults = Faults(list: set<string>, check: set<string>, create: set<string>,
                           bash: set<string>, open: set<string>, pgDump: map<string, nat>, gzip: map<string, nat>,
                           detach: set<string>, drop: set<string>)

  function Status(statuses: map<string, nat>, n: string): nat {
    if n in statuses then statuses[n] else 0
  }

  /** Without `pipefail` a pipe's exit status is its last stage's. */
  function PipeStatus(stages: seq<nat>): nat
    requires stages != []
  {
    stages[|stages| - 1]
  }

  /** What `bash -c "pg_dump ... | gzip > ..."` returns. A stage whose output cannot be opened fails. */
  predicate ExportFails(n: string, f: Faults) {
    n in f.bash || PipeStatus([Status(f.pgDump, n), if n in f.open then 1 else Status(f.gzip, n)]) != 0
  }

  /** The archive file is emptied before either stage runs. */
  predicate Overwrites(n: string, f: Faults) {
    n !in f.bash && n !in f.open
  }

  /** A complete dump is left on disk: every stage did its work. */
  predicate DumpWritten(n: string, f: Faults) {
    Overwrites(n, f) && Status(f.pgDump, n) == 0 && Status(f.gzip, n) == 0
  }

  /** The dumps on disk after exporting these names. */
  function Redumped(dumped: set<string>, names: set<string>, f: Faults): set<string> {
    set n | n in dumped + names && if n in names && Overwrites(n, f) then DumpWritten(n, f) else n in dumped
  }

  function EnsurePartition(parts: map<string, Partition>, table: string, m: int, f: Faults): map<string, Partition> {
    var n := Name(table, m);
    if n in parts || n in f.check || n in f.create then parts else parts[n := Partition(table, m, true)]
  }

  function EnsureAll(parts: map<string, Partition>, tables: seq<string>, m: int, f: Faults): map<string, Partition> {
    if tables == [] then parts
    else EnsurePartition(EnsureAll(parts, tables[..|tables| - 1], m, f), tables[|tables| - 1], m, f)
  }

  /** No call failed on the way. */
  predicate AllEnsured(parts: map<string, Partition>, tables: seq<string>, m: int, f: Faults) {
    tables != [] ==>
      var earlier, table := tables[..|tables| - 1], tables[|tables| - 1];
      AllEnsured(parts, earlier, m, f) && Ensured(EnsureAll(parts, earlier, m, f), table, m, f)
  }

  predicate Ensured(parts: map<string, Partition>, table: string, m: int, f: Faults) {
    var n := Name(table, m);
    n !in f.check && (n in parts || n !in f.create)
  }

  lemma EnsureOneMore(parts: map<string, Partition>, tables: seq<string>, i: nat, m: int, f: Faults)
    requires i < |tables|
    ensures EnsureAll(parts, tables[..i + 1], m, f)
         == EnsurePartition(EnsureAll(parts, tables[..i], m, f), tables[i], m, f)
    ensures AllEnsured(parts, tables[..i + 1], m, f) <==>
            AllEnsured(parts, tables[..i], m, f) && Ensured(EnsureAll(parts, tables[..i], m, f), tables[i], m, f)
  {
    assert tables[..i + 1][..i] == tables[..i];
  }

  /** `n` is one of the tables' partitions of month `m`, and neither call for it fails. */
  predicate IsAdded(n: string, tables: seq<string>, m: int, f: Faults) {
    exists i :: 0 <= i < |tables| && n == Name(tables[i], m) && n !in f.check && n !in f.create
  }

  /** No call for the tables' partitions of month `m` fails; those there already need not be created. */
  predicate NoneFails(parts: map<string, Partition>, tables: seq<string>, m: int, f: Faults) {
    forall i :: 0 <= i < |tables| ==>
      Name(tables[i], m) !in f.check && (Name(tables[i], m) in parts || Name(tables[i], m) !in f.create)
  }

  lemma AddedNext(n: string, tables: seq<string>, table: string, m: int, f: Faults)
    ensures IsAdded(n, tables + [table], m, f) <==>
            IsAdded(n, tables, m, f) || (n == Name(table, m) && n !in f.check && n !in f.create)
  {
    assert (tables + [table])[|tables|] == table;
    assert forall i :: 0 <= i < |tables| ==> (tables + [table])[i] == tables[i];
  }

  lemma {:induction false} EnsureAllIs(parts: map<string, Partition>, tables: seq<string>, m: int, f: Faults, n: string)
    ensures n in EnsureAll(parts, tables, m, f) <==> n in parts || IsAdded(n, tables, m, f)
  {
    if tables != [] {
      var earlier, table := tables[..|tables| - 1], tables[|tables| - 1];
      EnsureAllIs(parts, earlier, m, f, n);
      assert tables == earlier + [table];
      AddedNext(n, earlier, table, m, f);
    }
  }

  lemma NoneFailsNext(parts: map<string, Partition>, tables: seq<string>, table: string, m: int, f: Faults)
    ensures NoneFails(parts, tables + [table], m, f) <==>
            && NoneFails(parts, tables, m, f)
            && Name(table, m) !in f.check && (Name(table, m) in parts || Name(table, m) !in f.create)
  {
    assert (tables + [table])[|tables|] == table;
    assert forall i :: 0 <= i < |tables| ==> (tables + [table])[i] == tables[i];
  }

  lemma {:induction false} AllEnsuredIff(parts: map<string, Partition>, tables: seq<string>, m: int, f: Faults)
    ensures AllEnsured(parts, tables, m, f) <==> NoneFails(parts, tables, m, f)
  {
    if tables != [] {
      var earlier, table := tables[..|tables| - 1], tables[|tables| - 1];
      AllEnsuredIff(parts, earlier, m, f);
      EnsureAllIs(parts, earlier, m, f, Name(table, m));
      assert tables == earlier + [table];
      NoneFailsNext(parts, earlier, table, m, f);
    }
  }

  /** Making other months' partitions first does not change which calls fail. */
  lemma NoneFailsStays(parts: map<string, Partition>, more: map<string, Partition>, tables: seq<string>, m: int,
                       f: Faults)
    requires forall n :: n in parts ==> n in more
    requires forall n :: n in more && n !in parts ==> n !in f.create
    ensures NoneFails(more, tables, m, f) <==> NoneFails(parts, tables, m, f)
  {}

  /** The months one to `k` ahead of `now`, each for all tables. */
  function EnsureAhead(parts: map<string, Partition>, tables: seq<string>, now: Date, k: nat, f: Faults)
    : map<string, Partition>
    requires now.Valid()
  {
    if k == 0 then parts
    else EnsureAll(EnsureAhead(parts, tables, now, k - 1, f), tables, AddMonths(now, k).month, f)
  }

  predicate AheadEnsured(parts: map<string, Partition>, tables: seq<string>, now: Date, k: nat, f: Faults)
    requires now.Valid()
  {
    k > 0 ==>
      AheadEnsured(parts, tables, now, k - 1, f)
      && AllEnsured(EnsureAhead(parts, tables, now, k - 1, f), tables, AddMonths(now, k).month, f)
  }

  lemma AheadIs(parts: map<string, Partition>, tables: seq<string>, now: Date, f: Faults, n: string)
    requires now.Valid()
    ensures n in EnsureAhead(parts, tables, now, 3, f) <==>
            || n in parts
            || IsAdded(n, tables, AddMonths(now, 1).month, f)
            || IsAdded(n, tables, AddMonths(now, 2).month, f)
            || IsAdded(n, tables, AddMonths(now, 3).month, f)
  {
    var one := EnsureAll(parts, tables, AddMonths(now, 1).month, f);
    var two := EnsureAll(one, tables, AddMonths(now, 2).month, f);
    EnsureAllIs(parts, tables, AddMonths(now, 1).month, f, n);
    EnsureAllIs(one, tables, AddMonths(now, 2).month, f, n);
    EnsureAllIs(two, tables, AddMonths(now, 3).month, f, n);
    UnfoldAhead(parts, tables, now, f);
  }

  lemma UnfoldAhead(parts: map<string, Partition>, tables: seq<string>, now: Date, f: Faults)
    requires now.Valid()
    ensures var one := EnsureAll(parts, tables, AddMonths(now, 1).month, f);
            var two := EnsureAll(one, tables, AddMonths(now, 2).month, f);
            && EnsureAhead(parts, tables, now, 3, f) == EnsureAll(two, tables, AddMonths(now, 3).month, f)
            && (AheadEnsured(parts, tables, now, 3, f) <==>
                  && AllEnsured(parts, tables, AddMonths(now, 1).month, f)
                  && AllEnsured(one, tables, AddMonths(now, 2).month, f)
                  && AllEnsured(two, tables, AddMonths(now, 3).month, f))
  {
    assert EnsureAhead(parts, tables, now, 0, f) == parts;
    assert EnsureAhead(parts, tables, now, 1, f) == EnsureAll(parts, tables, AddMonths(now, 1).month, f);
    assert AheadEnsured(parts, tables, now, 1, f) <==> AllEnsured(parts, tables, AddMonths(now, 1).month, f);
  }

  lemma NoneFailsAfter(parts: map<string, Partition>, tables: seq<string>, done: int, m: int, f: Faults)
    ensures NoneFails(EnsureAll(parts, tables, done, f), tables, m, f) <==> NoneFails(parts, tables, m, f)
  {
    var more := EnsureAll(parts, tables, done, f);
    forall n
      ensures n in more <==> n in parts || IsAdded(n, tables, done, f)
    {
      EnsureAllIs(parts, tables, done, f, n);
    }
    NoneFailsStays(parts, more, tables, m, f);
  }

  lemma AheadEnsuredIff(parts: map<string, Partition>, tables: seq<string>, now: Date, f: Faults)
    requires now.Valid()
    ensures AheadEnsured(parts, tables, now, 3, f) <==>
            && NoneFails(parts, tables, AddMonths(now, 1).month, f)
            && NoneFails(parts, tables, AddMonths(now, 2).month, f)
            && NoneFails(parts, tables, AddMonths(now, 3).month, f)
  {
    var one := EnsureAll(parts, tables, AddMonths(now, 1).month, f);
    var two := EnsureAll(one, tables, AddMonths(now, 2).month, f);
    UnfoldAhead(parts, tables, now, f);
    AllEnsuredIff(parts, tables, AddMonths(now, 1).month, f);
    AllEnsuredIff(one, tables, AddMonths(now, 2).month, f);
    AllEnsuredIff(two, tables, AddMonths(now, 3).month, f);
    NoneFailsAfter(parts, tables, AddMonths(now, 1).month, AddMonths(now, 2).month, f);
    NoneFailsAfter(parts, tables, AddMonths(now, 1).month, AddMonths(now, 3).month, f);
    NoneFailsAfter(one, tables, AddMonths(now, 2).month, AddMonths(now, 3).month, f);
  }

  function Cutoff(now: Date, retention: int): (d: Date)
    requires now.Valid()
    ensures d.Valid()
  {
    AddMonths(now, -retention)
  }

  predicate ReadsOlder(n: string, table: string, cutoff: int) {
    match ParsePartitionDate(n, table)
    case None => false
    case Some((year, month)) => MonthNumber(year, month) < cutoff
  }

  /** The attached partitions of `table` that read as older than the cutoff. */
  function Expired(parts: map<string, Partition>, table: string, cutoff: int): set<string> {
    set n | n in parts && parts[n].attached && parts[n].parent == table && ReadsOlder(n, table, cutoff)
  }

  /** The effect of dump, detach and drop on the expired names. */
  function Archived(parts: map<string, Partition>, expired: set<string>, f: Faults): map<string, Partition> {
    map n | n in parts && !(n in expired && !ExportFails(n, f) && n !in f.detach && n !in f.drop) ::
      if n in expired && !ExportFails(n, f) && n !in f.detach then parts[n].(attached := false) else parts[n]
  }

  /** The names that are exported, whether or not they can then be detached. */
  function Listed(parts: map<string, Partition>, table: string, cutoff: int): set<string> {
    set n | n in parts && ReadsOlder(n, table, cutoff)
  }

  function ArchivedTable(c: Catalogue, table: string, cutoff: int, f: Faults): Catalogue {
    if table in f.list then c
    else Catalogue(Archived(c.parts, Expired(c.parts, table, cutoff), f),
                   Redumped(c.dumped, Listed(c.parts, table, cutoff), f))
  }

  /** Every step for one name works. */
  predicate ArchivesFully(parts: map<string, Partition>, n: string, table: string, f: Faults) {
    && !ExportFails(n, f)
    && n in parts && parts[n].attached && parts[n].parent == table
    && n !in f.detach && n !in f.drop
  }

  /** No call for a table fails. */
  predicate TableArchivesFully(c: Catalogue, table: string, cutoff: int, f: Faults) {
    table !in f.list && forall n :: n in c.parts && ReadsOlder(n, table, cutoff) ==> ArchivesFully(c.parts, n, table, f)
  }

  predicate AllArchiveFully(c: Catalogue, tables: seq<string>, cutoff: int, f: Faults) {
    tables != [] ==>
      var earlier, table := tables[..|tables| - 1], tables[|tables| - 1];
      AllArchiveFully(c, earlier, cutoff, f)
      && TableArchivesFully(ArchivedTables(c, earlier, cutoff, f), table, cutoff, f)
  }

  function ArchivedTables(c: Catalogue, tables: seq<string>, cutoff: int, f: Faults): Catalogue {
    if tables == [] then c
    else ArchivedTable(ArchivedTables(c, tables[..|tables| - 1], cutoff, f), tables[|tables| - 1], cutoff, f)
  }

  datatype Event =
    | Check(now: Date, f: Faults)
    | Future(now: Date, f: Faults)
    | Archive(now: Date, f: Faults)

  function Apply(c: Catalogue, config: Config, e: Event): Catalogue
    requires e.now.Valid()
  {
    match e
    case Check(now, f) => c.(parts := EnsureAll(c.parts, config.tables, AddMonths(now, 1).month, f))
    case Future(now, f) => c.(parts := EnsureAhead(c.parts, config.tables, now, 3, f))
    case Archive(now, f) => ArchivedTables(c, config.tables, Cutoff(now, config.retentionMonths).month, f)
  }

  class Scheduler {
    var parts: map<string, Partition>
    var dumped: set<string>
    const config: Config

    constructor (retentionMonths: int)
      ensures Catalog() == Catalogue(map[], {}) && config == Config(PARTITIONED_TABLES, retentionMonths)
    {
      parts, dumped := map[], {};
      config := Config(PARTITIONED_TABLES, retentionMonths);
    }

    function Catalog(): Catalogue
      reads this
    {
      Catalogue(parts, dumped)
    }

    /** `CREATE TABLE IF NOT EXISTS ... PARTITION OF`, after the existence query; false when either fails. */
    method Ensure(table: string, m: int, f: Faults) returns (ok: bool)
      modifies this`parts
      ensures parts == EnsurePartition(old(parts), table, m, f)
      ensures ok == Ensured(old(parts), table, m, f)
    {
      var name := Name(table, m);
      if name in f.check {
        return false;
      }
      if name in parts {
        return true;
      }
      if name in f.create {
        return false;
      }
      parts := parts[name := Partition(table, m, true)];
      return true;
    }

    method EnsureMonth(m: int, f: Faults) returns (ok: bool)
      modifies this`parts
      ensures parts == EnsureAll(old(parts), config.tables, m, f)
      ensures ok == AllEnsured(old(parts), config.tables, m, f)
    {
      ok := true;
      for i := 0 to |config.tables|
        invariant parts == EnsureAll(old(parts), config.tables[..i], m, f)
        invariant ok == AllEnsured(old(parts), config.tables[..i], m, f)
      {
        EnsureOneMore(old(parts), config.tables, i, m, f);
        var done := Ensure(config.tables[i], m, f);
        if !done {
          ok := false;
        }
      }
      assert config.tables[..|config.tables|] == config.tables;
    }

    method CheckPartitions(now: Date, f: Faults) returns (ok: bool)
      requires now.Valid()
      modifies this`parts
      ensures Catalog() == Apply(old(Catalog()), config, Check(now, f))
      ensures var m := AddMonths(now, 1).month;
              && (ok <==> NoneFails(old(parts), config.tables, m, f))
              && (forall n :: n in parts <==> n in old(parts) || IsAdded(n, config.tables, m, f))
    {
      var nextMonth := AddMonths(now, 1);
      ok := EnsureMonth(nextMonth.month, f);
      AllEnsuredIff(old(parts), config.tables, nextMonth.month, f);
      forall n
        ensures n in parts <==> n in old(parts) || IsAdded(n, config.tables, nextMonth.month, f)
      {
        EnsureAllIs(old(parts), config.tables, nextMonth.month, f, n);
      }
    }

    method CreateFuturePartitions(now: Date, f: Faults) returns (ok: bool)
      requires now.Valid()
      modifies this`parts
      ensures Catalog() == Apply(old(Catalog()), config, Future(now, f))
      ensures ok <==>
              && NoneFails(old(parts), config.tables, AddMonths(now, 1).month, f)
              && NoneFails(old(parts), config.tables, AddMonths(now, 2).month, f)
              && NoneFails(old(parts), config.tables, AddMonths(now, 3).month, f)
      ensures forall n :: n in parts <==>
                || n in old(parts)
                || IsAdded(n, config.tables, AddMonths(now, 1).month, f)
                || IsAdded(n, config.tables, AddMonths(now, 2).month, f)
                || IsAdded(n, config.tables, AddMonths(now, 3).month, f)
    {
      ok := true;
      for monthOffset := 1 to 4
        invariant parts == EnsureAhead(old(parts), config.tables, now, monthOffset - 1, f)
        invariant ok == AheadEnsured(old(parts), config.tables, now, monthOffset - 1, f)
      {
        var targetDate := AddMonths(now, monthOffset);
        var done := EnsureMonth(targetDate.month, f);
        ok := ok && done;
      }
      AheadEnsuredIff(old(parts), config.tables, now, f);
      forall n
        ensures n in parts <==>
                || n in old(parts)
                || IsAdded(n, config.tables, AddMonths(now, 1).month, f)
                || IsAdded(n, config.tables, AddMonths(now, 2).month, f)
                || IsAdded(n, config.tables, AddMonths(now, 3).month, f)
      {
        AheadIs(old(parts), config.tables, now, f, n);
      }
    }

    method FindOldPartitions(table: string, cutoff: Date, f: Faults) returns (ok: bool, names: seq<string>)
      ensures ok <==> table !in f.list
      ensures ok ==> forall n :: n in names <==> n in parts && ReadsOlder(n, table, cutoff.month)
      ensures forall i, j :: 0 <= i < j < |names| ==> names[i] != names[j]
    {
      names := [];
      if table in f.list {
        return false, [];
      }
      var cutoffYear, cutoffMonth := YearOf(cutoff.month), MonthOfYear(cutoff.month);
      var rest := parts.Keys;
      while rest != {}
        invariant rest <= parts.Keys
        invariant forall n :: n in names <==> n in parts && n !in rest && ReadsOlder(n, table, cutoff.month)
        invariant forall i, j :: 0 <= i < j < |names| ==> names[i] != names[j]
      {
        var n :| n in rest;
        rest := rest - {n};
        var parsed := ParsePartitionDate(n, table);
        if parsed.Some? {
          var (year, month) := parsed.value;
          if year < cutoffYear || (year == cutoffYear && month < cutoffMonth) {
            names := names + [n];
          }
        }
      }
      ok := true;
    }

    /** Dump, detach, drop; stops at the first step that fails. Only a partition of `parent` can be detached from it. */
    method ArchiveSinglePartition(parent: string, n: string, f: Faults) returns (ok: bool)
      requires n in parts
      modifies this
      ensures var expired := if IsPartitionOf(old(parts), n, parent) then {n} else {};
              parts == Archived(old(parts), expired, f)
      ensures dumped == Redumped(old(dumped), {n}, f)
      ensures ok <==> ArchivesFully(old(parts), n, parent, f)
    {
      if Overwrites(n, f) {
        dumped := dumped - {n};
      }
      if DumpWritten(n, f) {
        dumped := dumped + {n};
      }
      if ExportFails(n, f) {
        assert parts == Archived(parts, {n}, f) == Archived(parts, {}, f);
        return false;
      }
      if parts[n].parent != parent || !parts[n].attached || n in f.detach {
        assert parts == Archived(parts, {}, f);
        assert n in f.detach ==> parts == Archived(parts, {n}, f);
        return false;
      }
      parts := parts[n := parts[n].(attached := false)];
      if n in f.drop {
        assert parts == Archived(old(parts), {n}, f);
        return false;
      }
      parts := map k | k in parts && k != n :: parts[k];
      assert parts == Archived(old(parts), {n}, f);
      return true;
    }

    /** The inner loop: archives the named tables one by one, going on after a failure. */
    method ArchiveEach(table: string, names: seq<string>, f: Faults) returns (ok: bool)
      requires forall k :: 0 <= k < |names| ==> names[k] in parts
      requires forall i, j :: 0 <= i < j < |names| ==> names[i] != names[j]
      modifies this
      ensures parts == Archived(old(parts), OwnedBy(old(parts), names, table), f)
      ensures dumped == Redumped(old(dumped), AsSet(names), f)
      ensures ok <==> EachArchivesFully(old(parts), names, table, f)
    {
      ok := true;
      ghost var start := parts;
      ArchiveNothing(start, [], table, f);
      for j := 0 to |names|
        invariant parts == Archived(start, OwnedBy(start, names[..j], table), f)
        invariant dumped == Redumped(old(dumped), AsSet(names[..j]), f)
        invariant ok <==> EachArchivesFully(start, names[..j], table, f)
      {
        var n := names[j];
        assert names[..j + 1] == names[..j] + [n];
        ArchiveNext(start, names[..j], n, table, f);
        RedumpedNext(old(dumped), names[..j], n, f);
        FullyNext(start, parts, names[..j], n, table, f);
        var archived := ArchiveSinglePartition(table, n, f);
        ok := ok && archived;
      }
      assert names[..|names|] == names;
    }

    method ArchiveTable(table: string, cutoff: Date, f: Faults) returns (ok: bool)
      modifies this
      ensures Catalog() == ArchivedTable(old(Catalog()), table, cutoff.month, f)
      ensures ok <==> TableArchivesFully(old(Catalog()), table, cutoff.month, f)
      ensures ok <==> OldAreClean(old(parts), table, cutoff.month, f)
    {
      var names;
      TableSucceedsIff(Catalog(), table, cutoff.month, f);
      ok, names := FindOldPartitions(table, cutoff, f);
      if !ok {
        return;
      }
      OldNames(parts, names, table, cutoff.month);
      ok := ArchiveEach(table, names, f);
    }

    method ArchiveOldPartitions(now: Date, f: Faults) returns (ok: bool)
      requires now.Valid()
      modifies this
      ensures Catalog() == Apply(old(Catalog()), config, Archive(now, f))
      ensures ok <==> AllArchiveFully(old(Catalog()), config.tables, Cutoff(now, config.retentionMonths).month, f)
      ensures var cutoff := Cutoff(now, config.retentionMonths).month;
              && (ok ==> forall table :: table in config.tables ==>
                    table !in f.list && NoOldLeft(old(parts), parts, table, cutoff))
              && ((forall table :: table in config.tables ==> OldAreClean(old(parts), table, cutoff, f)) ==> ok)
    {
      var cutoff := Cutoff(now, config.retentionMonths);
      ok := true;
      ghost var start := Catalog();
      for i := 0 to |config.tables|
        invariant Catalog() == ArchivedTables(start, config.tables[..i], cutoff.month, f)
        invariant ok <==> AllArchiveFully(start, config.tables[..i], cutoff.month, f)
      {
        ghost var before := Catalog();
        ArchivedTablesNext(start, config.tables, i, cutoff.month, f, before);
        var archived := ArchiveTable(config.tables[i], cutoff, f);
        ok := ok && archived;
      }
      assert config.tables[..|config.tables|] == config.tables;
      SuccessTells(start, config.tables, cutoff.month, f, ok);
    }

    static predicate IsPartitionOf(parts: map<string, Partition>, n: string, parent: string)
      requires n in parts
    {
      parts[n].attached && parts[n].parent == parent
    }
  }

  /** Those of the names that are attached partitions of `table`. */
  function OwnedBy(parts: map<string, Partition>, names: seq<string>, table: string): set<string> {
    set n | n in names && n in parts && parts[n].attached && parts[n].parent == table
  }

  predicate EachArchivesFully(parts: map<string, Partition>, names: seq<string>, table: string, f: Faults) {
    forall k :: 0 <= k < |names| ==> ArchivesFully(parts, names[k], table, f)
  }

  lemma FullyNext(start: map<string, Partition>, parts: map<string, Partition>, visited: seq<string>, n: string,
                  table: string, f: Faults)
    requires n in start && n in parts && parts[n] == start[n]
    ensures EachArchivesFully(start, visited + [n], table, f) <==>
            EachArchivesFully(start, visited, table, f) && ArchivesFully(parts, n, table, f)
  {
    assert forall k :: 0 <= k < |visited| ==> (visited + [n])[k] == visited[k];
    assert (visited + [n])[|visited|] == n;
  }

  function AsSet(names: seq<string>): set<string> {
    set n | n in names
  }

  lemma RedumpedNext(dumped: set<string>, visited: seq<string>, n: string, f: Faults)
    ensures Redumped(dumped, AsSet(visited + [n]), f) == Redumped(Redumped(dumped, AsSet(visited), f), {n}, f)
  {
    assert AsSet(visited + [n]) == AsSet(visited) + {n};
  }

  lemma ArchiveCompose(parts: map<string, Partition>, a: set<string>, b: set<string>, f: Faults)
    ensures Archived(Archived(parts, a, f), b, f) == Archived(parts, a + b, f)
  {}

  lemma ArchiveNothing(parts: map<string, Partition>, names: seq<string>, table: string, f: Faults)
    requires names == []
    ensures OwnedBy(parts, names, table) == {}
    ensures Archived(parts, {}, f) == parts
  {}

  /** Archiving one more, not yet visited name. */
  lemma ArchiveNext(start: map<string, Partition>, visited: seq<string>, n: string, table: string, f: Faults)
    requires n in start && n !in visited
    ensures var current := Archived(start, OwnedBy(start, visited, table), f);
            && n in current && current[n] == start[n]
            && Archived(current, if Scheduler.IsPartitionOf(current, n, table) then {n} else {}, f)
               == Archived(start, OwnedBy(start, visited + [n], table), f)
  {
    var done := OwnedBy(start, visited, table);
    var current := Archived(start, done, f);
    assert n !in done && n in current && current[n] == start[n];
    var next := if Scheduler.IsPartitionOf(current, n, table) then {n} else {};
    ArchiveCompose(start, done, next, f);
    assert OwnedBy(start, visited + [n], table) == done + next;
  }

  lemma ArchivedTablesNext(start: Catalogue, tables: seq<string>, i: nat, cutoff: int, f: Faults, before: Catalogue)
    requires i < |tables| && before == ArchivedTables(start, tables[..i], cutoff, f)
    ensures ArchivedTables(start, tables[..i + 1], cutoff, f) == ArchivedTable(before, tables[i], cutoff, f)
    ensures AllArchiveFully(start, tables[..i + 1], cutoff, f) <==>
            AllArchiveFully(start, tables[..i], cutoff, f) && TableArchivesFully(before, tables[i], cutoff, f)
  {
    assert tables[..i + 1][..i] == tables[..i];
  }

  /** Every name that reads as an old partition of `table` is one, and every step for it works. */
  predicate OldAreClean(parts: map<string, Partition>, table: string, cutoff: int, f: Faults) {
    && table !in f.list
    && forall n :: n in parts && ReadsOlder(n, table, cutoff) ==>
         && parts[n].attached && parts[n].parent == table
         && n !in f.bash && n !in f.open && (n in f.gzip ==> f.gzip[n] == 0)
         && n !in f.detach && n !in f.drop
  }

  predicate NoOldLeft(before: map<string, Partition>, after: map<string, Partition>, table: string, cutoff: int) {
    forall n :: n in before && ReadsOlder(n, table, cutoff) ==> n !in after
  }

  ghost predicate Shrinks(before: map<string, Partition>, after: map<string, Partition>) {
    forall n :: n in after ==> n in before
  }

  lemma TableSucceedsIff(c: Catalogue, table: string, cutoff: int, f: Faults)
    ensures TableArchivesFully(c, table, cutoff, f) <==> OldAreClean(c.parts, table, cutoff, f)
    ensures OldAreClean(c.parts, table, cutoff, f) ==>
              NoOldLeft(c.parts, ArchivedTable(c, table, cutoff, f).parts, table, cutoff)
    ensures Shrinks(c.parts, ArchivedTable(c, table, cutoff, f).parts)
  {}

  lemma {:induction false} TablesShrink(c: Catalogue, tables: seq<string>, cutoff: int, f: Faults)
    ensures Shrinks(c.parts, ArchivedTables(c, tables, cutoff, f).parts)
  {
    if tables != [] {
      TablesShrink(c, tables[..|tables| - 1], cutoff, f);
    }
  }

  /** A call that reports success has listed every table and left nothing old of it. */
  lemma {:induction false} SuccessLeavesNothingOld(c: Catalogue, tables: seq<string>, cutoff: int, f: Faults,
                                                   table: string)
    requires AllArchiveFully(c, tables, cutoff, f) && table in tables
    ensures table !in f.list && NoOldLeft(c.parts, ArchivedTables(c, tables, cutoff, f).parts, table, cutoff)
  {
    var earlier, last := tables[..|tables| - 1], tables[|tables| - 1];
    TablesShrink(c, earlier, cutoff, f);
    TableSucceedsIff(ArchivedTables(c, earlier, cutoff, f), last, cutoff, f);
    if table != last {
      assert table in earlier;
      SuccessLeavesNothingOld(c, earlier, cutoff, f, table);
    }
  }

  /** What is left of a clean catalogue is as it was. */
  ghost predicate LeftAlone(before: map<string, Partition>, after: map<string, Partition>) {
    forall n :: n in after ==> n in before && after[n] == before[n]
  }

  lemma CleanTable(c: Catalogue, table: string, cutoff: int, f: Faults)
    requires OldAreClean(c.parts, table, cutoff, f)
    ensures LeftAlone(c.parts, ArchivedTable(c, table, cutoff, f).parts)
  {}

  lemma CleanStays(before: map<string, Partition>, after: map<string, Partition>, table: string, cutoff: int, f: Faults)
    requires OldAreClean(before, table, cutoff, f) && LeftAlone(before, after)
    ensures OldAreClean(after, table, cutoff, f)
  {}

  /** When all that reads as old is clean, the call succeeds. */
  lemma {:induction false} CleanSucceeds(c: Catalogue, tables: seq<string>, cutoff: int, f: Faults)
    requires forall i :: 0 <= i < |tables| ==> OldAreClean(c.parts, tables[i], cutoff, f)
    ensures AllArchiveFully(c, tables, cutoff, f)
    ensures LeftAlone(c.parts, ArchivedTables(c, tables, cutoff, f).parts)
  {
    if tables != [] {
      var earlier, last := tables[..|tables| - 1], tables[|tables| - 1];
      assert forall i :: 0 <= i < |earlier| ==> earlier[i] == tables[i];
      CleanSucceeds(c, earlier, cutoff, f);
      var mid := ArchivedTables(c, earlier, cutoff, f);
      CleanStays(c.parts, mid.parts, last, cutoff, f);
      TableSucceedsIff(mid, last, cutoff, f);
      CleanTable(mid, last, cutoff, f);
    }
  }

  lemma SuccessTells(c: Catalogue, tables: seq<string>, cutoff: int, f: Faults, ok: bool)
    requires ok <==> AllArchiveFully(c, tables, cutoff, f)
    ensures ok ==> forall table :: table in tables ==>
              table !in f.list && NoOldLeft(c.parts, ArchivedTables(c, tables, cutoff, f).parts, table, cutoff)
    ensures (forall table :: table in tables ==> OldAreClean(c.parts, table, cutoff, f)) ==> ok
  {
    if ok {
      forall table | table in tables
        ensures table !in f.list && NoOldLeft(c.parts, ArchivedTables(c, tables, cutoff, f).parts, table, cutoff)
      {
        SuccessLeavesNothingOld(c, tables, cutoff, f, table);
      }
    } else if forall i :: 0 <= i < |tables| ==> OldAreClean(c.parts, tables[i], cutoff, f) {
      CleanSucceeds(c, tables, cutoff, f);
    }
  }

  lemma OldNames(parts: map<string, Partition>, names: seq<string>, table: string, cutoff: int)
    requires forall n :: n in names <==> n in parts && ReadsOlder(n, table, cutoff)
    ensures OwnedBy(parts, names, table) == Expired(parts, table, cutoff)
    ensures AsSet(names) == Listed(parts, table, cutoff)
  {}

  // ------------------------------------------------------------------
  // Whole runs
  // ------------------------------------------------------------------

  /** The clock never goes back between calls. */
  ghost predicate Ordered(evs: seq<Event>) {
    && (forall i :: 0 <= i < |evs| ==> evs[i].now.Valid())
    && (forall i, j :: 0 <= i < j < |evs| ==> DayNumber(evs[i].now) <= DayNumber(evs[j].now))
  }

  function Run(c: Catalogue, config: Config, evs: seq<Event>): Catalogue
    requires forall i :: 0 <= i < |evs| ==> evs[i].now.Valid()
  {
    if evs == [] then c else Apply(Run(c, config, evs[..|evs| - 1]), config, evs[|evs| - 1])
  }

  /** Only partitions of months before `month` have been detached without being dropped. */
  ghost predicate DetachedOnlyBefore(c: Catalogue, month: int) {
    forall n :: n in c.parts && !c.parts[n].attached ==> c.parts[n].month < month
  }

  lemma NamedAfter(c: Catalogue, table: string, m: int)
    requires c.Valid() && Name(table, m) in c.parts
    ensures c.parts[Name(table, m)].parent == table && c.parts[Name(table, m)].month == m
  {
    var p := c.parts[Name(table, m)];
    NameInjective(table, m, p.parent, p.month);
  }

  /** Creating keeps what is there and adds nothing but attached partitions of the month. */
  ghost predicate OnlyAdds(before: map<string, Partition>, after: map<string, Partition>, low: int) {
    && (forall n :: n in before ==> n in after && after[n] == before[n])
    && (forall n :: n in after && n !in before ==>
          after[n].attached && after[n].month >= low && n == Name(after[n].parent, after[n].month))
  }

  lemma {:induction false} EnsureAllAdds(parts: map<string, Partition>, tables: seq<string>, m: int, f: Faults)
    ensures OnlyAdds(parts, EnsureAll(parts, tables, m, f), m)
  {
    if tables != [] {
      EnsureAllAdds(parts, tables[..|tables| - 1], m, f);
    }
  }

  lemma {:induction false} EnsureAllSucceeds(parts: map<string, Partition>, tables: seq<string>, m: int, f: Faults,
                                             table: string)
    requires AllEnsured(parts, tables, m, f) && table in tables
    ensures Name(table, m) in EnsureAll(parts, tables, m, f)
  {
    var earlier, last := tables[..|tables| - 1], tables[|tables| - 1];
    if table != last {
      assert table in earlier;
      EnsureAllSucceeds(parts, earlier, m, f, table);
    }
  }

  lemma OnlyAddsOn(before: map<string, Partition>, mid: map<string, Partition>, after: map<string, Partition>,
                   low: int, high: int)
    requires OnlyAdds(before, mid, low) && OnlyAdds(mid, after, high) && low <= high
    ensures OnlyAdds(before, after, low)
  {}

  lemma LandsAhead(now: Date, k: nat)
    requires now.Valid()
    ensures AddMonths(now, k).month >= now.month + k
  {
    AddMonthsLands(now, k);
  }

  lemma {:induction false} EnsureAheadAdds(parts: map<string, Partition>, tables: seq<string>, now: Date, k: nat,
                                           f: Faults)
    requires now.Valid()
    ensures OnlyAdds(parts, EnsureAhead(parts, tables, now, k, f), now.month + 1)
  {
    if k > 0 {
      var earlier := EnsureAhead(parts, tables, now, k - 1, f);
      EnsureAheadAdds(parts, tables, now, k - 1, f);
      LandsAhead(now, k);
      EnsureAllAdds(earlier, tables, AddMonths(now, k).month, f);
      OnlyAddsOn(parts, earlier, EnsureAhead(parts, tables, now, k, f), now.month + 1, AddMonths(now, k).month);
    }
  }

  /** Archiving removes or detaches only attached partitions before the cutoff, and never changes the rest. */
  ghost predicate OnlyArchives(before: Catalogue, after: Catalogue, cutoff: int, f: Faults) {
    && (forall n :: n in after.parts ==>
          n in before.parts && after.parts[n].(attached := before.parts[n].attached) == before.parts[n])
    && (forall n :: Touched(before, after, n) ==>
          before.parts[n].attached && before.parts[n].month < cutoff && !ExportFails(n, f)
          && (n in after.parts ==> !after.parts[n].attached)
          && (n in after.dumped <==> DumpWritten(n, f)))
    && (forall n :: (n in after.dumped <==> n in before.dumped) || (n in after.dumped <==> DumpWritten(n, f)))
  }

  predicate Touched(before: Catalogue, after: Catalogue, n: string) {
    n in before.parts && (n !in after.parts || after.parts[n] != before.parts[n])
  }

  lemma OlderNameIsOlderMonth(table: string, m: int, cutoff: int)
    ensures ReadsOlder(Name(table, m), table, cutoff) <==> m < cutoff
  {
    ParseInvertsName(table, m);
  }

  lemma TouchedIsExpired(c: Catalogue, table: string, cutoff: int, f: Faults, n: string)
    requires c.Valid() && Touched(c, ArchivedTable(c, table, cutoff, f), n)
    ensures n in Expired(c.parts, table, cutoff) && c.parts[n].month < cutoff && !ExportFails(n, f)
    ensures n in ArchivedTable(c, table, cutoff, f).parts ==> !ArchivedTable(c, table, cutoff, f).parts[n].attached
  {
    OlderNameIsOlderMonth(table, c.parts[n].month, cutoff);
  }

  lemma ExpiredIsDumped(c: Catalogue, table: string, cutoff: int, f: Faults, n: string)
    requires table !in f.list && n in Expired(c.parts, table, cutoff) && !ExportFails(n, f)
    ensures n in ArchivedTable(c, table, cutoff, f).dumped <==> DumpWritten(n, f)
    ensures DumpWritten(n, f) <==> Status(f.pgDump, n) == 0
  {
    assert n in Listed(c.parts, table, cutoff);
  }

  lemma ArchivedTableOnly(c: Catalogue, table: string, cutoff: int, f: Faults)
    requires c.Valid()
    ensures ArchivedTable(c, table, cutoff, f).Valid()
    ensures OnlyArchives(c, ArchivedTable(c, table, cutoff, f), cutoff, f)
  {
    forall n | Touched(c, ArchivedTable(c, table, cutoff, f), n)
      ensures c.parts[n].attached && c.parts[n].month < cutoff && !ExportFails(n, f)
      ensures n in ArchivedTable(c, table, cutoff, f).parts ==> !ArchivedTable(c, table, cutoff, f).parts[n].attached
      ensures n in ArchivedTable(c, table, cutoff, f).dumped <==> DumpWritten(n, f)
    {
      TouchedIsExpired(c, table, cutoff, f, n);
      ExpiredIsDumped(c, table, cutoff, f, n);
    }
  }

  lemma OnlyArchivesOn(before: Catalogue, mid: Catalogue, after: Catalogue, cutoff: int, f: Faults)
    requires OnlyArchives(before, mid, cutoff, f) && OnlyArchives(mid, after, cutoff, f)
    ensures OnlyArchives(before, after, cutoff, f)
  {
    forall n | Touched(before, after, n)
      ensures before.parts[n].attached && before.parts[n].month < cutoff && !ExportFails(n, f)
      ensures n in after.parts ==> !after.parts[n].attached
      ensures n in after.dumped <==> DumpWritten(n, f)
    {
      assert Touched(before, mid, n) || Touched(mid, after, n);
    }
  }

  lemma {:induction false} ArchivedTablesOnly(c: Catalogue, tables: seq<string>, cutoff: int, f: Faults)
    requires c.Valid()
    ensures ArchivedTables(c, tables, cutoff, f).Valid()
    ensures OnlyArchives(c, ArchivedTables(c, tables, cutoff, f), cutoff, f)
  {
    if tables != [] {
      var earlier := ArchivedTables(c, tables[..|tables| - 1], cutoff, f);
      ArchivedTablesOnly(c, tables[..|tables| - 1], cutoff, f);
      ArchivedTableOnly(earlier, tables[|tables| - 1], cutoff, f);
      OnlyArchivesOn(c, earlier, ArchivedTables(c, tables, cutoff, f), cutoff, f);
    }
  }

  lemma CutoffMonth(now: Date, retention: int)
    requires now.Valid()
    ensures retention >= 0 ==> Cutoff(now, retention).month <= now.month
  {
    AddMonthsLands(now, -retention);
  }

  /** The cutoff never lies after the current month, for every date, exactly when retention is not negative. */
  lemma CutoffNotAhead(retention: int)
    ensures retention >= 0 <==> forall now: Date :: now.Valid() ==> Cutoff(now, retention).month <= now.month
  {
    forall now: Date | now.Valid()
      ensures retention >= 0 ==> Cutoff(now, retention).month <= now.month
    {
      CutoffMonth(now, retention);
    }
    var first := Date(0, 1);
    AddMonthsLands(first, -retention);
    assert first.Valid();
    assert Cutoff(first, retention).month == -retention;
  }

  /** One call keeps names consistent and detaches nothing from the current month on. */
  lemma ApplyKeeps(c: Catalogue, config: Config, e: Event)
    requires c.Valid() && e.now.Valid() && config.retentionMonths >= 0
    requires DetachedOnlyBefore(c, e.now.month)
    ensures Apply(c, config, e).Valid() && DetachedOnlyBefore(Apply(c, config, e), e.now.month)
  {
    match e
    case Check(now, f) =>
      EnsureAllAdds(c.parts, config.tables, AddMonths(now, 1).month, f);
    case Future(now, f) =>
      EnsureAheadAdds(c.parts, config.tables, now, 3, f);
    case Archive(now, f) =>
      CutoffMonth(now, config.retentionMonths);
      ArchivedTablesOnly(c, config.tables, Cutoff(now, config.retentionMonths).month, f);
  }

  /** Start of a run: consistent names, nothing detached from the first call's month on. */
  ghost predicate Sound(c: Catalogue, config: Config, evs: seq<Event>) {
    && c.Valid()
    && config.retentionMonths >= 0
    && Ordered(evs)
    && (evs != [] ==> DetachedOnlyBefore(c, evs[0].now.month))
  }

  lemma {:induction false} RunKeeps(c: Catalogue, config: Config, evs: seq<Event>)
    requires Sound(c, config, evs)
    ensures Run(c, config, evs).Valid()
    ensures evs != [] ==> DetachedOnlyBefore(Run(c, config, evs), evs[|evs| - 1].now.month)
  {
    if evs != [] {
      var earlier, last := evs[..|evs| - 1], evs[|evs| - 1];
      RunKeeps(c, config, earlier);
      if earlier != [] {
        DayNumberOrders(earlier[|earlier| - 1].now, last.now);
      }
      ApplyKeeps(Run(c, config, earlier), config, last);
    }
  }

  /** Only an archive call with the cutoff beyond month `m` ends the life of its partition. */
  lemma LeavesLive(c: Catalogue, config: Config, e: Event, table: string, m: int)
    requires c.Valid() && e.now.Valid() && c.Live(table, m) && !Apply(c, config, e).Live(table, m)
    ensures e.Archive? && m < Cutoff(e.now, config.retentionMonths).month
    ensures Name(table, m) in Apply(c, config, e).dumped <==> Status(e.f.pgDump, Name(table, m)) == 0
  {
    NamedAfter(c, table, m);
    match e
    case Check(now, f) => EnsureAllAdds(c.parts, config.tables, AddMonths(now, 1).month, f);
    case Future(now, f) => EnsureAheadAdds(c.parts, config.tables, now, 3, f);
    case Archive(now, f) => ArchivedTablesOnly(c, config.tables, Cutoff(now, config.retentionMonths).month, f);
  }

  /**
   Main result on archival: a partition leaves the live table only when its month is past and
   every date of that month, hence every row, comes before the cutoff date. There is then a dump of it
   exactly when pg_dump exited zero in this call, which nothing checks.
   */
  lemma ArchiveDropsOnlyOld(c: Catalogue, config: Config, now: Date, f: Faults, table: string, m: int, row: Date)
    requires c.Valid() && now.Valid() && config.retentionMonths >= 0
    requires c.Live(table, m) && !Apply(c, config, Archive(now, f)).Live(table, m)
    requires row.Valid() && row.month == m
    ensures m < now.month
    ensures DayNumber(row) < DayNumber(Cutoff(now, config.retentionMonths)) <= DayNumber(now)
    ensures Name(table, m) in Apply(c, config, Archive(now, f)).dumped <==> Status(f.pgDump, Name(table, m)) == 0
  {
    LeavesLive(c, config, Archive(now, f), table, m);
    CutoffNotAhead(config.retentionMonths);
    DayNumberOrders(Cutoff(now, config.retentionMonths), row);
    CutoffNotAfter(now, config.retentionMonths);
  }

  lemma CutoffNotAfter(now: Date, retention: int)
    requires now.Valid() && retention >= 0
    ensures DayNumber(Cutoff(now, retention)) <= DayNumber(now)
  {
    AddMonthsDayNumber(now, -retention, now.month - retention);
    MonthStartIncreases(now.month - retention, now.month);
  }

  /** What one call makes of an expired name and of its dump. */
  lemma ExpiredFate(c: Catalogue, table: string, cutoff: int, f: Faults, n: string)
    requires n in Expired(c.parts, table, cutoff)
    ensures var after := ArchivedTable(c, table, cutoff, f);
            && (n !in after.parts <==> table !in f.list && !ExportFails(n, f) && n !in f.detach && n !in f.drop)
            && (n in after.dumped <==>
                if table !in f.list && Overwrites(n, f) then DumpWritten(n, f) else n in c.dumped)
  {
    assert n in Listed(c.parts, table, cutoff);
  }

  /**
   When an old partition is dropped with no dump of it anywhere: exactly when pg_dump failed and every
   later stage and call worked, since the pipe's status is gzip's. A dump left by an earlier attempt does
   not help, it is overwritten.
   */
  lemma DropWithoutDump(c: Catalogue, table: string, m: int, cutoff: int, f: Faults)
    requires c.Valid() && c.Live(table, m) && m < cutoff
    ensures var n, after := Name(table, m), ArchivedTable(c, table, cutoff, f);
            n !in after.parts && n !in after.dumped <==>
            && Status(f.pgDump, n) != 0
            && table !in f.list && Overwrites(n, f) && Status(f.gzip, n) == 0 && n !in f.detach && n !in f.drop
  {
    NamedAfter(c, table, m);
    OlderNameIsOlderMonth(table, m, cutoff);
    ExpiredFate(c, table, cutoff, f, Name(table, m));
  }

  /**
   What an export leaves on disk for an old partition: if bash starts and can open the file, a complete dump
   exactly when both stages exit zero; else what was there.
   */
  lemma ExportLeavesDumpIff(c: Catalogue, table: string, m: int, cutoff: int, f: Faults)
    requires c.Valid() && c.Live(table, m) && m < cutoff && table !in f.list
    ensures var n, after := Name(table, m), ArchivedTable(c, table, cutoff, f);
            n in after.dumped <==>
            if n in f.bash || n in f.open then n in c.dumped
            else (n in f.pgDump ==> f.pgDump[n] == 0) && (n in f.gzip ==> f.gzip[n] == 0)
  {
    NamedAfter(c, table, m);
    OlderNameIsOlderMonth(table, m, cutoff);
    ExpiredFate(c, table, cutoff, f, Name(table, m));
  }

  /** Before the last call of a run the catalogue is consistent with that call's date. */
  lemma BeforeLast(c: Catalogue, config: Config, evs: seq<Event>)
    requires Sound(c, config, evs) && evs != []
    ensures var before := Run(c, config, evs[..|evs| - 1]);
            before.Valid() && DetachedOnlyBefore(before, evs[|evs| - 1].now.month)
  {
    var earlier := evs[..|evs| - 1];
    RunKeeps(c, config, earlier);
    if earlier != [] {
      DayNumberOrders(earlier[|earlier| - 1].now, evs[|evs| - 1].now);
    }
  }

  /** Every step for an old partition works. */
  predicate StepsWork(table: string, n: string, f: Faults) {
    CanBeDetached(table, n, f) && n !in f.drop
  }

  /** The export returns zero, as gzip does, and so does the detach. */
  predicate CanBeDetached(table: string, n: string, f: Faults) {
    && table !in f.list
    && n !in f.bash && n !in f.open && (n in f.gzip ==> f.gzip[n] == 0)
    && n !in f.detach
  }

  /** What a whole archive call makes of one partition of `table`, in whatever order it goes through the tables. */
  lemma {:induction false} ArchivedTablesFate(c: Catalogue, tables: seq<string>, cutoff: int, f: Faults,
                                              table: string, m: int)
    requires c.Valid() && c.Live(table, m)
    ensures var after := ArchivedTables(c, tables, cutoff, f);
            && (Name(table, m) !in after.parts <==>
                  table in tables && m < cutoff && StepsWork(table, Name(table, m), f))
            && (!after.Live(table, m) <==> table in tables && m < cutoff && CanBeDetached(table, Name(table, m), f))
  {
    if tables != [] {
      var earlier, last := tables[..|tables| - 1], tables[|tables| - 1];
      ArchivedTablesFate(c, earlier, cutoff, f, table, m);
      ArchivedTablesOnly(c, earlier, cutoff, f);
      var mid := ArchivedTables(c, earlier, cutoff, f);
      if !mid.Live(table, m) {
        DetachedFate(mid, last, cutoff, f, table, m);
      } else if last == table {
        OwnTableFate(mid, cutoff, f, table, m);
      } else {
        OtherTableFate(mid, last, cutoff, f, table, m);
      }
      assert table in tables <==> table in earlier || table == last;
    }
  }

  lemma OtherTableFate(mid: Catalogue, last: string, cutoff: int, f: Faults, table: string, m: int)
    requires mid.Valid() && last != table
    ensures var n, after := Name(table, m), ArchivedTable(mid, last, cutoff, f);
            && (n in mid.parts <==> n in after.parts)
            && (n in mid.parts ==> after.parts[n] == mid.parts[n])
  {
    if Name(table, m) in mid.parts {
      NamedAfter(mid, table, m);
    }
  }

  lemma OwnTableFate(mid: Catalogue, cutoff: int, f: Faults, table: string, m: int)
    requires mid.Valid() && mid.Live(table, m)
    ensures var n, after := Name(table, m), ArchivedTable(mid, table, cutoff, f);
            && (n !in after.parts <==> m < cutoff && StepsWork(table, n, f))
            && (!after.Live(table, m) <==> m < cutoff && CanBeDetached(table, n, f))
  {
    NamedAfter(mid, table, m);
    OlderNameIsOlderMonth(table, m, cutoff);
  }

  lemma DetachedFate(mid: Catalogue, last: string, cutoff: int, f: Faults, table: string, m: int)
    requires mid.Valid() && !mid.Live(table, m)
    ensures var n, after := Name(table, m), ArchivedTable(mid, last, cutoff, f);
            !after.Live(table, m) && (n in mid.parts <==> n in after.parts)
  {}

  lemma CutoffIs(now: Date, retention: int)
    requires now.Valid()
    ensures var back := now.month - retention;
            Cutoff(now, retention).month == if now.day <= MonthLength(back) then back else back + 1
  {
    AddMonthsLands(now, -retention);
  }

  /**
   Exactly when an archive call detaches a partition, and when it drops it: when its month comes before the
   one that lies the retention back, counted on from the day of the month if that month lacks it, and
   every step up to that works.
   */
  lemma ArchiveDropsIff(c: Catalogue, config: Config, now: Date, f: Faults, table: string, m: int)
    requires c.Valid() && now.Valid() && c.Live(table, m) && table in config.tables
    ensures var back := now.month - config.retentionMonths;
            var cutoff := if now.day <= MonthLength(back) then back else back + 1;
            var after := Apply(c, config, Archive(now, f));
            && (!after.Live(table, m) <==> m < cutoff && CanBeDetached(table, Name(table, m), f))
            && (Name(table, m) !in after.parts <==> m < cutoff && StepsWork(table, Name(table, m), f))
  {
    CutoffIs(now, config.retentionMonths);
    ArchivedTablesFate(c, config.tables, Cutoff(now, config.retentionMonths).month, f, table, m);
  }

  /** Archiving leaves the archive file of a table that is gone as it is. */
  lemma {:induction false} GoneKeepsDump(c: Catalogue, tables: seq<string>, cutoff: int, f: Faults, n: string)
    requires n !in c.parts
    ensures n !in ArchivedTables(c, tables, cutoff, f).parts
    ensures n in ArchivedTables(c, tables, cutoff, f).dumped <==> n in c.dumped
  {
    if tables != [] {
      GoneKeepsDump(c, tables[..|tables| - 1], cutoff, f, n);
    }
  }

  /** A call does not bring back a month that is not ahead of its clock, nor touch its dump. */
  lemma GoneStays(c: Catalogue, config: Config, e: Event, table: string, m: int)
    requires c.Valid() && e.now.Valid() && Name(table, m) !in c.parts && m <= e.now.month
    ensures Name(table, m) !in Apply(c, config, e).parts
    ensures Name(table, m) in Apply(c, config, e).dumped <==> Name(table, m) in c.dumped
  {
    match e
    case Check(now, f) =>
      LandsAhead(now, 1);
      EnsureAllAdds(c.parts, config.tables, AddMonths(now, 1).month, f);
      NotAdded(c, Apply(c, config, e), now.month + 1, table, m);
    case Future(now, f) =>
      EnsureAheadAdds(c.parts, config.tables, now, 3, f);
      NotAdded(c, Apply(c, config, e), now.month + 1, table, m);
    case Archive(now, f) =>
      GoneKeepsDump(c, config.tables, Cutoff(now, config.retentionMonths).month, f, Name(table, m));
  }

  lemma NotAdded(before: Catalogue, after: Catalogue, low: int, table: string, m: int)
    requires OnlyAdds(before.parts, after.parts, low) && m < low && Name(table, m) !in before.parts
    ensures Name(table, m) !in after.parts
  {
    if Name(table, m) in after.parts {
      var p := after.parts[Name(table, m)];
      NameInjective(table, m, p.parent, p.month);
    }
  }

  /** Later calls never bring back a month that is not ahead of the clock. */
  lemma {:induction false} PastMonthStaysGone(c: Catalogue, config: Config, evs: seq<Event>, table: string, m: int)
    requires Sound(c, config, evs)
    requires forall i :: 0 <= i < |evs| ==> m <= evs[i].now.month
    requires Name(table, m) !in c.parts
    ensures Name(table, m) !in Run(c, config, evs).parts
  {
    if evs != [] {
      var earlier, last := evs[..|evs| - 1], evs[|evs| - 1];
      PastMonthStaysGone(c, config, earlier, table, m);
      BeforeLast(c, config, evs);
      GoneStays(Run(c, config, earlier), config, last, table, m);
    }
  }

  lemma SoundPrefix(c: Catalogue, config: Config, evs: seq<Event>, k: nat)
    requires Sound(c, config, evs) && k <= |evs|
    ensures Sound(c, config, evs[..k])
  {}

  lemma DropIsArchive(c: Catalogue, config: Config, e: Event, n: string)
    requires c.Valid() && e.now.Valid() && n in c.parts && n !in Apply(c, config, e).parts
    ensures e.Archive? && OnlyArchives(c, Apply(c, config, e), Cutoff(e.now, config.retentionMonths).month, e.f)
  {
    match e
    case Check(now, f) => EnsureAllAdds(c.parts, config.tables, AddMonths(now, 1).month, f);
    case Future(now, f) => EnsureAheadAdds(c.parts, config.tables, now, 3, f);
    case Archive(now, f) => ArchivedTablesOnly(c, config.tables, Cutoff(now, config.retentionMonths).month, f);
  }

  lemma GoneIsOld(before: Catalogue, after: Catalogue, cutoff: int, f: Faults, n: string)
    requires OnlyArchives(before, after, cutoff, f) && n in before.parts && n !in after.parts
    ensures before.parts[n].month < cutoff
    ensures n in after.dumped <==> Status(f.pgDump, n) == 0
  {
    assert Touched(before, after, n);
  }

  /** The call that drops a table is an archive call, and leaves a dump of it exactly when its pg_dump exits zero. */
  lemma DropLeavesDumpIff(c: Catalogue, config: Config, e: Event, table: string, m: int)
    requires c.Valid() && e.now.Valid() && config.retentionMonths >= 0
    requires Name(table, m) in c.parts && Name(table, m) !in Apply(c, config, e).parts
    ensures e.Archive? && m < e.now.month
    ensures Name(table, m) in Apply(c, config, e).dumped <==> Status(e.f.pgDump, Name(table, m)) == 0
  {
    NamedAfter(c, table, m);
    DropIsArchive(c, config, e, Name(table, m));
    GoneIsOld(c, Apply(c, config, e), Cutoff(e.now, config.retentionMonths).month, e.f, Name(table, m));
    CutoffMonth(e.now, config.retentionMonths);
  }

  lemma DroppedNow(c: Catalogue, config: Config, evs: seq<Event>, table: string, m: int)
    requires Sound(c, config, evs) && evs != []
    requires Name(table, m) in Run(c, config, evs[..|evs| - 1]).parts && Name(table, m) !in Run(c, config, evs).parts
    ensures var last := evs[|evs| - 1];
            && last.Archive? && m < last.now.month
            && (Name(table, m) in Run(c, config, evs).dumped <==> Status(last.f.pgDump, Name(table, m)) == 0)
  {
    BeforeLast(c, config, evs);
    DropLeavesDumpIff(Run(c, config, evs[..|evs| - 1]), config, evs[|evs| - 1], table, m);
  }

  lemma GoneInRun(c: Catalogue, config: Config, evs: seq<Event>, i: nat, table: string, m: int)
    requires Sound(c, config, evs) && i < |evs| - 1 && m < evs[i].now.month
    requires Name(table, m) !in Run(c, config, evs[..|evs| - 1]).parts
    ensures Name(table, m) !in Run(c, config, evs).parts
    ensures Name(table, m) in Run(c, config, evs).dumped
       <==> Name(table, m) in Run(c, config, evs[..|evs| - 1]).dumped
  {
    BeforeLast(c, config, evs);
    DayNumberOrders(evs[i].now, evs[|evs| - 1].now);
    GoneStays(Run(c, config, evs[..|evs| - 1]), config, evs[|evs| - 1], table, m);
  }

  /** The `i`-th call drops the partition. */
  predicate DropsAt(c: Catalogue, config: Config, evs: seq<Event>, i: nat, n: string)
    requires i < |evs| && forall j :: 0 <= j < |evs| ==> evs[j].now.Valid()
  {
    n in Run(c, config, evs[..i]).parts && n !in Run(c, config, evs[..i + 1]).parts
  }

  lemma DropsAtEarlier(c: Catalogue, config: Config, evs: seq<Event>, i: nat, n: string)
    requires i < |evs| - 1 && forall j :: 0 <= j < |evs| ==> evs[j].now.Valid()
    requires DropsAt(c, config, evs, i, n)
    ensures DropsAt(c, config, evs[..|evs| - 1], i, n)
  {
    assert evs[..|evs| - 1][..i] == evs[..i] && evs[..|evs| - 1][..i + 1] == evs[..i + 1];
  }

  /** The `i`-th call archived the month, which is gone, with the dump that call left. */
  predicate GoneWithDump(c: Catalogue, config: Config, evs: seq<Event>, i: nat, table: string, m: int)
    requires i < |evs| && forall j :: 0 <= j < |evs| ==> evs[j].now.Valid()
  {
    && evs[i].Archive? && m < evs[i].now.month && Name(table, m) !in Run(c, config, evs).parts
    && (Name(table, m) in Run(c, config, evs).dumped <==> Status(evs[i].f.pgDump, Name(table, m)) == 0)
  }

  lemma GoneWithDumpAtOnce(c: Catalogue, config: Config, evs: seq<Event>, table: string, m: int)
    requires Sound(c, config, evs) && evs != [] && DropsAt(c, config, evs, |evs| - 1, Name(table, m))
    ensures GoneWithDump(c, config, evs, |evs| - 1, table, m)
  {
    assert evs[..|evs| - 1 + 1] == evs;
    DroppedNow(c, config, evs, table, m);
  }

  lemma GoneWithDumpStays(c: Catalogue, config: Config, evs: seq<Event>, i: nat, table: string, m: int)
    requires Sound(c, config, evs) && i < |evs| - 1
    requires GoneWithDump(c, config, evs[..|evs| - 1], i, table, m)
    ensures GoneWithDump(c, config, evs, i, table, m)
  {
    assert evs[..|evs| - 1][i] == evs[i];
    GoneInRun(c, config, evs, i, table, m);
  }

  /**
   Main result on dumps: over any run, of a partition that a call has dropped there is a dump at the end
   exactly when pg_dump exited zero in that very call, whatever was dumped before or is archived after.
   */
  lemma {:induction false} DroppedHasDumpIff(
      c: Catalogue, config: Config, evs: seq<Event>, i: nat, table: string, m: int)
    requires Sound(c, config, evs) && i < |evs| && DropsAt(c, config, evs, i, Name(table, m))
    ensures GoneWithDump(c, config, evs, i, table, m)
    decreases |evs|
  {
    if i + 1 == |evs| {
      GoneWithDumpAtOnce(c, config, evs, table, m);
    } else {
      SoundPrefix(c, config, evs, |evs| - 1);
      DropsAtEarlier(c, config, evs, i, Name(table, m));
      DroppedHasDumpIff(c, config, evs[..|evs| - 1], i, table, m);
      GoneWithDumpStays(c, config, evs, i, table, m);
    }
  }

  /** A check in the month before `m` that succeeds on a day month `m` has, in particular on days 1 to 28. */
  ghost predicate GoodCheck(c: Catalogue, config: Config, e: Event, m: int) {
    && e.Check? && e.now.Valid()
    && e.now.month + 1 == m
    && e.now.day <= MonthLength(m)
    && AllEnsured(c.parts, config.tables, m, e.f)
  }

  lemma GoodCheckCreates(c: Catalogue, config: Config, e: Event, table: string, m: int)
    requires c.Valid() && config.retentionMonths >= 0 && GoodCheck(c, config, e, m)
    requires DetachedOnlyBefore(c, e.now.month) && table in config.tables
    ensures Apply(c, config, e).Live(table, m)
  {
    AddMonthsLands(e.now, 1);
    EnsureAllSucceeds(c.parts, config.tables, m, e.f, table);
    ApplyKeeps(c, config, e);
    NamedAfter(Apply(c, config, e), table, m);
  }

  /** Some archive call after the `i`-th has its cutoff beyond `m`. */
  ghost predicate RetiredAfter(config: Config, evs: seq<Event>, i: nat, m: int) {
    exists k :: i < k < |evs| && evs[k].Archive? && evs[k].now.Valid()
                && m < Cutoff(evs[k].now, config.retentionMonths).month
  }

  /** A partition alive after the first `i` calls is alive at the end or was retired in between. */
  lemma {:induction false} StaysLive(c: Catalogue, config: Config, evs: seq<Event>, i: nat, table: string, m: int)
    requires Sound(c, config, evs) && i < |evs|
    requires Run(c, config, evs[..i + 1]).Live(table, m)
    ensures Run(c, config, evs).Live(table, m) || RetiredAfter(config, evs, i, m)
  {
    if i + 1 == |evs| {
      assert evs[..i + 1] == evs;
    } else {
      var earlier, last := evs[..|evs| - 1], evs[|evs| - 1];
      var before := Run(c, config, earlier);
      BeforeLast(c, config, evs);
      assert earlier[..i + 1] == evs[..i + 1];
      StaysLive(c, config, earlier, i, table, m);
      if !before.Live(table, m) {
        var k :| i < k < |earlier| && earlier[k].Archive? && m < Cutoff(earlier[k].now, config.retentionMonths).month;
        assert evs[k] == earlier[k];
      } else if !Apply(before, config, last).Live(table, m) {
        LeavesLive(before, config, last, table, m);
      }
    }
  }

  lemma LiveAfterCheck(c: Catalogue, config: Config, evs: seq<Event>, table: string, m: int)
    requires Sound(c, config, evs) && evs != [] && table in config.tables
    requires GoodCheck(Run(c, config, evs[..|evs| - 1]), config, evs[|evs| - 1], m)
    ensures Run(c, config, evs).Live(table, m)
  {
    BeforeLast(c, config, evs);
    GoodCheckCreates(Run(c, config, evs[..|evs| - 1]), config, evs[|evs| - 1], table, m);
  }

  /**
   Main result on availability: after a good check in the month before `m`, the partition of
   `m` is there, from before `m` begins, however the run goes on, until an archive call whose
   cutoff lies beyond `m`.
   */
  lemma PartitionStays(c: Catalogue, config: Config, evs: seq<Event>, i: nat, table: string, m: int)
    requires Sound(c, config, evs) && i < |evs| && table in config.tables
    requires GoodCheck(Run(c, config, evs[..i]), config, evs[i], m)
    ensures Run(c, config, evs).Live(table, m) || RetiredAfter(config, evs, i, m)
  {
    var prefix := evs[..i + 1];
    SoundPrefix(c, config, evs, i + 1);
    assert prefix[..i] == evs[..i];
    LiveAfterCheck(c, config, prefix, table, m);
    StaysLive(c, config, evs, i, table, m);
  }
}

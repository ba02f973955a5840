/** Primary/secondary configuration sync: Syncer.doSync of internal/cluster/cluster.go over the
    secondary's database (internal/database), wired up by cmd/hydradns/main.go. */
module Sync {
  import opened Wire

  /** ExportData: the primary's version and its synced sections. */
  datatype Export<S> = Export(version: int, sections: S)

  datatype SyncError = FetchFailed | ImportFailed | VersionWriteFailed

  /** What the outside world does during one sync: the fetch, the version read (which yields 0 when
      it fails), the import transaction with the version bumps its row triggers make, the version
      write, and the clock. */
  datatype Outcome<S> = Outcome(
    fetched: Option<Export<S>>, readOk: bool, commitOk: bool, bumps: nat, writeOk: bool, now: int)

  /** The secondary: its database and the Syncer's fields. */
  datatype State<S> = State(
    version: int,
    sections: S,
    lastSyncTime: Option<int>,
    lastSyncVersion: int,
    lastSyncError: Option<SyncError>,
    syncCount: nat,
    errorCount: nat)

  // ---------------------------------------------------------------- one sync

  function Succeeded<S>(s: State<S>, version: int, now: int): State<S> {
    s.(lastSyncTime := Some(now), lastSyncVersion := version, lastSyncError := None, syncCount := s.syncCount + 1)
  }

  function Failed<S>(s: State<S>, e: SyncError): State<S> {
    s.(lastSyncError := Some(e), errorCount := s.errorCount + 1)
  }

  function SyncStep<S>(s: State<S>, o: Outcome<S>): State<S> {
    match o.fetched
    case None => Failed(s, FetchFailed)
    case Some(data) =>
      if data.version <= (if o.readOk then s.version else 0) then Succeeded(s, data.version, o.now)
      else if !o.commitOk then Failed(s, ImportFailed)
      else if !o.writeOk then Failed(s.(sections := data.sections, version := s.version + o.bumps), VersionWriteFailed)
      else Succeeded(s.(sections := data.sections, version := data.version), data.version, o.now)
  }

  /** The secondary's database: the synced sections and the config version. */
  class Database<S> {
    var version: int
    var sections: S

    constructor (version: int, sections: S)
      ensures this.version == version && this.sections == sections
    {
      this.version, this.sections := version, sections;
    }

    /** GetVersion: 0 and an error when the query fails. */
    method GetVersion(readOk: bool) returns (v: int, ok: bool)
      ensures ok == readOk && v == if readOk then version else 0
    {
      if !readOk { return 0, false; }
      return version, true;
    }

    /** One transaction: all sections are replaced, and row triggers bump the version, or nothing
        happens. */
    method ImportFromCluster(data: Export<S>, commitOk: bool, bumps: nat) returns (ok: bool)
      modifies this
      ensures ok == commitOk
      ensures sections == if ok then data.sections else old(sections)
      ensures version == if ok then old(version) + bumps else old(version)
    {
      if commitOk {
        sections, version := data.sections, version + bumps;
      }
      return commitOk;
    }

    method SetVersion(v: int, writeOk: bool) returns (ok: bool)
      modifies this`version
      ensures ok == writeOk && version == if ok then v else old(version)
    {
      if writeOk { version := v; }
      return writeOk;
    }
  }

  class Syncer<S> {
    const db: Database<S>
    var lastSyncTime: Option<int>
    var lastSyncVersion: int
    var lastSyncError: Option<SyncError>
    var syncCount: nat
    var errorCount: nat

    constructor (db: Database<S>)
      ensures this.db == db && Abstract() == Fresh(db.version, db.sections)
    {
      this.db := db;
      lastSyncTime, lastSyncVersion, lastSyncError, syncCount, errorCount := None, 0, None, 0, 0;
    }

    ghost function Abstract(): State<S>
      reads this, db
    {
      State(db.version, db.sections, lastSyncTime, lastSyncVersion, lastSyncError, syncCount, errorCount)
    }

    method RecordSuccess(version: int, now: int)
      modifies this
      ensures Abstract() == Succeeded(old(Abstract()), version, now)
    {
      lastSyncTime := Some(now);
      lastSyncVersion := version;
      lastSyncError := None;
      syncCount := syncCount + 1;
    }

    method RecordError(e: SyncError)
      modifies this
      ensures Abstract() == Failed(old(Abstract()), e)
    {
      lastSyncError := Some(e);
      errorCount := errorCount + 1;
    }

    /** importFunc: the import, then the version write. */
    method Import(data: Export<S>, o: Outcome<S>) returns (e: Option<SyncError>)
      modifies db
      ensures e == if !o.commitOk then Some(ImportFailed) else if !o.writeOk then Some(VersionWriteFailed) else None
      ensures db.sections == if o.commitOk then data.sections else old(db.sections)
      ensures db.version == if !o.commitOk then old(db.version)
                            else if o.writeOk then data.version else old(db.version) + o.bumps
    {
      var ok := db.ImportFromCluster(data, o.commitOk, o.bumps);
      if !ok { return Some(ImportFailed); }
      ok := db.SetVersion(data.version, o.writeOk);
      return if ok then None else Some(VersionWriteFailed);
    }

    /** doSync; the returned error, if any, is also the recorded one. */
    method DoSync(o: Outcome<S>) returns (e: Option<SyncError>)
      modifies this, db
      ensures Abstract() == SyncStep(old(Abstract()), o)
      ensures e == lastSyncError
    {
      if o.fetched.None? {
        RecordError(FetchFailed);
        return Some(FetchFailed);
      }
      var data := o.fetched.value;
      var current, _ := db.GetVersion(o.readOk);
      if data.version <= current {
        RecordSuccess(data.version, o.now);
        return None;
      }
      e := Import(data, o);
      if e.Some? {
        RecordError(e.value);
        return;
      }
      RecordSuccess(data.version, o.now);
    }
  }

  // ---------------------------------------------------------------- whole runs

  function Fresh<S>(version: int, sections: S): State<S> {
    State(version, sections, None, 0, None, 0, 0)
  }

  function Run<S>(s: State<S>, run: seq<Outcome<S>>): State<S>
    decreases |run|
  {
    if run == [] then s else SyncStep(Run(s, run[..|run| - 1]), run[|run| - 1])
  }

  /** The first `n` syncs of a run. */
  function AfterSyncs<S>(s: State<S>, run: seq<Outcome<S>>, n: nat): State<S>
    requires n <= |run|
  {
    Run(s, run[..n])
  }

  predicate ReadsWork<S>(run: seq<Outcome<S>>) {
    forall i :: 0 <= i < |run| ==> run[i].readOk
  }

  predicate WritesWork<S>(run: seq<Outcome<S>>) {
    forall i :: 0 <= i < |run| ==> run[i].writeOk
  }

  /** The pair of version and sections was there initially or was exported by the primary. */
  ghost predicate Known<S>(s0: State<S>, run: seq<Outcome<S>>, version: int, sections: S) {
    || (version == s0.version && sections == s0.sections)
    || exists i :: 0 <= i < |run| && run[i].fetched == Some(Export(version, sections))
  }

  lemma RunPrefix<S>(s: State<S>, run: seq<Outcome<S>>, n: nat)
    requires n < |run|
    ensures AfterSyncs(s, run, n + 1) == SyncStep(AfterSyncs(s, run, n), run[n])
  {
    assert run[..n + 1][..n] == run[..n];
  }

  /** While version reads work, the version never decreases from one sync to a later one. */
  lemma {:induction false} VersionNeverDecreases<S>(s: State<S>, run: seq<Outcome<S>>, i: nat, j: nat)
    requires ReadsWork(run) && i <= j <= |run|
    ensures AfterSyncs(s, run, i).version <= AfterSyncs(s, run, j).version
    decreases j - i
  {
    if i < j {
      VersionNeverDecreases(s, run, i, j - 1);
      RunPrefix(s, run, j - 1);
    }
  }

  /** While version writes work, after every sync the sections are the initial ones or a snapshot the
      primary exported under exactly the secondary's version. */
  lemma {:induction false} SectionsMatchVersion<S>(s: State<S>, run: seq<Outcome<S>>, n: nat)
    requires WritesWork(run) && n <= |run|
    ensures var c := AfterSyncs(s, run, n); Known(s, run[..n], c.version, c.sections)
    decreases n
  {
    if n > 0 {
      SectionsMatchVersion(s, run, n - 1);
      RunPrefix(s, run, n - 1);
      var p, c := AfterSyncs(s, run, n - 1), AfterSyncs(s, run, n);
      var front := run[..n - 1];
      assert run[..n] == front + [run[n - 1]];
      assert run[..n][n - 1] == run[n - 1];
      assert Known(s, front, p.version, p.sections) ==> Known(s, front + [run[n - 1]], p.version, p.sections) by {
        assert forall i :: 0 <= i < |front| ==> (front + [run[n - 1]])[i] == front[i];
      }
    }
  }

  /** Each completed sync is counted once, as a success or as an error, whatever fails. */
  lemma {:induction false} EverySyncCounted<S>(s: State<S>, run: seq<Outcome<S>>)
    ensures Run(s, run).syncCount + Run(s, run).errorCount == s.syncCount + s.errorCount + |run|
    decreases |run|
  {
    if run != [] {
      EverySyncCounted(s, run[..|run| - 1]);
    }
  }

  /** The sync fails: nothing fetched, or an import that was due is not committed or its version not
      written. */
  predicate Fails<S>(s: State<S>, o: Outcome<S>) {
    || o.fetched.None?
    || (o.fetched.value.version > (if o.readOk then s.version else 0) && !(o.commitOk && o.writeOk))
  }

  function Failures<S>(s: State<S>, run: seq<Outcome<S>>): nat
    decreases |run|
  {
    if run == [] then 0
    else
      var front, last := run[..|run| - 1], run[|run| - 1];
      Failures(s, front) + if Fails(Run(s, front), last) then 1 else 0
  }

  /** Each counter grows exactly with its kind of sync, and the status shows the last one. */
  lemma {:induction false} StatusExact<S>(s: State<S>, run: seq<Outcome<S>>)
    ensures Run(s, run).errorCount == s.errorCount + Failures(s, run)
    ensures Run(s, run).syncCount == s.syncCount + |run| - Failures(s, run)
    ensures run != [] ==>
              var before, last, now := Run(s, run[..|run| - 1]), run[|run| - 1], Run(s, run);
              && (now.lastSyncError.Some? <==> Fails(before, last))
              && (!Fails(before, last) ==>
                    now.lastSyncVersion == last.fetched.value.version && now.lastSyncTime == Some(last.now))
              && (Fails(before, last) ==>
                    now.lastSyncVersion == before.lastSyncVersion && now.lastSyncTime == before.lastSyncTime)
    decreases |run|
  {
    if run != [] {
      StatusExact(s, run[..|run| - 1]);
    }
  }

  /** The versions of the exports that were fetched and could be imported. */
  predicate Offered<S>(run: seq<Outcome<S>>, i: int) {
    0 <= i < |run| && run[i].fetched.Some? && run[i].commitOk
  }

  /** The secondary converges: its version is the greatest of the initial one and all that were
      offered, in whatever order they arrived. */
  lemma {:induction false} VersionIsGreatest<S>(s: State<S>, run: seq<Outcome<S>>)
    requires ReadsWork(run) && WritesWork(run)
    ensures s.version <= Run(s, run).version
    ensures forall i :: Offered(run, i) ==> run[i].fetched.value.version <= Run(s, run).version
    ensures Run(s, run).version == s.version
            || exists i :: Offered(run, i) && run[i].fetched.value.version == Run(s, run).version
    decreases |run|
  {
    if run != [] {
      var front, last := run[..|run| - 1], |run| - 1;
      VersionIsGreatest(s, front);
      var p, c := Run(s, front), Run(s, run);
      forall i | Offered(run, i) ensures run[i].fetched.value.version <= c.version {
        if i < last { assert Offered(front, i) && front[i] == run[i]; }
      }
      if c.version != s.version {
        if c.version == p.version {
          var i :| Offered(front, i) && front[i].fetched.value.version == p.version;
          assert Offered(run, i) && front[i] == run[i];
        } else {
          assert Offered(run, last);
        }
      }
    }
  }

  // ---------------------------------------------------------------- exactly when it fails

  /** One sync lowers the version exactly when the version read failed, so that 0 was compared, and
      an older export was imported and recorded. */
  lemma VersionDecreasesIff<S>(s: State<S>, o: Outcome<S>)
    ensures SyncStep(s, o).version < s.version
        <==> !o.readOk && o.fetched.Some? && 0 < o.fetched.value.version < s.version && o.commitOk && o.writeOk
  {
  }

  /** The pair is the old one or the fetched one. */
  ghost predicate Explained<S>(s: State<S>, o: Outcome<S>, c: State<S>) {
    (c.version == s.version && c.sections == s.sections) || o.fetched == Some(Export(c.version, c.sections))
  }

  /** One sync reaches a pair of version and sections that is neither the old
      one nor the fetched one exactly when a committed import is not followed by its version write,
      unless the trigger bumps happen to land on one of the two. */
  lemma MismatchIff<S>(s: State<S>, o: Outcome<S>)
    ensures !Explained(s, o, SyncStep(s, o))
        <==> && o.fetched.Some? && o.fetched.value.version > (if o.readOk then s.version else 0)
             && o.commitOk && !o.writeOk
             && s.version + o.bumps != o.fetched.value.version
             && (o.bumps != 0 || o.fetched.value.sections != s.sections)
  {
  }

  /** After a lost version write the bumped version can hide newer exports: the next sync calls an
      export that the secondary does not hold up to date. */
  lemma LostWriteHidesExport<S>(s: State<S>, a: Export<S>, b: Export<S>, bumps: nat)
    requires s.version < a.version < b.version <= s.version + bumps
    ensures var first := Outcome(Some(a), true, true, bumps, false, 0);
            var second := Outcome(Some(b), true, true, bumps, true, 1);
            var c := Run(s, [first, second]);
            c.sections == a.sections && c.lastSyncError == None && c.lastSyncVersion == b.version
  {
    var first := Outcome(Some(a), true, true, bumps, false, 0);
    var second := Outcome(Some(b), true, true, bumps, true, 1);
    assert [first, second][..1] == [first];
    assert [first][..0] == [];
    assert Run(s, [first]) == SyncStep(s, first);
  }
}

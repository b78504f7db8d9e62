/** The batch runner: `executeScriptsInDirectory`, `executeForDirectories` and `execute`.
    A run returns the scripts it evaluated, in order, and the failure that ended it, if any. */
module Batch {
  import opened Results
  import opened Failures
  import opened Settings
  import opened Connection
  import opened Scripts
  import opened Listing

  /** A directory argument: its name, `File.isDirectory`, and what `listFiles` returns. */
  datatype Dir = Dir(name: string, isDirectory: bool, entries: seq<Entry>)

  /** The outside world: host resolution, script reading and server-side evaluation. */
  datatype Oracles = Oracles(
    resolves: string -> bool,
    read: (Entry, Decoding) -> ReadResult,
    eval: string -> EvalResult)

  /** Scripts evaluated so far and, if the run was cut short, the failure that did it. */
  datatype Progress = Progress(trace: seq<Event>, failure: Option<Failure>)

  /** The entries the loop executes (`!isDirectory() && isFile()`), in listing order. */
  function RegularFiles(es: seq<Entry>): (r: seq<Entry>)
    ensures |r| <= |es|
    ensures forall i :: 0 <= i < |r| ==> r[i].kind == RegularFile
  {
    if es == [] then []
    else if es[0].kind == RegularFile then [es[0]] + RegularFiles(es[1..])
    else RegularFiles(es[1..])
  }

  /** Each regular file of the listing is kept as often as it occurs, everything else dropped. */
  lemma {:induction false} RegularFilesCount(es: seq<Entry>, e: Entry)
    ensures multiset(RegularFiles(es))[e] == if e.kind == RegularFile then multiset(es)[e] else 0
  {
    if es != [] {
      RegularFilesCount(es[1..], e);
      assert es == [es[0]] + es[1..];
      assert multiset(es) == multiset{es[0]} + multiset(es[1..]);
    }
  }

  /** Dropping entries keeps a sorted listing sorted. */
  lemma {:induction false} RegularFilesSorted(es: seq<Entry>)
    requires SortedByName(es)
    ensures SortedByName(RegularFiles(es))
  {
    if es != [] {
      assert SortedByName(es[1..]);
      RegularFilesSorted(es[1..]);
      if es[0].kind == RegularFile {
        var rest := RegularFiles(es[1..]);
        forall j | 0 <= j < |rest|
          ensures rest[j] in multiset(es[1..])
        {
          RegularFilesCount(es[1..], rest[j]);
          assert rest[j] in multiset(rest);
        }
        RegularHead(es, rest);
      }
    }
  }

  lemma {:induction false} RegularHead(es: seq<Entry>, rest: seq<Entry>)
    requires es != [] && SortedByName(es) && SortedByName(rest)
    requires forall j :: 0 <= j < |rest| ==> rest[j] in multiset(es[1..])
    ensures SortedByName([es[0]] + rest)
  {
    var r := [es[0]] + rest;
    forall i, j | 0 <= i < j < |r|
      ensures NotAfter(r[i], r[j])
    {
      if i == 0 {
        var x := rest[j - 1];
        assert x in multiset(es[1..]);
        var k :| 0 <= k < |es[1..]| && es[1..][k] == x;
        assert es[k + 1] == x;
      }
    }
  }

  /** `p` is what running `files` one after another leaves: a prefix of them evaluated, each
      exactly as `executeScript` evaluates it, and a failure exactly when some file's
      `executeScript` threw, which is then the next one. */
  ghost predicate Follows(p: Progress, files: seq<Entry>, encoding: Option<string>, o: Oracles) {
    && |p.trace| <= |files|
    && (forall i :: 0 <= i < |p.trace| ==> ExecuteScript(files[i], encoding, o.read, o.eval) == Ok(p.trace[i]))
    && (p.failure.None? <==> |p.trace| == |files|)
    && (p.failure.Some? ==> ExecuteScript(files[|p.trace|], encoding, o.read, o.eval) == Err(p.failure.value))
  }

  /** The loop of `executeScriptsInDirectory` over the sorted listing: entries that are not
      regular files are skipped; a script whose evaluation fails is logged and passed; a script
      that cannot be read ends the loop. */
  function RunFiles(files: seq<Entry>, encoding: Option<string>, o: Oracles): (r: Progress)
    ensures Follows(r, RegularFiles(files), encoding, o)
  {
    if files == [] then Progress([], None)
    else if files[0].kind != RegularFile then RunFiles(files[1..], encoding, o)
    else
      match ExecuteScript(files[0], encoding, o.read, o.eval)
      case Err(f) => Progress([], Some(f))
      case Ok(ev) =>
        var rest := RunFiles(files[1..], encoding, o);
        assert RegularFiles(files) == [files[0]] + RegularFiles(files[1..]);
        FollowsCons(files[0], ev, RegularFiles(files[1..]), rest, encoding, o);
        Progress([ev] + rest.trace, rest.failure)
  }

  /** A file that runs, followed by a run of the files after it, is a run of them all. */
  lemma {:induction false} FollowsCons(f: Entry, ev: Event, fs: seq<Entry>, rest: Progress,
                                       encoding: Option<string>, o: Oracles)
    requires ExecuteScript(f, encoding, o.read, o.eval) == Ok(ev) && Follows(rest, fs, encoding, o)
    ensures Follows(Progress([ev] + rest.trace, rest.failure), [f] + fs, encoding, o)
  {
    var files := [f] + fs;
    var trace := [ev] + rest.trace;
    forall i | 0 <= i < |trace|
      ensures ExecuteScript(files[i], encoding, o.read, o.eval) == Ok(trace[i])
    {
      if i > 0 {
        assert files[i] == fs[i - 1] && trace[i] == rest.trace[i - 1];
      }
    }
    if rest.failure.Some? {
      assert files[|trace|] == fs[|rest.trace|];
    }
  }

  /** The scripts of a directory, in the order they run: its regular files by ascending name. */
  function Schedule(dir: Dir): seq<Entry> {
    RegularFiles(SortByName(dir.entries))
  }

  /** The schedule is sorted by name and holds every regular file of the listing exactly as
      often as the listing does, and nothing else. */
  lemma {:induction false} ScheduleIsSortedRegularFiles(dir: Dir)
    ensures SortedByName(Schedule(dir))
    ensures multiset(Schedule(dir)) == multiset(RegularFiles(dir.entries))
  {
    var sorted := SortByName(dir.entries);
    RegularFilesSorted(sorted);
    forall e
      ensures multiset(Schedule(dir))[e] == multiset(RegularFiles(dir.entries))[e]
    {
      RegularFilesCount(sorted, e);
      RegularFilesCount(dir.entries, e);
    }
  }

  /** When the regular files have distinct names, the schedule is the one name-sorted
      arrangement of them. */
  lemma {:induction false} ScheduleDeterminedByNames(dir: Dir, want: seq<Entry>)
    requires SortedByName(want) && DistinctNames(want)
    requires multiset(want) == multiset(RegularFiles(dir.entries))
    ensures Schedule(dir) == want
  {
    ScheduleIsSortedRegularFiles(dir);
    SortedOrderUnique(want, Schedule(dir));
  }

  /** `executeScriptsInDirectory`: a path that is not a directory fails before any script runs;
      otherwise its regular files run in ascending name order. */
  function RunDirectory(dir: Dir, encoding: Option<string>, o: Oracles): (r: Progress)
    ensures !dir.isDirectory ==> r == Progress([], Some(NotADirectory(dir.name)))
    ensures dir.isDirectory ==> Follows(r, Schedule(dir), encoding, o)
  {
    if !dir.isDirectory then Progress([], Some(NotADirectory(dir.name)))
    else RunFiles(SortByName(dir.entries), encoding, o)
  }

  /** The number of leading arguments that are directories: the loop reaches argument `n`, and
      stops there when it is not a directory. */
  function LeadingDirectories(dirs: seq<Dir>): (n: nat)
    ensures n <= |dirs|
    ensures forall j :: 0 <= j < n ==> dirs[j].isDirectory
    ensures n < |dirs| ==> !dirs[n].isDirectory
  {
    if dirs == [] || !dirs[0].isDirectory then 0
    else
      assert forall j :: 1 <= j < |dirs| ==> dirs[j] == dirs[1..][j - 1];
      1 + LeadingDirectories(dirs[1..])
  }

  /** Every script a list of directories would run, directory by directory, up to the first
      argument that is not a directory. */
  function Planned(dirs: seq<Dir>): (r: seq<Entry>)
    ensures forall i :: 0 <= i < |r| ==> r[i].kind == RegularFile
  {
    if dirs == [] || !dirs[0].isDirectory then []
    else
      var head := Schedule(dirs[0]);
      var rest := Planned(dirs[1..]);
      AllRegularAppend(head, rest);
      head + rest
  }

  lemma {:induction false} AllRegularAppend(a: seq<Entry>, b: seq<Entry>)
    requires forall i :: 0 <= i < |a| ==> a[i].kind == RegularFile
    requires forall i :: 0 <= i < |b| ==> b[i].kind == RegularFile
    ensures forall i :: 0 <= i < |a + b| ==> (a + b)[i].kind == RegularFile
  {
    forall i | 0 <= i < |a + b|
      ensures (a + b)[i].kind == RegularFile
    {
      if i >= |a| {
        assert (a + b)[i] == b[i - |a|];
      }
    }
  }

  /** `r` is what running `dirs` one after another leaves: a prefix of their planned scripts
      evaluated; no failure exactly when every argument is a directory and every planned script
      ran; a script's failure is that of the next planned script; "not a directory" comes only
      after every planned script ran, and names the first argument that is not a directory. */
  ghost predicate RunsAsPlanned(r: Progress, dirs: seq<Dir>, encoding: Option<string>, o: Oracles) {
    && |r.trace| <= |Planned(dirs)|
    && (forall i :: 0 <= i < |r.trace| ==> ExecuteScript(Planned(dirs)[i], encoding, o.read, o.eval) == Ok(r.trace[i]))
    && (r.failure.None? <==> |r.trace| == |Planned(dirs)| && LeadingDirectories(dirs) == |dirs|)
    && (r.failure.Some? && !r.failure.value.NotADirectory? ==>
          |r.trace| < |Planned(dirs)| && ExecuteScript(Planned(dirs)[|r.trace|], encoding, o.read, o.eval) == Err(r.failure.value))
    && (r.failure.Some? && r.failure.value.NotADirectory? ==>
          && |r.trace| == |Planned(dirs)| && LeadingDirectories(dirs) < |dirs|
          && r.failure.value == NotADirectory(dirs[LeadingDirectories(dirs)].name))
  }

  /** The `for` loop of `executeForDirectories`: directories in argument order, stopping at the
      first failure. */
  function RunDirectories(dirs: seq<Dir>, encoding: Option<string>, o: Oracles): (r: Progress)
    ensures RunsAsPlanned(r, dirs, encoding, o)
    ensures r.failure.Some? ==> r.failure.value.NotADirectory? || r.failure.value.NotAFile? || r.failure.value.Io?
  {
    if dirs == [] then Progress([], None)
    else
      var p := RunDirectory(dirs[0], encoding, o);
      if p.failure.Some? then
        AbortInFirst(dirs, p, encoding, o);
        p
      else
        var rest := RunDirectories(dirs[1..], encoding, o);
        var r := Progress(p.trace + rest.trace, rest.failure);
        ContinueAfterFirst(dirs, p, rest, r, encoding, o);
        r
  }

  lemma {:induction false} AbortInFirst(dirs: seq<Dir>, p: Progress, encoding: Option<string>, o: Oracles)
    requires dirs != [] && p == RunDirectory(dirs[0], encoding, o) && p.failure.Some?
    ensures RunsAsPlanned(p, dirs, encoding, o)
  {
    if dirs[0].isDirectory {
      var head := Schedule(dirs[0]);
      assert Planned(dirs) == head + Planned(dirs[1..]);
      assert Planned(dirs)[|p.trace|] == head[|p.trace|];
    } else {
      assert Planned(dirs) == [];
      assert LeadingDirectories(dirs) == 0;
    }
  }

  /** After a first directory that ran to its end, the plan and the leading directories of the
      whole list are those of the rest, shifted by that directory. */
  lemma {:induction false} PlannedCons(dirs: seq<Dir>)
    requires dirs != [] && dirs[0].isDirectory
    ensures Planned(dirs) == Schedule(dirs[0]) + Planned(dirs[1..])
    ensures LeadingDirectories(dirs) == 1 + LeadingDirectories(dirs[1..])
    ensures LeadingDirectories(dirs) < |dirs| ==> dirs[LeadingDirectories(dirs)] == dirs[1..][LeadingDirectories(dirs[1..])]
  {
  }

  lemma {:induction false} ContinueTrace(dirs: seq<Dir>, p: Progress, rest: Progress, r: Progress,
                      encoding: Option<string>, o: Oracles)
    requires dirs != [] && p == RunDirectory(dirs[0], encoding, o) && p.failure.None?
    requires RunsAsPlanned(rest, dirs[1..], encoding, o)
    requires r == Progress(p.trace + rest.trace, rest.failure)
    ensures |r.trace| <= |Planned(dirs)|
    ensures forall i :: 0 <= i < |r.trace| ==> ExecuteScript(Planned(dirs)[i], encoding, o.read, o.eval) == Ok(r.trace[i])
    ensures r.failure.Some? && !r.failure.value.NotADirectory? ==>
      |r.trace| < |Planned(dirs)| && ExecuteScript(Planned(dirs)[|r.trace|], encoding, o.read, o.eval) == Err(r.failure.value)
  {
    var head := Schedule(dirs[0]);
    PlannedCons(dirs);
    assert |p.trace| == |head|;
    forall i | 0 <= i < |r.trace|
      ensures ExecuteScript(Planned(dirs)[i], encoding, o.read, o.eval) == Ok(r.trace[i])
    {
      if i >= |head| {
        assert Planned(dirs)[i] == Planned(dirs[1..])[i - |head|];
        assert r.trace[i] == rest.trace[i - |head|];
      } else {
        assert r.trace[i] == p.trace[i];
      }
    }
    if r.failure.Some? && !r.failure.value.NotADirectory? {
      assert Planned(dirs)[|r.trace|] == Planned(dirs[1..])[|rest.trace|];
    }
  }

  lemma {:induction false} ContinueAfterFirst(dirs: seq<Dir>, p: Progress, rest: Progress, r: Progress,
                           encoding: Option<string>, o: Oracles)
    requires dirs != [] && p == RunDirectory(dirs[0], encoding, o) && p.failure.None?
    requires RunsAsPlanned(rest, dirs[1..], encoding, o)
    requires r == Progress(p.trace + rest.trace, rest.failure)
    ensures RunsAsPlanned(r, dirs, encoding, o)
  {
    ContinueTrace(dirs, p, rest, r, encoding, o);
    PlannedCons(dirs);
    assert |p.trace| == |Schedule(dirs[0])|;
  }

  /** One batch: the connection and session it opened, if any, the scripts it evaluated, and
      the exception it ended with, if any. */
  datatype Run = Run(client: Option<Client>, session: Option<Session>, trace: seq<Event>, failure: Option<Failure>)

  /** The `catch (IOException)` of `executeForDirectories`. */
  function Rewrap(f: Failure): (g: Failure)
    ensures ClassOf(g) != IOException
    ensures f.Io? ==> g == ScriptsFailed(f.cause) && ClassOf(g) == MojoExecutionException
    ensures !f.Io? ==> g == f
  {
    if f.Io? then ScriptsFailed(f.cause) else f
  }

  /** `executeForDirectories`: no directory array fails before anything is opened; otherwise one
      connection and one database session are opened and every directory runs over them, in
      argument order. An `IOException` from any of these steps is rewrapped; everything else
      passes through. */
  function ExecuteForDirectories(cs: ConnectionSettings, servers: map<string, Server>, encoding: Option<string>,
                                 dirs: Option<seq<Dir>>, o: Oracles): (r: Run)
    ensures dirs.None? ==> r == Run(None, None, [], Some(DirectoriesUndefined))
    ensures r.failure.Some? ==> !r.failure.value.Io?
    ensures r.trace != [] ==> r.client.Some? && r.session.Some?
    ensures r.session.Some? ==> r.client.Some?
    ensures r.client.Some? ==> OpenConnection(cs, o.resolves) == Ok(r.client.value)
    ensures r.session.Some? ==> GetDatabase(cs, servers) == Ok(r.session.value)
    // the connection fails: nothing else happens, and an unknown host is rewrapped
    ensures dirs.Some? && OpenConnection(cs, o.resolves).Err? ==>
      r == Run(None, None, [], Some(Rewrap(OpenConnection(cs, o.resolves).error)))
    // `getDatabase` fails: its null dereference propagates unchanged
    ensures dirs.Some? && OpenConnection(cs, o.resolves).Ok? && GetDatabase(cs, servers).Err? ==>
      r == Run(Some(OpenConnection(cs, o.resolves).value), None, [], Some(ServerEntryMissing(cs.serverId.value)))
    // both open: the directories run as planned, and only the loop's failure, rewrapped, ends the run
    ensures dirs.Some? && OpenConnection(cs, o.resolves).Ok? && GetDatabase(cs, servers).Ok? ==>
      var p := RunDirectories(dirs.value, encoding, o);
      && r.client.Some? && r.session.Some? && r.trace == p.trace
      && r.failure == (if p.failure.Some? then Some(Rewrap(p.failure.value)) else None)
    ensures dirs.Some? ==> |r.trace| <= |Planned(dirs.value)|
    ensures dirs.Some? ==> forall i :: 0 <= i < |r.trace| ==>
      ExecuteScript(Planned(dirs.value)[i], encoding, o.read, o.eval) == Ok(r.trace[i])
    ensures r.failure.None? <==>
      && dirs.Some? && r.session.Some?
      && |r.trace| == |Planned(dirs.value)|
      && LeadingDirectories(dirs.value) == |dirs.value|
  {
    if dirs.None? then Run(None, None, [], Some(DirectoriesUndefined))
    else
      match OpenConnection(cs, o.resolves)
      case Err(e) => Run(None, None, [], Some(Rewrap(e)))
      case Ok(client) =>
        match GetDatabase(cs, servers)
        case Err(e) => Run(Some(client), None, [], Some(e))
        case Ok(session) =>
          var p := RunDirectories(dirs.value, encoding, o);
          Run(Some(client), Some(session), p.trace, if p.failure.Some? then Some(Rewrap(p.failure.value)) else None)
  }

  /** The label `execute` checks the settings under. */
  const SettingsBlock: string := "dbConnectionSettings"

  /** `execute`: the settings check, then the subclass's work, which for the training goal is
      `executeForDirectories` on its configured directories. A failed check opens nothing and
      runs nothing. */
  function Execute(cs: ConnectionSettings, servers: map<string, Server>, encoding: Option<string>,
                   dirs: Option<seq<Dir>>, o: Oracles): (r: Run)
    ensures CheckDbSettings(cs, servers, SettingsBlock).Some? ==>
      r == Run(None, None, [], CheckDbSettings(cs, servers, SettingsBlock))
    ensures CheckDbSettings(cs, servers, SettingsBlock).None? ==>
      r == ExecuteForDirectories(cs, servers, encoding, dirs, o)
    ensures r.trace != [] ==> CheckDbSettings(cs, servers, SettingsBlock).None? && dirs.Some?
    ensures dirs.Some? ==> forall i :: 0 <= i < |r.trace| ==>
      i < |Planned(dirs.value)| && ExecuteScript(Planned(dirs.value)[i], encoding, o.read, o.eval) == Ok(r.trace[i])
    // after the check, `getDatabase` can no longer dereference a missing server
    ensures r.failure.Some? ==> !r.failure.value.Io? && !r.failure.value.ServerEntryMissing?
    ensures r.failure.None? ==> r.session.Some? && dirs.Some? && |r.trace| == |Planned(dirs.value)|
  {
    match CheckDbSettings(cs, servers, SettingsBlock)
    case Some(f) => Run(None, None, [], Some(f))
    case None =>
      CheckedRunFindsServer(cs, servers, encoding, dirs, o);
      ExecuteForDirectories(cs, servers, encoding, dirs, o)
  }

  /** After a passed check, `executeForDirectories` never ends on a missing server entry. */
  lemma {:induction false} CheckedRunFindsServer(cs: ConnectionSettings, servers: map<string, Server>,
                                                 encoding: Option<string>, dirs: Option<seq<Dir>>, o: Oracles)
    requires CheckDbSettings(cs, servers, SettingsBlock).None?
    ensures ExecuteForDirectories(cs, servers, encoding, dirs, o).failure.Some? ==>
      !ExecuteForDirectories(cs, servers, encoding, dirs, o).failure.value.ServerEntryMissing?
  {
    CheckedSettingsOpenSession(cs, servers, SettingsBlock);
    if dirs.Some? {
      match OpenConnection(cs, o.resolves)
      case Err(e) =>
        assert e.PortNotNumeric? || e.Io?;
      case Ok(_) =>
        var p := RunDirectories(dirs.value, encoding, o);
        if p.failure.Some? {
          assert !Rewrap(p.failure.value).ServerEntryMissing?;
        }
    }
  }

  // ---------------------------------------------------------------- failure isolation

  /** `executeScript` gets as far as evaluating `f`: it is readable and reads without error. */
  predicate Readable(f: Entry, encoding: Option<string>, o: Oracles) {
    f.readable && o.read(f, DecodingFor(f.name, encoding)).Lines?
  }

  /** A directory's loop runs to its end exactly when every regular file in it is readable and
      reads without an I/O error; what the server answers plays no part. */
  lemma {:induction false} RunFilesCompletes(files: seq<Entry>, encoding: Option<string>, o: Oracles)
    ensures RunFiles(files, encoding, o).failure.None? <==>
      forall i :: 0 <= i < |RegularFiles(files)| ==> Readable(RegularFiles(files)[i], encoding, o)
  {
    var fs := RegularFiles(files);
    var r := RunFiles(files, encoding, o);
    if r.failure.Some? {
      StoppedAtUnreadable(r, fs, encoding, o);
      var k := |r.trace|;
      assert 0 <= k < |RegularFiles(files)| && !Readable(RegularFiles(files)[k], encoding, o);
    } else {
      RanAllReadable(r, fs, encoding, o);
    }
  }

  lemma {:induction false} RanAllReadable(r: Progress, fs: seq<Entry>, encoding: Option<string>, o: Oracles)
    requires Follows(r, fs, encoding, o) && r.failure.None?
    ensures forall i :: 0 <= i < |fs| ==> Readable(fs[i], encoding, o)
  {
    forall i | 0 <= i < |fs|
      ensures Readable(fs[i], encoding, o)
    {
      assert ExecuteScript(fs[i], encoding, o.read, o.eval).Ok?;
    }
  }

  lemma {:induction false} StoppedAtUnreadable(r: Progress, fs: seq<Entry>, encoding: Option<string>, o: Oracles)
    requires Follows(r, fs, encoding, o) && r.failure.Some?
    requires forall i :: 0 <= i < |fs| ==> fs[i].kind == RegularFile
    ensures |r.trace| < |fs| && !Readable(fs[|r.trace|], encoding, o)
  {
    assert ExecuteScript(fs[|r.trace|], encoding, o.read, o.eval).Err?;
  }

  /** Two traces evaluate the same files, with the same decodings and texts, in the same order;
      only the server's answers may differ. */
  ghost predicate SameScripts(t1: seq<Event>, t2: seq<Event>) {
    && |t1| == |t2|
    && forall i :: 0 <= i < |t1| ==>
         t1[i].file == t2[i].file && t1[i].decoding == t2[i].decoding && t1[i].text == t2[i].text
  }

  lemma {:induction false} SameScriptsAppend(a1: seq<Event>, a2: seq<Event>, b1: seq<Event>, b2: seq<Event>)
    requires SameScripts(a1, a2) && SameScripts(b1, b2)
    ensures SameScripts(a1 + b1, a2 + b2)
  {
    forall i | 0 <= i < |a1 + b1|
      ensures (a1 + b1)[i].file == (a2 + b2)[i].file
      ensures (a1 + b1)[i].decoding == (a2 + b2)[i].decoding && (a1 + b1)[i].text == (a2 + b2)[i].text
    {
      if i >= |a1| {
        assert (a1 + b1)[i] == b1[i - |a1|] && (a2 + b2)[i] == b2[i - |a2|];
      }
    }
  }

  lemma {:induction false} RunFilesIgnoresAnswers(files: seq<Entry>, encoding: Option<string>, resolves: string -> bool,
                                                  read: (Entry, Decoding) -> ReadResult,
                                                  eval1: string -> EvalResult, eval2: string -> EvalResult)
    ensures var r1 := RunFiles(files, encoding, Oracles(resolves, read, eval1));
            var r2 := RunFiles(files, encoding, Oracles(resolves, read, eval2));
            r1.failure == r2.failure && SameScripts(r1.trace, r2.trace)
  {
    if files != [] {
      RunFilesIgnoresAnswers(files[1..], encoding, resolves, read, eval1, eval2);
      if files[0].kind == RegularFile {
        var e1 := ExecuteScript(files[0], encoding, read, eval1);
        var e2 := ExecuteScript(files[0], encoding, read, eval2);
        if e1.Ok? {
          var rest1 := RunFiles(files[1..], encoding, Oracles(resolves, read, eval1));
          var rest2 := RunFiles(files[1..], encoding, Oracles(resolves, read, eval2));
          SameScriptsAppend([e1.value], [e2.value], rest1.trace, rest2.trace);
        }
      }
    }
  }

  /** Swapping the server's answers changes nothing about which scripts run or whether the
      batch fails: a failed or throwing evaluation never stops the scripts after it. */
  lemma {:induction false} EvalOutcomesDoNotSteer(dirs: seq<Dir>, encoding: Option<string>,
                                                  resolves: string -> bool, read: (Entry, Decoding) -> ReadResult,
                                                  eval1: string -> EvalResult, eval2: string -> EvalResult)
    ensures var r1 := RunDirectories(dirs, encoding, Oracles(resolves, read, eval1));
            var r2 := RunDirectories(dirs, encoding, Oracles(resolves, read, eval2));
            r1.failure == r2.failure && SameScripts(r1.trace, r2.trace)
  {
    if dirs != [] {
      var o1 := Oracles(resolves, read, eval1);
      var o2 := Oracles(resolves, read, eval2);
      if dirs[0].isDirectory {
        RunFilesIgnoresAnswers(SortByName(dirs[0].entries), encoding, resolves, read, eval1, eval2);
      }
      var p1 := RunDirectory(dirs[0], encoding, o1);
      var p2 := RunDirectory(dirs[0], encoding, o2);
      if p1.failure.None? {
        EvalOutcomesDoNotSteer(dirs[1..], encoding, resolves, read, eval1, eval2);
        SameScriptsAppend(p1.trace, p2.trace, RunDirectories(dirs[1..], encoding, o1).trace,
                          RunDirectories(dirs[1..], encoding, o2).trace);
      }
    }
  }

  // ---------------------------------------------------------------- the batch completes

  /** The directory loop runs to its end exactly when every argument is a directory and every
      planned script is readable and reads without an I/O error. */
  lemma {:induction false} RunDirectoriesCompletes(dirs: seq<Dir>, encoding: Option<string>, o: Oracles)
    ensures RunDirectories(dirs, encoding, o).failure.None? <==>
      && LeadingDirectories(dirs) == |dirs|
      && forall i :: 0 <= i < |Planned(dirs)| ==> Readable(Planned(dirs)[i], encoding, o)
  {
    var r := RunDirectories(dirs, encoding, o);
    if r.failure.None? {
      CompletedRunReadable(r, dirs, encoding, o);
    } else {
      FailedRunStuck(r, dirs, encoding, o);
    }
  }

  lemma {:induction false} CompletedRunReadable(r: Progress, dirs: seq<Dir>, encoding: Option<string>, o: Oracles)
    requires RunsAsPlanned(r, dirs, encoding, o) && r.failure.None?
    ensures forall i :: 0 <= i < |Planned(dirs)| ==> Readable(Planned(dirs)[i], encoding, o)
  {
    var plan := Planned(dirs);
    forall i | 0 <= i < |plan|
      ensures Readable(plan[i], encoding, o)
    {
      assert ExecuteScript(plan[i], encoding, o.read, o.eval) == Ok(r.trace[i]);
    }
  }

  /** A run that fails stopped either at an argument that is not a directory or at a planned
      script that cannot be read. */
  lemma {:induction false} FailedRunStuck(r: Progress, dirs: seq<Dir>, encoding: Option<string>, o: Oracles)
    requires RunsAsPlanned(r, dirs, encoding, o) && r.failure.Some?
    ensures LeadingDirectories(dirs) < |dirs|
         || (|r.trace| < |Planned(dirs)| && !Readable(Planned(dirs)[|r.trace|], encoding, o))
  {
    if !r.failure.value.NotADirectory? {
      var plan := Planned(dirs);
      var k := |r.trace|;
      assert ExecuteScript(plan[k], encoding, o.read, o.eval).Err?;
      assert plan[k].kind == RegularFile;
    }
  }

  /** The batch completes exactly when the directory array is given, the connection and the
      session open, every argument is a directory and every planned script can be read. */
  lemma {:induction false} BatchCompletes(cs: ConnectionSettings, servers: map<string, Server>,
                                          encoding: Option<string>, dirs: Option<seq<Dir>>, o: Oracles)
    ensures ExecuteForDirectories(cs, servers, encoding, dirs, o).failure.None? <==>
      && dirs.Some?
      && OpenConnection(cs, o.resolves).Ok?
      && GetDatabase(cs, servers).Ok?
      && LeadingDirectories(dirs.value) == |dirs.value|
      && forall i :: 0 <= i < |Planned(dirs.value)| ==> Readable(Planned(dirs.value)[i], encoding, o)
  {
    if dirs.Some? && OpenConnection(cs, o.resolves).Ok? && GetDatabase(cs, servers).Ok? {
      RunDirectoriesCompletes(dirs.value, encoding, o);
    }
  }

  /** Settings that pass the check leave `execute` to `executeForDirectories`, and a run that
      completes is exactly one whose connection opens, whose arguments are all directories and
      whose planned scripts can all be read. */
  lemma {:induction false} CheckedExecuteCompletes(cs: ConnectionSettings, servers: map<string, Server>,
                                                   encoding: Option<string>, dirs: Option<seq<Dir>>, o: Oracles)
    requires CheckDbSettings(cs, servers, SettingsBlock).None?
    ensures Execute(cs, servers, encoding, dirs, o).failure.None? <==>
      && dirs.Some?
      && OpenConnection(cs, o.resolves).Ok?
      && LeadingDirectories(dirs.value) == |dirs.value|
      && forall i :: 0 <= i < |Planned(dirs.value)| ==> Readable(Planned(dirs.value)[i], encoding, o)
  {
    CheckedSettingsOpenSession(cs, servers, SettingsBlock);
    BatchCompletes(cs, servers, encoding, dirs, o);
  }
}

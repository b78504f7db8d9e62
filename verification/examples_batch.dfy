/** A worked directory: names sort by `compareTo`, not by number, and directories are skipped. */
module BatchCases {
  import opened Results
  import opened JavaText
  import opened Scripts
  import opened Listing
  import opened Batch

  function ScriptFile(name: string): Entry {
    Entry(name, "scripts/" + name, RegularFile, true)
  }

  function Listed(): seq<Entry> {
    [ScriptFile("b.js"), Entry("sub", "scripts/sub", Directory, true), ScriptFile("a.js"), ScriptFile("c.js.gz")]
  }

  lemma ListedRegularFiles()
    ensures multiset(RegularFiles(Listed())) == multiset([ScriptFile("a.js"), ScriptFile("b.js"), ScriptFile("c.js.gz")])
  {
    assert RegularFiles(Listed()) == [ScriptFile("b.js"), ScriptFile("a.js"), ScriptFile("c.js.gz")];
  }

  lemma ByNameSorted()
    ensures SortedByName([ScriptFile("a.js"), ScriptFile("b.js"), ScriptFile("c.js.gz")])
    ensures DistinctNames([ScriptFile("a.js"), ScriptFile("b.js"), ScriptFile("c.js.gz")])
  {
    assert CompareTo("a.js", "b.js") < 0;
    assert CompareTo("b.js", "c.js.gz") < 0;
    assert CompareTo("a.js", "c.js.gz") < 0;
  }

  /** `b.js`, `a.js`, `c.js.gz` and a sub-directory run as `a.js`, `b.js`, `c.js.gz`. */
  lemma ScheduleIsByName()
    ensures Schedule(Dir("scripts", true, Listed())) == [ScriptFile("a.js"), ScriptFile("b.js"), ScriptFile("c.js.gz")]
  {
    ListedRegularFiles();
    ByNameSorted();
    ScheduleDeterminedByNames(Dir("scripts", true, Listed()), [ScriptFile("a.js"), ScriptFile("b.js"), ScriptFile("c.js.gz")]);
  }

  lemma NumberedRegularFiles()
    ensures multiset(RegularFiles([ScriptFile("9.js"), ScriptFile("10.js")])) == multiset([ScriptFile("10.js"), ScriptFile("9.js")])
  {
    assert RegularFiles([ScriptFile("9.js"), ScriptFile("10.js")]) == [ScriptFile("9.js"), ScriptFile("10.js")];
  }

  lemma NumberedSorted()
    ensures SortedByName([ScriptFile("10.js"), ScriptFile("9.js")]) && DistinctNames([ScriptFile("10.js"), ScriptFile("9.js")])
  {
    assert CompareTo("10.js", "9.js") < 0;
  }

  /** Code-point order puts `10.js` before `9.js`. */
  lemma ScheduleIsNotNumeric()
    ensures Schedule(Dir("scripts", true, [ScriptFile("9.js"), ScriptFile("10.js")])) == [ScriptFile("10.js"), ScriptFile("9.js")]
  {
    NumberedRegularFiles();
    NumberedSorted();
    ScheduleDeterminedByNames(Dir("scripts", true, [ScriptFile("9.js"), ScriptFile("10.js")]), [ScriptFile("10.js"), ScriptFile("9.js")]);
  }
}

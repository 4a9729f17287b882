/**
 The MSBuild tracking-log (`.tlog`) dependency table: a map from an
 upper-cased source path to the list of upper-cased files it depends on.

 A tracking log lists groups of lines: a root line `^SRC1|SRC2|...` naming
 one or more sources, then one dependency per line; reading stops at the
 first blank line or at the end of the file.

 Files are modelled as sequences of lines; a task item stands for its
 full path.
 */
module TrackedFileManager {
  import opened Text

  type Table = map<string, seq<string>>

  /** `ConvertToTrackerFormat`: the path upper-cased (ASCII letters only) */
  function ConvertToTrackerFormat(original: string): (r: string)
    ensures |r| == |original| && IsUpper(r)
    ensures forall i | 0 <= i < |r| :: r[i] == original[i] || ('a' <= original[i] <= 'z' && r[i] as int == original[i] as int - 32)
  {
    ToUpperInvariant(original)
  }

  /** Converting twice is converting once. */
  lemma ConvertToTrackerFormatIdempotent(s: string)
    ensures ConvertToTrackerFormat(ConvertToTrackerFormat(s)) == ConvertToTrackerFormat(s)
  {
    UpperFixesUpper(ConvertToTrackerFormat(s));
  }

  /** The keys the table uses for `sources` */
  function TrackerKeys(sources: seq<string>): (r: seq<string>)
    ensures |r| == |sources|
    ensures forall i | 0 <= i < |r| :: r[i] == ConvertToTrackerFormat(sources[i])
  {
    seq(|sources|, i requires 0 <= i < |sources| => ConvertToTrackerFormat(sources[i]))
  }

  predicate NoDuplicates(xs: seq<string>) {
    forall i, j | 0 <= i < j < |xs| :: xs[i] != xs[j]
  }

  /** The invariant every operation keeps: upper-case keys, and dependency
      lists that are upper-case and free of duplicates. */
  predicate WellFormed(t: Table) {
    forall k | k in t :: IsUpper(k) && NoDuplicates(t[k]) && forall i | 0 <= i < |t[k]| :: IsUpper(t[k][i])
  }

  // ---------------------------------------------------------------------------
  // Adding sources
  // ---------------------------------------------------------------------------

  /** One step of `AddSourcesToTable`: a source not yet in the table gets an empty list. */
  function AddSource(t: Table, source: string): Table {
    var key := ConvertToTrackerFormat(source);
    if key in t then t else t[key := []]
  }

  /** `AddSourcesToTable`: every source becomes a key; nothing else changes. */
  function AddSources(t: Table, sources: seq<string>): (r: Table)
    ensures forall k :: k in r <==> k in t || k in TrackerKeys(sources)
    ensures forall i | 0 <= i < |sources| :: ConvertToTrackerFormat(sources[i]) in r
    ensures forall k | k in t :: r[k] == t[k]
    ensures forall k | k in r && k !in t :: r[k] == []
    decreases |sources|
  {
    if sources == [] then t
    else
      var init := sources[..|sources| - 1];
      assert TrackerKeys(sources) == TrackerKeys(init) + [ConvertToTrackerFormat(sources[|sources| - 1])];
      AddSource(AddSources(t, init), sources[|sources| - 1])
  }

  /** `AddSources` over one more source is one more `AddSource`. */
  lemma AddSourcesStep(t: Table, sources: seq<string>, i: nat)
    requires i < |sources|
    ensures AddSources(t, sources[..i + 1]) == AddSource(AddSources(t, sources[..i]), sources[i])
  {
    assert sources[..i + 1][..i] == sources[..i];
  }

  lemma AddSourcesWellFormed(t: Table, sources: seq<string>)
    requires WellFormed(t)
    ensures WellFormed(AddSources(t, sources))
  {
    var r := AddSources(t, sources);
    forall k | k in r
      ensures IsUpper(k)
    {
      if k !in t {
        var i :| 0 <= i < |TrackerKeys(sources)| && TrackerKeys(sources)[i] == k;
      }
    }
  }

  // ---------------------------------------------------------------------------
  // Adding dependencies
  // ---------------------------------------------------------------------------

  /** `List.Contains` then `List.Add`: the list with `x` at its end, unless it holds `x` already */
  function AppendIfMissing(list: seq<string>, x: string): (r: seq<string>)
    ensures x in r
    ensures forall y :: y in r <==> y in list || y == x
    ensures NoDuplicates(list) ==> NoDuplicates(r)
  {
    if x in list then list else list + [x]
  }

  /** `dependency` added to the list of every source (each of which must be a key) */
  function AddDependencyToAll(t: Table, dependency: string, sources: seq<string>): (r: Table)
    requires forall i | 0 <= i < |sources| :: ConvertToTrackerFormat(sources[i]) in t
    ensures r.Keys == t.Keys
    ensures forall k | k in t && k in TrackerKeys(sources) :: r[k] == AppendIfMissing(t[k], dependency)
    ensures forall k | k in t && k !in TrackerKeys(sources) :: r[k] == t[k]
    decreases |sources|
  {
    if sources == [] then t
    else
      var init := sources[..|sources| - 1];
      var key := ConvertToTrackerFormat(sources[|sources| - 1]);
      assert TrackerKeys(sources) == TrackerKeys(init) + [key];
      var u := AddDependencyToAll(t, dependency, init);
      u[key := AppendIfMissing(u[key], dependency)]
  }

  /** `AddDependencyToAll` over one more source updates that source's list only. */
  lemma AddDependencyToAllStep(t: Table, dependency: string, sources: seq<string>, i: nat)
    requires i < |sources|
    requires forall j | 0 <= j < |sources| :: ConvertToTrackerFormat(sources[j]) in t
    ensures var key := ConvertToTrackerFormat(sources[i]);
      var u := AddDependencyToAll(t, dependency, sources[..i]);
      key in u && AddDependencyToAll(t, dependency, sources[..i + 1]) == u[key := AppendIfMissing(u[key], dependency)]
  {
    assert sources[..i + 1][..i] == sources[..i];
  }

  /** `AddDependencyForSources`: the sources are added, then the upper-cased
      dependency is appended to each of their lists that lacks it. */
  function AddDependency(t: Table, dependency: string, sources: seq<string>): Table {
    var withSources := AddSources(t, sources);
    AddDependencyToAll(withSources, ConvertToTrackerFormat(dependency), sources)
  }

  /** The last element of a list free of duplicates is not in the rest of it. */
  lemma NoDuplicatesLast(xs: seq<string>)
    requires NoDuplicates(xs) && xs != []
    ensures NoDuplicates(xs[..|xs| - 1])
    ensures xs[|xs| - 1] !in xs[..|xs| - 1]
  {
    assert forall j | 0 <= j < |xs| - 1 :: xs[..|xs| - 1][j] == xs[j];
  }

  /** In a list free of duplicates, a member occurs exactly once. */
  lemma {:induction false} OccursOnce(xs: seq<string>, x: string)
    requires NoDuplicates(xs) && x in xs
    ensures multiset(xs)[x] == 1
  {
    if xs[0] == x {
      assert x !in xs[1..];
      assert xs == [xs[0]] + xs[1..];
    } else {
      OccursOnce(xs[1..], x);
      assert xs == [xs[0]] + xs[1..];
    }
  }

  /** After `AddDependencyForSources`, every given source is a key whose list
      holds the dependency exactly once; every other entry is untouched and
      the table stays well formed. */
  lemma AddDependencySpec(t: Table, dependency: string, sources: seq<string>)
    requires WellFormed(t)
    ensures var r := AddDependency(t, dependency, sources);
      && WellFormed(r)
      && (forall i | 0 <= i < |sources| ::
            ConvertToTrackerFormat(sources[i]) in r
            && multiset(r[ConvertToTrackerFormat(sources[i])])[ConvertToTrackerFormat(dependency)] == 1)
      && (forall k | k in t && k !in TrackerKeys(sources) :: k in r && r[k] == t[k])
  {
    var s := AddSources(t, sources);
    AddSourcesWellFormed(t, sources);
    var d := ConvertToTrackerFormat(dependency);
    var r := AddDependencyToAll(s, d, sources);
    forall i | 0 <= i < |sources|
      ensures ConvertToTrackerFormat(sources[i]) in r && multiset(r[ConvertToTrackerFormat(sources[i])])[d] == 1
    {
      var k := ConvertToTrackerFormat(sources[i]);
      assert TrackerKeys(sources)[i] == k;
      OccursOnce(r[k], d);
    }
    AddDependencyToAllWellFormed(s, d, sources);
  }

  /** Appending an upper-case dependency keeps a table well formed. */
  lemma AddDependencyToAllWellFormed(t: Table, dependency: string, sources: seq<string>)
    requires WellFormed(t) && IsUpper(dependency)
    requires forall i | 0 <= i < |sources| :: ConvertToTrackerFormat(sources[i]) in t
    ensures WellFormed(AddDependencyToAll(t, dependency, sources))
  {
    var r := AddDependencyToAll(t, dependency, sources);
    forall k | k in r
      ensures IsUpper(k) && NoDuplicates(r[k]) && forall j | 0 <= j < |r[k]| :: IsUpper(r[k][j])
    {
      if k in TrackerKeys(sources) {
        assert r[k] == AppendIfMissing(t[k], dependency);
        forall j | 0 <= j < |r[k]|
          ensures IsUpper(r[k][j])
        {
          if j >= |t[k]| || t[k] == r[k] {
          } else {
            assert r[k][j] == t[k][j];
          }
        }
      }
    }
  }

  /** Appending upper-case dependencies one after another keeps a table well formed. */
  lemma {:induction false} AddDependenciesToAllWellFormed(t: Table, dependencies: seq<string>, sources: seq<string>)
    requires WellFormed(t)
    requires forall i | 0 <= i < |dependencies| :: IsUpper(dependencies[i])
    requires forall i | 0 <= i < |sources| :: ConvertToTrackerFormat(sources[i]) in t
    ensures WellFormed(AddDependenciesToAll(t, dependencies, sources))
    decreases |dependencies|
  {
    if dependencies != [] {
      var init := dependencies[..|dependencies| - 1];
      AddDependenciesToAllWellFormed(t, init, sources);
      AddDependencyToAllWellFormed(AddDependenciesToAll(t, init, sources), dependencies[|dependencies| - 1], sources);
    }
  }

  // ---------------------------------------------------------------------------
  // Removing sources
  // ---------------------------------------------------------------------------

  /** `RemoveSourcesFromTable`: the keys of the sources are removed; removing an absent key does nothing. */
  function RemoveSources(t: Table, sources: seq<string>): (r: Table)
    ensures forall k :: k in r <==> k in t && k !in TrackerKeys(sources)
    ensures forall k | k in r :: r[k] == t[k]
    decreases |sources|
  {
    if sources == [] then t
    else
      var init := sources[..|sources| - 1];
      assert TrackerKeys(sources) == TrackerKeys(init) + [ConvertToTrackerFormat(sources[|sources| - 1])];
      RemoveSources(t, init) - {ConvertToTrackerFormat(sources[|sources| - 1])}
  }

  /** Removing sources none of which is a key leaves the table as it was. */
  lemma RemoveAbsentSources(t: Table, sources: seq<string>)
    requires forall i | 0 <= i < |sources| :: ConvertToTrackerFormat(sources[i]) !in t
    ensures RemoveSources(t, sources) == t
  {
    var r := RemoveSources(t, sources);
    assert forall k | k in t :: k in r;
  }

  lemma RemoveSourcesWellFormed(t: Table, sources: seq<string>)
    requires WellFormed(t)
    ensures WellFormed(RemoveSources(t, sources))
  {
  }

  // ---------------------------------------------------------------------------
  // Reading a tracking log
  // ---------------------------------------------------------------------------

  /** `StreamReader.ReadLine` on the lines of a file: past the last line it
      returns null, which the reader treats like a blank line. */
  function LineAt(lines: seq<string>, i: nat): string {
    if i < |lines| then lines[i] else ""
  }

  /** A line that starts a new group: `^` and the sources */
  predicate IsRoot(line: string) {
    StartsWith(line, "^")
  }

  /** The sources a root line names: upper-cased, split at `|` */
  function RootSources(line: string): seq<string>
    requires IsRoot(line)
  {
    Split(ToUpperInvariant(line[1..]), '|')
  }

  /** The number of dependency lines at the front of `lines`: they are
      neither blank nor a root line. */
  function DependencyRun(lines: seq<string>): (n: nat)
    ensures n <= |lines|
    ensures forall i | 0 <= i < n :: !IsBlank(lines[i]) && !IsRoot(lines[i])
    ensures n < |lines| ==> IsBlank(lines[n]) || IsRoot(lines[n])
  {
    if lines == [] || IsBlank(lines[0]) || IsRoot(lines[0]) then 0
    else 1 + DependencyRun(lines[1..])
  }

  /** The inner reading loop: the dependency lines upper-cased, first occurrences only */
  function CollectDependencies(lines: seq<string>): (r: seq<string>)
    ensures NoDuplicates(r)
    ensures forall i | 0 <= i < |r| :: IsUpper(r[i])
    decreases |lines|
  {
    if lines == [] then []
    else AppendIfMissing(CollectDependencies(lines[..|lines| - 1]), ConvertToTrackerFormat(lines[|lines| - 1]))
  }

  /** The dependencies collected are exactly the tracker forms of the lines read. */
  lemma {:induction false} CollectDependenciesMembers(lines: seq<string>)
    ensures forall d :: d in CollectDependencies(lines) <==> d in TrackerKeys(lines)
    decreases |lines|
  {
    if lines != [] {
      var init := lines[..|lines| - 1];
      CollectDependenciesMembers(init);
      assert TrackerKeys(lines) == TrackerKeys(init) + [ConvertToTrackerFormat(lines[|lines| - 1])];
    }
  }

  /** One more dependency line: its tracker form is appended unless already collected. */
  lemma CollectDependenciesAppend(lines: seq<string>, line: string)
    ensures CollectDependencies(lines + [line]) == AppendIfMissing(CollectDependencies(lines), ConvertToTrackerFormat(line))
  {
    assert (lines + [line])[..|lines|] == lines;
  }

  /** The nested `foreach` that gives every source of a group every dependency of the group */
  function AddDependenciesToAll(t: Table, dependencies: seq<string>, sources: seq<string>): (r: Table)
    requires forall i | 0 <= i < |sources| :: ConvertToTrackerFormat(sources[i]) in t
    ensures r.Keys == t.Keys
    ensures forall k | k in t && k !in TrackerKeys(sources) :: r[k] == t[k]
    decreases |dependencies|
  {
    if dependencies == [] then t
    else
      var u := AddDependenciesToAll(t, dependencies[..|dependencies| - 1], sources);
      AddDependencyToAll(u, dependencies[|dependencies| - 1], sources)
  }

  /** The outcome of reading a tracking log: the table read, or the table at
      the moment the reader stops making progress and spins forever. */
  datatype ImportResult = Imported(table: Table) | Hangs(table: Table)

  /** `ImportFromExistingTLog` on the lines still to read. A root line adds
      its sources, the dependency lines after it go to each of them, and
      reading goes on at the next root line. A first line that is neither
      blank nor a root line is never consumed: the source loops forever. */
  function ImportLines(t: Table, lines: seq<string>): ImportResult
    decreases |lines|
  {
    if lines == [] || IsBlank(lines[0]) then Imported(t)
    else if !IsRoot(lines[0]) then Hangs(t)
    else ImportLines(ImportGroup(t, lines), lines[GroupEnd(lines)..])
  }

  /** The lines of the group whose root line starts `lines`: the root line
      and the dependency lines after it. */
  function GroupEnd(lines: seq<string>): (n: nat)
    requires lines != []
    ensures 1 <= n <= |lines|
  {
    1 + DependencyRun(lines[1..])
  }

  /** One pass of the outer reading loop: the sources of the root line
      become keys, and each of them gets every dependency of the group. */
  function ImportGroup(t: Table, lines: seq<string>): Table
    requires lines != [] && IsRoot(lines[0])
  {
    var sources := RootSources(lines[0]);
    AddDependenciesToAll(AddSources(t, sources), CollectDependencies(lines[1..GroupEnd(lines)]), sources)
  }

  /** Reading a tracking log keeps the table well formed, whether or not it hangs. */
  lemma {:induction false} ImportWellFormed(t: Table, lines: seq<string>)
    requires WellFormed(t)
    ensures WellFormed(ImportLines(t, lines).table)
    decreases |lines|
  {
    if lines != [] && !IsBlank(lines[0]) && IsRoot(lines[0]) {
      ImportGroupWellFormed(t, lines);
      ImportWellFormed(ImportGroup(t, lines), lines[GroupEnd(lines)..]);
    }
  }

  /** Adding one group's sources and dependencies keeps the table well formed. */
  lemma ImportGroupWellFormed(t: Table, lines: seq<string>)
    requires WellFormed(t)
    requires lines != [] && IsRoot(lines[0])
    ensures WellFormed(ImportGroup(t, lines))
  {
    var sources := RootSources(lines[0]);
    AddSourcesWellFormed(t, sources);
    AddDependenciesToAllWellFormed(AddSources(t, sources), CollectDependencies(lines[1..GroupEnd(lines)]), sources);
  }

  /** Reading stops without a hang whenever the next line is blank, a root line or missing. */
  lemma {:induction false} ImportNeverHangsAfterGroup(t: Table, lines: seq<string>)
    requires lines == [] || IsBlank(lines[0]) || IsRoot(lines[0])
    ensures ImportLines(t, lines).Imported?
    decreases |lines|
  {
    if lines != [] && !IsBlank(lines[0]) {
      var rest := lines[GroupEnd(lines)..];
      assert rest == [] || IsBlank(rest[0]) || IsRoot(rest[0]) by {
        assert rest != [] ==> rest[0] == lines[1..][DependencyRun(lines[1..])];
      }
      ImportNeverHangsAfterGroup(ImportGroup(t, lines), rest);
    }
  }

  /** The hang happens exactly when the first line is neither blank nor a
      root line: every later line the outer loop sees is one or the other. */
  lemma ImportHangsIff(t: Table, lines: seq<string>)
    ensures ImportLines(t, lines).Hangs? <==> lines != [] && !IsBlank(lines[0]) && !IsRoot(lines[0])
  {
    if lines == [] || IsBlank(lines[0]) || IsRoot(lines[0]) {
      ImportNeverHangsAfterGroup(t, lines);
    }
  }

  // ---------------------------------------------------------------------------
  // Writing a tracking log
  // ---------------------------------------------------------------------------

  /** `Save`: for each key, in the order the table is enumerated, the line
      `^key` and then its dependencies, one per line. */
  function SaveLines(t: Table, order: seq<string>): seq<string>
    requires forall i | 0 <= i < |order| :: order[i] in t
  {
    if order == [] then []
    else ["^" + order[0]] + t[order[0]] + SaveLines(t, order[1..])
  }

  lemma {:induction false} SaveLinesAppend(t: Table, order: seq<string>, key: string)
    requires forall i | 0 <= i < |order| :: order[i] in t
    requires key in t
    ensures SaveLines(t, order + [key]) == SaveLines(t, order) + (["^" + key] + t[key])
  {
    if order == [] {
      assert order + [key] == [key];
      assert SaveLines(t, []) == [];
    } else {
      assert (order + [key])[1..] == order[1..] + [key];
      SaveLinesAppend(t, order[1..], key);
    }
  }

  // ---------------------------------------------------------------------------
  // Save, then import: the round trip
  // ---------------------------------------------------------------------------

  /** A string `WriteLine` writes and `ReadLine` reads back as one line:
      it holds no line break. */
  predicate OneLine(s: string) {
    '\r' !in s && '\n' !in s
  }

  /** A dependency list `Save` writes and `ImportFromExistingTLog` reads back
      unchanged: upper-case, free of duplicates, and every entry one line
      that is neither blank nor starts with `^`. */
  predicate Savable(dependencies: seq<string>) {
    && NoDuplicates(dependencies)
    && forall i | 0 <= i < |dependencies| ::
      IsUpper(dependencies[i]) && OneLine(dependencies[i]) && !IsBlank(dependencies[i]) && !IsRoot(dependencies[i])
  }

  /** The entries of `t` whose keys are listed in `order` */
  function Restrict(t: Table, order: seq<string>): Table {
    map k | k in order && k in t :: t[k]
  }

  /** A run of dependency lines followed by nothing, a blank line or a root line is read whole. */
  lemma {:induction false} DependencyRunExact(lines: seq<string>, n: nat)
    requires n <= |lines|
    requires forall j | 0 <= j < n :: !IsBlank(lines[j]) && !IsRoot(lines[j])
    requires n == |lines| || IsBlank(lines[n]) || IsRoot(lines[n])
    ensures DependencyRun(lines) == n
  {
    if n > 0 {
      DependencyRunExact(lines[1..], n - 1);
    }
  }

  /** Reading back an upper-case list free of duplicates gives the same list. */
  lemma {:induction false} CollectSavable(dependencies: seq<string>)
    requires NoDuplicates(dependencies)
    requires forall i | 0 <= i < |dependencies| :: IsUpper(dependencies[i])
    ensures CollectDependencies(dependencies) == dependencies
    decreases |dependencies|
  {
    if dependencies != [] {
      var init := dependencies[..|dependencies| - 1];
      var last := dependencies[|dependencies| - 1];
      NoDuplicatesLast(dependencies);
      CollectSavable(init);
      UpperFixesUpper(last);
      assert init + [last] == dependencies;
    }
  }

  /** Adding a dependency to one upper-case source changes only its list. */
  lemma AddDependencyToOne(t: Table, dependency: string, key: string)
    requires key in t && ConvertToTrackerFormat(key) == key
    ensures AddDependencyToAll(t, dependency, [key]) == t[key := AppendIfMissing(t[key], dependency)]
  {
    assert TrackerKeys([key]) == [key];
  }

  /** Dependencies the list of `key` lacks are appended to it in order. */
  lemma {:induction false} AddDependenciesToOne(t: Table, dependencies: seq<string>, key: string)
    requires key in t && ConvertToTrackerFormat(key) == key
    requires NoDuplicates(dependencies)
    requires forall i | 0 <= i < |dependencies| :: dependencies[i] !in t[key]
    ensures AddDependenciesToAll(t, dependencies, [key]) == t[key := t[key] + dependencies]
    decreases |dependencies|
  {
    if dependencies == [] {
      assert t[key] + [] == t[key];
      assert t[key := t[key]] == t;
    } else {
      var init := dependencies[..|dependencies| - 1];
      var last := dependencies[|dependencies| - 1];
      assert NoDuplicates(init) && last !in init && last !in t[key] by {
        NoDuplicatesLast(dependencies);
      }
      assert forall i | 0 <= i < |init| :: init[i] !in t[key] by {
        assert forall i | 0 <= i < |init| :: init[i] == dependencies[i];
      }
      AddDependenciesToOne(t, init, key);
      AddLastDependencyToOne(t, dependencies, key);
    }
  }

  /** The step of `AddDependenciesToOne` from all but the last dependency to all of them */
  lemma AddLastDependencyToOne(t: Table, dependencies: seq<string>, key: string)
    requires key in t && ConvertToTrackerFormat(key) == key && dependencies != []
    requires var init := dependencies[..|dependencies| - 1];
      && dependencies[|dependencies| - 1] !in t[key]
      && dependencies[|dependencies| - 1] !in init
      && AddDependenciesToAll(t, init, [key]) == t[key := t[key] + init]
    ensures AddDependenciesToAll(t, dependencies, [key]) == t[key := t[key] + dependencies]
  {
    var init := dependencies[..|dependencies| - 1];
    var last := dependencies[|dependencies| - 1];
    var u := t[key := t[key] + init];
    calc {
      AddDependenciesToAll(t, dependencies, [key]);
      { AddDependenciesToAllLast(t, dependencies, [key]); }
      AddDependencyToAll(u, last, [key]);
      { AppendLastToOne(t, key, init, last); }
      t[key := t[key] + (init + [last])];
      { assert init + [last] == dependencies; }
      t[key := t[key] + dependencies];
    }
  }

  /** `AddDependenciesToAll` is the last dependency added after the others */
  lemma AddDependenciesToAllLast(t: Table, dependencies: seq<string>, sources: seq<string>)
    requires forall i | 0 <= i < |sources| :: ConvertToTrackerFormat(sources[i]) in t
    requires dependencies != []
    ensures AddDependenciesToAll(t, dependencies, sources)
      == AddDependencyToAll(AddDependenciesToAll(t, dependencies[..|dependencies| - 1], sources), dependencies[|dependencies| - 1], sources)
  {
  }

  /** The last step of `AddDependenciesToOne`: a dependency in neither the
      list nor the ones appended before it goes at the end. */
  lemma AppendLastToOne(t: Table, key: string, init: seq<string>, last: string)
    requires key in t && ConvertToTrackerFormat(key) == key
    requires last !in t[key] && last !in init
    ensures var u := t[key := t[key] + init];
      AddDependencyToAll(u, last, [key]) == t[key := t[key] + (init + [last])]
  {
    var u := t[key := t[key] + init];
    AddDependencyToOne(u, last, key);
    assert AppendIfMissing(u[key], last) == (t[key] + init) + [last];
    AppendAssoc(t[key], init, [last]);
    UpdateTwice(t, key, t[key] + init, t[key] + (init + [last]));
  }

  /** What the import does with the group `Save` writes for one key */
  lemma ImportOneGroup(acc: Table, t: Table, key: string, rest: seq<string>)
    requires key in t && key !in acc && IsUpper(key) && OneLine(key) && '|' !in key && Savable(t[key])
    requires rest == [] || IsRoot(rest[0])
    ensures ImportLines(acc, ["^" + key] + t[key] + rest) == ImportLines(acc[key := t[key]], rest)
  {
    var lines := ["^" + key] + t[key] + rest;
    SavedRoot(key, t[key] + rest);
    SavedRun(key, t[key], rest);
    CollectSavable(t[key]);
    OneGroupTable(acc, key, t[key]);
  }

  /** The root line `Save` writes for a key names that key alone. */
  lemma SavedRoot(key: string, after: seq<string>)
    requires IsUpper(key) && '|' !in key
    ensures var lines := ["^" + key] + after;
      !IsBlank(lines[0]) && IsRoot(lines[0]) && RootSources(lines[0]) == [key]
  {
    var root := "^" + key;
    assert root[0] == '^' && root[..1] == "^" && root[1..] == key;
    UpperFixesUpper(key);
    SplitWithoutSeparator(key, '|');
    assert ([root] + after)[0] == root;
  }

  /** The dependency lines `Save` writes after a root line form the whole group. */
  lemma SavedRun(key: string, dependencies: seq<string>, rest: seq<string>)
    requires Savable(dependencies)
    requires rest == [] || IsRoot(rest[0])
    ensures var lines := ["^" + key] + dependencies + rest;
      && GroupEnd(lines) == 1 + |dependencies|
      && lines[1..GroupEnd(lines)] == dependencies
      && lines[GroupEnd(lines)..] == rest
  {
    var lines := ["^" + key] + dependencies + rest;
    var n := |dependencies|;
    assert lines[1..] == dependencies + rest;
    DependencyRunExact(dependencies + rest, n);
    assert lines[1..1 + n] == dependencies;
    assert lines[1 + n..] == rest;
  }

  /** The table after the group `Save` writes for a new key holds that key's list. */
  lemma OneGroupTable(acc: Table, key: string, dependencies: seq<string>)
    requires key !in acc && ConvertToTrackerFormat(key) == key && NoDuplicates(dependencies)
    ensures AddDependenciesToAll(AddSources(acc, [key]), dependencies, [key]) == acc[key := dependencies]
  {
    AddOneSource(acc, key);
    AddDependenciesToOne(acc[key := []], dependencies, key);
    assert [] + dependencies == dependencies;
    UpdateTwice(acc, key, [], dependencies);
  }

  /** Of two updates of the same key the second wins. */
  lemma UpdateTwice(t: Table, key: string, first: seq<string>, second: seq<string>)
    ensures t[key := first][key := second] == t[key := second]
  {
    var l := t[key := first][key := second];
    var r := t[key := second];
    assert l.Keys == r.Keys;
    assert forall k | k in l :: l[k] == r[k];
  }

  /** Adding one upper-case source that is not yet a key gives it an empty list. */
  lemma AddOneSource(t: Table, key: string)
    requires key !in t && ConvertToTrackerFormat(key) == key
    ensures AddSources(t, [key]) == t[key := []]
  {
    assert [key][..0] == [];
    assert AddSources(t, [key]) == AddSource(AddSources(t, []), key);
  }

  /** Round trip: importing what `Save` writes for the keys in `order` adds
      exactly those entries to the table read so far, provided every key is
      one line without `|` and every list is `Savable`. */
  lemma {:induction false} SaveImportRoundTrip(acc: Table, t: Table, order: seq<string>)
    requires NoDuplicates(order)
    requires forall i | 0 <= i < |order| :: order[i] in t && order[i] !in acc
    requires forall i | 0 <= i < |order| :: IsUpper(order[i]) && OneLine(order[i]) && '|' !in order[i] && Savable(t[order[i]])
    ensures ImportLines(acc, SaveLines(t, order)) == Imported(acc + Restrict(t, order))
    decreases |order|
  {
    if order == [] {
      assert Restrict(t, order) == map[];
      assert acc + map[] == acc;
    } else {
      var key := order[0];
      var rest := order[1..];
      var tail := SaveLines(t, rest);
      assert rest == [] || tail[0] == "^" + rest[0];
      assert tail == [] || IsRoot(tail[0]) by {
        if tail != [] {
          assert tail[0][..1] == "^";
        }
      }
      ImportOneGroup(acc, t, key, tail);
      assert forall i | 0 <= i < |rest| :: rest[i] != key by {
        forall i | 0 <= i < |rest|
          ensures rest[i] != key
        {
          assert rest[i] == order[i + 1];
        }
      }
      SaveImportRoundTrip(acc[key := t[key]], t, rest);
      RestrictFirst(acc, t, order);
    }
  }

  /** Taking the first listed key into the accumulated table first gives the same union. */
  lemma RestrictFirst(acc: Table, t: Table, order: seq<string>)
    requires order != [] && order[0] in t
    ensures acc[order[0] := t[order[0]]] + Restrict(t, order[1..]) == acc + Restrict(t, order)
  {
    var key := order[0];
    var l := acc[key := t[key]] + Restrict(t, order[1..]);
    var r := acc + Restrict(t, order);
    assert forall k :: k in order <==> k == key || k in order[1..];
    assert l.Keys == r.Keys;
    assert forall k | k in l :: l[k] == r[k];
  }

  /** In particular, a well-formed table saved in any enumeration order of
      its keys is read back unchanged into an empty manager. */
  lemma SaveImportIdentity(t: Table, order: seq<string>)
    requires NoDuplicates(order)
    requires forall i | 0 <= i < |order| :: order[i] in t
    requires forall k | k in t :: k in order
    requires forall k | k in t :: OneLine(k) && '|' !in k && Savable(t[k])
    requires WellFormed(t)
    ensures ImportLines(map[], SaveLines(t, order)) == Imported(t)
  {
    SaveImportRoundTrip(map[], t, order);
    RestrictToAllKeys(t, order);
  }

  /** Restricting to a list that names every key keeps the whole table. */
  lemma RestrictToAllKeys(t: Table, order: seq<string>)
    requires forall k | k in t :: k in order
    ensures map[] + Restrict(t, order) == t
  {
    var r := Restrict(t, order);
    assert r.Keys == t.Keys;
    assert map[] + r == r;
  }

  // ---------------------------------------------------------------------------
  // The manager
  // ---------------------------------------------------------------------------

  /** `TrackedFileManager`: the dependency table, changed in place */
  class TrackedFileManager {
    var table: Table

    constructor ()
      ensures table == map[]
    {
      table := map[];
    }

    /** `ImportFromExistingTLog`: `tlog` holds the lines of the log, or is
        `None` when the file does not exist. `hung` is set where the source
        would spin forever on a first line that is neither blank nor a root
        line; the table is then the one built before that line. */
    method ImportFromExistingTLog(tlog: Option<seq<string>>) returns (hung: bool)
      modifies this
      ensures tlog.None? ==> !hung && table == old(table)
      ensures tlog.Some? ==> hung == ImportLines(old(table), tlog.value).Hangs?
      ensures tlog.Some? ==> table == ImportLines(old(table), tlog.value).table
    {
      hung := false;
      if tlog.None? {
        return;
      }
      var lines := tlog.value;
      var i := 0;
      var data := LineAt(lines, i);
      while !IsBlank(data)
        invariant 0 <= i <= |lines|
        invariant data == LineAt(lines, i)
        invariant ImportLines(table, lines[i..]) == ImportLines(old(table), lines)
        decreases |lines| - i
      {
        if !IsRoot(data) {
          // the source never reads another line here
          hung := true;
          return;
        }
        ghost var before := table;
        ghost var root := i;
        var trackedSources := Split(ToUpperInvariant(data[1..]), '|');
        AddSourcesToTable(trackedSources);
        i := i + 1;
        data := LineAt(lines, i);
        if IsBlank(data) || IsRoot(data) {
          ImportGroupStep(before, lines, root, i, []);
          continue;
        }
        var trackedDependencies;
        trackedDependencies, i := ReadDependencies(lines, i);
        data := LineAt(lines, i);
        AppendAllToSources(trackedDependencies, trackedSources);
        ImportGroupStep(before, lines, root, i, trackedDependencies);
      }
    }

    /** The inner reading loop of the import: from `start`, the dependency
        lines up to the next blank line, root line or end of file, upper-cased,
        each kept once. `next` is the line reading stopped at. */
    static method ReadDependencies(lines: seq<string>, start: nat) returns (dependencies: seq<string>, next: nat)
      requires start <= |lines|
      ensures start <= next <= |lines|
      ensures forall j | start <= j < next :: !IsBlank(lines[j]) && !IsRoot(lines[j])
      ensures next == |lines| || IsBlank(lines[next]) || IsRoot(lines[next])
      ensures dependencies == CollectDependencies(lines[start..next])
    {
      dependencies := [];
      next := start;
      assert lines[start..next] == [];
      assert dependencies == CollectDependencies(lines[start..next]);
      var data := LineAt(lines, next);
      while !IsBlank(data)
        invariant start <= next <= |lines|
        invariant data == LineAt(lines, next)
        invariant forall j | start <= j < next :: !IsBlank(lines[j]) && !IsRoot(lines[j])
        invariant dependencies == CollectDependencies(lines[start..next])
        decreases |lines| - next
      {
        if IsRoot(data) {
          break;
        }
        var dependency := ConvertToTrackerFormat(data);
        if dependency !in dependencies {
          dependencies := dependencies + [dependency];
        }
        assert dependencies == CollectDependencies(lines[start..next + 1]) by {
          assert lines[start..next + 1] == lines[start..next] + [data];
          CollectDependenciesAppend(lines[start..next], data);
        }
        next := next + 1;
        data := LineAt(lines, next);
      }
    }

    /** The nested `foreach` of the import: every dependency of the group
        appended to the list of every source lacking it */
    method AppendAllToSources(dependencies: seq<string>, sources: seq<string>)
      requires forall i | 0 <= i < |sources| :: ConvertToTrackerFormat(sources[i]) in table
      modifies this
      ensures table == AddDependenciesToAll(old(table), dependencies, sources)
    {
      var j := 0;
      while j < |dependencies|
        invariant 0 <= j <= |dependencies|
        invariant table.Keys == old(table).Keys
        invariant table == AddDependenciesToAll(old(table), dependencies[..j], sources)
      {
        AppendToSources(dependencies[j], sources);
        assert dependencies[..j + 1][..j] == dependencies[..j];
        j := j + 1;
      }
      TakeAll(dependencies);
    }

    /** `AddSourcesToTable`: every source's tracker-format path becomes a key */
    method AddSourcesToTable(sources: seq<string>)
      modifies this
      ensures table == AddSources(old(table), sources)
    {
      var i := 0;
      while i < |sources|
        invariant 0 <= i <= |sources|
        invariant table == AddSources(old(table), sources[..i])
      {
        var key := ConvertToTrackerFormat(sources[i]);
        if key !in table {
          table := table[key := []];
        }
        AddSourcesStep(old(table), sources, i);
        i := i + 1;
      }
      TakeAll(sources);
    }

    /** The inner `foreach` of `AddDependencyForSources` and of the import:
        the dependency is appended to the list of each source lacking it. */
    method AppendToSources(dependency: string, sources: seq<string>)
      requires forall i | 0 <= i < |sources| :: ConvertToTrackerFormat(sources[i]) in table
      modifies this
      ensures table == AddDependencyToAll(old(table), dependency, sources)
    {
      var i := 0;
      while i < |sources|
        invariant 0 <= i <= |sources|
        invariant table == AddDependencyToAll(old(table), dependency, sources[..i])
      {
        var key := ConvertToTrackerFormat(sources[i]);
        AddDependencyToAllStep(old(table), dependency, sources, i);
        if dependency !in table[key] {
          table := table[key := table[key] + [dependency]];
        }
        i := i + 1;
      }
      TakeAll(sources);
    }

    /** `AddDependencyForSources` */
    method AddDependencyForSources(dependency: string, sources: seq<string>)
      modifies this
      ensures table == AddDependency(old(table), dependency, sources)
    {
      AddSourcesToTable(sources);
      var dependencyTrackerFormat := ConvertToTrackerFormat(dependency);
      AppendToSources(dependencyTrackerFormat, sources);
    }

    /** `RemoveSourcesFromTable`: `Dictionary.Remove` of each source's key */
    method RemoveSourcesFromTable(sources: seq<string>)
      modifies this
      ensures table == RemoveSources(old(table), sources)
    {
      var i := 0;
      while i < |sources|
        invariant 0 <= i <= |sources|
        invariant table == RemoveSources(old(table), sources[..i])
      {
        var key := ConvertToTrackerFormat(sources[i]);
        table := table - {key};
        assert sources[..i + 1][..i] == sources[..i];
        i := i + 1;
      }
      TakeAll(sources);
    }

    /** `Save`: the lines written to the log. `order` is the order in which
        the dictionary enumerates its keys, which .NET leaves unspecified. */
    method Save(order: seq<string>) returns (lines: seq<string>)
      requires NoDuplicates(order)
      requires forall i | 0 <= i < |order| :: order[i] in table
      requires forall k | k in table :: k in order
      ensures lines == SaveLines(table, order)
    {
      lines := [];
      var i := 0;
      while i < |order|
        invariant 0 <= i <= |order|
        invariant lines == SaveLines(table, order[..i])
      {
        var key := order[i];
        lines := lines + ["^" + key];
        var dependencies := table[key];
        var j := 0;
        while j < |dependencies|
          invariant 0 <= j <= |dependencies|
          invariant lines == SaveLines(table, order[..i]) + ["^" + key] + dependencies[..j]
        {
          lines := lines + [dependencies[j]];
          assert dependencies[..j + 1] == dependencies[..j] + [dependencies[j]];
          j := j + 1;
        }
        TakeAll(dependencies);
        SaveLinesAppend(table, order[..i], key);
        assert order[..i + 1] == order[..i] + [key];
        i := i + 1;
      }
      TakeAll(order);
    }
  }

  /** One pass of the outer loop of the import: the root line at `root`, the
      dependency lines up to `next`, and the table after the group. */
  lemma ImportGroupStep(t: Table, lines: seq<string>, root: nat, next: nat, dependencies: seq<string>)
    requires root < next <= |lines|
    requires !IsBlank(lines[root]) && IsRoot(lines[root])
    requires forall j | root < j < next :: !IsBlank(lines[j]) && !IsRoot(lines[j])
    requires next == |lines| || IsBlank(lines[next]) || IsRoot(lines[next])
    requires dependencies == CollectDependencies(lines[root + 1..next])
    ensures var sources := RootSources(lines[root]);
      ImportLines(t, lines[root..]) == ImportLines(AddDependenciesToAll(AddSources(t, sources), dependencies, sources), lines[next..])
  {
    var rest := lines[root..];
    assert rest[0] == lines[root];
    assert rest[1..] == lines[root + 1..];
    DependencyRunExact(lines[root + 1..], next - root - 1);
    assert rest[1..1 + (next - root - 1)] == lines[root + 1..next];
    assert rest[1 + (next - root - 1)..] == lines[next..];
  }
}

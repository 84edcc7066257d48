/**
 The rows of a CSV file, kept while the file's modification time stays the same (`CSVPlugin._load_file`).

 A writer replaces the file at any moment, and every replacement has a modification time that the file
 never had before.  Opening and reading the file is one step.  The plugin has no lock, so several
 threads may be inside `_load_file` at once.
 */
module CsvCache {
  import opened Wrappers

  type Time = nat
  type Tid = nat
  type Table = seq<seq<string>>
  type Entry = map<string, string>

  // ---------- What a file says ----------

  /** `_row_to_dict`: the shorter of the two decides, and a later key of the same name wins. */
  function RowToDict(keys: seq<string>, row: seq<string>): Entry {
    if keys == [] || row == [] then map[]
    else
      var n := if |keys| <= |row| then |keys| - 1 else |row| - 1;
      RowToDict(keys[..n], row[..n])[keys[n] := row[n]]
  }

  /** The position `p` is in both, and the header has its name at no later position that the row has. */
  predicate IsLastCell(keys: seq<string>, row: seq<string>, p: nat) {
    p < |keys| && p < |row| && forall q | p < q < |keys| && q < |row| :: keys[q] != keys[p]
  }

  predicate HasCell(keys: seq<string>, row: seq<string>, name: string) {
    exists p | 0 <= p < |keys| && p < |row| :: keys[p] == name
  }

  /** The entry has the header's names at the positions that the row also has, each with its last cell. */
  ghost predicate Pairs(keys: seq<string>, row: seq<string>, entry: Entry) {
    && (forall n :: n in entry <==> HasCell(keys, row, n))
    && (forall p: nat | IsLastCell(keys, row, p) :: keys[p] in entry && entry[keys[p]] == row[p])
  }

  /** The number of cells that have a name. */
  function Width(keys: seq<string>, row: seq<string>): nat {
    if |keys| <= |row| then |keys| else |row|
  }

  lemma HasCellStep(keys: seq<string>, row: seq<string>, n: nat, name: string)
    requires n + 1 == Width(keys, row)
    ensures HasCell(keys, row, name) <==> HasCell(keys[..n], row[..n], name) || keys[n] == name
  {
    if p :| 0 <= p < |keys| && p < |row| && keys[p] == name && p < n {
      assert keys[..n][p] == name;
    }
    if p :| 0 <= p < n && keys[..n][p] == name {
      assert keys[p] == name;
    }
  }

  lemma LastCellStep(keys: seq<string>, row: seq<string>, n: nat, p: nat)
    requires n + 1 == Width(keys, row) && IsLastCell(keys, row, p) && p < n
    ensures IsLastCell(keys[..n], row[..n], p) && keys[n] != keys[p]
  {
  }

  lemma CellGiven(keys: seq<string>, row: seq<string>, n: nat, before: Entry, p: nat)
    requires n + 1 == Width(keys, row) && Pairs(keys[..n], row[..n], before) && IsLastCell(keys, row, p)
    ensures var entry := before[keys[n] := row[n]]; keys[p] in entry && entry[keys[p]] == row[p]
  {
    if p < n {
      var ks, rs := keys[..n], row[..n];
      LastCellStep(keys, row, n, p);
      assert ks[p] in before && before[ks[p]] == rs[p];
      assert ks[p] == keys[p] && rs[p] == row[p];
    }
  }

  lemma PairsStep(keys: seq<string>, row: seq<string>, n: nat, before: Entry)
    requires n + 1 == Width(keys, row) && Pairs(keys[..n], row[..n], before)
    ensures Pairs(keys, row, before[keys[n] := row[n]])
  {
    forall name ensures name in before[keys[n] := row[n]] <==> HasCell(keys, row, name) {
      HasCellStep(keys, row, n, name);
    }
    forall p: nat | IsLastCell(keys, row, p)
      ensures var entry := before[keys[n] := row[n]]; keys[p] in entry && entry[keys[p]] == row[p]
    {
      CellGiven(keys, row, n, before, p);
    }
  }

  lemma {:induction false} RowToDictPairs(keys: seq<string>, row: seq<string>)
    ensures Pairs(keys, row, RowToDict(keys, row))
  {
    if keys != [] && row != [] {
      var n := Width(keys, row) - 1;
      RowToDictPairs(keys[..n], row[..n]);
      PairsStep(keys, row, n, RowToDict(keys[..n], row[..n]));
    }
  }

  function Entries(table: Table): seq<Entry>
    requires table != []
  {
    seq(|table| - 1, i requires 0 <= i < |table| - 1 => RowToDict(table[0], table[i + 1]))
  }

  /** One entry for each row after the header, in order. */
  ghost predicate Holds(content: seq<Entry>, table: Table) {
    && table != [] && |content| == |table| - 1
    && forall i | 0 <= i < |content| :: Pairs(table[0], table[i + 1], content[i])
  }

  lemma EntriesHold(table: Table)
    requires table != []
    ensures Holds(Entries(table), table)
  {
    forall i | 0 <= i < |table| - 1 ensures Pairs(table[0], table[i + 1], Entries(table)[i]) {
      RowToDictPairs(table[0], table[i + 1]);
    }
  }

  // ---------- The plugin ----------

  datatype StatResult = Missing | StatDenied | Modified(time: Time)
  datatype ReadResult = Unreadable | Malformed | Read(table: Table)

  /** The load reads other rows than it has. */
  predicate Reloads(stat: StatResult, time: Option<Time>, read: ReadResult) {
    stat.Modified? && time != Some(stat.time) && read.Read? && read.table != []
  }

  /** Only a missing file and an unreadable one are caught; a file without a header row is not. */
  predicate LoadRaises(stat: StatResult, time: Option<Time>, read: ReadResult) {
    stat == StatDenied || (stat.Modified? && time != Some(stat.time) && (read == Malformed || read == Read([])))
  }

  class CsvPlugin {
    var time: Option<Time>
    var content: seq<Entry>

    constructor ()
      ensures time == None && content == []
    {
      time, content := None, [];
    }

    /** `_load_file`, given what `stat` and reading the file answer; true when an exception passes. */
    method LoadFile(configured: bool, stat: StatResult, read: ReadResult) returns (raised: bool)
      modifies this
      ensures configured && Reloads(stat, old(time), read) ==>
        time == Some(stat.time) && content == Entries(read.table) && Holds(content, read.table)
      ensures !(configured && Reloads(stat, old(time), read)) ==> unchanged(this)
      ensures raised <==> configured && LoadRaises(stat, old(time), read)
    {
      if !configured {
        return false;
      }
      match stat {
        case Missing => return false;
        case StatDenied => return true;
        case Modified(modified) =>
          if time == Some(modified) {
            return false;
          }
          match read {
            case Unreadable => return false;
            case Malformed => return true;
            case Read(table) =>
              if table == [] {
                return true;
              }
              var keys := table[0];
              var entries: seq<Entry> := [];
              for i := 1 to |table|
                invariant |entries| == i - 1 && time == old(time) && content == old(content)
                invariant forall j | 0 <= j < |entries| :: entries[j] == RowToDict(keys, table[j + 1])
              {
                entries := entries + [RowToDict(keys, table[i])];
              }
              assert entries == Entries(table);
              EntriesHold(table);
              content := entries;
              time := Some(modified);
              return false;
          }
      }
    }
  }

  // ---------- Interleaved loads and writes ----------

  datatype File = File(time: Time, table: Table)

  /** Where a thread is in `_load_file`. */
  datatype Pc =
    | Idle
    | Statted(time: Time) // the time differs from the recorded one, nothing read
    | HasRead(time: Time, entries: seq<Entry>) // read, nothing assigned
    | Assigned(time: Time) // content assigned, time not

  datatype State = State(
    file: Option<File>,
    used: set<Time>, // the modification times so far
    time: Option<Time>,
    content: seq<Entry>,
    loaders: map<Tid, Pc>)

  datatype Label =
    | Write(time: Time, table: Table)
    | Unlink
    | StatFails(i: Tid)
    | SameTime(i: Tid)
    | NewTime(i: Tid)
    | ReadFails(i: Tid)
    | ReadFile(i: Tid)
    | AssignContent(i: Tid)
    | AssignTime(i: Tid)

  const INIT := State(None, {}, None, [], map[])

  function At(s: State, i: Tid): Pc {
    if i in s.loaders then s.loaders[i] else Idle
  }

  function Goto(s: State, i: Tid, pc: Pc): State {
    s.(loaders := s.loaders[i := pc])
  }

  /** The recorded time is the file's. */
  predicate UpToDate(s: State) {
    s.file.Some? && s.time == Some(s.file.value.time)
  }

  /** The steps that `n` threads and the writer can take. */
  predicate Enabled(n: nat, s: State, l: Label) {
    match l
    case Write(time, _) => time !in s.used
    case Unlink => true
    case StatFails(i) => i < n && At(s, i) == Idle
    case SameTime(i) => i < n && At(s, i) == Idle && UpToDate(s)
    case NewTime(i) => i < n && At(s, i) == Idle && s.file.Some? && !UpToDate(s)
    case ReadFails(i) => i < n && At(s, i).Statted?
    case ReadFile(i) => i < n && At(s, i).Statted? && s.file.Some? && s.file.value.table != []
    case AssignContent(i) => i < n && At(s, i).HasRead?
    case AssignTime(i) => i < n && At(s, i).Assigned?
  }

  function Next(n: nat, s: State, l: Label): State
    requires Enabled(n, s, l)
  {
    match l
    case Write(time, table) => s.(file := Some(File(time, table)), used := s.used + {time})
    case Unlink => s.(file := None)
    case StatFails(_) => s
    case SameTime(_) => s
    case NewTime(i) => Goto(s, i, Statted(s.file.value.time))
    case ReadFails(i) => Goto(s, i, Idle)
    case ReadFile(i) => Goto(s, i, HasRead(At(s, i).time, Entries(s.file.value.table)))
    case AssignContent(i) => Goto(s, i, Assigned(At(s, i).time)).(content := At(s, i).entries)
    case AssignTime(i) => Goto(s, i, Idle).(time := Some(At(s, i).time))
  }

  function Run(n: nat, labels: seq<Label>): Option<State> {
    if labels == [] then Some(INIT)
    else
      var s :- Run(n, labels[..|labels| - 1]);
      var l := labels[|labels| - 1];
      if Enabled(n, s, l) then Some(Next(n, s, l)) else None
  }

  // ---------- Freshness ----------

  /** The cached rows are the file's. */
  predicate CurrentRows(s: State) {
    s.file.Some? && s.file.value.table != [] && s.content == Entries(s.file.value.table)
  }

  /** Whenever the recorded time is the file's, so that a load would keep the rows, the rows are the file's. */
  predicate Fresh(s: State) {
    UpToDate(s) ==> CurrentRows(s)
  }

  /** Freshness in every run of `n` threads. */
  ghost predicate AlwaysFresh(n: nat) {
    forall labels | Run(n, labels).Some? :: Fresh(Run(n, labels).value)
  }

  predicate FileHas(s: State, time: Time, entries: seq<Entry>) {
    s.file.Some? && s.file.value.time == time ==>
      s.file.value.table != [] && entries == Entries(s.file.value.table)
  }

  /** What a loader knows: the recorded time is not the file's, and what it read is, if the file still has its time. */
  predicate LoaderInv(s: State, pc: Pc) {
    && (pc != Idle ==> !UpToDate(s) && pc.time in s.used)
    && (pc.HasRead? ==> FileHas(s, pc.time, pc.entries))
    && (pc.Assigned? ==> FileHas(s, pc.time, s.content))
  }

  ghost predicate Inv(s: State) {
    && Fresh(s)
    && (s.time.Some? ==> s.time.value in s.used)
    && (s.file.Some? ==> s.file.value.time in s.used)
    && (forall i: Tid :: LoaderInv(s, At(s, i)))
  }

  /** At most one thread is inside `_load_file`. */
  ghost predicate AtMostOneLoads(s: State) {
    forall i: Tid, j: Tid | At(s, i) != Idle && At(s, j) != Idle :: i == j
  }

  /** The loads of the run do not overlap. */
  ghost predicate LoadsApart(n: nat, labels: seq<Label>) {
    forall k | 0 <= k <= |labels| && Run(n, labels[..k]).Some? :: AtMostOneLoads(Run(n, labels[..k]).value)
  }

  lemma StepInv(n: nat, s: State, l: Label)
    requires Inv(s) && AtMostOneLoads(s) && Enabled(n, s, l)
    ensures Inv(Next(n, s, l))
  {
    var s' := Next(n, s, l);
    forall i: Tid ensures LoaderInv(s', At(s', i)) {
      assert LoaderInv(s, At(s, i));
      if !l.Write? && !l.Unlink? && l.i != i {
        assert At(s', i) == At(s, i) && LoaderInv(s, At(s, l.i));
      }
    }
    assert !l.Write? && !l.Unlink? ==> LoaderInv(s, At(s, l.i));
  }

  /** Any number of threads, whose loads do not overlap. */
  lemma {:induction false} RunInv(n: nat, labels: seq<Label>)
    requires Run(n, labels).Some? && LoadsApart(n, labels)
    ensures Inv(Run(n, labels).value)
  {
    if labels != [] {
      var init := labels[..|labels| - 1];
      forall k | 0 <= k <= |init| ensures init[..k] == labels[..k] {
      }
      RunInv(n, init);
      assert AtMostOneLoads(Run(n, labels[..|init|]).value);
      StepInv(n, Run(n, init).value, labels[|labels| - 1]);
    }
  }

  /** The cache is fresh in every run in which the loads do not overlap, as under a lock. */
  lemma ApartIsFresh(n: nat, labels: seq<Label>)
    requires Run(n, labels).Some? && LoadsApart(n, labels)
    ensures Fresh(Run(n, labels).value)
  {
    RunInv(n, labels);
  }

  lemma {:induction false} OnlyThese(n: nat, labels: seq<Label>)
    requires Run(n, labels).Some?
    ensures forall i: Tid | i >= n :: At(Run(n, labels).value, i) == Idle
  {
    if labels != [] {
      OnlyThese(n, labels[..|labels| - 1]);
      var s, l := Run(n, labels[..|labels| - 1]).value, labels[|labels| - 1];
      forall i: Tid | i >= n ensures At(Next(n, s, l), i) == At(s, i) {
      }
    }
  }

  lemma {:induction false} FewerThreads(n: nat, m: nat, labels: seq<Label>)
    requires n <= m && Run(n, labels).Some?
    ensures Run(m, labels) == Run(n, labels)
  {
    if labels != [] {
      FewerThreads(n, m, labels[..|labels| - 1]);
    }
  }

  ghost predicate NobodyLoads(s: State) {
    forall i: Tid :: At(s, i) == Idle
  }

  lemma Then(labels: seq<Label>, s: State, l: Label) returns (longer: seq<Label>, s': State)
    requires Run(2, labels) == Some(s) && Enabled(2, s, l)
    ensures s' == Next(2, s, l) && Run(2, longer) == Some(s')
  {
    longer, s' := labels + [l], Next(2, s, l);
    assert longer[..|longer| - 1] == labels;
  }

  /** Two threads have each read a version of the file, and assigned nothing. */
  lemma BothRead(oldTable: Table, newTable: Table) returns (labels: seq<Label>, s: State)
    requires oldTable != [] && newTable != []
    ensures Run(2, labels) == Some(s) && s.file == Some(File(2, newTable)) && s.time == None
    ensures At(s, 0) == HasRead(1, Entries(oldTable)) && At(s, 1) == HasRead(2, Entries(newTable))
  {
    labels, s := [], INIT;
    labels, s := Then(labels, s, Write(1, oldTable));
    labels, s := Then(labels, s, NewTime(0));
    labels, s := Then(labels, s, ReadFile(0));
    labels, s := Then(labels, s, Write(2, newTable));
    labels, s := Then(labels, s, NewTime(1));
    labels, s := Then(labels, s, ReadFile(1));
  }

  lemma BothTimes(labels: seq<Label>, s: State) returns (longer: seq<Label>, s': State)
    requires Run(2, labels) == Some(s) && At(s, 0) == Assigned(1) && At(s, 1) == Assigned(2)
    ensures Run(2, longer) == Some(s') && s'.file == s.file
    ensures s'.time == Some(2) && s'.content == s.content && NobodyLoads(s')
  {
    longer, s' := Then(labels, s, AssignTime(0));
    assert At(s', 0) == Idle && At(s', 1) == Assigned(2);
    longer, s' := Then(longer, s', AssignTime(1));
    OnlyThese(2, longer);
    assert At(s', 0) == Idle && At(s', 1) == Idle;
  }

  /** The rows of the first thread under the time of the second. */
  lemma StoreAcross(labels: seq<Label>, s: State, rows: seq<Entry>, latest: seq<Entry>)
    returns (longer: seq<Label>, s': State)
    requires Run(2, labels) == Some(s)
    requires At(s, 0) == HasRead(1, rows) && At(s, 1) == HasRead(2, latest)
    ensures Run(2, longer) == Some(s') && s'.file == s.file
    ensures s'.time == Some(2) && s'.content == rows && NobodyLoads(s')
  {
    longer, s' := Then(labels, s, AssignContent(1));
    assert At(s', 0) == HasRead(1, rows) && At(s', 1) == Assigned(2);
    longer, s' := Then(longer, s', AssignContent(0));
    assert At(s', 0) == Assigned(1) && At(s', 1) == Assigned(2) && s'.content == rows;
    longer, s' := BothTimes(longer, s');
  }

  /** Two threads, each with a version of the file, that store their rows and their times in opposite orders. */
  lemma TwoLoadersGoStale(oldTable: Table, newTable: Table) returns (labels: seq<Label>)
    requires oldTable != [] && newTable != [] && Entries(oldTable) != Entries(newTable)
    ensures Run(2, labels).Some? && UpToDate(Run(2, labels).value) && !CurrentRows(Run(2, labels).value)
    ensures Run(2, labels).value.content == Entries(oldTable) && NobodyLoads(Run(2, labels).value)
  {
    var s;
    labels, s := BothRead(oldTable, newTable);
    labels, s := StoreAcross(labels, s, Entries(oldTable), Entries(newTable));
  }

  /** The writer does not touch the file. */
  predicate LeavesFile(labels: seq<Label>) {
    forall k | 0 <= k < |labels| :: !labels[k].Write? && !labels[k].Unlink?
  }

  lemma StepKeepsRows(n: nat, s: State, l: Label)
    requires Enabled(n, s, l) && UpToDate(s) && NobodyLoads(s) && !l.Write? && !l.Unlink?
    ensures Next(n, s, l) == s
  {
    assert !l.StatFails? && !l.SameTime? ==> At(s, l.i) == Idle;
  }

  /**
   Once the recorded time is the file's and no thread is loading, the rows stay what they are, right or wrong,
   in every continuation and for any number of threads, until the file changes.
   */
  lemma {:induction false} RowsStay(n: nat, labels: seq<Label>, more: seq<Label>)
    requires Run(n, labels).Some? && UpToDate(Run(n, labels).value) && NobodyLoads(Run(n, labels).value)
    requires Run(n, labels + more).Some? && LeavesFile(more)
    ensures var s, later := Run(n, labels).value, Run(n, labels + more).value;
      && later.file == s.file && later.time == s.time && later.content == s.content && NobodyLoads(later)
  {
    if more == [] {
      assert labels + more == labels;
    } else {
      var init, l := more[..|more| - 1], more[|more| - 1];
      assert (labels + more)[..|labels + more| - 1] == labels + init;
      RowsStay(n, labels, init);
      StepKeepsRows(n, Run(n, labels + init).value, l);
    }
  }

  /** So two overlapping loads can leave the old rows for good: no number of later loads brings the new ones. */
  lemma StaleForGood(n: nat, oldTable: Table, newTable: Table) returns (labels: seq<Label>)
    requires n >= 2 && oldTable != [] && newTable != [] && Entries(oldTable) != Entries(newTable)
    ensures Run(n, labels).Some?
    ensures forall more | Run(n, labels + more).Some? && LeavesFile(more) ::
      var s := Run(n, labels + more).value;
      UpToDate(s) && !CurrentRows(s) && s.content == Entries(oldTable)
  {
    labels := TwoLoadersGoStale(oldTable, newTable);
    FewerThreads(2, n, labels);
    forall more | Run(n, labels + more).Some? && LeavesFile(more)
      ensures var s := Run(n, labels + more).value;
        UpToDate(s) && !CurrentRows(s) && s.content == Entries(oldTable)
    {
      RowsStay(n, labels, more);
    }
  }

  /** The cache is fresh whatever the schedule exactly when there is at most one thread to load the file. */
  lemma FreshIffOneLoader(n: nat)
    ensures AlwaysFresh(n) <==> n <= 1
  {
    if n <= 1 {
      forall labels | Run(n, labels).Some? ensures Fresh(Run(n, labels).value) {
        forall k | 0 <= k <= |labels| && Run(n, labels[..k]).Some? ensures AtMostOneLoads(Run(n, labels[..k]).value) {
          OnlyThese(n, labels[..k]);
        }
        ApartIsFresh(n, labels);
      }
    } else {
      var header := ["name"];
      assert |Entries([header])| != |Entries([header, header])|;
      var labels := TwoLoadersGoStale([header], [header, header]);
      FewerThreads(2, n, labels);
      assert !Fresh(Run(n, labels).value);
    }
  }

  // ---------- What one load gives ----------

  /** A load that finds the time unchanged leaves the rows the file has at that moment. */
  lemma UnchangedTimeServesCurrentRows(n: nat, labels: seq<Label>, i: Tid)
    requires Run(n, labels).Some? && LoadsApart(n, labels)
    requires Enabled(n, Run(n, labels).value, SameTime(i))
    ensures CurrentRows(Run(n, labels).value)
  {
    RunInv(n, labels);
  }
}

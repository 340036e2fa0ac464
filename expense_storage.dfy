/** The file store (src/storage/expense_storage.py): one JSON file per expense in a data
    directory, listed, loaded and deleted by name.

    The directory is a map from file name to what json.load makes of the file: a parsed
    record, or text that is not valid JSON. iterdir() order is arbitrary, so the methods that
    enumerate the directory take the order as a parameter `listing`, which names every file
    of the directory exactly once. */
module Storage {
  import opened Exceptions
  import opened Calendar
  import opened Text
  import opened Expenses

  /** What json.load reads from one file. */
  datatype Content = Parsed(record: Record) | Corrupt

  /** PurePath.suffix: from the last dot on, unless that dot is the first or the last
      character of the name. */
  function PathSuffix(name: string): (r: string)
    ensures r == [] || (r[0] == '.' && EndsWith(name, r) && |r| < |name|)
  {
    var i := LastIndexOf(name, '.');
    if 0 < i < |name| - 1 then name[i..] else ""
  }

  /** The filter of get_all_expense_files: suffix ".json" and a name starting with "exp_". */
  predicate IsExpenseFile(name: string) {
    PathSuffix(name) == ".json" && StartsWith(name, "exp_")
  }

  /** The suffix test amounts to the name ending in ".json": the "exp_" prefix keeps the dot
      of ".json" away from the start of the name, and "json" holds no dot. */
  lemma ExpenseFileFilter(name: string)
    ensures IsExpenseFile(name) <==> StartsWith(name, "exp_") && EndsWith(name, ".json")
  {
    if StartsWith(name, "exp_") && EndsWith(name, ".json") {
      var n := |name|;
      assert name[n - 5..] == ".json";
      assert name[n - 5] == '.';
      var i := LastIndexOf(name, '.');
      assert name[n - 4] == 'j' && name[n - 3] == 's' && name[n - 2] == 'o' && name[n - 1] == 'n';
      assert i == n - 5;
    }
  }

  /** get_expense_filename: the id followed by ".json". */
  function ExpenseFilename(e: Expense): (name: string)
    ensures |name| == |e.id| + 5 && EndsWith(name, ".json") && name[..|e.id|] == e.id
  {
    e.id + ".json"
  }

  /** A saved expense is listed again exactly when its id starts with "exp_": a file saved
      under any other id is written but never loaded or deleted. */
  lemma ExpenseFilenameListed(e: Expense)
    ensures IsExpenseFile(ExpenseFilename(e)) <==> StartsWith(e.id, "exp_")
  {
    var name := ExpenseFilename(e);
    ExpenseFileFilter(name);
    if StartsWith(e.id, "exp_") {
      assert name[..4] == e.id[..4];
    }
  }

  predicate Distinct(s: seq<string>) {
    forall i, j :: 0 <= i < j < |s| ==> s[i] != s[j]
  }

  /** The rest of a duplicate-free sequence is duplicate-free and does not hold its head. */
  lemma DistinctTail(s: seq<string>)
    requires s != [] && Distinct(s)
    ensures s[0] !in s[1..] && Distinct(s[1..])
  {
    forall k | 0 <= k < |s| - 1 ensures s[1..][k] != s[0] {
      assert s[1..][k] == s[k + 1];
    }
  }

  /** A new head keeps a duplicate-free sequence duplicate-free. */
  lemma DistinctCons(x: string, s: seq<string>)
    requires x !in s && Distinct(s)
    ensures Distinct([x] + s)
  {
    forall i, j | 0 <= i < j < |s| + 1 ensures ([x] + s)[i] != ([x] + s)[j] {
      assert ([x] + s)[j] == s[j - 1];
    }
  }

  /** `listing` is an enumeration of the directory `entries`: each of its files once. */
  predicate IsListing(listing: seq<string>, entries: map<string, Content>) {
    && Distinct(listing)
    && (forall n :: n in listing ==> n in entries)
    && (forall n :: n in entries ==> n in listing)
  }

  /** get_all_expense_files: nothing when the directory does not exist, otherwise the expense
      files of the listing, in the listing's order. */
  function ExpenseFiles(dirExists: bool, listing: seq<string>): (files: seq<string>)
    ensures !dirExists ==> files == []
    ensures forall n :: n in files ==> n in listing
    ensures |files| <= |listing|
  {
    if !dirExists || listing == [] then []
    else
      var rest := ExpenseFiles(true, listing[1..]);
      if IsExpenseFile(listing[0]) then [listing[0]] + rest else rest
  }

  /** The files kept are exactly the expense files of the listing. */
  lemma {:induction false} ExpenseFilesMembers(listing: seq<string>)
    ensures forall n :: n in ExpenseFiles(true, listing) <==> n in listing && IsExpenseFile(n)
  {
    if listing != [] {
      ExpenseFilesMembers(listing[1..]);
      assert listing == [listing[0]] + listing[1..];
    }
  }

  /** A listing without repeats yields expense files without repeats. */
  lemma {:induction false} ExpenseFilesDistinct(listing: seq<string>)
    requires Distinct(listing)
    ensures Distinct(ExpenseFiles(true, listing))
  {
    if listing != [] {
      DistinctTail(listing);
      ExpenseFilesDistinct(listing[1..]);
      ExpenseFilesMembers(listing[1..]);
      var rest := ExpenseFiles(true, listing[1..]);
      if IsExpenseFile(listing[0]) {
        DistinctCons(listing[0], rest);
      }
    }
  }

  /** One name is kept exactly when it is an expense file. */
  lemma ExpenseFilesSingle(name: string)
    ensures ExpenseFiles(true, [name]) == if IsExpenseFile(name) then [name] else []
  {
    assert [name][1..] == [];
  }

  /** The filter looks at the head of a listing and goes on with the rest. */
  lemma ExpenseFilesCons(x: string, rest: seq<string>)
    ensures ExpenseFiles(true, [x] + rest)
            == (if IsExpenseFile(x) then [x] else []) + ExpenseFiles(true, rest)
  {
    assert ([x] + rest)[1..] == rest;
  }

  /** The filter keeps the listing's order: filtering a concatenation concatenates the parts. */
  lemma {:induction false} ExpenseFilesAppend(a: seq<string>, b: seq<string>)
    ensures ExpenseFiles(true, a + b) == ExpenseFiles(true, a) + ExpenseFiles(true, b)
  {
    if a == [] {
      assert a + b == b;
    } else {
      ExpenseFilesAppend(a[1..], b);
      ExpenseFilesAppendStep(a[0], a[1..], b);
      assert [a[0]] + a[1..] == a;
    }
  }

  lemma ExpenseFilesAppendStep(x: string, t: seq<string>, b: seq<string>)
    requires ExpenseFiles(true, t + b) == ExpenseFiles(true, t) + ExpenseFiles(true, b)
    ensures ExpenseFiles(true, [x] + t + b) == ExpenseFiles(true, [x] + t) + ExpenseFiles(true, b)
  {
    var h := if IsExpenseFile(x) then [x] else [];
    ConcatAssoc([x], t, b);
    ExpenseFilesCons(x, t);
    ExpenseFilesCons(x, t + b);
    ConcatAssoc(h, ExpenseFiles(true, t), ExpenseFiles(true, b));
  }

  lemma ConcatAssoc(p: seq<string>, q: seq<string>, r: seq<string>)
    ensures p + (q + r) == (p + q) + r
  {
  }

  /** Every expense file of a listing of the directory is in the directory. */
  lemma ListedFilesPresent(listing: seq<string>, entries: map<string, Content>)
    requires IsListing(listing, entries)
    ensures forall n :: n in ExpenseFiles(true, listing) ==> n in entries
  {
  }

  // ---- Loading ----

  /** What the try block of load_all_expenses does with one file. */
  datatype FileOutcome =
    | Loaded(expense: Expense)    // appended to the result
    | Skipped(cause: Exception)   // caught: a warning is printed and the loop goes on
    | Aborted(error: Exception)   // not caught: it propagates out of load_all_expenses

  /** One file: invalid JSON, a missing key and a non-positive amount are caught; a
      non-numeric amount raises a TypeError, which the except clause does not name. */
  function LoadFile(c: Content, now: Clock, suffix: Suffix): (o: FileOutcome)
    ensures o.Loaded? ==> WellFormed(o.expense)
    ensures o.Skipped? <==> c.Corrupt? || (FromDict(c.record, now, suffix).Err?
                                             && !FromDict(c.record, now, suffix).error.TypeError?)
    ensures o.Aborted? <==> c.Parsed? && FromDict(c.record, now, suffix) == Err(TypeError)
    ensures o.Loaded? ==> c.Parsed? && FromDict(c.record, now, suffix) == Ok(o.expense)
  {
    match c
    case Corrupt => Skipped(JSONDecodeError)
    case Parsed(rec) =>
      match FromDict(rec, now, suffix)
      case Ok(e) => Loaded(e)
      case Err(err) => if err.KeyError? || err.ValueError? then Skipped(err) else Aborted(err)
  }

  /** The outcome for the file `name` of the directory, `draw` giving the random suffix an id
      generated while loading it would get. */
  function Outcome(entries: map<string, Content>, name: string, now: Clock,
                   draw: string -> Suffix): FileOutcome
    requires name in entries
  {
    LoadFile(entries[name], now, draw(name))
  }

  /** The result of load_all_expenses over `files`, in order: the first uncaught error, or the
      expenses of the files that load. */
  function LoadSpec(files: seq<string>, entries: map<string, Content>, now: Clock,
                    draw: string -> Suffix): (r: Result<seq<Expense>>)
    requires forall n :: n in files ==> n in entries
    ensures r.Ok? ==> |r.value| <= |files|
    ensures r.Ok? ==> forall e :: e in r.value ==> WellFormed(e)
  {
    if files == [] then Ok([])
    else
      var prefix, last := files[..|files| - 1], files[|files| - 1];
      match LoadSpec(prefix, entries, now, draw)
      case Err(err) => Err(err)
      case Ok(es) =>
        match Outcome(entries, last, now, draw)
        case Loaded(e) => Ok(es + [e])
        case Skipped(_) => Ok(es)
        case Aborted(err) => Err(err)
  }

  /** One more file: the load over the first i + 1 files, from the load over the first i. */
  lemma LoadSpecStep(files: seq<string>, i: nat, entries: map<string, Content>, now: Clock,
                     draw: string -> Suffix, es: seq<Expense>)
    requires forall n :: n in files ==> n in entries
    requires i < |files| && LoadSpec(files[..i], entries, now, draw) == Ok(es)
    ensures var o, r := Outcome(entries, files[i], now, draw), LoadSpec(files[..i + 1], entries, now, draw);
      && (o.Loaded? ==> r == Ok(es + [o.expense]))
      && (o.Skipped? ==> r == Ok(es))
      && (o.Aborted? ==> r == Err(o.error))
  {
    assert files[..i + 1][..i] == files[..i];
  }

  /** What a load over `files` means: it fails exactly when some file raises an uncaught error,
      and otherwise returns the expenses of the files that load, each of them and nothing else. */
  lemma {:induction false} LoadSpecMeaning(files: seq<string>, entries: map<string, Content>,
                                           now: Clock, draw: string -> Suffix)
    requires forall n :: n in files ==> n in entries
    ensures var r := LoadSpec(files, entries, now, draw);
      r.Err? <==> exists n :: n in files && Outcome(entries, n, now, draw).Aborted?
    ensures var r := LoadSpec(files, entries, now, draw);
      r.Ok? ==> forall e :: e in r.value ==>
                  exists n :: n in files && Outcome(entries, n, now, draw) == Loaded(e)
    ensures var r := LoadSpec(files, entries, now, draw);
      r.Ok? ==> forall n :: n in files && Outcome(entries, n, now, draw).Loaded? ==>
                  Outcome(entries, n, now, draw).expense in r.value
  {
    if files != [] {
      var prefix, last := files[..|files| - 1], files[|files| - 1];
      assert files == prefix + [last];
      LoadSpecMeaning(prefix, entries, now, draw);
    }
  }

  /** Once a prefix of the files fails, loading the rest changes nothing: the error of the
      first aborting file is the error of the whole load. */
  lemma {:induction false} LoadSpecStopsAtError(files: seq<string>, k: nat,
                                                entries: map<string, Content>, now: Clock,
                                                draw: string -> Suffix)
    requires forall n :: n in files ==> n in entries
    requires k <= |files|
    requires LoadSpec(files[..k], entries, now, draw).Err?
    ensures LoadSpec(files, entries, now, draw) == LoadSpec(files[..k], entries, now, draw)
  {
    if k < |files| {
      var prefix := files[..|files| - 1];
      assert prefix[..k] == files[..k];
      LoadSpecStopsAtError(prefix, k, entries, now, draw);
    } else {
      assert files[..k] == files;
    }
  }

  /** The names of the directory's files that load as expenses. */
  function LoadedNames(files: seq<string>, entries: map<string, Content>, now: Clock,
                       draw: string -> Suffix): (names: set<string>)
    requires forall n :: n in files ==> n in entries
    ensures forall n :: n in names <==> n in files && Outcome(entries, n, now, draw).Loaded?
  {
    set n | n in files && Outcome(entries, n, now, draw).Loaded?
  }

  /** Each file that loads contributes exactly one expense. */
  lemma {:induction false} LoadCount(files: seq<string>, entries: map<string, Content>,
                                     now: Clock, draw: string -> Suffix)
    requires forall n :: n in files ==> n in entries
    requires Distinct(files)
    requires LoadSpec(files, entries, now, draw).Ok?
    ensures |LoadSpec(files, entries, now, draw).value| == |LoadedNames(files, entries, now, draw)|
  {
    if files != [] {
      var prefix, last := files[..|files| - 1], files[|files| - 1];
      assert files == prefix + [last];
      assert last !in prefix by {
        forall j | 0 <= j < |prefix| ensures prefix[j] != last {
          assert prefix[j] == files[j];
        }
      }
      LoadCount(prefix, entries, now, draw);
      var before := LoadedNames(prefix, entries, now, draw);
      var after := LoadedNames(files, entries, now, draw);
      if Outcome(entries, last, now, draw).Loaded? {
        assert after == before + {last};
      } else {
        assert after == before;
      }
    }
  }

  /** The expense files of a directory that load as expenses. */
  function GoodNames(entries: map<string, Content>, now: Clock, draw: string -> Suffix): (names: set<string>)
    ensures forall n :: n in names <==>
              n in entries && IsExpenseFile(n) && Outcome(entries, n, now, draw).Loaded?
  {
    set n | n in entries && IsExpenseFile(n) && Outcome(entries, n, now, draw).Loaded?
  }

  /** Whatever the order of the listing, a load that succeeds returns one expense per good file
      of the directory. */
  lemma LoadAllCount(listing: seq<string>, entries: map<string, Content>, now: Clock,
                     draw: string -> Suffix)
    requires IsListing(listing, entries)
    requires LoadSpec(ExpenseFiles(true, listing), entries, now, draw).Ok?
    ensures |LoadSpec(ExpenseFiles(true, listing), entries, now, draw).value|
            == |GoodNames(entries, now, draw)|
  {
    var files := ExpenseFiles(true, listing);
    ExpenseFilesMembers(listing);
    ExpenseFilesDistinct(listing);
    LoadCount(files, entries, now, draw);
    assert LoadedNames(files, entries, now, draw) == GoodNames(entries, now, draw);
  }

  /** Removing one file from the directory removes at most that name from the good files. */
  lemma GoodNamesRemove(entries: map<string, Content>, name: string, now: Clock,
                        draw: string -> Suffix)
    ensures GoodNames(entries - {name}, now, draw) == GoodNames(entries, now, draw) - {name}
    ensures name in GoodNames(entries, now, draw) ==>
              |GoodNames(entries - {name}, now, draw)| == |GoodNames(entries, now, draw)| - 1
  {
    var smaller := entries - {name};
    assert forall n :: n in smaller ==> Outcome(smaller, n, now, draw) == Outcome(entries, n, now, draw);
    assert GoodNames(smaller, now, draw) == GoodNames(entries, now, draw) - {name};
  }

  // ---- Deleting ----

  /** The test delete_expense applies to a parsed file: data.get("id") == expense_id. */
  predicate HasId(c: Content, id: string) {
    c.Parsed? && "id" in c.record && c.record["id"] == JString(id)
  }

  /** The index of the first of `files` whose stored "id" is `id`. */
  function FirstMatch(files: seq<string>, entries: map<string, Content>, id: string): (r: Option<nat>)
    requires forall n :: n in files ==> n in entries
    ensures r.Some? ==> r.value < |files| && HasId(entries[files[r.value]], id)
    ensures r.Some? ==> forall j :: 0 <= j < r.value ==> !HasId(entries[files[j]], id)
    ensures r.None? <==> forall j :: 0 <= j < |files| ==> !HasId(entries[files[j]], id)
  {
    if files == [] then None
    else if HasId(entries[files[0]], id) then Some(0)
    else match FirstMatch(files[1..], entries, id)
      case None => None
      case Some(k) => Some(k + 1)
  }

  lemma FirstMatchIs(files: seq<string>, entries: map<string, Content>, id: string, i: nat)
    requires forall n :: n in files ==> n in entries
    requires i < |files| && HasId(entries[files[i]], id)
    requires forall j :: 0 <= j < i ==> !HasId(entries[files[j]], id)
    ensures FirstMatch(files, entries, id) == Some(i)
  {
  }

  lemma FirstMatchNone(files: seq<string>, entries: map<string, Content>, id: string)
    requires forall n :: n in files ==> n in entries
    requires forall j :: 0 <= j < |files| ==> !HasId(entries[files[j]], id)
    ensures FirstMatch(files, entries, id) == None
  {
  }

  /** The expense directory. `entries` is the directory's current contents; the directory
      exists from construction on (ensure_data_directory). */
  class ExpenseStorage {
    const dataDir: string
    var entries: map<string, Content>

    /** ExpenseStorage(data_dir="data"): `existing` is the directory's contents if it already exists;
        mkdir(parents=True, exist_ok=True) creates it empty otherwise and leaves an existing one
        unchanged. */
    constructor (existing: Option<map<string, Content>>, dataDir: string := "data")
      ensures this.dataDir == dataDir
      ensures entries == if existing.Some? then existing.value else map[]
    {
      this.dataDir := dataDir;
      entries := if existing.Some? then existing.value else map[];
    }

    /** save_expense: writes to_dict of the expense to the file named by its id, replacing a
        file of that name, and returns the file's path. */
    method SaveExpense(e: Expense) returns (path: string)
      modifies this
      ensures entries == old(entries)[ExpenseFilename(e) := Parsed(ToDict(e))]
      ensures path == dataDir + "/" + ExpenseFilename(e)
    {
      var filename := ExpenseFilename(e);
      entries := entries[filename := Parsed(ToDict(e))];
      path := dataDir + "/" + filename;
    }

    /** load_all_expenses: the expense files in listing order; a file whose error is caught is
        skipped, any other error ends the load. The directory is not changed. */
    method LoadAllExpenses(listing: seq<string>, now: Clock, draw: string -> Suffix)
      returns (r: Result<seq<Expense>>)
      requires IsListing(listing, entries)
      ensures r == LoadSpec(ExpenseFiles(true, listing), entries, now, draw)
    {
      ListedFilesPresent(listing, entries);
      r := LoadFiles(ExpenseFiles(true, listing), entries, now, draw);
    }

    /** delete_expense: removes the first expense file, in listing order, whose stored id is
        `id`, and reports whether there was one. Files that are not valid JSON are passed over. */
    method DeleteExpense(listing: seq<string>, id: string) returns (deleted: bool)
      requires IsListing(listing, entries)
      modifies this
      ensures var m := FirstMatch(ExpenseFiles(true, listing), old(entries), id);
        && deleted == m.Some?
        && entries == if m.Some? then old(entries) - {ExpenseFiles(true, listing)[m.value]}
                      else old(entries)
    {
      var files := ExpenseFiles(true, listing);
      ListedFilesPresent(listing, entries);
      var m := FindMatch(files, entries, id);
      if m.Some? {
        entries := entries - {files[m.value]};
      }
      return m.Some?;
    }
  }

  /** The loop of load_all_expenses: each file in turn, its expense appended, its caught error
      passed over, or its uncaught error returned. */
  method LoadFiles(files: seq<string>, dir: map<string, Content>, now: Clock, draw: string -> Suffix)
    returns (r: Result<seq<Expense>>)
    requires forall n :: n in files ==> n in dir
    ensures r == LoadSpec(files, dir, now, draw)
  {
    var expenses: seq<Expense> := [];
    for i := 0 to |files|
      invariant LoadSpec(files[..i], dir, now, draw) == Ok(expenses)
    {
      var o := Outcome(dir, files[i], now, draw);
      LoadSpecStep(files, i, dir, now, draw, expenses);
      match o
      case Loaded(e) =>
        expenses := expenses + [e];
      case Skipped(_) =>
      case Aborted(err) =>
        LoadSpecStopsAtError(files, i + 1, dir, now, draw);
        return Err(err);
    }
    assert files[..|files|] == files;
    return Ok(expenses);
  }

  /** The loop of delete_expense: the position of the first file whose stored id is `id`. */
  method FindMatch(files: seq<string>, dir: map<string, Content>, id: string) returns (m: Option<nat>)
    requires forall n :: n in files ==> n in dir
    ensures m == FirstMatch(files, dir, id)
  {
    var i := 0;
    while i < |files| && !HasId(dir[files[i]], id)
      invariant i <= |files|
      invariant forall j :: 0 <= j < i ==> !HasId(dir[files[j]], id)
    {
      i := i + 1;
    }
    if i == |files| {
      FirstMatchNone(files, dir, id);
      return None;
    }
    FirstMatchIs(files, dir, id, i);
    return Some(i);
  }

  // ---- Properties of the store ----

  /** An expense saved into an empty directory is loaded back, alone and unchanged, when its id
      starts with "exp_". */
  lemma SaveThenLoad(e: Expense, now: Clock, draw: string -> Suffix)
    requires WellFormed(e) && StartsWith(e.id, "exp_")
    ensures var name := ExpenseFilename(e);
      LoadSpec(ExpenseFiles(true, [name]), map[name := Parsed(ToDict(e))], now, draw) == Ok([e])
  {
    var name := ExpenseFilename(e);
    var dir := map[name := Parsed(ToDict(e))];
    ExpenseFilenameListed(e);
    assert ExpenseFiles(true, [name]) == [name];
    RoundTrip(e, now, draw(name));
    assert Outcome(dir, name, now, draw) == Loaded(e);
    assert [name][..0] == [];
    var empty: seq<Expense> := [];
    assert empty + [e] == [e];
    assert LoadSpec([name], dir, now, draw) == Ok(empty + [e]);
  }

  /** Saving an expense adds its file to the good files (when its id starts with "exp_") and
      leaves every other file of the directory as it was. */
  lemma SaveAddsGood(entries: map<string, Content>, e: Expense, now: Clock, draw: string -> Suffix)
    requires WellFormed(e) && StartsWith(e.id, "exp_")
    ensures GoodNames(entries[ExpenseFilename(e) := Parsed(ToDict(e))], now, draw)
            == GoodNames(entries, now, draw) + {ExpenseFilename(e)}
  {
    var name := ExpenseFilename(e);
    var after := entries[name := Parsed(ToDict(e))];
    ExpenseFilenameListed(e);
    RoundTrip(e, now, draw(name));
    assert Outcome(after, name, now, draw) == Loaded(e);
    assert forall n :: n in after && n != name ==> Outcome(after, n, now, draw) == Outcome(entries, n, now, draw);
    assert GoodNames(after, now, draw) == GoodNames(entries, now, draw) + {name};
  }

  /** Deleting removes a file that held the id, never any other file. */
  lemma DeleteRemovesMatch(listing: seq<string>, entries: map<string, Content>, id: string)
    requires IsListing(listing, entries)
    ensures var files := ExpenseFiles(true, listing);
      var m := FirstMatch(files, entries, id);
      m.Some? ==> files[m.value] in entries && IsExpenseFile(files[m.value])
                  && HasId(entries[files[m.value]], id)
    ensures var files := ExpenseFiles(true, listing);
      FirstMatch(files, entries, id).None? <==>
        forall n :: n in entries && IsExpenseFile(n) ==> !HasId(entries[n], id)
  {
    var files := ExpenseFiles(true, listing);
    ExpenseFilesMembers(listing);
    var m := FirstMatch(files, entries, id);
    if m.Some? {
      assert files[m.value] in files;
    }
    if m.None? {
      forall n | n in entries && IsExpenseFile(n) ensures !HasId(entries[n], id) {
        var j :| 0 <= j < |files| && files[j] == n;
      }
    }
  }

  /** Deleting a file that loads removes exactly one expense from what the store loads. */
  lemma DeleteGoodFile(entries: map<string, Content>, name: string, now: Clock, draw: string -> Suffix)
    requires name in GoodNames(entries, now, draw)
    ensures |GoodNames(entries - {name}, now, draw)| == |GoodNames(entries, now, draw)| - 1
  {
    GoodNamesRemove(entries, name, now, draw);
  }

  /** Saving an expense, loading, deleting it by id and loading again: the first load returns
      the expense, the deletion succeeds and the second load returns nothing. */
  method SaveLoadDelete(dataDir: string, e: Expense, now: Clock, draw: string -> Suffix)
    returns (first: Result<seq<Expense>>, deleted: bool, second: Result<seq<Expense>>)
    requires WellFormed(e) && StartsWith(e.id, "exp_")
    ensures first == Ok([e]) && deleted && second == Ok([])
  {
    var store := new ExpenseStorage(None, dataDir);
    var path := store.SaveExpense(e);
    var name := ExpenseFilename(e);
    assert store.entries == map[name := Parsed(ToDict(e))];
    SaveThenLoad(e, now, draw);
    first := store.LoadAllExpenses([name], now, draw);
    ExpenseFilenameListed(e);
    assert ExpenseFiles(true, [name]) == [name];
    deleted := store.DeleteExpense([name], e.id);
    assert store.entries == map[];
    second := store.LoadAllExpenses([], now, draw);
  }

  /** One name at a time: a file is kept by get_all_expense_files exactly when it is listed
      and is an expense file. */
  lemma ExpenseFileKept(listing: seq<string>, n: string)
    ensures n in ExpenseFiles(true, listing) <==> n in listing && IsExpenseFile(n)
  {
    ExpenseFilesMembers(listing);
  }

  /** A load in which one file loads and every other file is skipped returns that file's
      expense alone. */
  lemma LoadOne(files: seq<string>, entries: map<string, Content>, name: string, e: Expense,
                now: Clock, draw: string -> Suffix)
    requires forall n :: n in files ==> n in entries
    requires Distinct(files) && name in files && Outcome(entries, name, now, draw) == Loaded(e)
    requires forall n :: n in files && n != name ==> Outcome(entries, n, now, draw).Skipped?
    ensures LoadSpec(files, entries, now, draw) == Ok([e])
  {
    var r := LoadSpec(files, entries, now, draw);
    assert r.Ok? && |r.value| == 1 by {
      LoadSpecMeaning(files, entries, now, draw);
      assert LoadedNames(files, entries, now, draw) == {name};
      LoadCount(files, entries, now, draw);
    }
    assert r.value[0] == e by {
      LoadSpecMeaning(files, entries, now, draw);
      assert r.value[0] in r.value;
      var n :| n in files && Outcome(entries, n, now, draw) == Loaded(r.value[0]);
      assert n == name;
    }
    assert r.value == [r.value[0]];
  }

  /** A directory holding one saved expense besides files that are not valid JSON or lack a
      required key loads that expense alone, whatever the listing order. */
  lemma LoadSkipsBadFiles(entries: map<string, Content>, listing: seq<string>, e: Expense,
                          now: Clock, draw: string -> Suffix)
    requires IsListing(listing, entries)
    requires WellFormed(e) && StartsWith(e.id, "exp_")
    requires ExpenseFilename(e) in entries && entries[ExpenseFilename(e)] == Parsed(ToDict(e))
    requires forall n :: n in entries && n != ExpenseFilename(e) ==>
               entries[n].Corrupt? || !(RequiredKeys <= entries[n].record.Keys)
    ensures LoadSpec(ExpenseFiles(true, listing), entries, now, draw) == Ok([e])
  {
    var name, files := ExpenseFilename(e), ExpenseFiles(true, listing);
    assert name in files by {
      ExpenseFilenameListed(e);
      ExpenseFileKept(listing, name);
    }
    assert Outcome(entries, name, now, draw) == Loaded(e) by {
      RoundTrip(e, now, draw(name));
    }
    assert forall n :: n in files && n != name ==> Outcome(entries, n, now, draw).Skipped? by {
      forall n | n in files && n != name ensures Outcome(entries, n, now, draw).Skipped? {
        if entries[n].Parsed? {
          FromDictFailures(entries[n].record, now, draw(n));
        }
      }
    }
    ExpenseFilesDistinct(listing);
    LoadOne(files, entries, name, e, now, draw);
  }

  /** Expenses saved under different ids land in different files. */
  lemma FilenameInjective(a: Expense, b: Expense)
    requires a.id != b.id
    ensures ExpenseFilename(a) != ExpenseFilename(b)
  {
    if |a.id| == |b.id| {
      assert ExpenseFilename(a)[..|a.id|] == a.id;
    }
  }

  /** Saving an expense into any directory: a later load that succeeds returns the saved
      expense among one expense per good file, the saved file now being one of them. */
  lemma LoadAfterSave(entries: map<string, Content>, e: Expense, listing: seq<string>,
                      now: Clock, draw: string -> Suffix)
    requires WellFormed(e) && StartsWith(e.id, "exp_")
    requires IsListing(listing, entries[ExpenseFilename(e) := Parsed(ToDict(e))])
    requires LoadSpec(ExpenseFiles(true, listing), entries[ExpenseFilename(e) := Parsed(ToDict(e))],
                      now, draw).Ok?
    ensures var r := LoadSpec(ExpenseFiles(true, listing),
                              entries[ExpenseFilename(e) := Parsed(ToDict(e))], now, draw);
      && e in r.value
      && |r.value| == |GoodNames(entries, now, draw) + {ExpenseFilename(e)}|
  {
    var name, after := ExpenseFilename(e), entries[ExpenseFilename(e) := Parsed(ToDict(e))];
    var files := ExpenseFiles(true, listing);
    assert name in files by {
      ExpenseFilenameListed(e);
      ExpenseFileKept(listing, name);
    }
    assert Outcome(after, name, now, draw) == Loaded(e) by {
      RoundTrip(e, now, draw(name));
    }
    LoadSpecMeaning(files, after, now, draw);
    LoadAllCount(listing, after, now, draw);
    SaveAddsGood(entries, e, now, draw);
  }

  /** Names the filter keeps or drops: the test is case-sensitive and looks only at the last
      suffix. */
  lemma FilterEdgeCases()
    ensures IsExpenseFile("exp_.json")
    ensures !IsExpenseFile("exp_1.json.bak")
    ensures !IsExpenseFile("exp_1.JSON")
    ensures !IsExpenseFile("Exp_1.json")
  {
    assert IsExpenseFile("exp_.json") by {
      var n := "exp_.json";
      assert n[..4] == "exp_" && n[|n| - 5..] == ".json";
      ExpenseFileFilter(n);
    }
    assert !IsExpenseFile("exp_1.json.bak") by {
      ExpenseFileFilter("exp_1.json.bak");
      assert "exp_1.json.bak"[9..][4] != ".json"[4];
    }
    assert !IsExpenseFile("exp_1.JSON") by {
      ExpenseFileFilter("exp_1.JSON");
      assert "exp_1.JSON"[5..][1] != ".json"[1];
    }
    assert "Exp_1.json"[..4][0] != "exp_"[0];
  }

  /** delete_expense matches the id stored inside a file, not the file's name, and passes over
      files that are not valid JSON. */
  lemma DeleteByStoredId()
    ensures FirstMatch(["exp_b.json", "exp_a.json"],
                       map["exp_a.json" := Parsed(map["id" := JString("exp_b")]),
                           "exp_b.json" := Corrupt], "exp_b") == Some(1)
  {
  }

  /** A second store opened on the directory the first one saved into loads what was saved. */
  method Persistence(dataDir: string, e: Expense, now: Clock, draw: string -> Suffix)
    returns (r: Result<seq<Expense>>)
    requires WellFormed(e) && StartsWith(e.id, "exp_")
    ensures r == Ok([e])
  {
    var first := new ExpenseStorage(None, dataDir);
    var _ := first.SaveExpense(e);
    var second := new ExpenseStorage(Some(first.entries), dataDir);
    var name := ExpenseFilename(e);
    SaveThenLoad(e, now, draw);
    r := second.LoadAllExpenses([name], now, draw);
  }
}

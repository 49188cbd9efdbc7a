/** The file organiser of organizar_arquivos.py: the regular files at the top of a directory are moved,
    in listing order, into sub-folders `subpasta_1`, `subpasta_2`, ..., at most `k` files per folder.

    The filesystem is the map of the directory's own entries; `os.makedirs` and `shutil.move` raise
    when an oracle (`mkdirFails`, `moveFails`) says so or when the state makes them fail. Every call
    the loop makes is recorded, in order, in a trace. */
module Organizer {
  import opened Optional
  import Seqs

  /** What a directory entry is: a regular file (`os.path.isfile` holds), a directory with the names
      it holds, or anything else. */
  datatype Node = File | Dir(children: set<string>) | Other

  /** One filesystem call made by the loop, with its outcome. */
  datatype Event =
    | MakeDirsCall(dir: string, ok: bool)
    | MoveCall(name: string, dir: string, ok: bool)

  /** Which of the early returns, if any, the run took; `DivisionByZero` is the `ZeroDivisionError` that
      `num_files / files_per_folder` (line 40) raises, uncaught, when `files_per_folder` is 0. */
  datatype Outcome = NotADirectory | ListingFailed | NothingToDo | DivisionByZero | Organized

  /** The loop's variables (`file_count`, `folder_index`, `current_target_dir`) with the directory and the trace. */
  datatype State = State(entries: map<string, Node>, fileCount: nat, folderIndex: nat, target: string, trace: seq<Event>)

  /** The result of a whole run: how it ended, the entries afterwards, and the calls it made. */
  datatype Report = Report(outcome: Outcome, entries: map<string, Node>, trace: seq<Event>)

  // ---------------------------------------------------------------------------------------------
  // Folder names

  function Digit(d: nat): char
    requires d < 10
  {
    "0123456789"[d]
  }

  /** The decimal text of `n`, as Python's f-string writes it. */
  function Decimal(n: nat): (s: string)
    ensures |s| >= 1
    ensures n >= 10 ==> |s| >= 2
    decreases n
  {
    if n < 10 then [Digit(n)] else Decimal(n / 10) + [Digit(n % 10)]
  }

  /** Different numbers have different decimal texts. */
  lemma {:induction false} DecimalInjective(a: nat, b: nat)
    requires Decimal(a) == Decimal(b)
    ensures a == b
    decreases a
  {
    if a >= 10 && b >= 10 {
      var da, db := Decimal(a), Decimal(b);
      assert da[|da| - 1] == db[|db| - 1];
      assert Digit(a % 10) == Digit(b % 10);
      assert da[..|da| - 1] == Decimal(a / 10);
      assert db[..|db| - 1] == Decimal(b / 10);
      DecimalInjective(a / 10, b / 10);
    }
  }

  /** The name of the `index`-th sub-folder (`f"subpasta_{folder_index}"`). */
  function FolderName(index: nat): string
  {
    "subpasta_" + Decimal(index)
  }

  /** Different indices name different folders. */
  lemma FolderNameInjective(a: nat, b: nat)
    ensures FolderName(a) == FolderName(b) ==> a == b
  {
    if FolderName(a) == FolderName(b) {
      assert Decimal(a) == FolderName(a)[9..];
      assert Decimal(b) == FolderName(b)[9..];
      DecimalInjective(a, b);
    }
  }

  // ---------------------------------------------------------------------------------------------
  // The listing and its filter

  /** The names are pairwise distinct. */
  predicate Distinct(names: seq<string>)
  {
    forall i, j :: 0 <= i < j < |names| ==> names[i] != names[j]
  }

  /** `os.listdir` lists each entry of the directory exactly once, in some order. */
  predicate IsListingOf(listing: seq<string>, entries: map<string, Node>)
  {
    Distinct(listing) &&
    (forall n :: n in listing ==> n in entries) &&
    (forall n :: n in entries ==> n in listing)
  }

  predicate IsFile(entries: map<string, Node>, name: string)
  {
    name in entries && entries[name] == File
  }

  /** The list comprehension that keeps the listed names that are regular files, in listing order. */
  function Candidates(listing: seq<string>, entries: map<string, Node>): (files: seq<string>)
    ensures forall n :: n in files <==> n in listing && IsFile(entries, n)
    ensures |files| <= |listing|
    ensures Distinct(listing) ==> Distinct(files)
  {
    if listing == [] then []
    else
      var rest := Candidates(listing[1..], entries);
      assert forall n :: n in listing[1..] ==> n in listing;
      if IsFile(entries, listing[0]) then
        assert Distinct(listing) ==> listing[0] !in listing[1..];
        [listing[0]] + rest
      else rest
  }

  // ---------------------------------------------------------------------------------------------
  // The two filesystem calls

  /** `os.makedirs(dir, exist_ok=True)` raises when the environment makes it fail, and also when
      a non-directory of that name exists. */
  predicate MakeDirsSucceeds(entries: map<string, Node>, dir: string, oracleOk: bool)
  {
    oracleOk && (dir !in entries || entries[dir].Dir?)
  }

  /** The entries after a successful `os.makedirs`: an existing folder is left as it is. */
  function AfterMakeDirs(entries: map<string, Node>, dir: string): map<string, Node>
  {
    if dir in entries then entries else entries[dir := Dir({})]
  }

  /** `shutil.move(name, dir/name)` needs the file and the destination folder to exist,
      and can still fail for reasons of the environment. */
  predicate MoveSucceeds(entries: map<string, Node>, name: string, dir: string, oracleOk: bool)
  {
    oracleOk && IsFile(entries, name) && dir in entries && entries[dir].Dir?
  }

  /** The entries after a successful move: the name leaves the top level and joins the folder. */
  function AfterMove(entries: map<string, Node>, name: string, dir: string): map<string, Node>
    requires dir in entries && entries[dir].Dir?
  {
    (entries - {name})[dir := Dir(entries[dir].children + {name})]
  }

  // ---------------------------------------------------------------------------------------------
  // The specification of the loop

  /** The state before the first iteration (lines 44-46). */
  function Start(entries: map<string, Node>): State
  {
    State(entries, 0, 1, "", [])
  }

  /** The move at lines 69-80: `file_count` advances only when the move succeeds. */
  function TryMove(s: State, name: string, moveFails: set<string>): State
  {
    if MoveSucceeds(s.entries, name, s.target, name !in moveFails) then
      State(AfterMove(s.entries, name, s.target), s.fileCount + 1, s.folderIndex, s.target,
            s.trace + [MoveCall(name, s.target, true)])
    else
      s.(trace := s.trace + [MoveCall(name, s.target, false)])
  }

  /** One iteration of the loop at lines 48-80 for the file `name`. */
  function Step(s: State, name: string, k: nat, mkdirFails: set<nat>, moveFails: set<string>): State
    requires k >= 1
  {
    if s.fileCount % k == 0 then
      var dir := FolderName(s.folderIndex);
      if MakeDirsSucceeds(s.entries, dir, s.folderIndex !in mkdirFails) then
        TryMove(State(AfterMakeDirs(s.entries, dir), s.fileCount, s.folderIndex + 1, dir,
                      s.trace + [MakeDirsCall(dir, true)]), name, moveFails)
      else
        State(s.entries, k, s.folderIndex + 1, dir, s.trace + [MakeDirsCall(dir, false)])
    else
      TryMove(s, name, moveFails)
  }

  /** The loop over the remaining files. */
  function Run(s: State, names: seq<string>, k: nat, mkdirFails: set<nat>, moveFails: set<string>): State
    requires k >= 1
    decreases |names|
  {
    if names == [] then s else Run(Step(s, names[0], k, mkdirFails, moveFails), names[1..], k, mkdirFails, moveFails)
  }

  /** The whole function `organizar_arquivos_em_pastas`. A `listing` of `None` stands for `os.listdir` raising. */
  function Organize(isDir: bool, entries: map<string, Node>, listing: Option<seq<string>>,
                    k: nat, mkdirFails: set<nat>, moveFails: set<string>): Report
  {
    if !isDir then Report(NotADirectory, entries, [])
    else if listing.None? then Report(ListingFailed, entries, [])
    else
      var files := Candidates(listing.value, entries);
      if files == [] then Report(NothingToDo, entries, [])
      else if k == 0 then Report(DivisionByZero, entries, [])
      else
        var s := Run(Start(entries), files, k, mkdirFails, moveFails);
        Report(Organized, s.entries, s.trace)
  }

  // ---------------------------------------------------------------------------------------------
  // Reading the trace

  /** The folders that `os.makedirs` was asked to create, in order. */
  function MakeDirsTried(trace: seq<Event>): seq<string>
  {
    if trace == [] then []
    else
      var last := trace[|trace| - 1];
      MakeDirsTried(trace[..|trace| - 1]) + (if last.MakeDirsCall? then [last.dir] else [])
  }

  /** The names successfully moved into `dir`, in order. */
  function MovedInto(trace: seq<Event>, dir: string): seq<string>
  {
    if trace == [] then []
    else
      var last := trace[|trace| - 1];
      MovedInto(trace[..|trace| - 1], dir) + (if last.MoveCall? && last.ok && last.dir == dir then [last.name] else [])
  }

  /** The names successfully moved anywhere, in order. */
  function Moved(trace: seq<Event>): seq<string>
  {
    if trace == [] then []
    else
      var last := trace[|trace| - 1];
      Moved(trace[..|trace| - 1]) + (if last.MoveCall? && last.ok then [last.name] else [])
  }

  lemma MakeDirsTriedSnoc(trace: seq<Event>, e: Event)
    ensures MakeDirsTried(trace + [e]) == MakeDirsTried(trace) + (if e.MakeDirsCall? then [e.dir] else [])
  {
    assert (trace + [e])[..|trace|] == trace;
  }

  lemma MovedIntoSnoc(trace: seq<Event>, e: Event, dir: string)
    ensures MovedInto(trace + [e], dir) == MovedInto(trace, dir) + (if e.MoveCall? && e.ok && e.dir == dir then [e.name] else [])
  {
    assert (trace + [e])[..|trace|] == trace;
  }

  lemma MovedSnoc(trace: seq<Event>, e: Event)
    ensures Moved(trace + [e]) == Moved(trace) + (if e.MoveCall? && e.ok then [e.name] else [])
  {
    assert (trace + [e])[..|trace|] == trace;
  }

  /** A call other than a successful move into `dir` leaves `MovedInto(_, dir)` as it was. */
  lemma MovedIntoOthers(trace: seq<Event>, e: Event)
    requires !(e.MoveCall? && e.ok)
    ensures forall dir :: MovedInto(trace + [e], dir) == MovedInto(trace, dir)
  {
    forall dir ensures MovedInto(trace + [e], dir) == MovedInto(trace, dir) {
      MovedIntoSnoc(trace, e, dir);
    }
  }

  /** A successful move into `e.dir` changes `MovedInto` for that folder only. */
  lemma MovedIntoMove(trace: seq<Event>, e: Event)
    requires e.MoveCall? && e.ok
    ensures MovedInto(trace + [e], e.dir) == MovedInto(trace, e.dir) + [e.name]
    ensures forall dir :: dir != e.dir ==> MovedInto(trace + [e], dir) == MovedInto(trace, dir)
  {
    forall dir ensures MovedInto(trace + [e], dir) == MovedInto(trace, dir) + (if dir == e.dir then [e.name] else []) {
      MovedIntoSnoc(trace, e, dir);
    }
  }

  // ---------------------------------------------------------------------------------------------
  // Arithmetic on batch boundaries

  lemma {:induction false} MulAtLeast(k: int, d: int)
    requires k >= 1 && d >= 1
    ensures k * d >= k
    decreases d
  {
    if d > 1 {
      MulAtLeast(k, d - 1);
      assert k * d == k * (d - 1) + k;
    }
  }

  /** Quotient and remainder are the only pair with `a == k * q + r` and `0 <= r < k`. */
  lemma DivModUnique(a: int, k: int, q: int, r: int)
    requires k >= 1 && a == k * q + r && 0 <= r < k
    ensures a / k == q && a % k == r
  {
    var q', r' := a / k, a % k;
    assert a == k * q' + r' && 0 <= r' < k;
    if q' > q {
      assert k * q' - k * q == k * (q' - q);
      MulAtLeast(k, q' - q);
      assert false;
    } else if q' < q {
      assert k * q - k * q' == k * (q - q');
      MulAtLeast(k, q - q');
      assert false;
    }
  }

  /** How `file_count % k` and `file_count / k` move when `file_count` grows by one. */
  lemma ModSucc(a: nat, k: nat)
    requires k >= 1
    ensures (a + 1) % k == if a % k == k - 1 then 0 else a % k + 1
    ensures (a + 1) / k == if a % k == k - 1 then a / k + 1 else a / k
  {
    var q, r := a / k, a % k;
    assert a == k * q + r;
    if r == k - 1 {
      assert a + 1 == k * (q + 1) + 0;
      DivModUnique(a + 1, k, q + 1, 0);
    } else {
      DivModUnique(a + 1, k, q, r + 1);
    }
  }

  /** File `i` (0-based) belongs to batch `j` (1-based) exactly when it lies in `[(j-1)*k, j*k)`. */
  lemma BatchOfFile(i: nat, k: nat, j: nat)
    requires k >= 1 && j >= 1
    ensures i / k + 1 == j <==> (j - 1) * k <= i < j * k
  {
    assert j * k == (j - 1) * k + k;
    if i / k + 1 == j {
      assert i == k * (i / k) + i % k;
    }
    if (j - 1) * k <= i < j * k {
      DivModUnique(i, k, j - 1, i - (j - 1) * k);
    }
  }

  /** The integer ceiling of `n / k`: the number of folders `n` files need (line 40, without floats). */
  function Ceil(n: nat, k: nat): nat
    requires k >= 1
  {
    (n + k - 1) / k
  }

  lemma CeilSucc(n: nat, k: nat)
    requires k >= 1
    ensures Ceil(n + 1, k) == if n % k == 0 then Ceil(n, k) + 1 else Ceil(n, k)
  {
    var q, r := n / k, n % k;
    assert n == k * q + r;
    if r == 0 {
      DivModUnique(n + k - 1, k, q, k - 1);
      assert n + 1 + k - 1 == k * (q + 1) + 0;
      DivModUnique(n + k, k, q + 1, 0);
    } else {
      assert n + k - 1 == k * (q + 1) + (r - 1);
      DivModUnique(n + k - 1, k, q + 1, r - 1);
      assert n + k == k * (q + 1) + r;
      DivModUnique(n + k, k, q + 1, r);
    }
  }

  lemma CeilBounds(n: nat, k: nat)
    requires k >= 1 && n >= 1
    ensures Ceil(n, k) >= 1
    ensures (Ceil(n, k) - 1) * k < n <= Ceil(n, k) * k
  {
    var f := Ceil(n, k);
    assert n + k - 1 == k * f + (n + k - 1) % k;
    assert (f - 1) * k == f * k - k;
  }

  lemma MulMonotone(a: nat, b: nat, k: nat)
    requires a <= b
    ensures a * k <= b * k
  {
    assert b * k == a * k + (b - a) * k;
  }

  lemma {:induction false} MakeDirsTriedAppend(a: seq<Event>, b: seq<Event>)
    ensures MakeDirsTried(a + b) == MakeDirsTried(a) + MakeDirsTried(b)
    decreases |b|
  {
    if b == [] {
      assert a + b == a;
    } else {
      var b', e := b[..|b| - 1], b[|b| - 1];
      assert a + b == (a + b') + [e];
      assert b == b' + [e];
      MakeDirsTriedAppend(a, b');
      MakeDirsTriedSnoc(a + b', e);
      MakeDirsTriedSnoc(b', e);
    }
  }

  lemma {:induction false} MovedIntoAppend(a: seq<Event>, b: seq<Event>, dir: string)
    ensures MovedInto(a + b, dir) == MovedInto(a, dir) + MovedInto(b, dir)
    decreases |b|
  {
    if b == [] {
      assert a + b == a;
    } else {
      var b', e := b[..|b| - 1], b[|b| - 1];
      assert a + b == (a + b') + [e];
      assert b == b' + [e];
      MovedIntoAppend(a, b', dir);
      MovedIntoSnoc(a + b', e, dir);
      MovedIntoSnoc(b', e, dir);
    }
  }

  lemma {:induction false} MovedAppend(a: seq<Event>, b: seq<Event>)
    ensures Moved(a + b) == Moved(a) + Moved(b)
    decreases |b|
  {
    if b == [] {
      assert a + b == a;
    } else {
      var b', e := b[..|b| - 1], b[|b| - 1];
      assert a + b == (a + b') + [e];
      assert b == b' + [e];
      MovedAppend(a, b');
      MovedSnoc(a + b', e);
      MovedSnoc(b', e);
    }
  }

  // ---------------------------------------------------------------------------------------------
  // Properties of every run, failures included

  /** What `TryMove` does to each part of the state. */
  lemma TryMoveShape(s: State, name: string, moveFails: set<string>)
    ensures var t := TryMove(s, name, moveFails);
      var ok := MoveSucceeds(s.entries, name, s.target, name !in moveFails);
      t.trace == s.trace + [MoveCall(name, s.target, ok)] &&
      t.folderIndex == s.folderIndex && t.target == s.target &&
      t.fileCount == (if ok then s.fileCount + 1 else s.fileCount)
  {
  }

  /** Folder indices start at 1 and are tried one after the other, each once, always under the name
      `subpasta_<index>` (lines 45, 52, 62-63, 66). */
  ghost predicate FoldersTriedInOrder(s: State)
  {
    s.folderIndex >= 1 &&
    |MakeDirsTried(s.trace)| == s.folderIndex - 1 &&
    forall j :: 0 <= j < |MakeDirsTried(s.trace)| ==> MakeDirsTried(s.trace)[j] == FolderName(j + 1)
  }

  lemma TryMoveKeepsFolderOrder(s: State, name: string, moveFails: set<string>)
    requires FoldersTriedInOrder(s)
    ensures FoldersTriedInOrder(TryMove(s, name, moveFails))
    ensures TryMove(s, name, moveFails).folderIndex == s.folderIndex
  {
    TryMoveShape(s, name, moveFails);
    MakeDirsTriedSnoc(s.trace, MoveCall(name, s.target, MoveSucceeds(s.entries, name, s.target, name !in moveFails)));
  }

  lemma StepKeepsFolderOrder(s: State, name: string, k: nat, mkdirFails: set<nat>, moveFails: set<string>)
    requires k >= 1 && FoldersTriedInOrder(s)
    ensures FoldersTriedInOrder(Step(s, name, k, mkdirFails, moveFails))
    ensures Step(s, name, k, mkdirFails, moveFails).folderIndex == s.folderIndex + (if s.fileCount % k == 0 then 1 else 0)
  {
    if s.fileCount % k == 0 {
      var dir := FolderName(s.folderIndex);
      var ok := MakeDirsSucceeds(s.entries, dir, s.folderIndex !in mkdirFails);
      var s1 := State(if ok then AfterMakeDirs(s.entries, dir) else s.entries, if ok then s.fileCount else k,
                      s.folderIndex + 1, dir, s.trace + [MakeDirsCall(dir, ok)]);
      MakeDirsTriedSnoc(s.trace, MakeDirsCall(dir, ok));
      assert FoldersTriedInOrder(s1);
      if ok {
        TryMoveKeepsFolderOrder(s1, name, moveFails);
        assert Step(s, name, k, mkdirFails, moveFails) == TryMove(s1, name, moveFails);
      } else {
        assert Step(s, name, k, mkdirFails, moveFails) == s1;
      }
    } else {
      TryMoveKeepsFolderOrder(s, name, moveFails);
    }
  }

  lemma {:induction false} RunKeepsFolderOrder(s: State, names: seq<string>, k: nat, mkdirFails: set<nat>, moveFails: set<string>)
    requires k >= 1 && FoldersTriedInOrder(s)
    ensures FoldersTriedInOrder(Run(s, names, k, mkdirFails, moveFails))
    ensures Run(s, names, k, mkdirFails, moveFails).folderIndex >= s.folderIndex
    decreases |names|
  {
    if names != [] {
      StepKeepsFolderOrder(s, names[0], k, mkdirFails, moveFails);
      RunKeepsFolderOrder(Step(s, names[0], k, mkdirFails, moveFails), names[1..], k, mkdirFails, moveFails);
    }
  }

  /** The folders a run tries are `subpasta_1`, `subpasta_2`, ... in this order, no index twice;
      a run that gets past the early returns tries at least one. */
  lemma FoldersTriedConsecutively(isDir: bool, entries: map<string, Node>, listing: Option<seq<string>>,
                                  k: nat, mkdirFails: set<nat>, moveFails: set<string>)
    ensures var r := Organize(isDir, entries, listing, k, mkdirFails, moveFails);
      var tried := MakeDirsTried(r.trace);
      (forall j :: 0 <= j < |tried| ==> tried[j] == FolderName(j + 1)) && Distinct(tried) &&
      (r.outcome == Organized ==> |tried| >= 1)
  {
    var r := Organize(isDir, entries, listing, k, mkdirFails, moveFails);
    if r.outcome == Organized {
      RunTriesFolders(entries, Candidates(listing.value, entries), k, mkdirFails, moveFails);
    }
    ConsecutiveFoldersDistinct(MakeDirsTried(r.trace));
  }

  /** A run over at least one file tries `subpasta_1`, `subpasta_2`, ... one after the other. */
  lemma RunTriesFolders(entries: map<string, Node>, files: seq<string>, k: nat, mkdirFails: set<nat>, moveFails: set<string>)
    requires k >= 1 && files != []
    ensures FoldersTriedInOrder(Run(Start(entries), files, k, mkdirFails, moveFails))
    ensures |MakeDirsTried(Run(Start(entries), files, k, mkdirFails, moveFails).trace)| >= 1
  {
    StepKeepsFolderOrder(Start(entries), files[0], k, mkdirFails, moveFails);
    var s1 := Step(Start(entries), files[0], k, mkdirFails, moveFails);
    assert s1.folderIndex == 2;
    RunKeepsFolderOrder(s1, files[1..], k, mkdirFails, moveFails);
  }

  /** Folders named after consecutive indices are all different. */
  lemma ConsecutiveFoldersDistinct(tried: seq<string>)
    requires forall j :: 0 <= j < |tried| ==> tried[j] == FolderName(j + 1)
    ensures Distinct(tried)
  {
    forall i, j | 0 <= i < j < |tried| ensures tried[i] != tried[j] {
      FolderNameInjective(i + 1, j + 1);
    }
  }

  /** What the loop keeps about how full each folder is. */
  ghost predicate CapacityKept(s: State, k: nat)
    requires k >= 1
  {
    s.folderIndex >= 1 &&
    (forall d :: |MovedInto(s.trace, d)| <= k) &&
    (|MovedInto(s.trace, s.target)| < k ==> |MovedInto(s.trace, s.target)| == s.fileCount % k) &&
    (|MovedInto(s.trace, s.target)| == k ==> s.fileCount % k == 0) &&
    (forall j: nat :: j >= s.folderIndex ==> MovedInto(s.trace, FolderName(j)) == []) &&
    (s.fileCount % k != 0 ==> s.folderIndex >= 2 && s.target == FolderName(s.folderIndex - 1))
  }

  lemma TryMoveKeepsCapacity(s: State, name: string, k: nat, moveFails: set<string>)
    requires k >= 1 && CapacityKept(s, k)
    requires s.folderIndex >= 2 && s.target == FolderName(s.folderIndex - 1)
    requires |MovedInto(s.trace, s.target)| < k
    ensures CapacityKept(TryMove(s, name, moveFails), k)
  {
    var ok := MoveSucceeds(s.entries, name, s.target, name !in moveFails);
    var e := MoveCall(name, s.target, ok);
    TryMoveShape(s, name, moveFails);
    var t := TryMove(s, name, moveFails);
    if ok {
      MovedIntoMove(s.trace, e);
      ModSucc(s.fileCount, k);
      forall j: nat | j >= t.folderIndex ensures MovedInto(t.trace, FolderName(j)) == [] {
        FolderNameInjective(j, s.folderIndex - 1);
      }
    } else {
      MovedIntoOthers(s.trace, e);
    }
  }

  lemma StepKeepsCapacity(s: State, name: string, k: nat, mkdirFails: set<nat>, moveFails: set<string>)
    requires k >= 1 && CapacityKept(s, k)
    ensures CapacityKept(Step(s, name, k, mkdirFails, moveFails), k)
  {
    if s.fileCount % k == 0 {
      var dir := FolderName(s.folderIndex);
      var ok := MakeDirsSucceeds(s.entries, dir, s.folderIndex !in mkdirFails);
      var trace := s.trace + [MakeDirsCall(dir, ok)];
      MovedIntoOthers(s.trace, MakeDirsCall(dir, ok));
      if ok {
        var s1 := State(AfterMakeDirs(s.entries, dir), s.fileCount, s.folderIndex + 1, dir, trace);
        assert Step(s, name, k, mkdirFails, moveFails) == TryMove(s1, name, moveFails);
        OpenKeepsCapacity(s, s1, k);
        TryMoveKeepsCapacity(s1, name, k, moveFails);
      } else {
        var t := State(s.entries, k, s.folderIndex + 1, dir, trace);
        assert Step(s, name, k, mkdirFails, moveFails) == t;
        OpenKeepsCapacity(s, t, k);
      }
    } else {
      assert Step(s, name, k, mkdirFails, moveFails) == TryMove(s, name, moveFails);
      TryMoveKeepsCapacity(s, name, k, moveFails);
    }
  }

  /** Trying the next folder at a batch boundary, whether or not `os.makedirs` succeeds, keeps what the
      loop knows about the folders' fill. */
  lemma OpenKeepsCapacity(s: State, s1: State, k: nat)
    requires k >= 1 && CapacityKept(s, k) && s.fileCount % k == 0
    requires forall d :: MovedInto(s1.trace, d) == MovedInto(s.trace, d)
    requires s1.fileCount == s.fileCount || s1.fileCount == k
    requires s1.folderIndex == s.folderIndex + 1 && s1.target == FolderName(s.folderIndex)
    ensures CapacityKept(s1, k)
  {
    assert k % k == 0;
    assert MovedInto(s.trace, FolderName(s.folderIndex)) == [];
  }

  lemma {:induction false} RunKeepsCapacity(s: State, names: seq<string>, k: nat, mkdirFails: set<nat>, moveFails: set<string>)
    requires k >= 1 && CapacityKept(s, k)
    ensures CapacityKept(Run(s, names, k, mkdirFails, moveFails), k)
    decreases |names|
  {
    if names != [] {
      StepKeepsCapacity(s, names[0], k, mkdirFails, moveFails);
      RunKeepsCapacity(Step(s, names[0], k, mkdirFails, moveFails), names[1..], k, mkdirFails, moveFails);
    }
  }

  /** No folder receives more than `k` files in one run, whatever fails (lines 50, 76). */
  lemma AtMostKPerFolder(isDir: bool, entries: map<string, Node>, listing: Option<seq<string>>,
                         k: nat, mkdirFails: set<nat>, moveFails: set<string>, dir: string)
    ensures |MovedInto(Organize(isDir, entries, listing, k, mkdirFails, moveFails).trace, dir)| <= k
  {
    if isDir && listing.Some? && Candidates(listing.value, entries) != [] && k >= 1 {
      RunKeepsCapacity(Start(entries), Candidates(listing.value, entries), k, mkdirFails, moveFails);
    }
  }

  lemma StepKeepsDirectory(s: State, name: string, k: nat, mkdirFails: set<nat>, moveFails: set<string>, n: string)
    requires k >= 1 && n in s.entries && s.entries[n].Dir?
    ensures var e := Step(s, name, k, mkdirFails, moveFails).entries;
      n in e && e[n].Dir? && s.entries[n].children <= e[n].children
  {
  }

  lemma {:induction false} RunKeepsDirectory(s: State, names: seq<string>, k: nat, mkdirFails: set<nat>, moveFails: set<string>, n: string)
    requires k >= 1 && n in s.entries && s.entries[n].Dir?
    ensures var e := Run(s, names, k, mkdirFails, moveFails).entries;
      n in e && e[n].Dir? && s.entries[n].children <= e[n].children
    decreases |names|
  {
    if names != [] {
      StepKeepsDirectory(s, names[0], k, mkdirFails, moveFails, n);
      RunKeepsDirectory(Step(s, names[0], k, mkdirFails, moveFails), names[1..], k, mkdirFails, moveFails, n);
    }
  }

  /** Sub-directories, `subpasta_*` folders of earlier runs included, are never moved: each stays a
      directory at the top level and loses none of its contents (lines 23-25). */
  lemma DirectoriesNeverMoved(isDir: bool, entries: map<string, Node>, listing: Option<seq<string>>,
                              k: nat, mkdirFails: set<nat>, moveFails: set<string>, n: string)
    requires n in entries && entries[n].Dir?
    ensures var e := Organize(isDir, entries, listing, k, mkdirFails, moveFails).entries;
      n in e && e[n].Dir? && entries[n].children <= e[n].children
  {
    if isDir && listing.Some? && Candidates(listing.value, entries) != [] && k >= 1 {
      RunKeepsDirectory(Start(entries), Candidates(listing.value, entries), k, mkdirFails, moveFails, n);
    }
  }

  /** The early returns (lines 15-17, 26-28, 31-34) and the division by zero (line 40): nothing is created or moved. */
  lemma EarlyReturnsTouchNothing(isDir: bool, entries: map<string, Node>, listing: Option<seq<string>>,
                                 k: nat, mkdirFails: set<nat>, moveFails: set<string>)
    ensures var r := Organize(isDir, entries, listing, k, mkdirFails, moveFails);
      (r.outcome == Organized <==> isDir && listing.Some? && Candidates(listing.value, entries) != [] && k >= 1) &&
      (r.outcome == DivisionByZero <==> isDir && listing.Some? && Candidates(listing.value, entries) != [] && k == 0) &&
      (r.outcome != Organized ==> r.entries == entries && r.trace == []) &&
      (!isDir <==> r.outcome == NotADirectory) &&
      (isDir && listing.None? <==> r.outcome == ListingFailed)
  {
  }

  // ---------------------------------------------------------------------------------------------
  // What one iteration does when something fails

  /** A failed move in the middle of a batch leaves the file where it is and `file_count` as it was,
      so the next file goes to the same folder (lines 50, 76-80). */
  lemma FailedMoveKeepsFolder(s: State, a: string, b: string, k: nat, mkdirFails: set<nat>, moveFails: set<string>)
    requires k >= 1 && s.fileCount % k != 0 && a in moveFails
    ensures var t := Step(s, a, k, mkdirFails, moveFails);
      t.entries == s.entries && t.fileCount == s.fileCount && t.target == s.target &&
      t.trace == s.trace + [MoveCall(a, s.target, false)] &&
      Step(t, b, k, mkdirFails, moveFails).trace == t.trace + [MoveCall(b, s.target, MoveSucceeds(s.entries, b, s.target, b !in moveFails))]
  {
  }

  /** When the first file of a batch fails to move, its folder stays empty and the next file opens
      the next folder (lines 50, 66, 76-80). */
  lemma FailedFirstMoveOpensNextFolder(s: State, a: string, b: string, rest: seq<string>,
                                       k: nat, mkdirFails: set<nat>, moveFails: set<string>)
    requires k >= 1 && s.fileCount % k == 0 && a in moveFails
    requires MakeDirsSucceeds(s.entries, FolderName(s.folderIndex), s.folderIndex !in mkdirFails)
    ensures var t := Step(s, a, k, mkdirFails, moveFails);
      t.fileCount == s.fileCount && t.folderIndex == s.folderIndex + 1 && IsFile(t.entries, a) == IsFile(s.entries, a) &&
      t.trace == s.trace + [MakeDirsCall(FolderName(s.folderIndex), true), MoveCall(a, FolderName(s.folderIndex), false)] &&
      Step(t, b, k, mkdirFails, moveFails).trace[|t.trace|] ==
        MakeDirsCall(FolderName(s.folderIndex + 1), MakeDirsSucceeds(t.entries, FolderName(s.folderIndex + 1), s.folderIndex + 1 !in mkdirFails)) &&
      MovedInto(Run(t, rest, k, mkdirFails, moveFails).trace, FolderName(s.folderIndex)) == MovedInto(s.trace, FolderName(s.folderIndex))
  {
    var dir := FolderName(s.folderIndex);
    var t := Step(s, a, k, mkdirFails, moveFails);
    var s1 := State(AfterMakeDirs(s.entries, dir), s.fileCount, s.folderIndex + 1, dir, s.trace + [MakeDirsCall(dir, true)]);
    MovedIntoOthers(s.trace, MakeDirsCall(dir, true));
    MovedIntoOthers(s1.trace, MoveCall(a, dir, false));
    RunKeepsClosed(t, rest, k, mkdirFails, moveFails, s.folderIndex);
  }

  /** When a folder cannot be created, the current file is not moved, `file_count` becomes `k`, the index is
      used up, and the next file tries the next index (lines 59-64). */
  lemma FailedMakeDirsSkipsFolder(s: State, a: string, b: string, rest: seq<string>,
                                  k: nat, mkdirFails: set<nat>, moveFails: set<string>)
    requires k >= 1 && s.fileCount % k == 0
    requires !MakeDirsSucceeds(s.entries, FolderName(s.folderIndex), s.folderIndex !in mkdirFails)
    ensures var t := Step(s, a, k, mkdirFails, moveFails);
      t.entries == s.entries && t.fileCount == k && t.folderIndex == s.folderIndex + 1 &&
      t.trace == s.trace + [MakeDirsCall(FolderName(s.folderIndex), false)] &&
      Step(t, b, k, mkdirFails, moveFails).trace[|t.trace|] ==
        MakeDirsCall(FolderName(s.folderIndex + 1), MakeDirsSucceeds(s.entries, FolderName(s.folderIndex + 1), s.folderIndex + 1 !in mkdirFails)) &&
      MovedInto(Run(t, rest, k, mkdirFails, moveFails).trace, FolderName(s.folderIndex)) == MovedInto(s.trace, FolderName(s.folderIndex))
  {
    assert k % k == 0;
    var t := Step(s, a, k, mkdirFails, moveFails);
    MovedIntoOthers(s.trace, MakeDirsCall(FolderName(s.folderIndex), false));
    RunKeepsClosed(t, rest, k, mkdirFails, moveFails, s.folderIndex);
  }

  /** Folder `f` is closed: its index is used up and, unless a new batch starts with the next file,
      the loop's target is another folder. */
  ghost predicate Closed(s: State, f: nat, k: nat)
    requires k >= 1
  {
    s.folderIndex > f && (s.fileCount % k != 0 ==> s.target != FolderName(f))
  }

  /** A move aimed elsewhere leaves the target, the index and the contents of `dir` as they were. */
  lemma TryMoveElsewhere(s: State, name: string, moveFails: set<string>, dir: string)
    requires s.target != dir
    ensures var t := TryMove(s, name, moveFails);
      t.target == s.target && t.folderIndex == s.folderIndex && MovedInto(t.trace, dir) == MovedInto(s.trace, dir)
  {
    var ok := MoveSucceeds(s.entries, name, s.target, name !in moveFails);
    MovedIntoSnoc(s.trace, MoveCall(name, s.target, ok), dir);
  }

  lemma StepKeepsClosed(s: State, name: string, k: nat, mkdirFails: set<nat>, moveFails: set<string>, f: nat)
    requires k >= 1 && Closed(s, f, k)
    ensures var t := Step(s, name, k, mkdirFails, moveFails);
      Closed(t, f, k) && MovedInto(t.trace, FolderName(f)) == MovedInto(s.trace, FolderName(f))
  {
    var dir := FolderName(f);
    if s.fileCount % k == 0 {
      var target := FolderName(s.folderIndex);
      FolderNameInjective(s.folderIndex, f);
      var ok := MakeDirsSucceeds(s.entries, target, s.folderIndex !in mkdirFails);
      MovedIntoOthers(s.trace, MakeDirsCall(target, ok));
      if ok {
        var s1 := State(AfterMakeDirs(s.entries, target), s.fileCount, s.folderIndex + 1, target, s.trace + [MakeDirsCall(target, true)]);
        TryMoveElsewhere(s1, name, moveFails, dir);
      } else {
        assert k % k == 0;
      }
    } else {
      TryMoveElsewhere(s, name, moveFails, dir);
    }
  }

  /** Once a folder is closed, the rest of the run moves nothing into it. */
  lemma {:induction false} RunKeepsClosed(s: State, names: seq<string>, k: nat, mkdirFails: set<nat>, moveFails: set<string>, f: nat)
    requires k >= 1 && Closed(s, f, k)
    ensures var t := Run(s, names, k, mkdirFails, moveFails);
      Closed(t, f, k) && MovedInto(t.trace, FolderName(f)) == MovedInto(s.trace, FolderName(f))
    decreases |names|
  {
    if names != [] {
      StepKeepsClosed(s, names[0], k, mkdirFails, moveFails, f);
      RunKeepsClosed(Step(s, names[0], k, mkdirFails, moveFails), names[1..], k, mkdirFails, moveFails, f);
    }
  }

  // ---------------------------------------------------------------------------------------------
  // A run in which nothing fails

  /** The calls a run without failures makes for the `i`-th file: open its folder if it starts a batch, then move it. */
  function BatchEvents(i: nat, name: string, k: nat): seq<Event>
    requires k >= 1
  {
    (if i % k == 0 then [MakeDirsCall(FolderName(i / k + 1), true)] else []) + [MoveCall(name, FolderName(i / k + 1), true)]
  }

  /** The calls of a run without failures over `names`. */
  function IdealTrace(names: seq<string>, k: nat): seq<Event>
    requires k >= 1
  {
    if names == [] then [] else IdealTrace(names[..|names| - 1], k) + BatchEvents(|names| - 1, names[|names| - 1], k)
  }

  lemma BatchEventsRead(i: nat, name: string, k: nat, dir: string)
    requires k >= 1
    ensures MakeDirsTried(BatchEvents(i, name, k)) == (if i % k == 0 then [FolderName(i / k + 1)] else [])
    ensures Moved(BatchEvents(i, name, k)) == [name]
    ensures MovedInto(BatchEvents(i, name, k), dir) == (if dir == FolderName(i / k + 1) then [name] else [])
  {
    var folder := FolderName(i / k + 1);
    var pre: seq<Event> := if i % k == 0 then [MakeDirsCall(folder, true)] else [];
    assert BatchEvents(i, name, k) == pre + [MoveCall(name, folder, true)];
    EventsRead(pre, name, folder, dir);
  }

  /** Reading the calls an optional folder creation and one successful move leave in the trace. */
  lemma EventsRead(pre: seq<Event>, name: string, folder: string, dir: string)
    requires pre == [] || pre == [MakeDirsCall(folder, true)]
    ensures MakeDirsTried(pre + [MoveCall(name, folder, true)]) == (if pre == [] then [] else [folder])
    ensures Moved(pre + [MoveCall(name, folder, true)]) == [name]
    ensures MovedInto(pre + [MoveCall(name, folder, true)], dir) == (if dir == folder then [name] else [])
  {
    var mv := MoveCall(name, folder, true);
    if pre != [] {
      assert pre == [] + [pre[0]];
      MakeDirsTriedSnoc([], pre[0]);
      MovedSnoc([], pre[0]);
      MovedIntoSnoc([], pre[0], dir);
    }
    MakeDirsTriedSnoc(pre, mv);
    MovedSnoc(pre, mv);
    MovedIntoSnoc(pre, mv, dir);
  }

  /** No `subpasta_<j>` entry (j >= 1) is anything but a directory, so `os.makedirs` cannot hit a file. */
  ghost predicate NoFolderClash(entries: map<string, Node>)
  {
    forall j: nat :: j >= 1 && FolderName(j) in entries ==> entries[FolderName(j)].Dir?
  }

  /** `name` has left the top level and sits in the folder `dir`. */
  ghost predicate Placed(entries: map<string, Node>, name: string, dir: string)
  {
    name !in entries && dir in entries && entries[dir].Dir? && name in entries[dir].children
  }

  /** The first `i` names sit in their folders: name `j` (0-based) in `subpasta_{j div k + 1}`. */
  ghost predicate PlacedUpTo(e: map<string, Node>, names: seq<string>, i: nat, k: nat)
    requires k >= 1 && i <= |names|
  {
    forall j :: 0 <= j < i ==> Placed(e, names[j], FolderName(j / k + 1))
  }

  /** The entries after `i` files of `names` were moved without failure: those are placed, the rest wait. */
  ghost predicate IdealEntries(e: map<string, Node>, names: seq<string>, i: nat, k: nat)
    requires k >= 1 && i <= |names|
  {
    PlacedUpTo(e, names, i, k) &&
    (forall j :: i <= j < |names| ==> IsFile(e, names[j])) &&
    NoFolderClash(e)
  }

  /** The waiting files are named neither like each other nor like any `subpasta_<m>`, m >= 1. */
  ghost predicate FreshNames(names: seq<string>)
  {
    Distinct(names) && forall j, m: nat :: 0 <= j < |names| && m >= 1 ==> names[j] != FolderName(m)
  }

  /** After `i` files of `names` in a run without failures. */
  ghost predicate IdealSoFar(s: State, names: seq<string>, i: nat, k: nat)
    requires k >= 1 && i <= |names|
  {
    s.fileCount == i &&
    s.folderIndex == (if i % k == 0 then i / k + 1 else i / k + 2) &&
    (i % k != 0 ==> s.target == FolderName(i / k + 1) && FolderName(i / k + 1) in s.entries && s.entries[FolderName(i / k + 1)].Dir?) &&
    s.trace == IdealTrace(names[..i], k) &&
    IdealEntries(s.entries, names, i, k)
  }

  lemma OpenIdeal(e: map<string, Node>, names: seq<string>, i: nat, k: nat)
    requires k >= 1 && i < |names| && FreshNames(names) && IdealEntries(e, names, i, k)
    ensures MakeDirsSucceeds(e, FolderName(i / k + 1), true)
    ensures var e1 := AfterMakeDirs(e, FolderName(i / k + 1));
      FolderName(i / k + 1) in e1 && e1[FolderName(i / k + 1)].Dir? && IdealEntries(e1, names, i, k)
  {
    var dir := FolderName(i / k + 1);
    OpenKeepsPlaced(e, names, i, k, dir);
    OpenKeepsWaiting(e, names, i, k, dir);
    OpenKeepsNoClash(e, dir);
  }

  lemma OpenKeepsPlaced(e: map<string, Node>, names: seq<string>, i: nat, k: nat, dir: string)
    requires k >= 1 && i <= |names| && PlacedUpTo(e, names, i, k)
    requires forall j :: 0 <= j < |names| ==> names[j] != dir
    ensures PlacedUpTo(AfterMakeDirs(e, dir), names, i, k)
  {
    var e1 := AfterMakeDirs(e, dir);
    forall j | 0 <= j < i ensures Placed(e1, names[j], FolderName(j / k + 1)) {
      assert names[j] != dir;
      assert Placed(e, names[j], FolderName(j / k + 1));
    }
  }

  lemma OpenKeepsWaiting(e: map<string, Node>, names: seq<string>, i: nat, k: nat, dir: string)
    requires i <= |names| && forall j :: i <= j < |names| ==> IsFile(e, names[j])
    requires forall j :: 0 <= j < |names| ==> names[j] != dir
    ensures forall j :: i <= j < |names| ==> IsFile(AfterMakeDirs(e, dir), names[j])
  {
    forall j | i <= j < |names| ensures IsFile(AfterMakeDirs(e, dir), names[j]) {
      assert names[j] != dir;
    }
  }

  lemma OpenKeepsNoClash(e: map<string, Node>, dir: string)
    requires NoFolderClash(e)
    ensures NoFolderClash(AfterMakeDirs(e, dir))
    ensures dir in AfterMakeDirs(e, dir)
  {
    var e1 := AfterMakeDirs(e, dir);
    forall j: nat | j >= 1 && FolderName(j) in e1 ensures e1[FolderName(j)].Dir? {
      if FolderName(j) != dir {
        assert FolderName(j) in e;
      }
    }
  }

  lemma MoveIdeal(e: map<string, Node>, names: seq<string>, i: nat, k: nat)
    requires k >= 1 && i < |names| && FreshNames(names) && IdealEntries(e, names, i, k)
    requires FolderName(i / k + 1) in e && e[FolderName(i / k + 1)].Dir?
    ensures MoveSucceeds(e, names[i], FolderName(i / k + 1), true)
    ensures var e2 := AfterMove(e, names[i], FolderName(i / k + 1));
      FolderName(i / k + 1) in e2 && e2[FolderName(i / k + 1)].Dir? && IdealEntries(e2, names, i + 1, k)
  {
    var dir := FolderName(i / k + 1);
    var name := names[i];
    assert IsFile(e, name);
    MoveKeepsPlaced(e, names, i, k, dir);
    MoveKeepsWaiting(e, names, i, dir);
    MoveKeepsNoClash(e, name, dir);
  }

  lemma MoveKeepsPlaced(e: map<string, Node>, names: seq<string>, i: nat, k: nat, dir: string)
    requires k >= 1 && i < |names| && Distinct(names) && PlacedUpTo(e, names, i, k) && IsFile(e, names[i])
    requires forall j :: 0 <= j < |names| ==> names[j] != dir
    requires dir == FolderName(i / k + 1) && dir in e && e[dir].Dir?
    ensures PlacedUpTo(AfterMove(e, names[i], dir), names, i + 1, k)
  {
    var name := names[i];
    var e2 := AfterMove(e, name, dir);
    forall j | 0 <= j < i + 1 ensures Placed(e2, names[j], FolderName(j / k + 1)) {
      if j < i {
        PlacedAfterMove(e, names[j], FolderName(j / k + 1), name, dir);
      }
    }
  }

  /** A move leaves every other file where it was placed. */
  lemma PlacedAfterMove(e: map<string, Node>, n: string, d: string, name: string, dir: string)
    requires Placed(e, n, d) && IsFile(e, name) && n != name && n != dir && dir in e && e[dir].Dir?
    ensures Placed(AfterMove(e, name, dir), n, d)
  {
  }

  lemma MoveKeepsWaiting(e: map<string, Node>, names: seq<string>, i: nat, dir: string)
    requires i < |names| && Distinct(names) && forall j :: i <= j < |names| ==> IsFile(e, names[j])
    requires forall j :: 0 <= j < |names| ==> names[j] != dir
    requires dir in e && e[dir].Dir?
    ensures forall j :: i + 1 <= j < |names| ==> IsFile(AfterMove(e, names[i], dir), names[j])
  {
    var e2 := AfterMove(e, names[i], dir);
    forall j | i + 1 <= j < |names| ensures IsFile(e2, names[j]) {
      assert names[j] != names[i];
      assert names[j] != dir;
      assert IsFile(e, names[j]);
    }
  }

  lemma MoveKeepsNoClash(e: map<string, Node>, name: string, dir: string)
    requires NoFolderClash(e) && dir in e && e[dir].Dir?
    requires forall m: nat :: m >= 1 ==> name != FolderName(m)
    ensures NoFolderClash(AfterMove(e, name, dir))
  {
    var e2 := AfterMove(e, name, dir);
    forall j: nat | j >= 1 && FolderName(j) in e2 ensures e2[FolderName(j)].Dir? {
      if FolderName(j) != dir {
        assert FolderName(j) in e;
      }
    }
  }

  /** After the move of the `i`-th file into its batch folder, the run is where the ideal run is after
      `i + 1` files. */
  lemma IdealAfterMove(t: State, names: seq<string>, i: nat, k: nat)
    requires k >= 1 && i < |names|
    requires t.fileCount == i + 1 && t.folderIndex == i / k + 2 && t.target == FolderName(i / k + 1)
    requires FolderName(i / k + 1) in t.entries && t.entries[FolderName(i / k + 1)].Dir?
    requires t.trace == IdealTrace(names[..i + 1], k) && IdealEntries(t.entries, names, i + 1, k)
    ensures IdealSoFar(t, names, i + 1, k)
  {
    ModSucc(i, k);
  }

  lemma IdealTraceSnoc(names: seq<string>, i: nat, k: nat)
    requires k >= 1 && i < |names|
    ensures IdealTrace(names[..i + 1], k) == IdealTrace(names[..i], k) + BatchEvents(i, names[i], k)
  {
    assert names[..i + 1][..i] == names[..i];
  }

  lemma StepIdeal(s: State, names: seq<string>, i: nat, k: nat)
    requires k >= 1 && i < |names| && FreshNames(names)
    requires IdealSoFar(s, names, i, k)
    ensures IdealSoFar(Step(s, names[i], k, {}, {}), names, i + 1, k)
  {
    IdealTraceSnoc(names, i, k);
    if i % k == 0 {
      StepIdealOpening(s, names, i, k);
    } else {
      StepIdealContinuing(s, names, i, k);
    }
  }

  /** The first file of a batch: the folder is created, then the file moved into it. */
  lemma StepIdealOpening(s: State, names: seq<string>, i: nat, k: nat)
    requires k >= 1 && i < |names| && FreshNames(names) && i % k == 0
    requires IdealSoFar(s, names, i, k)
    requires IdealTrace(names[..i + 1], k) == IdealTrace(names[..i], k) + BatchEvents(i, names[i], k)
    ensures IdealSoFar(Step(s, names[i], k, {}, {}), names, i + 1, k)
  {
    var name := names[i];
    var dir := FolderName(i / k + 1);
    OpenIdeal(s.entries, names, i, k);
    var e1 := AfterMakeDirs(s.entries, dir);
    MoveIdeal(e1, names, i, k);
    var mk, mv := MakeDirsCall(dir, true), MoveCall(name, dir, true);
    var s1 := State(e1, s.fileCount, s.folderIndex + 1, dir, s.trace + [mk]);
    assert Step(s, name, k, {}, {}) == TryMove(s1, name, {});
    var t := State(AfterMove(e1, name, dir), i + 1, s.folderIndex + 1, dir, s.trace + [mk] + [mv]);
    assert TryMove(s1, name, {}) == t;
    assert BatchEvents(i, name, k) == [mk] + [mv];
    IdealAfterMove(t, names, i, k);
  }

  /** A later file of a batch: it is moved into the folder already open. */
  lemma StepIdealContinuing(s: State, names: seq<string>, i: nat, k: nat)
    requires k >= 1 && i < |names| && FreshNames(names) && i % k != 0
    requires IdealSoFar(s, names, i, k)
    requires IdealTrace(names[..i + 1], k) == IdealTrace(names[..i], k) + BatchEvents(i, names[i], k)
    ensures IdealSoFar(Step(s, names[i], k, {}, {}), names, i + 1, k)
  {
    var name := names[i];
    var dir := FolderName(i / k + 1);
    MoveIdeal(s.entries, names, i, k);
    var mv := MoveCall(name, dir, true);
    var t := State(AfterMove(s.entries, name, dir), i + 1, s.folderIndex, dir, s.trace + [mv]);
    assert Step(s, name, k, {}, {}) == t;
    assert BatchEvents(i, name, k) == [] + [mv];
    IdealAfterMove(t, names, i, k);
  }

  lemma {:induction false} RunIdeal(s: State, names: seq<string>, i: nat, k: nat)
    requires k >= 1 && i <= |names| && FreshNames(names)
    requires IdealSoFar(s, names, i, k)
    ensures IdealSoFar(Run(s, names[i..], k, {}, {}), names, |names|, k)
    decreases |names| - i
  {
    if i == |names| {
      assert names[i..] == [];
    } else {
      StepIdeal(s, names, i, k);
      assert names[i..][1..] == names[i + 1..];
      RunIdeal(Step(s, names[i], k, {}, {}), names, i + 1, k);
    }
  }

  /** With no failure, the `i`-th file (0-based) ends up in `subpasta_{i div k + 1}` under its own name,
      and the calls made are exactly those of `IdealTrace` (lines 44-76). */
  lemma OrganizeWithoutFailures(entries: map<string, Node>, listing: seq<string>, k: nat)
    requires k >= 1 && IsListingOf(listing, entries) && NoFolderClash(entries)
    ensures var files := Candidates(listing, entries);
      var r := Organize(true, entries, Some(listing), k, {}, {});
      r.trace == IdealTrace(files, k) &&
      PlacedUpTo(r.entries, files, |files|, k)
  {
    var files := Candidates(listing, entries);
    if files != [] {
      forall j, m: nat | 0 <= j < |files| && m >= 1 ensures files[j] != FolderName(m) {
        assert IsFile(entries, files[j]);
      }
      assert files[..0] == [];
      assert files[0..] == files;
      assert files[..|files|] == files;
      RunIdeal(Start(entries), files, 0, k);
    }
  }

  lemma {:induction false} IdealTraceFolderCount(names: seq<string>, k: nat)
    requires k >= 1
    ensures |MakeDirsTried(IdealTrace(names, k))| == Ceil(|names|, k)
    decreases |names|
  {
    if names != [] {
      var i: nat := |names| - 1;
      var init := names[..i];
      assert IdealTrace(names, k) == IdealTrace(init, k) + BatchEvents(i, names[i], k);
      IdealTraceFolderCount(init, k);
      MakeDirsTriedAppend(IdealTrace(init, k), BatchEvents(i, names[i], k));
      BatchEventsRead(i, names[i], k, "");
      CeilSucc(i, k);
    }
  }

  lemma {:induction false} IdealTraceMovesAll(names: seq<string>, k: nat)
    requires k >= 1
    ensures Moved(IdealTrace(names, k)) == names
    decreases |names|
  {
    if names != [] {
      var i: nat := |names| - 1;
      var init, events := names[..i], BatchEvents(i, names[i], k);
      assert IdealTrace(names, k) == IdealTrace(init, k) + events;
      IdealTraceMovesAll(init, k);
      assert Moved(events) == [names[i]] by {
        BatchEventsRead(i, names[i], k, "");
      }
      MovedAppend(IdealTrace(init, k), events);
      Seqs.InitLast(names);
    }
  }

  /** The `j`-th block of `k` names (1-based): the Python slice `names[(j-1)*k : j*k]`. */
  function Block(names: seq<string>, k: nat, j: nat): seq<string>
    requires j >= 1
  {
    assert j * k == (j - 1) * k + k;
    names[Seqs.Min((j - 1) * k, |names|)..Seqs.Min(j * k, |names|)]
  }

  lemma BlockSnoc(names: seq<string>, k: nat, j: nat)
    requires k >= 1 && j >= 1 && names != []
    ensures var i := |names| - 1;
      Block(names, k, j) == Block(names[..i], k, j) + (if i / k + 1 == j then [names[i]] else [])
  {
    var i := |names| - 1;
    var lo, hi := (j - 1) * k, j * k;
    assert hi == lo + k;
    BatchOfFile(i, k, j);
    var init := names[..i];
    assert Block(init, k, j) == names[Seqs.Min(lo, i)..Seqs.Min(hi, i)];
    if lo <= i < hi {
      assert names[lo..i + 1] == names[lo..i] + [names[i]];
    }
  }

  lemma FolderOfFileInjective(i: nat, k: nat, j: nat)
    requires k >= 1
    ensures FolderName(i / k + 1) == FolderName(j) <==> i / k + 1 == j
  {
    FolderNameInjective(i / k + 1, j);
  }

  lemma IdealTraceSnocMovedInto(names: seq<string>, k: nat, j: nat)
    requires k >= 1 && names != []
    ensures var i := |names| - 1;
      MovedInto(IdealTrace(names, k), FolderName(j)) ==
      MovedInto(IdealTrace(names[..i], k), FolderName(j)) + (if i / k + 1 == j then [names[i]] else [])
  {
    var init, i := names[..|names| - 1], |names| - 1;
    MovedIntoAppend(IdealTrace(init, k), BatchEvents(i, names[i], k), FolderName(j));
    BatchEventsRead(i, names[i], k, FolderName(j));
    FolderOfFileInjective(i, k, j);
  }

  /** In a run without failures, folder `j` receives exactly the `j`-th block of `k` files, in order. */
  lemma {:induction false} IdealFolderContents(names: seq<string>, k: nat, j: nat)
    requires k >= 1 && j >= 1
    ensures MovedInto(IdealTrace(names, k), FolderName(j)) == Block(names, k, j)
    decreases |names|
  {
    if names == [] {
      assert Block(names, k, j) == [];
    } else {
      IdealFolderContents(names[..|names| - 1], k, j);
      IdealTraceSnocMovedInto(names, k, j);
      BlockSnoc(names, k, j);
    }
  }

  /** Every block but the last of `ceil(n/k)` holds `k` names, the last between 1 and `k`, later ones none. */
  lemma BlockSizes(names: seq<string>, k: nat, j: nat)
    requires k >= 1 && names != [] && j >= 1
    ensures var f := Ceil(|names|, k);
      f >= 1 &&
      (j < f ==> |Block(names, k, j)| == k) &&
      (j == f ==> 1 <= |Block(names, k, j)| <= k) &&
      (j > f ==> Block(names, k, j) == [])
  {
    var n, f := |names|, Ceil(|names|, k);
    var lo, hi := (j - 1) * k, j * k;
    CeilBounds(n, k);
    assert hi == lo + k;
    if j < f {
      MulMonotone(j, f - 1, k);
    } else if j > f {
      MulMonotone(f, j - 1, k);
    }
  }

  /** With no failure, exactly `ceil(n/k)` folders are used, every one but the last holds `k` files,
      the last holds between 1 and `k`, and all `n` files are moved, in listing order. */
  lemma IdealFolderSizes(names: seq<string>, k: nat)
    requires k >= 1 && names != []
    ensures var f := Ceil(|names|, k);
      var trace := IdealTrace(names, k);
      f >= 1 &&
      |MakeDirsTried(trace)| == f &&
      Moved(trace) == names &&
      (forall j :: 1 <= j < f ==> |MovedInto(trace, FolderName(j))| == k) &&
      1 <= |MovedInto(trace, FolderName(f))| <= k &&
      (forall j :: j > f ==> MovedInto(trace, FolderName(j)) == [])
  {
    IdealTraceFolderCount(names, k);
    IdealTraceMovesAll(names, k);
    IdealFullFolders(names, k);
    IdealLastFolder(names, k);
    IdealNoMoreFolders(names, k);
  }

  lemma IdealFullFolders(names: seq<string>, k: nat)
    requires k >= 1 && names != []
    ensures forall j :: 1 <= j < Ceil(|names|, k) ==> |MovedInto(IdealTrace(names, k), FolderName(j))| == k
  {
    forall j | 1 <= j < Ceil(|names|, k) ensures |MovedInto(IdealTrace(names, k), FolderName(j))| == k {
      IdealFolderSize(names, k, j);
    }
  }

  lemma IdealLastFolder(names: seq<string>, k: nat)
    requires k >= 1 && names != []
    ensures Ceil(|names|, k) >= 1
    ensures 1 <= |MovedInto(IdealTrace(names, k), FolderName(Ceil(|names|, k)))| <= k
  {
    CeilBounds(|names|, k);
    IdealFolderSize(names, k, Ceil(|names|, k));
  }

  lemma IdealNoMoreFolders(names: seq<string>, k: nat)
    requires k >= 1 && names != []
    ensures forall j :: j > Ceil(|names|, k) ==> MovedInto(IdealTrace(names, k), FolderName(j)) == []
  {
    forall j | j > Ceil(|names|, k) ensures MovedInto(IdealTrace(names, k), FolderName(j)) == [] {
      IdealFolderSize(names, k, j);
    }
  }

  lemma IdealFolderSize(names: seq<string>, k: nat, j: nat)
    requires k >= 1 && names != [] && j >= 1
    ensures var f, moved := Ceil(|names|, k), MovedInto(IdealTrace(names, k), FolderName(j));
      f >= 1 &&
      (j < f ==> |moved| == k) &&
      (j == f ==> 1 <= |moved| <= k) &&
      (j > f ==> moved == [])
  {
    IdealFolderContents(names, k, j);
    BlockSizes(names, k, j);
  }

  // ---------------------------------------------------------------------------------------------
  // The directory as an object

  class SourceDir {
    /** `os.path.isdir(source_dir)`. */
    var isDir: bool
    /** The entries directly inside `source_dir`. */
    var entries: map<string, Node>

    constructor (isDir: bool, entries: map<string, Node>)
      ensures this.isDir == isDir && this.entries == entries
    {
      this.isDir := isDir;
      this.entries := entries;
    }

    /** `os.makedirs(source_dir/dir, exist_ok=True)`; `oracleOk` is false when the environment makes it raise. */
    method MakeDirs(dir: string, oracleOk: bool) returns (ok: bool)
      modifies this
      ensures isDir == old(isDir)
      ensures ok == MakeDirsSucceeds(old(entries), dir, oracleOk)
      ensures entries == if ok then AfterMakeDirs(old(entries), dir) else old(entries)
    {
      ok := oracleOk && (dir !in entries || entries[dir].Dir?);
      if ok && dir !in entries {
        entries := entries[dir := Dir({})];
      }
    }

    /** `shutil.move(source_dir/name, source_dir/dir/name)`; `oracleOk` is false when the environment makes it raise. */
    method MoveFile(name: string, dir: string, oracleOk: bool) returns (ok: bool)
      modifies this
      ensures isDir == old(isDir)
      ensures ok == MoveSucceeds(old(entries), name, dir, oracleOk)
      ensures ok ==> entries == AfterMove(old(entries), name, dir)
      ensures !ok ==> entries == old(entries)
    {
      ok := oracleOk && name in entries && entries[name] == File && dir in entries && entries[dir].Dir?;
      if ok {
        var folder := entries[dir].children;
        entries := (entries - {name})[dir := Dir(folder + {name})];
      }
    }

    /** `organizar_arquivos_em_pastas(source_dir, k)`: returns how it ended and the calls it made. */
    method OrganizeIntoFolders(listing: Option<seq<string>>, k: nat, mkdirFails: set<nat>, moveFails: set<string>)
      returns (outcome: Outcome, trace: seq<Event>)
      modifies this
      ensures isDir == old(isDir)
      ensures Report(outcome, entries, trace) == Organize(old(isDir), old(entries), listing, k, mkdirFails, moveFails)
    {
      trace := [];
      if !isDir {
        return NotADirectory, trace;
      }
      if listing.None? {
        return ListingFailed, trace;
      }
      var files := Candidates(listing.value, entries);
      if |files| == 0 {
        return NothingToDo, trace;
      }
      if k == 0 {
        return DivisionByZero, trace;
      }
      var fileCount: nat := 0;
      var folderIndex: nat := 1;
      var target := "";
      ghost var goal := Run(Start(entries), files, k, mkdirFails, moveFails);
      for i := 0 to |files|
        invariant isDir == old(isDir)
        invariant Run(State(entries, fileCount, folderIndex, target, trace), files[i..], k, mkdirFails, moveFails) == goal
      {
        ghost var before := State(entries, fileCount, folderIndex, target, trace);
        assert files[i..][1..] == files[i + 1..];
        var name := files[i];
        if fileCount % k == 0 {
          target := FolderName(folderIndex);
          var made := MakeDirs(target, folderIndex !in mkdirFails);
          trace := trace + [MakeDirsCall(target, made)];
          if !made {
            fileCount := k;
            folderIndex := folderIndex + 1;
            assert State(entries, fileCount, folderIndex, target, trace) == Step(before, name, k, mkdirFails, moveFails);
            continue;
          }
          folderIndex := folderIndex + 1;
        }
        var moved := MoveFile(name, target, name !in moveFails);
        trace := trace + [MoveCall(name, target, moved)];
        if moved {
          fileCount := fileCount + 1;
        }
        assert State(entries, fileCount, folderIndex, target, trace) == Step(before, name, k, mkdirFails, moveFails);
      }
      assert files[|files|..] == [];
      outcome := Organized;
    }
  }
}

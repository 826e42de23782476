/**
 File snapshots of the agent's own changes (app/git_intel.py, class SmartRollback). Working files
 and backups lie in one file system, a map from locations; the manifest lists the snapshots.
 */
module Rollback {
  import opened Options
  import opened Sequences
  import opened Texts

  /** An absolute path with no dots left in it: the names from the root down. */
  type Location = seq<string>

  type Files = map<Location, string>

  function At(files: Files, l: Location): Option<string> {
    if l in files then Some(files[l]) else None
  }

  // ---------------------------------------------------------------- paths

  /** The names between the slashes; `name` is being read. Empty ones and single dots drop out. */
  function Names(path: string, name: string): seq<string>
    decreases |path|
  {
    if path == "" then Name(name)
    else if path[0] == '/' then Name(name) + Names(path[1..], "")
    else Names(path[1..], name + [path[0]])
  }

  function Name(name: string): seq<string> {
    if name == "" || name == "." then [] else [name]
  }

  function Walk(base: Location, names: seq<string>): Location
    decreases |names|
  {
    if names == [] then base
    else if names[0] == ".." then Walk(if base == [] then [] else base[..|base| - 1], names[1..])
    else Walk(base + [names[0]], names[1..])
  }

  predicate IsAbsolute(path: string) {
    path != "" && path[0] == '/'
  }

  /** base / path: an absolute path replaces what is in front of it. */
  function Resolve(base: Location, path: string): Location {
    Walk(if IsAbsolute(path) then [] else base, Names(path, ""))
  }

  lemma {:induction false} WalkDown(base: Location, names: seq<string>)
    requires ".." !in names
    ensures Walk(base, names) == base + names
    decreases |names|
  {
    if names == [] {
      assert base + names == base;
    } else {
      WalkDown(base + [names[0]], names[1..]);
      assert base + [names[0]] + names[1..] == base + names;
    }
  }

  lemma {:induction false} WalkOn(base: Location, x: seq<string>, y: seq<string>)
    ensures Walk(base, x + y) == Walk(Walk(base, x), y)
    decreases |x|
  {
    if x == [] {
      assert x + y == y;
    } else {
      assert (x + y)[1..] == x[1..] + y;
      WalkOn(if x[0] == ".." then (if base == [] then [] else base[..|base| - 1]) else base + [x[0]], x[1..], y);
    }
  }

  lemma {:induction false} NamesJoin(a: string, b: string, name: string)
    ensures Names(a + "/" + b, name) == Names(a, name) + Names(b, "")
    decreases |a|
  {
    if a == "" {
      assert a + "/" + b == "/" + b && ("/" + b)[1..] == b;
    } else {
      assert (a + "/" + b)[1..] == a[1..] + "/" + b;
      NamesJoin(a[1..], b, if a[0] == '/' then "" else name + [a[0]]);
    }
  }

  lemma {:induction false} NamesOfOne(a: string, name: string)
    requires '/' !in a
    ensures Names(a, name) == Name(name + a)
    decreases |a|
  {
    if a == "" {
      assert name + a == name;
    } else {
      assert forall c :: c in a[1..] ==> c in a;
      assert name + [a[0]] + a[1..] == name + a;
      NamesOfOne(a[1..], name + [a[0]]);
    }
  }

  /** A path is followed name by name: a dot stays, two dots go up, any other name goes down. */
  lemma ResolveName(base: Location, name: string)
    requires '/' !in name && name != ""
    ensures Resolve(base, name)
         == if name == "." then base
            else if name == ".." then base[..if base == [] then 0 else |base| - 1] else base + [name]
  {
    NamesOfOne(name, "");
    assert "" + name == name && name[0] in name;
    WalkOne(base, name);
    if name == "." {
      assert Walk(base, []) == base;
    }
  }

  lemma WalkOne(base: Location, name: string)
    ensures Walk(base, [name])
         == if name == ".." then base[..if base == [] then 0 else |base| - 1] else base + [name]
  {
    assert [name][1..] == [];
    var next := if name == ".." then base[..if base == [] then 0 else |base| - 1] else base + [name];
    assert base == [] ==> base[..0] == [];
    assert Walk(base, [name]) == Walk(next, []);
  }

  lemma ResolveJoin(base: Location, a: string, b: string)
    requires a != "" && !IsAbsolute(b)
    ensures Resolve(base, a + "/" + b) == Resolve(Resolve(base, a), b)
  {
    NamesJoin(a, b, "");
    WalkOn(if IsAbsolute(a) then [] else base, Names(a, ""), Names(b, ""));
    assert (a + "/" + b)[0] == a[0];
  }

  /** An absolute path starts from the top. */
  lemma ResolveAbsolute(base: Location, b: string)
    requires !IsAbsolute(b)
    ensures Resolve(base, "/" + b) == Resolve([], b)
  {
    NamesJoin("", b, "");
    assert "" + "/" + b == "/" + b;
    assert Names("", "") == [] && [] + Names(b, "") == Names(b, "");
  }

  // ---------------------------------------------------------------- snapshot ids

  /** snap<number>-<time>, the number one more than the snapshots before it. */
  datatype SnapId = SnapId(number: nat, time: nat)

  function IdName(id: SnapId): string {
    "snap" + Digits(id.number) + "-" + Digits(id.time)
  }

  function BeforeDash(s: string): string {
    if s == "" || s[0] == '-' then "" else [s[0]] + BeforeDash(s[1..])
  }

  lemma {:induction false} DashFound(a: string, s: string)
    requires AllDigits(a)
    ensures BeforeDash(a + "-" + s) == a
  {
    var x := a + "-" + s;
    if a != "" {
      assert x[0] == a[0] && a[0] in a;
      assert x[1..] == a[1..] + "-" + s;
      assert forall c :: c in a[1..] ==> c in a;
      DashFound(a[1..], s);
    }
  }

  /** The name of a snapshot's directory tells its number. */
  lemma NumberIsRead(id: SnapId)
    ensures |IdName(id)| >= 4 && ToNumber(BeforeDash(IdName(id)[4..])) == id.number
  {
    assert IdName(id)[4..] == Digits(id.number) + "-" + Digits(id.time);
    DashFound(Digits(id.number), Digits(id.time));
    DigitsRead(id.number);
  }

  lemma {:induction false} AfterDashFound(a: string, s: string)
    requires AllDigits(a)
    ensures |BeforeDash(a + "-" + s)| < |a + "-" + s| && (a + "-" + s)[|BeforeDash(a + "-" + s)| + 1..] == s
  {
    DashFound(a, s);
  }

  /** And so does the whole name: no two snapshots share one. */
  lemma NamesDiffer(a: SnapId, b: SnapId)
    requires IdName(a) == IdName(b)
    ensures a == b
  {
    NumberIsRead(a);
    NumberIsRead(b);
    assert IdName(a)[4..] == Digits(a.number) + "-" + Digits(a.time);
    assert IdName(b)[4..] == Digits(b.number) + "-" + Digits(b.time);
    AfterDashFound(Digits(a.number), Digits(a.time));
    AfterDashFound(Digits(b.number), Digits(b.time));
    DigitsRead(a.time);
    DigitsRead(b.time);
  }

  // ---------------------------------------------------------------- the operations as functions

  datatype Snapshot = Snapshot(id: SnapId, paths: seq<string>)

  datatype State = State(files: Files, manifest: seq<Snapshot>)

  /** The working directory, and the directory of this task's snapshots. */
  datatype Place = Place(root: Location, dir: Location)

  function Source(at: Place, path: string): Location {
    Resolve(at.root, path)
  }

  function Backup(at: Place, id: SnapId, path: string): Location {
    Resolve(at.dir + [IdName(id)], path)
  }

  datatype Copies = Copies(files: Files, backed: seq<string>)

  /** A file is not copied onto itself, as an absolute path would ask. */
  predicate IsCopied(at: Place, id: SnapId, files: Files, path: string) {
    path != "" && Source(at, path) in files && Source(at, path) != Backup(at, id, path)
  }

  function CopyOne(at: Place, id: SnapId, c: Copies, path: string): Copies {
    if !IsCopied(at, id, c.files, path) then c
    else Copies(c.files[Backup(at, id, path) := c.files[Source(at, path)]], c.backed + [path])
  }

  function CopyFirst(at: Place, id: SnapId, files: Files, paths: seq<string>, n: nat): Copies
    requires n <= |paths|
  {
    if n == 0 then Copies(files, []) else CopyOne(at, id, CopyFirst(at, id, files, paths, n - 1), paths[n - 1])
  }

  function NextId(s: State, now: nat): SnapId {
    SnapId(|s.manifest| + 1, now)
  }

  /** The copies a snapshot makes. */
  function CopiesOf(at: Place, s: State, paths: seq<string>, now: nat): Copies {
    CopyFirst(at, NextId(s, now), s.files, paths, |paths|)
  }

  function Snapped(at: Place, s: State, paths: seq<string>, now: nat): State {
    var c := CopiesOf(at, s, paths, now);
    if c.backed == [] then s else State(c.files, s.manifest + [Snapshot(NextId(s, now), c.backed)])
  }

  /** The snapshot asked for; without an id, or with an unknown one, the latest. */
  function Chosen(manifest: seq<Snapshot>, id: Option<SnapId>): Snapshot
    requires manifest != []
  {
    if id.None? then manifest[|manifest| - 1] else FirstWith(manifest, id.value, manifest[|manifest| - 1])
  }

  function FirstWith(manifest: seq<Snapshot>, id: SnapId, otherwise: Snapshot): Snapshot {
    if manifest == [] then otherwise
    else if manifest[0].id == id then manifest[0] else FirstWith(manifest[1..], id, otherwise)
  }

  datatype Report = Report(files: Files, restored: seq<string>, missing: seq<string>)

  function RestoreOne(at: Place, id: SnapId, r: Report, path: string): Report {
    var from, to := Backup(at, id, path), Source(at, path);
    if from !in r.files then r.(missing := r.missing + [path])
    else if from == to then r
    else r.(files := r.files[to := r.files[from]], restored := r.restored + [path])
  }

  function RestoreFirst(at: Place, snap: Snapshot, files: Files, n: nat): Report
    requires n <= |snap.paths|
  {
    if n == 0 then Report(files, [], [])
    else RestoreOne(at, snap.id, RestoreFirst(at, snap, files, n - 1), snap.paths[n - 1])
  }

  function RestoreOf(at: Place, s: State, id: Option<SnapId>): Report {
    if s.manifest == [] then Report(s.files, [], [])
    else
      var snap := Chosen(s.manifest, id);
      RestoreFirst(at, snap, s.files, |snap.paths|)
  }

  function Restored(at: Place, s: State, id: Option<SnapId>): State {
    s.(files := RestoreOf(at, s, id).files)
  }

  // ---------------------------------------------------------------- the object

  class SmartRollback {
    const at: Place
    var s: State

    constructor (at: Place, files: Files)
      ensures this.at == at && s == State(files, [])
    {
      this.at := at;
      s := State(files, []);
    }

    method TakeSnapshot(paths: seq<string>, now: nat) returns (id: Option<SnapId>)
      modifies this
      ensures s == Snapped(at, old(s), paths, now)
      ensures var backed := CopiesOf(at, old(s), paths, now).backed; var next := SnapId(|old(s).manifest| + 1, now);
        && id == (if backed == [] then None else Some(next))
        && s.manifest == old(s).manifest + if backed == [] then [] else [Snapshot(next, backed)]
    {
      var sid := SnapId(|s.manifest| + 1, now);
      var files := s.files;
      var backed: seq<string> := [];
      for i := 0 to |paths|
        invariant s == old(s) && Copies(files, backed) == CopyFirst(at, sid, s.files, paths, i)
      {
        var path := paths[i];
        var src, dst := Source(at, path), Backup(at, sid, path);
        if path != "" && src in files && src != dst {
          files := files[dst := files[src]];
          backed := backed + [path];
        }
      }
      if backed == [] {
        return None;
      }
      s := State(files, s.manifest + [Snapshot(sid, backed)]);
      return Some(sid);
    }

    method Restore(id: Option<SnapId>) returns (ok: bool, restored: seq<string>, missing: seq<string>)
      modifies this
      ensures s == Restored(at, old(s), id)
      ensures restored == RestoreOf(at, old(s), id).restored && missing == RestoreOf(at, old(s), id).missing
      ensures ok <==> restored != []
      ensures !ok ==> s == old(s)
    {
      ok, restored, missing := false, [], [];
      if s.manifest == [] {
        return;
      }
      var snap := s.manifest[|s.manifest| - 1];
      if id.Some? {
        snap := FirstWith(s.manifest, id.value, snap);
      }
      var files := s.files;
      for i := 0 to |snap.paths|
        invariant s == old(s) && Report(files, restored, missing) == RestoreFirst(at, snap, s.files, i)
      {
        var path := snap.paths[i];
        var src, dst := Backup(at, snap.id, path), Source(at, path);
        if src !in files {
          missing := missing + [path];
        } else if src != dst {
          files := files[dst := files[src]];
          restored := restored + [path];
        }
      }
      ok := restored != [];
      NoneRestored(at, snap, s.files, |snap.paths|);
      s := s.(files := files);
    }
  }

  lemma {:induction false} NoneRestored(at: Place, snap: Snapshot, files: Files, n: nat)
    requires n <= |snap.paths|
    ensures RestoreFirst(at, snap, files, n).restored == [] ==> RestoreFirst(at, snap, files, n).files == files
    decreases n
  {
    if n > 0 {
      NoneRestored(at, snap, files, n - 1);
    }
  }

  // ---------------------------------------------------------------- what one snapshot does

  /** No two of the paths share a backup unless they share a file, and none is the backup of another. */
  ghost predicate Apart(at: Place, id: SnapId, paths: seq<string>) {
    forall p, q :: p in paths && q in paths ==>
      Source(at, p) != Backup(at, id, q) && (Backup(at, id, p) == Backup(at, id, q) ==> Source(at, p) == Source(at, q))
  }

  /** A file that goes by several names among the paths has one backup. */
  ghost predicate OneName(at: Place, id: SnapId, paths: seq<string>) {
    forall p, q :: p in paths && q in paths && Source(at, p) == Source(at, q) ==> Backup(at, id, p) == Backup(at, id, q)
  }

  lemma {:induction false} BackedGrows(at: Place, id: SnapId, files: Files, paths: seq<string>, n: nat, m: nat)
    requires n <= m <= |paths|
    ensures CopyFirst(at, id, files, paths, n).backed <= CopyFirst(at, id, files, paths, m).backed
    decreases m
  {
    if n < m {
      BackedGrows(at, id, files, paths, n, m - 1);
    }
  }

  /** The path names a file that has a place of its own for a backup. */
  predicate NamesFile(at: Place, id: SnapId, files: Files, p: string) {
    p != "" && Source(at, p) in files && Source(at, p) != Backup(at, id, p)
  }

  function NamesFileIn(at: Place, id: SnapId, files: Files): string -> bool {
    p => NamesFile(at, id, files, p)
  }

  lemma OneBacked(at: Place, id: SnapId, c: Copies, p: string)
    ensures CopyOne(at, id, c, p).backed == c.backed + if NamesFile(at, id, c.files, p) then [p] else []
  {
  }

  lemma {:induction false} CopiesGrow(at: Place, id: SnapId, files: Files, paths: seq<string>, n: nat, l: Location)
    requires n <= |paths|
    ensures l in files ==> l in CopyFirst(at, id, files, paths, n).files
    ensures l in CopyFirst(at, id, files, paths, n).files ==>
      l in files || exists k :: 0 <= k < n && l == Backup(at, id, paths[k])
    decreases n
  {
    if n > 0 {
      CopiesGrow(at, id, files, paths, n - 1, l);
    }
  }

  /** A snapshot backs up every listed path that names a file. */
  lemma {:induction false} BacksUp(at: Place, id: SnapId, files: Files, paths: seq<string>, n: nat, k: nat)
    requires k < n <= |paths| && NamesFile(at, id, files, paths[k])
    ensures paths[k] in CopyFirst(at, id, files, paths, n).backed
    decreases n
  {
    var c := CopyFirst(at, id, files, paths, n - 1);
    OneBacked(at, id, c, paths[n - 1]);
    if k < n - 1 {
      BacksUp(at, id, files, paths, n - 1, k);
    } else {
      CopiesGrow(at, id, files, paths, n - 1, Source(at, paths[k]));
      assert NamesFile(at, id, c.files, paths[k]);
    }
  }

  /** And in the order of the list nothing else, unless a path names the backup of another. */
  lemma {:induction false} BackedAre(at: Place, id: SnapId, files: Files, paths: seq<string>, n: nat)
    requires n <= |paths| && forall p, q :: p in paths && q in paths ==> Source(at, p) != Backup(at, id, q)
    ensures CopyFirst(at, id, files, paths, n).backed == Filter(paths[..n], NamesFileIn(at, id, files))
    decreases n
  {
    if n > 0 {
      var c, p := CopyFirst(at, id, files, paths, n - 1), paths[n - 1];
      BackedAre(at, id, files, paths, n - 1);
      OneBacked(at, id, c, p);
      CopiesGrow(at, id, files, paths, n - 1, Source(at, p));
      assert NamesFile(at, id, c.files, p) <==> NamesFile(at, id, files, p);
      OneMore(paths, n - 1);
      FilterConcat(paths[..n - 1], [p], NamesFileIn(at, id, files));
      FilterOne(p, NamesFileIn(at, id, files));
    }
  }

  /** Outside the backups a snapshot changes nothing. */
  lemma {:induction false} CopyTouchesOnly(at: Place, id: SnapId, files: Files, paths: seq<string>, n: nat, l: Location)
    requires n <= |paths|
    requires forall p :: p in CopyFirst(at, id, files, paths, n).backed ==> Backup(at, id, p) != l
    ensures At(CopyFirst(at, id, files, paths, n).files, l) == At(files, l)
    decreases n
  {
    if n > 0 {
      BackedGrows(at, id, files, paths, n - 1, n);
      CopyTouchesOnly(at, id, files, paths, n - 1, l);
    }
  }

  /** Every backup holds its file, as it was before. */
  lemma {:induction false} CopyHolds(at: Place, id: SnapId, files: Files, paths: seq<string>, n: nat, p: string)
    requires n <= |paths|
    requires Apart(at, id, CopyFirst(at, id, files, paths, n).backed) && p in CopyFirst(at, id, files, paths, n).backed
    ensures Source(at, p) in files
    ensures At(CopyFirst(at, id, files, paths, n).files, Backup(at, id, p)) == At(files, Source(at, p))
    decreases n
  {
    var c, q := CopyFirst(at, id, files, paths, n - 1), paths[n - 1];
    BackedGrows(at, id, files, paths, n - 1, n);
    if IsCopied(at, id, c.files, q) {
      assert q in CopyFirst(at, id, files, paths, n).backed;
      CopyTouchesOnly(at, id, files, paths, n - 1, Source(at, q));
    }
    if p in c.backed {
      CopyHolds(at, id, files, paths, n - 1, p);
    }
  }

  // ---------------------------------------------------------------- what one restore does

  /** A restore changes only the files of its snapshot. */
  lemma {:induction false} RestoreTouchesOnly(at: Place, snap: Snapshot, files: Files, n: nat, l: Location)
    requires n <= |snap.paths|
    requires forall i :: 0 <= i < n ==> Source(at, snap.paths[i]) != l
    ensures At(RestoreFirst(at, snap, files, n).files, l) == At(files, l)
    decreases n
  {
    if n > 0 {
      RestoreTouchesOnly(at, snap, files, n - 1, l);
    }
  }

  /** What the restore makes of the file of a path: the backup if it is there, else the file as it is. */
  function Recovered(at: Place, id: SnapId, files: Files, p: string): Option<string> {
    if Backup(at, id, p) in files then At(files, Backup(at, id, p)) else At(files, Source(at, p))
  }

  lemma OneGives(at: Place, id: SnapId, r: Report, files: Files, p: string)
    requires Source(at, p) != Backup(at, id, p)
    requires At(r.files, Backup(at, id, p)) == At(files, Backup(at, id, p))
    ensures var t := RestoreOne(at, id, r, p);
      && (Backup(at, id, p) in files ==> At(t.files, Source(at, p)) == Recovered(at, id, files, p))
      && (Backup(at, id, p) !in files ==> t.files == r.files)
      && (forall l :: l != Source(at, p) ==> At(t.files, l) == At(r.files, l))
  {
  }

  /** One of the first n paths names the file of p. */
  ghost predicate Reached(at: Place, snap: Snapshot, n: nat, p: string)
    requires n <= |snap.paths|
  {
    exists k :: 0 <= k < n && Source(at, snap.paths[k]) == Source(at, p)
  }

  lemma ReachedNext(at: Place, snap: Snapshot, n: nat, p: string)
    requires 0 < n <= |snap.paths|
    ensures Reached(at, snap, n, p) <==>
      Reached(at, snap, n - 1, p) || Source(at, snap.paths[n - 1]) == Source(at, p)
  {
  }

  lemma {:induction false} RestoreGives(at: Place, snap: Snapshot, files: Files, n: nat, p: string)
    requires n <= |snap.paths| && p in snap.paths
    requires Apart(at, snap.id, snap.paths) && OneName(at, snap.id, snap.paths)
    ensures At(RestoreFirst(at, snap, files, n).files, Source(at, p))
         == if Reached(at, snap, n, p) then Recovered(at, snap.id, files, p) else At(files, Source(at, p))
    decreases n
  {
    if n > 0 {
      var q := snap.paths[n - 1];
      RestoreGives(at, snap, files, n - 1, p);
      ReachedNext(at, snap, n, p);
      BackupsStay(at, snap, files, n - 1, q);
      OneGives(at, snap.id, RestoreFirst(at, snap, files, n - 1), files, q);
      SameRecovery(at, snap, files, p, q);
    }
  }

  lemma SameRecovery(at: Place, snap: Snapshot, files: Files, p: string, q: string)
    requires OneName(at, snap.id, snap.paths) && p in snap.paths && q in snap.paths
    ensures Source(at, p) == Source(at, q) ==>
      Recovered(at, snap.id, files, p) == Recovered(at, snap.id, files, q)
      && Backup(at, snap.id, p) == Backup(at, snap.id, q)
  {
  }

  lemma BackupsStay(at: Place, snap: Snapshot, files: Files, n: nat, q: string)
    requires n <= |snap.paths| && Apart(at, snap.id, snap.paths) && q in snap.paths
    ensures At(RestoreFirst(at, snap, files, n).files, Backup(at, snap.id, q)) == At(files, Backup(at, snap.id, q))
    ensures Source(at, q) != Backup(at, snap.id, q)
  {
    forall i | 0 <= i < n ensures Source(at, snap.paths[i]) != Backup(at, snap.id, q) {
      assert snap.paths[i] in snap.paths;
    }
    RestoreTouchesOnly(at, snap, files, n, Backup(at, snap.id, q));
  }

  /** When every backup holds what its file once held, the restore brings it all back. */
  lemma {:induction false} RestoreBringsBack(at: Place, snap: Snapshot, files: Files, was: Files, n: nat, k: nat)
    requires k < n <= |snap.paths| && Apart(at, snap.id, snap.paths)
    requires forall p :: p in snap.paths ==>
      Backup(at, snap.id, p) in files && At(files, Backup(at, snap.id, p)) == At(was, Source(at, p))
    ensures At(RestoreFirst(at, snap, files, n).files, Source(at, snap.paths[k])) == At(was, Source(at, snap.paths[k]))
    decreases n
  {
    BackupsStay(at, snap, files, n - 1, snap.paths[n - 1]);
    OneGives(at, snap.id, RestoreFirst(at, snap, files, n - 1), files, snap.paths[n - 1]);
    if k < n - 1 {
      RestoreBringsBack(at, snap, files, was, n - 1, k);
    }
  }

  /** Whether the backup of a path is there. */
  function BackupIs(at: Place, id: SnapId, files: Files, there: bool): string -> bool {
    p => Backup(at, id, p) in files <==> there
  }

  /** Of the first n paths those are reported restored whose backup is there, the others missing. */
  ghost predicate Reports(at: Place, snap: Snapshot, files: Files, r: Report, n: nat)
    requires n <= |snap.paths|
  {
    && r.restored == Filter(snap.paths[..n], BackupIs(at, snap.id, files, true))
    && r.missing == Filter(snap.paths[..n], BackupIs(at, snap.id, files, false))
  }

  lemma {:induction false} ReportIs(at: Place, snap: Snapshot, files: Files, n: nat)
    requires n <= |snap.paths| && Apart(at, snap.id, snap.paths)
    ensures Reports(at, snap, files, RestoreFirst(at, snap, files, n), n)
    decreases n
  {
    if n > 0 {
      ReportIs(at, snap, files, n - 1);
      BackupsStay(at, snap, files, n - 1, snap.paths[n - 1]);
      ReportGoesOn(at, snap, RestoreFirst(at, snap, files, n - 1), files, n);
    }
  }

  lemma ReportGoesOn(at: Place, snap: Snapshot, r: Report, files: Files, n: nat)
    requires 0 < n <= |snap.paths| && Reports(at, snap, files, r, n - 1)
    requires var p := snap.paths[n - 1]; var backup := Backup(at, snap.id, p);
      At(r.files, backup) == At(files, backup) && backup != Source(at, p)
    ensures Reports(at, snap, files, RestoreOne(at, snap.id, r, snap.paths[n - 1]), n)
  {
    assert snap.paths[..n] == snap.paths[..n - 1] + [snap.paths[n - 1]];
    FilterSnoc(snap.paths[..n - 1], snap.paths[n - 1], BackupIs(at, snap.id, files, true));
    FilterSnoc(snap.paths[..n - 1], snap.paths[n - 1], BackupIs(at, snap.id, files, false));
  }

  lemma AllBacked(at: Place, snap: Snapshot, files: Files)
    requires forall k :: 0 <= k < |snap.paths| ==> Backup(at, snap.id, snap.paths[k]) in files
    ensures Filter(snap.paths, BackupIs(at, snap.id, files, true)) == snap.paths
    ensures Filter(snap.paths, BackupIs(at, snap.id, files, false)) == []
  {
    FilterAll(snap.paths, BackupIs(at, snap.id, files, true));
    FilterNone(snap.paths, BackupIs(at, snap.id, files, false));
  }

  // ---------------------------------------------------------------- histories

  /** The user or the agent changes any file (None deletes it); a snapshot is taken, or restored. */
  datatype Op =
    | Edit(l: Location, content: Option<string>)
    | Snap(paths: seq<string>, now: nat)
    | Back(id: Option<SnapId>)

  function After(at: Place, s: State, op: Op): State {
    match op
    case Edit(l, content) =>
      s.(files := if content.Some? then s.files[l := content.value] else s.files - {l})
    case Snap(paths, now) => Snapped(at, s, paths, now)
    case Back(id) => Restored(at, s, id)
  }

  function AfterAll(at: Place, s: State, ops: seq<Op>): State
    decreases |ops|
  {
    if ops == [] then s else AfterAll(at, After(at, s, ops[0]), ops[1..])
  }

  /** The operation writes this location, or would if the backup were there. */
  ghost predicate Writes(at: Place, s: State, op: Op, l: Location) {
    match op
    case Edit(x, _) => x == l
    case Snap(paths, now) => exists p :: p in CopiesOf(at, s, paths, now).backed && Backup(at, NextId(s, now), p) == l
    case Back(id) => s.manifest != [] && exists p :: p in Chosen(s.manifest, id).paths && Source(at, p) == l
  }

  lemma UnwrittenStays(at: Place, s: State, op: Op, l: Location)
    requires !Writes(at, s, op, l)
    ensures At(After(at, s, op).files, l) == At(s.files, l)
  {
    match op
    case Edit(x, content) =>
    case Snap(paths, now) =>
      CopyTouchesOnly(at, NextId(s, now), s.files, paths, |paths|, l);
    case Back(id) =>
      if s.manifest != [] {
        var snap := Chosen(s.manifest, id);
        RestoreTouchesOnly(at, snap, s.files, |snap.paths|, l);
      }
  }

  /** What the history last put at this location, if it wrote it at all; None inside for a deletion. */
  ghost function LastWrite(at: Place, s: State, ops: seq<Op>, l: Location): Option<Option<string>>
    decreases |ops|
  {
    if ops == [] then None
    else
      var t := After(at, s, ops[0]);
      var later := LastWrite(at, t, ops[1..], l);
      if later.Some? then later else if Writes(at, s, ops[0], l) then Some(At(t.files, l)) else None
  }

  lemma {:induction false} LastWriteIs(at: Place, s: State, ops: seq<Op>, l: Location)
    ensures At(AfterAll(at, s, ops).files, l)
         == if LastWrite(at, s, ops, l).Some? then LastWrite(at, s, ops, l).value else At(s.files, l)
    decreases |ops|
  {
    if ops != [] {
      LastWriteIs(at, After(at, s, ops[0]), ops[1..], l);
      if !Writes(at, s, ops[0], l) {
        UnwrittenStays(at, s, ops[0], l);
      }
    }
  }

  /** No operation of the history writes this location. */
  ghost predicate Spares(at: Place, s: State, ops: seq<Op>, l: Location)
    decreases |ops|
  {
    ops == [] || (!Writes(at, s, ops[0], l) && Spares(at, After(at, s, ops[0]), ops[1..], l))
  }

  lemma {:induction false} SparedIsUnwritten(at: Place, s: State, ops: seq<Op>, l: Location)
    ensures Spares(at, s, ops, l) <==> LastWrite(at, s, ops, l) == None
    decreases |ops|
  {
    if ops != [] {
      SparedIsUnwritten(at, After(at, s, ops[0]), ops[1..], l);
    }
  }

  /** Snapshots are numbered from one. */
  ghost predicate Numbered(s: State) {
    forall i :: 0 <= i < |s.manifest| ==> s.manifest[i].id.number == i + 1
  }

  /** The snapshot stands at its place in the manifest. */
  ghost predicate Listed(s: State, snap: Snapshot) {
    Numbered(s) && 0 < snap.id.number <= |s.manifest| && s.manifest[snap.id.number - 1] == snap
  }

  /** No later edit, snapshot or restore removes a snapshot from the manifest or changes its entry. */
  lemma {:induction false} HistoryKeeps(at: Place, s: State, snap: Snapshot, ops: seq<Op>)
    requires Listed(s, snap)
    ensures Listed(AfterAll(at, s, ops), snap)
    decreases |ops|
  {
    if ops != [] {
      HistoryKeeps(at, After(at, s, ops[0]), snap, ops[1..]);
    }
  }

  lemma {:induction false} FirstWithFinds(manifest: seq<Snapshot>, id: SnapId, otherwise: Snapshot, k: nat)
    requires k < |manifest| && manifest[k].id == id
    requires forall i :: 0 <= i < k ==> manifest[i].id != id
    ensures FirstWith(manifest, id, otherwise) == manifest[k]
  {
    if k > 0 {
      FirstWithFinds(manifest[1..], id, otherwise, k - 1);
    }
  }

  lemma ListedIsChosen(s: State, snap: Snapshot)
    requires Listed(s, snap)
    ensures s.manifest != [] && Chosen(s.manifest, Some(snap.id)) == snap
  {
    FirstWithFinds(s.manifest, snap.id, s.manifest[|s.manifest| - 1], snap.id.number - 1);
  }

  // ---------------------------------------------------------------- the round trip

  /** The snapshot a call takes. */
  function Taken(at: Place, s: State, paths: seq<string>, now: nat): Snapshot {
    Snapshot(NextId(s, now), CopiesOf(at, s, paths, now).backed)
  }

  /** What the history left of a backup is what it was; or it is gone, but so is every change to the file. */
  ghost predicate Recoverable(at: Place, s: State, paths: seq<string>, now: nat, ops: seq<Op>, p: string) {
    var taken := Snapped(at, s, paths, now);
    match LastWrite(at, taken, ops, Backup(at, NextId(s, now), p))
    case None => true
    case Some(Some(content)) => At(s.files, Source(at, p)) == Some(content)
    case Some(None) => At(AfterAll(at, taken, ops).files, Source(at, p)) == At(s.files, Source(at, p))
  }

  lemma AfterSnapshot(at: Place, s: State, paths: seq<string>, now: nat, ops: seq<Op>, p: string)
    requires Numbered(s) && Apart(at, NextId(s, now), Taken(at, s, paths, now).paths)
    requires p in Taken(at, s, paths, now).paths
    ensures var taken := Snapped(at, s, paths, now);
      var later := AfterAll(at, taken, ops);
      && At(taken.files, Backup(at, NextId(s, now), p)) == At(s.files, Source(at, p)) && Source(at, p) in s.files
      && Listed(later, Taken(at, s, paths, now))
      && (Recoverable(at, s, paths, now, ops, p) <==>
           Recovered(at, NextId(s, now), later.files, p) == At(s.files, Source(at, p)))
  {
    var snap, taken := Taken(at, s, paths, now), Snapped(at, s, paths, now);
    CopyHolds(at, snap.id, s.files, paths, |paths|, p);
    HistoryKeeps(at, taken, snap, ops);
    LastWriteIs(at, taken, ops, Backup(at, snap.id, p));
  }

  /**
   Whatever happened since, further snapshots and restores included: restoring a snapshot by its id
   gives every backed-up path the content it had then if and only if the history left each backup
   as it was, or removed it and left the file as it was.
   */
  lemma RestoreRoundTripIff(at: Place, s: State, paths: seq<string>, now: nat, ops: seq<Op>)
    requires Numbered(s) && Taken(at, s, paths, now).paths != []
    requires Apart(at, NextId(s, now), Taken(at, s, paths, now).paths)
    requires OneName(at, NextId(s, now), Taken(at, s, paths, now).paths)
    ensures var later := AfterAll(at, Snapped(at, s, paths, now), ops);
      var files := Restored(at, later, Some(NextId(s, now))).files;
      (forall p :: p in Taken(at, s, paths, now).paths ==> At(files, Source(at, p)) == At(s.files, Source(at, p)))
      <==> (forall p :: p in Taken(at, s, paths, now).paths ==> Recoverable(at, s, paths, now, ops, p))
  {
    var snap, later := Taken(at, s, paths, now), AfterAll(at, Snapped(at, s, paths, now), ops);
    forall p | p in snap.paths
      ensures At(Restored(at, later, Some(snap.id)).files, Source(at, p)) == At(s.files, Source(at, p))
         <==> Recoverable(at, s, paths, now, ops, p)
    {
      AfterSnapshot(at, s, paths, now, ops, p);
      ListedIsChosen(later, snap);
      assert Reached(at, snap, |snap.paths|, p);
      RestoreGives(at, snap, later.files, |snap.paths|, p);
    }
  }

  /** For a snapshot of one file, as the agent takes them, nothing needs to be kept apart. */
  lemma RestoreOneFileIff(at: Place, s: State, p: string, now: nat, ops: seq<Op>)
    requires Numbered(s) && IsCopied(at, NextId(s, now), s.files, p)
    ensures At(Restored(at, AfterAll(at, Snapped(at, s, [p], now), ops), Some(NextId(s, now))).files, Source(at, p))
              == At(s.files, Source(at, p))
       <==> Recoverable(at, s, [p], now, ops, p)
  {
    OneCopy(at, s, p, now);
    assert Taken(at, s, [p], now).paths == [p];
    RestoreRoundTripIff(at, s, [p], now, ops);
  }

  /**
   In particular when the history spares the backups: every path has its content back, no other
   file changes, every path is reported restored and none missing.
   */
  lemma RestoreRoundTrip(at: Place, s: State, paths: seq<string>, now: nat, ops: seq<Op>)
    requires Numbered(s) && Taken(at, s, paths, now).paths != []
    requires Apart(at, NextId(s, now), Taken(at, s, paths, now).paths)
    requires forall p :: p in Taken(at, s, paths, now).paths ==>
      Spares(at, Snapped(at, s, paths, now), ops, Backup(at, NextId(s, now), p))
    ensures var later := AfterAll(at, Snapped(at, s, paths, now), ops);
      var r := RestoreOf(at, later, Some(NextId(s, now)));
      && (forall p :: p in Taken(at, s, paths, now).paths ==> At(r.files, Source(at, p)) == At(s.files, Source(at, p)))
      && (forall l :: (forall p :: p in Taken(at, s, paths, now).paths ==> Source(at, p) != l) ==>
           At(r.files, l) == At(later.files, l))
      && r.missing == [] && r.restored == Taken(at, s, paths, now).paths
  {
    var snap, later := Taken(at, s, paths, now), AfterAll(at, Snapped(at, s, paths, now), ops);
    forall p | p in snap.paths
      ensures At(later.files, Backup(at, snap.id, p)) == At(s.files, Source(at, p)) && Source(at, p) in s.files
      ensures Listed(later, snap)
    {
      AfterSnapshot(at, s, paths, now, ops, p);
      SparedIsUnwritten(at, Snapped(at, s, paths, now), ops, Backup(at, snap.id, p));
      LastWriteIs(at, Snapped(at, s, paths, now), ops, Backup(at, snap.id, p));
    }
    assert snap.paths[0] in snap.paths;
    ListedIsChosen(later, snap);
    var n := |snap.paths|;
    forall p | p in snap.paths
      ensures At(RestoreFirst(at, snap, later.files, n).files, Source(at, p)) == At(s.files, Source(at, p))
    {
      var k :| 0 <= k < n && snap.paths[k] == p;
      RestoreBringsBack(at, snap, later.files, s.files, n, k);
    }
    forall l | forall p :: p in snap.paths ==> Source(at, p) != l
      ensures At(RestoreFirst(at, snap, later.files, n).files, l) == At(later.files, l)
    {
      RestoreTouchesOnly(at, snap, later.files, n, l);
    }
    NothingMissing(at, snap, later.files);
  }

  lemma NothingMissing(at: Place, snap: Snapshot, files: Files)
    requires Apart(at, snap.id, snap.paths) && forall p :: p in snap.paths ==> Backup(at, snap.id, p) in files
    ensures RestoreFirst(at, snap, files, |snap.paths|).missing == []
    ensures RestoreFirst(at, snap, files, |snap.paths|).restored == snap.paths
  {
    ReportIs(at, snap, files, |snap.paths|);
    assert forall k :: 0 <= k < |snap.paths| ==> snap.paths[k] in snap.paths;
    AllBacked(at, snap, files);
    assert snap.paths[..|snap.paths|] == snap.paths;
  }

  // ---------------------------------------------------------------- paths that stay inside

  /** A relative path that never climbs, and does not lead into the directory of the snapshots. */
  predicate PlainPath(at: Place, p: string) {
    !IsAbsolute(p) && ".." !in Names(p, "") && !(at.dir <= at.root + Names(p, ""))
  }

  ghost predicate PlainState(at: Place, s: State) {
    Numbered(s) && forall i, p :: 0 <= i < |s.manifest| && p in s.manifest[i].paths ==> PlainPath(at, p)
  }

  /** Only plain paths are snapshotted, and nobody edits the snapshots. */
  predicate PlainOp(at: Place, op: Op) {
    match op
    case Edit(l, _) => !(at.dir <= l)
    case Snap(paths, _) => forall p :: p in paths ==> PlainPath(at, p)
    case Back(_) => true
  }

  lemma PlainPlaces(at: Place, id: SnapId, p: string)
    requires PlainPath(at, p)
    ensures Source(at, p) == at.root + Names(p, "") && !(at.dir <= Source(at, p))
    ensures Backup(at, id, p) == at.dir + [IdName(id)] + Names(p, "") && at.dir <= Backup(at, id, p)
    ensures |Backup(at, id, p)| > |at.dir| && Backup(at, id, p)[|at.dir|] == IdName(id)
  {
    WalkDown(at.root, Names(p, ""));
    WalkDown(at.dir + [IdName(id)], Names(p, ""));
  }

  lemma PlainIsApart(at: Place, id: SnapId, paths: seq<string>)
    requires forall p :: p in paths ==> PlainPath(at, p)
    ensures Apart(at, id, paths) && OneName(at, id, paths)
  {
    forall p, q | p in paths && q in paths
      ensures Source(at, p) != Backup(at, id, q)
      ensures Backup(at, id, p) == Backup(at, id, q) <==> Source(at, p) == Source(at, q)
    {
      PlainPlaces(at, id, p);
      PlainPlaces(at, id, q);
      SplitsAlike(at.root, Names(p, ""), at.root, Names(q, ""));
      SplitsAlike(at.dir + [IdName(id)], Names(p, ""), at.dir + [IdName(id)], Names(q, ""));
    }
  }

  lemma {:induction false} BackedAreGiven(at: Place, id: SnapId, files: Files, paths: seq<string>, n: nat)
    requires n <= |paths|
    ensures forall p :: p in CopyFirst(at, id, files, paths, n).backed ==> p in paths
    decreases n
  {
    if n > 0 {
      BackedAreGiven(at, id, files, paths, n - 1);
    }
  }

  lemma PlainStays(at: Place, s: State, op: Op)
    requires PlainState(at, s) && PlainOp(at, op)
    ensures PlainState(at, After(at, s, op))
  {
    if op.Snap? {
      BackedAreGiven(at, NextId(s, op.now), s.files, op.paths, |op.paths|);
    }
  }

  lemma PlainOpSpares(at: Place, s: State, op: Op, snap: Snapshot, p: string)
    requires PlainState(at, s) && PlainOp(at, op) && Listed(s, snap) && PlainPath(at, p)
    ensures !Writes(at, s, op, Backup(at, snap.id, p))
  {
    PlainPlaces(at, snap.id, p);
    match op
    case Edit(l, content) =>
    case Snap(paths, now) =>
      BackedAreGiven(at, NextId(s, now), s.files, paths, |paths|);
      NumberIsRead(snap.id);
      NumberIsRead(NextId(s, now));
      forall q | q in paths ensures Backup(at, NextId(s, now), q) != Backup(at, snap.id, p) {
        PlainPlaces(at, NextId(s, now), q);
      }
    case Back(id) =>
      if s.manifest != [] {
        ChosenIsListed(s.manifest, id);
        forall q | q in Chosen(s.manifest, id).paths ensures Source(at, q) != Backup(at, snap.id, p) {
          PlainPlaces(at, snap.id, q);
        }
      }
  }

  lemma {:induction false} PlainSpares(at: Place, s: State, ops: seq<Op>, snap: Snapshot, p: string)
    requires PlainState(at, s) && Listed(s, snap) && PlainPath(at, p) && forall op :: op in ops ==> PlainOp(at, op)
    ensures Spares(at, s, ops, Backup(at, snap.id, p))
    decreases |ops|
  {
    if ops != [] {
      PlainOpSpares(at, s, ops[0], snap, p);
      PlainStays(at, s, ops[0]);
      PlainSpares(at, After(at, s, ops[0]), ops[1..], snap, p);
    }
  }

  /** While all paths are plain and nobody edits the snapshots, no history spoils a snapshot. */
  lemma PlainRoundTrip(at: Place, s: State, paths: seq<string>, now: nat, ops: seq<Op>)
    requires PlainState(at, s) && Taken(at, s, paths, now).paths != []
    requires PlainOp(at, Snap(paths, now)) && forall op :: op in ops ==> PlainOp(at, op)
    ensures var later := AfterAll(at, Snapped(at, s, paths, now), ops);
      var r := RestoreOf(at, later, Some(NextId(s, now)));
      && (forall p :: p in Taken(at, s, paths, now).paths ==> At(r.files, Source(at, p)) == At(s.files, Source(at, p)))
      && (forall l :: (forall p :: p in Taken(at, s, paths, now).paths ==> Source(at, p) != l) ==>
           At(r.files, l) == At(later.files, l))
      && r.missing == [] && r.restored == Taken(at, s, paths, now).paths
  {
    var snap, taken := Taken(at, s, paths, now), Snapped(at, s, paths, now);
    BackedAreGiven(at, snap.id, s.files, paths, |paths|);
    PlainIsApart(at, snap.id, snap.paths);
    PlainStays(at, s, Snap(paths, now));
    forall p | p in snap.paths ensures Spares(at, taken, ops, Backup(at, snap.id, p)) {
      PlainSpares(at, taken, ops, snap, p);
    }
    RestoreRoundTrip(at, s, paths, now, ops);
  }

  /** When two snapshots of a file share the place of the backup, restoring the first gives the second content. */
  lemma SharedBackupIsLost(at: Place, s: State, p: string, content: string)
    requires s.manifest == [] && IsCopied(at, SnapId(1, 0), s.files, p)
    requires Backup(at, SnapId(1, 0), p) == Backup(at, SnapId(2, 0), p)
    ensures var later := AfterAll(at, Snapped(at, s, [p], 0), [Edit(Source(at, p), Some(content)), Snap([p], 0)]);
      At(Restored(at, later, Some(SnapId(1, 0))).files, Source(at, p)) == Some(content)
  {
    var edit, again := Edit(Source(at, p), Some(content)), Snap([p], 0);
    var ops := [edit, again];
    var taken := Snapped(at, s, [p], 0);
    OneCopy(at, s, p, 0);
    var edited := After(at, taken, edit);
    OneCopy(at, edited, p, 0);
    var later := After(at, edited, again);
    assert ops[1..] == [again] && ops[1..][1..] == [];
    assert AfterAll(at, taken, ops) == AfterAll(at, edited, ops[1..]) == AfterAll(at, later, []) == later;
    var snap := Snapshot(SnapId(1, 0), [p]);
    assert Chosen(later.manifest, Some(snap.id)) == snap;
    assert RestoreFirst(at, snap, later.files, 1)
        == RestoreOne(at, snap.id, RestoreFirst(at, snap, later.files, 0), p);
  }

  /** Two snapshots of "../f" do: the first content is lost. */
  lemma ClimbingBackupIsLost()
    ensures var at, s := Place(["r"], ["d"]), State(map[["f"] := "1"], []);
      var later := AfterAll(at, Snapped(at, s, ["../f"], 0), [Edit(["f"], Some("2")), Snap(["../f"], 0)]);
      Source(at, "../f") == ["f"] && At(Restored(at, later, Some(SnapId(1, 0))).files, ["f"]) == Some("2")
  {
    var at := Place(["r"], ["d"]);
    ClimbsOut(["r"]);
    assert Source(at, "../f") == ["f"];
    forall id: SnapId ensures Backup(at, id, "../f") == ["d", "f"] {
      ClimbsOut(["d", IdName(id)]);
      assert at.dir + [IdName(id)] == ["d", IdName(id)];
    }
    SharedBackupIsLost(at, State(map[["f"] := "1"], []), "../f", "2");
  }

  lemma ClimbingNames()
    ensures Names("../f", "") == ["..", "f"] && !IsAbsolute("../f")
  {
    var p := "../f";
    assert p[1..] == "./f" && "./f"[1..] == "/f" && "/f"[1..] == "f" && "f"[1..] == "";
    assert "" + "." == "." && "." + "." == ".." && "" + "f" == "f";
    assert Names("f", "") == Names("", "f") == ["f"];
    assert Names("/f", "..") == [".."] + Names("f", "");
    assert Names("./f", ".") == Names("/f", "..");
    assert Names(p, "") == Names("./f", ".");
  }

  lemma ClimbsOut(base: Location)
    requires base != []
    ensures Resolve(base, "../f") == base[..|base| - 1] + ["f"]
  {
    ClimbingNames();
    assert ["..", "f"][1..] == ["f"] && ["f"][1..] == [];
    assert Walk(base, ["..", "f"]) == Walk(base[..|base| - 1], ["f"]);
  }

  /** A snapshot of one file. */
  lemma OneCopy(at: Place, s: State, p: string, now: nat)
    requires IsCopied(at, NextId(s, now), s.files, p)
    ensures Taken(at, s, [p], now).paths == [p]
    ensures Snapped(at, s, [p], now)
         == State(s.files[Backup(at, NextId(s, now), p) := s.files[Source(at, p)]],
                  s.manifest + [Snapshot(NextId(s, now), [p])])
  {
    var id := NextId(s, now);
    assert CopyFirst(at, id, s.files, [p], 1) == CopyOne(at, id, CopyFirst(at, id, s.files, [p], 0), p);
    assert [] + [p] == [p];
  }

  /** An id no snapshot has restores the latest snapshot instead of failing. */
  lemma {:induction false} UnknownIdRestoresLatest(manifest: seq<Snapshot>, id: SnapId)
    requires manifest != [] && forall i :: 0 <= i < |manifest| ==> manifest[i].id != id
    ensures Chosen(manifest, Some(id)) == manifest[|manifest| - 1]
  {
    FirstWithMisses(manifest, id, manifest[|manifest| - 1]);
  }

  /** Without an id the latest snapshot is restored, with one the first that has it. */
  lemma ChosenIs(manifest: seq<Snapshot>, id: SnapId, k: nat)
    requires manifest != []
    ensures Chosen(manifest, None) == manifest[|manifest| - 1]
    ensures k < |manifest| && manifest[k].id == id && (forall i :: 0 <= i < k ==> manifest[i].id != id) ==>
      Chosen(manifest, Some(id)) == manifest[k]
  {
    if k < |manifest| && manifest[k].id == id && (forall i :: 0 <= i < k ==> manifest[i].id != id) {
      FirstWithFinds(manifest, id, manifest[|manifest| - 1], k);
    }
  }

  /** Asking for a snapshot by id selects one with that id exactly when there is one. */
  lemma ChosenIsAskedForIff(manifest: seq<Snapshot>, id: SnapId)
    requires manifest != []
    ensures Chosen(manifest, Some(id)).id == id <==> exists i :: 0 <= i < |manifest| && manifest[i].id == id
  {
    FirstWithIs(manifest, id, manifest[|manifest| - 1]);
    if Chosen(manifest, Some(id)).id == id && manifest[|manifest| - 1].id != id {
      var i :| 0 <= i < |manifest| && manifest[i] == Chosen(manifest, Some(id));
    }
  }

  lemma {:induction false} FirstWithIs(manifest: seq<Snapshot>, id: SnapId, otherwise: Snapshot)
    ensures FirstWith(manifest, id, otherwise) == otherwise || FirstWith(manifest, id, otherwise) in manifest
    ensures (exists i :: 0 <= i < |manifest| && manifest[i].id == id) ==> FirstWith(manifest, id, otherwise).id == id
  {
    if manifest != [] && manifest[0].id != id {
      FirstWithIs(manifest[1..], id, otherwise);
      if i :| 0 <= i < |manifest| && manifest[i].id == id {
        assert manifest[1..][i - 1] == manifest[i];
      }
    }
  }

  lemma ChosenIsListed(manifest: seq<Snapshot>, id: Option<SnapId>)
    requires manifest != []
    ensures exists i :: 0 <= i < |manifest| && manifest[i] == Chosen(manifest, id)
  {
    if id.Some? {
      FirstWithIs(manifest, id.value, manifest[|manifest| - 1]);
    }
    assert Chosen(manifest, id) == manifest[|manifest| - 1] || Chosen(manifest, id) in manifest;
  }

  lemma {:induction false} FirstWithMisses(manifest: seq<Snapshot>, id: SnapId, otherwise: Snapshot)
    requires forall i :: 0 <= i < |manifest| ==> manifest[i].id != id
    ensures FirstWith(manifest, id, otherwise) == otherwise
  {
    if manifest != [] {
      FirstWithMisses(manifest[1..], id, otherwise);
    }
  }
}

/** Install receipts and their reverse replay (cli/src/receipts.rs). */
module Rollback {
  import opened Sequences

  type Path = string

  /** File contents; only equality and the digest matter. */
  type Content = string

  type Files = map<Path, Content>

  datatype Action =
    | FileModified(path: Path, backup: Path, shaBefore: string, shaAfter: string)
    | FileCreated(path: Path, shaAfter: string)
    | PathAdded(entry: string)
    | DefenderExcluded(excluded: Path)
    | McpRegistered(platform: string, hostFile: Path)

  /** What lies outside the receipt: the digest, the registry file of a platform, and how the entry of this
      program is taken out of a registry file (`None` when the file cannot be parsed). */
  datatype World = World(sha: Content -> string, registry: string -> Path, strip: (string, Content) -> Option<Content>)

  /** The digest tells contents apart and is never empty. */
  ghost predicate Faithful(w: World) {
    && (forall c :: w.sha(c) != "")
    && (forall c, d :: w.sha(c) == w.sha(d) ==> c == d)
  }

  function Lookup(files: Files, p: Path): Option<Content> {
    if p in files then Some(files[p]) else None
  }

  /** `sha256_of_file`: empty for a file that cannot be read. */
  function ShaOf(w: World, files: Files, p: Path): string {
    if p in files then w.sha(files[p]) else ""
  }

  predicate Drifted(w: World, files: Files, p: Path, shaAfter: string) {
    var current := ShaOf(w, files, p);
    shaAfter != "" && current != shaAfter && current != ""
  }

  /** The files after one action is undone, or `None` when it is refused. */
  function Undo(w: World, files: Files, a: Action): Option<Files> {
    match a
    case FileModified(path, backup, _, shaAfter) =>
      if Drifted(w, files, path, shaAfter) then None
      else if backup !in files then None
      else Some(files[path := files[backup]])
    case FileCreated(path, shaAfter) =>
      if path !in files then Some(files)
      else if Drifted(w, files, path, shaAfter) then None
      else Some(files - {path})
    case PathAdded(_) => None
    case DefenderExcluded(_) => Some(files)
    case McpRegistered(platform, _) =>
      var path := w.registry(platform);
      if path !in files then None
      else match w.strip(platform, files[path])
        case None => None
        case Some(stripped) => Some(files[path := stripped])
  }

  /** A refused action leaves the files as they are. */
  function Undone(w: World, files: Files, a: Action): Files {
    match Undo(w, files, a) case None => files case Some(after) => after
  }

  /** The actions undone newest first. */
  function RolledBack(w: World, files: Files, actions: seq<Action>): Files
    decreases |actions|
  {
    if actions == [] then files
    else RolledBack(w, Undone(w, files, actions[|actions| - 1]), actions[..|actions| - 1])
  }

  class Disk {
    var files: Files

    constructor (files: Files)
      ensures this.files == files
    {
      this.files := files;
    }
  }

  /** Actions reversed, refused, and left to the user, in the order they were met. */
  datatype Summary = Summary(reversed: seq<Action>, skipped: seq<Action>, manual: seq<Action>)

  method UndoFileModified(w: World, disk: Disk, target: Path, backup: Path, shaAfter: string) returns (ok: bool)
    modifies disk
    ensures var r := Undo(w, old(disk.files), FileModified(target, backup, "", shaAfter));
      ok == r.Some? && disk.files == if ok then r.value else old(disk.files)
  {
    var current := ShaOf(w, disk.files, target);
    if shaAfter != "" && current != shaAfter && current != "" {
      return false;
    }
    if backup !in disk.files {
      return false;
    }
    disk.files := disk.files[target := disk.files[backup]];
    return true;
  }

  method UndoFileCreated(w: World, disk: Disk, target: Path, shaAfter: string) returns (ok: bool)
    modifies disk
    ensures var r := Undo(w, old(disk.files), FileCreated(target, shaAfter));
      ok == r.Some? && disk.files == if ok then r.value else old(disk.files)
  {
    if target !in disk.files {
      return true;
    }
    var current := ShaOf(w, disk.files, target);
    if shaAfter != "" && current != shaAfter && current != "" {
      return false;
    }
    disk.files := disk.files - {target};
    return true;
  }

  method UndoMcpEntry(w: World, disk: Disk, platform: string, hostFile: Path) returns (ok: bool)
    modifies disk
    ensures var r := Undo(w, old(disk.files), McpRegistered(platform, hostFile));
      ok == r.Some? && disk.files == if ok then r.value else old(disk.files)
  {
    var path := w.registry(platform);
    if path !in disk.files {
      return false;
    }
    var stripped := w.strip(platform, disk.files[path]);
    if stripped.None? {
      return false;
    }
    disk.files := disk.files[path := stripped.value];
    return true;
  }

  /** Undoes one action, or refuses to. */
  method UndoAction(w: World, disk: Disk, a: Action) returns (ok: bool)
    modifies disk
    ensures ok == Undo(w, old(disk.files), a).Some? && disk.files == Undone(w, old(disk.files), a)
  {
    match a {
      case FileModified(path, backup, _, shaAfter) => ok := UndoFileModified(w, disk, path, backup, shaAfter);
      case FileCreated(path, shaAfter) => ok := UndoFileCreated(w, disk, path, shaAfter);
      case PathAdded(entry) => ok := false;
      case DefenderExcluded(path) => ok := true;
      case McpRegistered(platform, hostFile) => ok := UndoMcpEntry(w, disk, platform, hostFile);
    }
  }

  function Entered(summary: Summary, a: Action, ok: bool): Summary {
    if a.DefenderExcluded? then summary.(manual := summary.manual + [a])
    else if ok then summary.(reversed := summary.reversed + [a])
    else summary.(skipped := summary.skipped + [a])
  }

  ghost function Mentioned(summary: Summary): multiset<Action> {
    multiset(summary.reversed) + multiset(summary.skipped) + multiset(summary.manual)
  }

  lemma EnteredMentions(summary: Summary, a: Action, ok: bool)
    ensures Mentioned(Entered(summary, a, ok)) == Mentioned(summary) + multiset{a}
  {
  }

  /** The files when the turn of action `k` comes: those behind it have been undone. */
  ghost function FilesAt(w: World, files: Files, actions: seq<Action>, k: nat): Files
    requires k < |actions|
  {
    RolledBack(w, files, actions[k + 1..])
  }

  /** Action `k` is undone when its turn comes. */
  ghost predicate Succeeds(w: World, files: Files, actions: seq<Action>, k: nat)
    requires k < |actions|
  {
    Undo(w, FilesAt(w, files, actions, k), actions[k]).Some?
  }

  /** The actions from position `k` on that are picked, last first. */
  ghost function Listing(actions: seq<Action>, k: nat, picked: nat -> bool): seq<Action>
    requires k <= |actions|
    decreases |actions| - k
  {
    if k == |actions| then [] else Listing(actions, k + 1, picked) + if picked(k) then [actions[k]] else []
  }

  ghost function IsReversed(w: World, files: Files, actions: seq<Action>): nat -> bool {
    (k: nat) => k < |actions| && !actions[k].DefenderExcluded? && Succeeds(w, files, actions, k)
  }

  ghost function IsSkipped(w: World, files: Files, actions: seq<Action>): nat -> bool {
    (k: nat) => k < |actions| && !actions[k].DefenderExcluded? && !Succeeds(w, files, actions, k)
  }

  ghost function IsManual(actions: seq<Action>): nat -> bool {
    (k: nat) => k < |actions| && actions[k].DefenderExcluded?
  }

  /** The summary of the actions from position `k` on. */
  ghost function SummaryFrom(w: World, files: Files, actions: seq<Action>, k: nat): Summary
    requires k <= |actions|
  {
    Summary(Listing(actions, k, IsReversed(w, files, actions)), Listing(actions, k, IsSkipped(w, files, actions)),
            Listing(actions, k, IsManual(actions)))
  }

  /** Undoing a list of actions ends with its first. */
  lemma {:induction false} RolledBackFront(w: World, files: Files, a: Action, rest: seq<Action>)
    ensures RolledBack(w, files, [a] + rest) == Undone(w, RolledBack(w, files, rest), a)
    decreases |rest|
  {
    var all := [a] + rest;
    if rest == [] {
      assert all[..0] == [];
    } else {
      var init, last := rest[..|rest| - 1], rest[|rest| - 1];
      assert all[..|all| - 1] == [a] + init;
      RolledBackFront(w, Undone(w, files, last), a, init);
    }
  }

  lemma SummaryStep(w: World, files: Files, actions: seq<Action>, k: nat)
    requires k < |actions|
    ensures
      var now := RolledBack(w, files, actions[k + 1..]);
      && RolledBack(w, files, actions[k..]) == Undone(w, now, actions[k])
      && SummaryFrom(w, files, actions, k)
         == Entered(SummaryFrom(w, files, actions, k + 1), actions[k], Undo(w, now, actions[k]).Some?)
  {
    assert actions[k..] == [actions[k]] + actions[k + 1..];
    RolledBackFront(w, files, actions[k], actions[k + 1..]);
  }

  lemma FrontCounted(actions: seq<Action>, k: nat)
    requires k < |actions|
    ensures multiset(actions[k..]) == multiset(actions[k + 1..]) + multiset{actions[k]}
  {
    assert actions[k..] == [actions[k]] + actions[k + 1..];
  }

  lemma NextMentioned(w: World, files: Files, actions: seq<Action>, k: nat)
    requires k < |actions|
    ensures Mentioned(SummaryFrom(w, files, actions, k))
         == Mentioned(SummaryFrom(w, files, actions, k + 1)) + multiset{actions[k]}
  {
    SummaryStep(w, files, actions, k);
    EnteredMentions(SummaryFrom(w, files, actions, k + 1), actions[k],
                    Undo(w, RolledBack(w, files, actions[k + 1..]), actions[k]).Some?);
  }

  /** Every action is in exactly one list of the summary. */
  lemma {:induction false} SummaryMentions(w: World, files: Files, actions: seq<Action>, k: nat)
    requires k <= |actions|
    ensures Mentioned(SummaryFrom(w, files, actions, k)) == multiset(actions[k..])
    decreases |actions| - k
  {
    if k < |actions| {
      SummaryMentions(w, files, actions, k + 1);
      NextMentioned(w, files, actions, k);
      FrontCounted(actions, k);
    }
  }

  /** Replays the receipt backwards.  Of the actions, last first, the summary lists those that were undone, those
      that were refused, and those that are left to the user. */
  method Rollback(w: World, disk: Disk, actions: seq<Action>) returns (summary: Summary)
    modifies disk
    ensures disk.files == RolledBack(w, old(disk.files), actions)
    ensures summary.reversed == Listing(actions, 0, IsReversed(w, old(disk.files), actions))
    ensures summary.skipped == Listing(actions, 0, IsSkipped(w, old(disk.files), actions))
    ensures summary.manual == Listing(actions, 0, IsManual(actions))
    ensures Mentioned(summary) == multiset(actions)
  {
    ghost var files := disk.files;
    summary := Summary([], [], []);
    var k := |actions|;
    while k > 0
      invariant 0 <= k <= |actions|
      invariant disk.files == RolledBack(w, files, actions[k..]) && summary == SummaryFrom(w, files, actions, k)
    {
      k := k - 1;
      SummaryStep(w, files, actions, k);
      var ok := UndoAction(w, disk, actions[k]);
      summary := Entered(summary, actions[k], ok);
    }
    assert actions[0..] == actions;
    SummaryMentions(w, files, actions, 0);
  }

  // ----- histories -----

  /** The file an action targets, if it is one the receipt tracks by digest. */
  ghost predicate Targets(a: Action, p: Path) {
    (a.FileModified? || a.FileCreated?) && a.path == p
  }

  /** The action records the step from `before` to `after` at its path, and its backup still holds `before`. */
  ghost predicate RecordsStep(w: World, files: Files, a: Action, before: Option<Content>, after: Option<Content>)
    requires a.FileModified? || a.FileCreated?
  {
    && after.Some? && a.shaAfter == w.sha(after.value)
    && (a.FileModified? ==> before.Some? && Lookup(files, a.backup) == before)
    && (a.FileCreated? ==> before.None?)
  }

  /** The actions at `p` record the versions `vs`, oldest first, from the one before the install on. */
  ghost predicate History(w: World, files: Files, actions: seq<Action>, p: Path, vs: seq<Option<Content>>)
    decreases |actions|
  {
    if actions == [] then |vs| == 1
    else
      var a, init := actions[|actions| - 1], actions[..|actions| - 1];
      if Targets(a, p) then
        |vs| >= 2 && RecordsStep(w, files, a, vs[|vs| - 2], vs[|vs| - 1]) && History(w, files, init, p, vs[..|vs| - 1])
      else History(w, files, init, p, vs)
  }

  /** The path an action may write when undone. */
  ghost predicate Writes(w: World, a: Action, p: Path) {
    Targets(a, p) || (a.McpRegistered? && w.registry(a.platform) == p)
  }

  /** No action writes a backup of `p`, and none rewrites `p` as a registry file. */
  ghost predicate Undisturbed(w: World, actions: seq<Action>, p: Path) {
    forall a, b :: a in actions && b in actions ==>
      && (a.McpRegistered? ==> w.registry(a.platform) != p)
      && (b.FileModified? && b.path == p ==> !Writes(w, a, b.backup))
  }

  lemma UndoneElsewhere(w: World, files: Files, a: Action, q: Path)
    requires !Writes(w, a, q)
    ensures Lookup(Undone(w, files, a), q) == Lookup(files, q)
  {
  }

  lemma {:induction false} HistoryKept(
    w: World, files: Files, after: Files, actions: seq<Action>, p: Path, vs: seq<Option<Content>>)
    requires History(w, files, actions, p, vs)
    requires forall b :: b in actions && b.FileModified? && b.path == p ==>
        Lookup(after, b.backup) == Lookup(files, b.backup)
    ensures History(w, after, actions, p, vs)
    decreases |actions|
  {
    if actions != [] {
      var a, init := actions[|actions| - 1], actions[..|actions| - 1];
      assert a in actions && forall b :: b in init ==> b in actions;
      HistoryKept(w, files, after, init, p, if Targets(a, p) then vs[..|vs| - 1] else vs);
    }
  }

  /** What a rollback makes of content `x` at a path with history `vs`. */
  ghost function Restored(vs: seq<Option<Content>>, x: Option<Content>): Option<Content>
    requires |vs| >= 1
  {
    if |vs| >= 2 && (x.None? || x in vs[1..]) then vs[0] else x
  }

  lemma {:induction false} HistoryShape(w: World, files: Files, actions: seq<Action>, p: Path, vs: seq<Option<Content>>)
    requires History(w, files, actions, p, vs)
    ensures |vs| >= 1 && forall i :: 1 <= i < |vs| ==> vs[i].Some?
    decreases |actions|
  {
    if actions != [] {
      var a, init := actions[|actions| - 1], actions[..|actions| - 1];
      HistoryShape(w, files, init, p, if Targets(a, p) then vs[..|vs| - 1] else vs);
    }
  }

  /** Undoing the newest step: a matching or missing file goes back one version, any other is kept. */
  lemma StepBack(w: World, files: Files, a: Action, before: Option<Content>, after: Option<Content>)
    requires Faithful(w) && (a.FileModified? || a.FileCreated?) && RecordsStep(w, files, a, before, after)
    ensures
      var x := Lookup(files, a.path);
      Lookup(Undone(w, files, a), a.path) == if x.None? || x == after then before else x
  {
  }

  lemma RestoredStep(vs: seq<Option<Content>>, x: Option<Content>)
    requires |vs| >= 2 && forall i :: 1 <= i < |vs| ==> vs[i].Some?
    ensures
      var n := |vs| - 1;
      Restored(vs, x) == Restored(vs[..n], if x.None? || x == vs[n] then vs[n - 1] else x)
  {
    var n := |vs| - 1;
    assert vs[1..] == vs[..n][1..] + [vs[n]];
    if n >= 2 {
      assert vs[..n][1..][n - 2] == vs[n - 1];
    }
  }

  /** Rolling back leaves a path as it was before the install when the file is missing or still at a
      recorded version, and as it is otherwise. */
  lemma {:induction false} RollbackRestores(
    w: World, files: Files, actions: seq<Action>, p: Path, vs: seq<Option<Content>>)
    requires Faithful(w) && Undisturbed(w, actions, p) && History(w, files, actions, p, vs)
    ensures |vs| >= 1 && Lookup(RolledBack(w, files, actions), p) == Restored(vs, Lookup(files, p))
    decreases |actions|
  {
    HistoryShape(w, files, actions, p, vs);
    if actions != [] {
      var a, init := actions[|actions| - 1], actions[..|actions| - 1];
      var after := Undone(w, files, a);
      assert a in actions && forall b :: b in init ==> b in actions;
      forall b | b in init && b.FileModified? && b.path == p
        ensures Lookup(after, b.backup) == Lookup(files, b.backup)
      {
        UndoneElsewhere(w, files, a, b.backup);
      }
      var vs' := if Targets(a, p) then vs[..|vs| - 1] else vs;
      HistoryKept(w, files, after, init, p, vs');
      RollbackRestores(w, after, init, p, vs');
      if Targets(a, p) {
        StepBack(w, files, a, vs[|vs| - 2], vs[|vs| - 1]);
        RestoredStep(vs, Lookup(files, p));
      } else {
        UndoneElsewhere(w, files, a, p);
      }
    }
  }

  // ----- consequences -----

  /** An install nobody edited afterwards is undone exactly. */
  lemma UndriftedIsUndone(w: World, files: Files, actions: seq<Action>, p: Path, vs: seq<Option<Content>>)
    requires Faithful(w) && Undisturbed(w, actions, p) && History(w, files, actions, p, vs)
    requires |vs| >= 1 && Lookup(files, p) == vs[|vs| - 1]
    ensures Lookup(RolledBack(w, files, actions), p) == vs[0]
  {
    RollbackRestores(w, files, actions, p, vs);
    if |vs| >= 2 {
      assert vs[1..][|vs| - 2] == vs[|vs| - 1];
    }
  }

  /** A path no action writes is left alone. */
  lemma {:induction false} OthersUntouched(w: World, files: Files, actions: seq<Action>, p: Path)
    requires forall a :: a in actions ==> !Writes(w, a, p)
    ensures Lookup(RolledBack(w, files, actions), p) == Lookup(files, p)
    decreases |actions|
  {
    if actions != [] {
      var a, init := actions[|actions| - 1], actions[..|actions| - 1];
      assert a in actions && forall b :: b in init ==> b in actions;
      UndoneElsewhere(w, files, a, p);
      OthersUntouched(w, Undone(w, files, a), init, p);
    }
  }

  /** No action writes a file that some action names as its backup. */
  ghost predicate BackupsIntact(w: World, actions: seq<Action>) {
    forall a, b :: a in actions && b in actions && b.FileModified? ==> !Writes(w, a, b.backup)
  }

  /** Rolling back once more changes nothing. */
  lemma SecondRollbackIdle(w: World, files: Files, actions: seq<Action>, p: Path, vs: seq<Option<Content>>)
    requires Faithful(w) && Undisturbed(w, actions, p) && BackupsIntact(w, actions)
    requires History(w, files, actions, p, vs)
    ensures
      var once := RolledBack(w, files, actions);
      Lookup(RolledBack(w, once, actions), p) == Lookup(once, p)
  {
    var once := RolledBack(w, files, actions);
    RollbackRestores(w, files, actions, p, vs);
    forall b | b in actions && b.FileModified? && b.path == p
      ensures Lookup(once, b.backup) == Lookup(files, b.backup)
    {
      OthersUntouched(w, files, actions, b.backup);
    }
    HistoryKept(w, files, once, actions, p, vs);
    RollbackRestores(w, once, actions, p, vs);
  }

  // ----- the registry entry is taken out first -----

  /** The content of `p` once the registry entry of `platform` has been taken out. */
  ghost function Stripped(w: World, platform: string, x: Option<Content>): Option<Content> {
    if x.None? then None
    else match w.strip(platform, x.value) case None => x case Some(c) => Some(c)
  }

  /**
   * The installer records the registry file as modified and then as holding an entry, so that rollback
   * takes the entry out before it looks for drift.  An unedited install is then undone at that file
   * if and only if taking the entry out leaves a version the receipt knows.
   */
  lemma RegistryUndoneIff(
    w: World, files: Files, actions: seq<Action>, platform: string, host: Path, vs: seq<Option<Content>>)
    requires Faithful(w) && Undisturbed(w, actions, w.registry(platform))
    requires History(w, files, actions, w.registry(platform), vs) && |vs| >= 2
    requires forall b :: b in actions && b.FileModified? ==> b.backup != w.registry(platform)
    requires Lookup(files, w.registry(platform)) == vs[|vs| - 1]
    ensures
      var p := w.registry(platform);
      var result := Lookup(RolledBack(w, files, actions + [McpRegistered(platform, host)]), p);
      && (result == vs[0] <==> Stripped(w, platform, vs[|vs| - 1]) in vs)
      && (result != vs[0] ==> result == Stripped(w, platform, vs[|vs| - 1]))
  {
    var p, a := w.registry(platform), McpRegistered(platform, host);
    var all := actions + [a];
    HistoryShape(w, files, actions, p, vs);
    assert all[..|all| - 1] == actions;
    var after := Undone(w, files, a);
    HistoryKept(w, files, after, actions, p, vs);
    RollbackRestores(w, after, actions, p, vs);
    assert vs == [vs[0]] + vs[1..];
    assert Lookup(after, p) == Stripped(w, platform, vs[|vs| - 1]);
  }
}

/** What the summary of a rollback says of the actions at one path (cli/src/receipts.rs). */
module RollbackSummary {
  import opened Sequences
  import opened Rollback

  lemma {:induction false} InListing(actions: seq<Action>, k: nat, picked: nat -> bool, a: Action)
    requires k <= |actions|
    ensures a in Listing(actions, k, picked) <==> exists i :: k <= i < |actions| && picked(i) && actions[i] == a
    decreases |actions| - k
  {
    if k < |actions| {
      InListing(actions, k + 1, picked, a);
    }
  }

  /** Only the actions behind the first matter for what the first ones find. */
  lemma FilesAtInit(w: World, files: Files, actions: seq<Action>, k: nat)
    requires k + 1 < |actions|
    ensures
      var n := |actions| - 1;
      FilesAt(w, files, actions, k) == FilesAt(w, Undone(w, files, actions[n]), actions[..n], k)
  {
    var n := |actions| - 1;
    var rest := actions[k + 1..];
    assert rest[|rest| - 1] == actions[n] && rest[..|rest| - 1] == actions[..n][k + 1..];
  }

  /** Which version of the file at `p` the action at position `k` recorded. */
  ghost function VersionOf(actions: seq<Action>, p: Path, k: nat): nat
    requires k < |actions|
  {
    (if k == 0 then 0 else VersionOf(actions, p, k - 1)) + if Targets(actions[k], p) then 1 else 0
  }

  lemma {:induction false} VersionInit(actions: seq<Action>, p: Path, k: nat, n: nat)
    requires k < n <= |actions|
    ensures VersionOf(actions[..n], p, k) == VersionOf(actions, p, k)
  {
    if k > 0 {
      VersionInit(actions, p, k - 1, n);
    }
  }

  lemma {:induction false} VersionsRecorded(
    w: World, files: Files, actions: seq<Action>, p: Path, vs: seq<Option<Content>>)
    requires History(w, files, actions, p, vs)
    ensures |vs| == 1 + if actions == [] then 0 else VersionOf(actions, p, |actions| - 1)
    decreases |actions|
  {
    if actions != [] {
      var n := |actions| - 1;
      VersionsRecorded(w, files, actions[..n], p, if Targets(actions[n], p) then vs[..|vs| - 1] else vs);
      if n > 0 {
        VersionInit(actions, p, n - 1, n);
      }
    }
  }

  lemma {:induction false} VersionRises(actions: seq<Action>, p: Path, j: nat, k: nat)
    requires j <= k < |actions|
    ensures VersionOf(actions, p, j) <= VersionOf(actions, p, k)
    ensures Targets(actions[j], p) ==> VersionOf(actions, p, j) >= 1
  {
    if j < k {
      VersionRises(actions, p, j, k - 1);
    }
  }

  /** The newest action at `p` is undone if and only if the file is missing or at the version it recorded. */
  lemma NewestIff(w: World, files: Files, a: Action, before: Option<Content>, after: Option<Content>)
    requires Faithful(w) && (a.FileModified? || a.FileCreated?) && RecordsStep(w, files, a, before, after)
    ensures
      var x := Lookup(files, a.path);
      Undo(w, files, a).Some? <==> x.None? || x == after
  {
  }

  lemma InFirst<T>(vs: seq<T>, i: nat, x: T)
    requires i < |vs| - 1
    ensures x in vs[i..] <==> x in vs[..|vs| - 1][i..] || x == vs[|vs| - 1]
  {
    assert vs[i..] == vs[..|vs| - 1][i..] + [vs[|vs| - 1]];
  }

  /** What the older actions find is what the history without the newest action says. */
  lemma OlderHistory(w: World, files: Files, actions: seq<Action>, p: Path, vs: seq<Option<Content>>)
    requires Faithful(w) && Undisturbed(w, actions, p) && History(w, files, actions, p, vs) && actions != []
    ensures
      var n := |actions| - 1;
      var vs' := if Targets(actions[n], p) then vs[..|vs| - 1] else vs;
      Undisturbed(w, actions[..n], p) && History(w, Undone(w, files, actions[n]), actions[..n], p, vs')
  {
    var n := |actions| - 1;
    var a, init, after := actions[n], actions[..n], Undone(w, files, actions[n]);
    assert a in actions && forall b :: b in init ==> b in actions;
    forall b | b in init && b.FileModified? && b.path == p
      ensures Lookup(after, b.backup) == Lookup(files, b.backup)
    {
      UndoneElsewhere(w, files, a, b.backup);
    }
    HistoryKept(w, files, after, init, p, if Targets(a, p) then vs[..|vs| - 1] else vs);
  }

  /** An action at `p` is undone if and only if the file is missing, or at the version it recorded or a later one. */
  lemma {:induction false} SucceedsIff(
    w: World, files: Files, actions: seq<Action>, p: Path, vs: seq<Option<Content>>, k: nat)
    requires Faithful(w) && Undisturbed(w, actions, p) && History(w, files, actions, p, vs)
    requires k < |actions| && Targets(actions[k], p)
    ensures
      var x, i := Lookup(files, p), VersionOf(actions, p, k);
      1 <= i < |vs| && (Succeeds(w, files, actions, k) <==> x.None? || x in vs[i..])
    decreases |actions|
  {
    var n := |actions| - 1;
    VersionsRecorded(w, files, actions, p, vs);
    VersionRises(actions, p, k, n);
    var i := VersionOf(actions, p, k);
    if k == n {
      assert actions[n + 1..] == [] && vs[i..] == [vs[i]];
      NewestIff(w, files, actions[n], vs[|vs| - 2], vs[|vs| - 1]);
    } else {
      OlderHistory(w, files, actions, p, vs);
      FilesAtInit(w, files, actions, k);
      VersionInit(actions, p, k, n);
      var a := actions[n];
      SucceedsIff(w, Undone(w, files, a), actions[..n], p, if Targets(a, p) then vs[..|vs| - 1] else vs, k);
      if Targets(a, p) {
        StepBack(w, files, a, vs[|vs| - 2], vs[|vs| - 1]);
        HistoryShape(w, files, actions, p, vs);
        InFirst(vs, i, Lookup(files, p));
      } else {
        UndoneElsewhere(w, files, a, p);
      }
    }
  }

  // ----- in the summary -----

  ghost function Reversed(w: World, files: Files, actions: seq<Action>): seq<Action> {
    Listing(actions, 0, IsReversed(w, files, actions))
  }

  ghost function Skipped(w: World, files: Files, actions: seq<Action>): seq<Action> {
    Listing(actions, 0, IsSkipped(w, files, actions))
  }

  lemma LastIn<T>(vs: seq<T>, i: nat)
    requires i < |vs|
    ensures vs[|vs| - 1] in vs[i..]
  {
    assert vs[i..][|vs| - 1 - i] == vs[|vs| - 1];
  }

  lemma UneditedSucceeds(
    w: World, files: Files, actions: seq<Action>, p: Path, vs: seq<Option<Content>>, k: nat)
    requires Faithful(w) && Undisturbed(w, actions, p) && History(w, files, actions, p, vs)
    requires k < |actions| && Targets(actions[k], p) && |vs| > 0
    requires Lookup(files, p) == None || Lookup(files, p) == vs[|vs| - 1]
    ensures Succeeds(w, files, actions, k)
  {
    SucceedsIff(w, files, actions, p, vs, k);
    LastIn(vs, VersionOf(actions, p, k));
  }

  /** Of an install that nobody edited, or whose file is gone, no action at the path was refused. */
  lemma UneditedIsReversed(w: World, files: Files, actions: seq<Action>, p: Path, vs: seq<Option<Content>>, a: Action)
    requires Faithful(w) && Undisturbed(w, actions, p) && History(w, files, actions, p, vs)
    requires |vs| > 0 && (Lookup(files, p) == None || Lookup(files, p) == vs[|vs| - 1])
    requires a in actions && Targets(a, p)
    ensures a in Reversed(w, files, actions) && a !in Skipped(w, files, actions)
  {
    InListing(actions, 0, IsReversed(w, files, actions), a);
    InListing(actions, 0, IsSkipped(w, files, actions), a);
    forall k | 0 <= k < |actions| && actions[k] == a
      ensures IsReversed(w, files, actions)(k) && !IsSkipped(w, files, actions)(k)
    {
      UneditedSucceeds(w, files, actions, p, vs, k);
    }
  }

  /** Of a file that drifted from every version recorded, all actions were refused. */
  lemma DriftedIsSkipped(w: World, files: Files, actions: seq<Action>, p: Path, vs: seq<Option<Content>>, a: Action)
    requires Faithful(w) && Undisturbed(w, actions, p) && History(w, files, actions, p, vs)
    requires Lookup(files, p).Some? && |vs| > 0 && Lookup(files, p) !in vs[1..]
    requires a in actions && Targets(a, p)
    ensures a in Skipped(w, files, actions) && a !in Reversed(w, files, actions)
  {
    InListing(actions, 0, IsReversed(w, files, actions), a);
    InListing(actions, 0, IsSkipped(w, files, actions), a);
    forall k | 0 <= k < |actions| && actions[k] == a
      ensures IsSkipped(w, files, actions)(k) && !IsReversed(w, files, actions)(k)
    {
      SucceedsIff(w, files, actions, p, vs, k);
      var i := VersionOf(actions, p, k);
      assert vs[i..] == vs[1..][i - 1..];
    }
  }

  /** An entry of the search path is never taken out, and an exclusion is left to the user. */
  lemma NeverReversed(w: World, files: Files, actions: seq<Action>, a: Action)
    requires a in actions && (a.PathAdded? || a.DefenderExcluded?)
    ensures a !in Reversed(w, files, actions)
    ensures a.PathAdded? <==> a in Skipped(w, files, actions)
    ensures a.DefenderExcluded? <==> a in Listing(actions, 0, IsManual(actions))
  {
    InListing(actions, 0, IsReversed(w, files, actions), a);
    InListing(actions, 0, IsSkipped(w, files, actions), a);
    InListing(actions, 0, IsManual(actions), a);
    var k :| 0 <= k < |actions| && actions[k] == a;
    assert IsManual(actions)(k) <==> a.DefenderExcluded?;
    assert IsSkipped(w, files, actions)(k) <==> a.PathAdded?;
  }
}

/** When inotify_dtree.c exits: as soon as no root is left. */
module DtreeExit {
  import opened Common
  import opened Paths
  import opened DirForest
  import opened Inotify
  import opened SlotCache
  import opened DtreeSpec
  import opened DtreeCoherence
  import opened DtreeSteps
  import opened DtreeRuns
  import opened DtreeRecovery

  ghost predicate LiveAt(fs: Forest, p: string) {
    exists r :: r in Live(fs) && Live(fs)[r] == p
  }

  /** Every pathname on the list is that of a live root. */
  ghost predicate AllLive(fs: Forest, roots: seq<Option<string>>) {
    forall p :: IsRoot(roots, p) ==> LiveAt(fs, p)
  }

  lemma NoneLive(fs: Forest, roots: seq<Option<string>>)
    requires AllLive(fs, roots) && Tops(fs) == {}
    ensures NoneListed(roots)
  {
    assert forall r :: r in Live(fs) ==> r in Tops(fs);
    assert forall p :: !LiveAt(fs, p);
    assert forall j :: 0 <= j < |roots| && roots[j].Some? ==> IsRoot(roots, roots[j].value);
  }

  lemma StillLive(s: Sys, op: Op, t: Sys, p: string)
    requires Valid(s.fs) && Enabled(s.fs, op) && t.fs == NewForest(s.fs, op) && GoneStruck(s, t)
    requires IsRoot(t.roots, p) && LiveAt(s.fs, p)
    ensures LiveAt(t.fs, p)
  {
    hide Valid, Tree, Enabled, NewForest, IsRoot;
    RootsOnlyGo(s.fs, op);
    LiveIsTrue(s.fs);
    var r :| r in Live(s.fs) && Live(s.fs)[r] == p;
    assert r in Tops(s.fs);
    if r in Tops(t.fs) {
      assert r in Live(t.fs);
    }
  }

  /** Unless a directory above a root is renamed, the program exits with an operation if and only if that
      leaves no root; and if it goes on, its list has the live roots' pathnames and no other. */
  lemma ExitIff(s: Sys, op: Op, w: Walker)
    requires Coherent(s) && Valid(s.fs) && !s.exited && Enabled(s.fs, op) && !Uproots(s.fs, op) && IsWalker(w)
    requires AllLive(s.fs, s.roots) && !NoneListed(s.roots)
    ensures var t := Settle(Act(s, op), w);
      && (t.exited <==> Tops(t.fs) == {}) && (t.exited <==> NoneListed(t.roots)) && AllLive(t.fs, t.roots)
  {
    hide Valid, Tops, Coherent, Enabled, Uproots, IsWalker, Settle, NoneListed, IsRoot, NewForest, NewMarks, EventsOf,
         LiveAt, GoneStruck, Inv, SameWatches, AllKnown;
    OperationSettles(s, op, w);
    var t := Settle(Act(s, op), w);
    forall p | IsRoot(t.roots, p)
      ensures LiveAt(t.fs, p)
    {
      SettleListed(Act(s, op), w, p);
      StillLive(s, op, t, p);
    }
    if Tops(t.fs) == {} {
      NoneLive(t.fs, t.roots);
    }
  }

  /** Removing, moving or replacing the last root ends the program. */
  lemma LastRootGone(s: Sys, op: Op, w: Walker, n: Dir)
    requires Coherent(s) && Valid(s.fs) && !s.exited && Enabled(s.fs, op) && !Uproots(s.fs, op) && IsWalker(w)
    requires AllLive(s.fs, s.roots) && Tops(s.fs) == {n} && Touched(op, n)
    ensures Settle(Act(s, op), w).exited
  {
    hide Valid, Coherent, Enabled, Uproots, IsWalker, Settle, NewForest, NewMarks, EventsOf, AllLive, Touched, RootsOk;
    RootsOnlyGo(s.fs, op);
    LiveIsTrue(s.fs);
    OneListed(s, n);
    ExitIff(s, op, w);
    var fs := NewForest(s.fs, op);
    forall r
      ensures r !in Tops(fs)
    {
      assert r in Tops(fs) ==> r in Live(fs);
      assert r in Live(s.fs) ==> r in Tops(s.fs);
    }
    assert Tops(fs) == {};
  }

  lemma OneListed(s: Sys, n: Dir)
    requires Coherent(s) && Valid(s.fs) && n in Tops(s.fs)
    ensures !NoneListed(s.roots)
  {
    hide Valid, Tree, Tops, Agree, SlotsOk, Entries;
  }

  // ---- runs ----

  /** No event is lost and no rename mishandled. */
  ghost predicate Undisturbed(s: Sys, rounds: seq<Round>, w: Walker)
    requires Valid(s.fs) && LegalRounds(s, rounds, w)
    decreases |rounds|
  {
    rounds == [] || s.exited ||
    (rounds[0].kept.None? && !Misses(s.fs, rounds[0].op) && Undisturbed(Outcome(s, rounds[0], w), rounds[1..], w))
  }

  ghost predicate Listing(s: Sys) {
    if s.exited then Tops(s.fs) == {} else Coherent(s) && AllLive(s.fs, s.roots) && !NoneListed(s.roots)
  }

  lemma {:induction false} RoundsExit(s: Sys, rounds: seq<Round>, w: Walker)
    requires Valid(s.fs) && IsWalker(w) && LegalRounds(s, rounds, w) && Undisturbed(s, rounds, w) && Listing(s)
    ensures Listing(Final(s, rounds, w))
    decreases |rounds|
  {
    hide Valid, Tops, Inv, IsWalker, Settle, NoneListed, AllLive, Enabled, Uproots, Loses, Act;
    if rounds != [] && !s.exited {
      ExitIff(s, rounds[0].op, w);
      CoherentIff(s, rounds[0].op, w);
      RoundsExit(Outcome(s, rounds[0], w), rounds[1..], w);
    }
  }

  /** From a start with all the directories of the command line there: over every run the program goes on
      exactly as long as one of them is left. */
  lemma ProgramExitsIff(fs: Forest, roots: seq<Option<string>>, rounds: seq<Round>, w: Walker)
    requires Valid(fs) && RootsOk(fs, roots) && IsWalker(w) && AllLive(fs, roots) && !NoneListed(roots)
    requires LegalRounds(Started(fs, roots, w), rounds, w) && Undisturbed(Started(fs, roots, w), rounds, w)
    ensures var t := Final(Started(fs, roots, w), rounds, w);
      && (t.exited <==> Tops(t.fs) == {})
      && (!t.exited ==> Coherent(t) && AllLive(t.fs, t.roots))
  {
    hide Valid, Tops, Inv, IsWalker, NoneListed, AllLive, LegalRounds, Undisturbed, Final, RootsOk, Reinit;
    ReinitRestores(Sys(fs, map[], 1, [], [], roots, false), w);
    RoundsExit(Started(fs, roots, w), rounds, w);
    var t := Final(Started(fs, roots, w), rounds, w);
    if !t.exited && Tops(t.fs) == {} {
      NoneLive(t.fs, t.roots);
    }
  }
}

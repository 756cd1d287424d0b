/** What the document manager's history operations compute, as functions of
    values, and the properties they have. The class in module Docs is specified
    by these functions. */
module History {
  import opened Commands

  function Min(a: int, b: int): int
  {
    if a <= b then a else b
  }

  // ---------------------------------------------------------------------------
  // Committing a group and bounding the undo history

  /** undoQueue.LastOrDefault(), compared by identity: the newest group, or
      null when the queue is empty. */
  function LastId(q: seq<Group>): Option<nat>
  {
    if q == [] then None else Some(q[|q| - 1].id)
  }

  /** The eviction loop of EndUndoGroup: drop the front while the queue is
      longer than the limit. */
  function Evicted(q: seq<Group>, limit: nat): seq<Group>
    decreases |q|
  {
    if |q| <= limit then q else Evicted(q[1..], limit)
  }

  /** Eviction keeps exactly the newest `limit` groups, in their order. */
  lemma {:induction false} EvictedKeepsNewest(q: seq<Group>, limit: nat)
    ensures |Evicted(q, limit)| == Min(|q|, limit)
    ensures Evicted(q, limit) == q[|q| - Min(|q|, limit)..]
  {
    if |q| > limit {
      EvictedKeepsNewest(q[1..], limit);
      assert q[1..][|q| - 1 - limit..] == q[|q| - limit..];
    }
  }

  /** The two queues after EndUndoGroup closes group g: a group with commands
      goes to the back of the undo queue and empties the redo queue; the undo
      queue is then cut down to the limit. */
  function Commit(undo: seq<Group>, redo: seq<Group>, g: Group, limit: nat): (seq<Group>, seq<Group>)
  {
    if |g.commands| > 0 then (Evicted(undo + [g], limit), []) else (Evicted(undo, limit), redo)
  }

  /** Committing a group with commands: it becomes the newest entry (unless the
      limit is zero), the redo queue is emptied, and only the oldest entries are
      evicted. */
  lemma CommitAppends(undo: seq<Group>, redo: seq<Group>, g: Group, limit: nat)
    requires |g.commands| > 0
    ensures Commit(undo, redo, g, limit).1 == []
    ensures |Commit(undo, redo, g, limit).0| == Min(|undo| + 1, limit)
    ensures Commit(undo, redo, g, limit).0 == (undo + [g])[|undo| + 1 - Min(|undo| + 1, limit)..]
    ensures limit > 0 ==> LastId(Commit(undo, redo, g, limit).0) == Some(g.id)
  {
    EvictedKeepsNewest(undo + [g], limit);
  }

  /** Committing an empty group appends nothing and leaves the redo queue as it
      was; the limit may still evict the oldest entries. */
  lemma CommitEmptyGroup(undo: seq<Group>, redo: seq<Group>, g: Group, limit: nat)
    requires |g.commands| == 0
    ensures Commit(undo, redo, g, limit).1 == redo
    ensures Commit(undo, redo, g, limit).0 == undo[|undo| - Min(|undo|, limit)..]
  {
    EvictedKeepsNewest(undo, limit);
  }

  // ---------------------------------------------------------------------------
  // Undo and redo

  /** The queues after Undo: the newest undo group moves to the back of the
      redo queue; nothing happens when the undo queue is empty. */
  function UndoStep(undo: seq<Group>, redo: seq<Group>): (seq<Group>, seq<Group>)
  {
    if undo == [] then (undo, redo) else (undo[..|undo| - 1], redo + [undo[|undo| - 1]])
  }

  /** The queues after Redo, the mirror image of UndoStep. */
  function RedoStep(undo: seq<Group>, redo: seq<Group>): (seq<Group>, seq<Group>)
  {
    if redo == [] then (undo, redo) else (undo + [redo[|redo| - 1]], redo[..|redo| - 1])
  }

  /** Undo followed by Redo gives back both queues exactly. */
  lemma UndoThenRedo(undo: seq<Group>, redo: seq<Group>)
    requires undo != []
    ensures RedoStep(UndoStep(undo, redo).0, UndoStep(undo, redo).1) == (undo, redo)
  {
    assert undo[..|undo| - 1] + [undo[|undo| - 1]] == undo;
  }

  /** Redo followed by Undo gives back both queues exactly. */
  lemma RedoThenUndo(undo: seq<Group>, redo: seq<Group>)
    requires redo != []
    ensures UndoStep(RedoStep(undo, redo).0, RedoStep(undo, redo).1) == (undo, redo)
  {
    assert redo[..|redo| - 1] + [redo[|redo| - 1]] == redo;
  }

  /** With an undo limit of two, committing three groups keeps the last two;
      undoing twice moves both to the redo queue, newest first; one redo brings
      back the older of them. */
  lemma LimitTwoHistory(g1: Group, g2: Group, g3: Group)
    requires |g1.commands| > 0 && |g2.commands| > 0 && |g3.commands| > 0
    ensures var h1 := Commit([], [], g1, 2);
            var h2 := Commit(h1.0, h1.1, g2, 2);
            var h3 := Commit(h2.0, h2.1, g3, 2);
            var u1 := UndoStep(h3.0, h3.1);
            var u2 := UndoStep(u1.0, u1.1);
            h3 == ([g2, g3], []) && u2 == ([], [g3, g2]) && RedoStep(u2.0, u2.1) == ([g2], [g3])
  {
    assert Commit([], [], g1, 2) == ([g1], []) by {
      assert [] + [g1] == [g1];
    }
    assert Commit([g1], [], g2, 2) == ([g1, g2], []) by {
      assert [g1] + [g2] == [g1, g2];
    }
    assert Commit([g1, g2], [], g3, 2) == ([g2, g3], []) by {
      var q := [g1, g2] + [g3];
      assert q[1..] == [g2, g3];
      assert Evicted(q, 2) == Evicted(q[1..], 2);
    }
    assert UndoStep([g2, g3], []) == ([g2], [g3]) by {
      assert [g2, g3][..1] == [g2] && [] + [g3] == [g3];
    }
    assert UndoStep([g2], [g3]) == ([], [g3, g2]) by {
      assert [g2][..0] == [] && [g3] + [g2] == [g3, g2];
    }
    assert RedoStep([], [g3, g2]) == ([g2], [g3]) by {
      assert [] + [g2] == [g2] && [g3, g2][..1] == [g3];
    }
  }

  // ---------------------------------------------------------------------------
  // The effect of executing, undoing and redoing commands on the content

  /** The content after executing cmds in order, first to last. */
  function ApplyAll(cmds: seq<Command>, s: Score): Score
    decreases |cmds|
  {
    if cmds == [] then s else cmds[|cmds| - 1].apply(ApplyAll(cmds[..|cmds| - 1], s))
  }

  /** The content after unexecuting cmds last to first: the last command is
      reverted first, the first command last. */
  function RevertAll(cmds: seq<Command>, s: Score): Score
    decreases |cmds|
  {
    if cmds == [] then s else cmds[0].revert(RevertAll(cmds[1..], s))
  }

  /** Executing a + b executes a, then b. */
  lemma {:induction false} ApplyAllConcat(a: seq<Command>, b: seq<Command>, s: Score)
    ensures ApplyAll(a + b, s) == ApplyAll(b, ApplyAll(a, s))
    decreases |b|
  {
    if b == [] {
      assert a + b == a;
    } else {
      var b' := b[..|b| - 1];
      assert (a + b)[..|a + b| - 1] == a + b';
      ApplyAllConcat(a, b', s);
    }
  }

  /** Reverting a + b reverts b first, then a. */
  lemma {:induction false} RevertAllConcat(a: seq<Command>, b: seq<Command>, s: Score)
    ensures RevertAll(a + b, s) == RevertAll(a, RevertAll(b, s))
    decreases |a|
  {
    if a == [] {
      assert a + b == b;
    } else {
      assert (a + b)[1..] == a[1..] + b;
      RevertAllConcat(a[1..], b, s);
    }
  }

  /** Reverting what was just executed gives back the content from before, when
      every command is reversible: the rollback and undo guarantee. */
  lemma {:induction false} RevertAllUndoesApplyAll(cmds: seq<Command>, s: Score)
    requires forall i :: 0 <= i < |cmds| ==> Reversible(cmds[i])
    ensures RevertAll(cmds, ApplyAll(cmds, s)) == s
    decreases |cmds|
  {
    if cmds != [] {
      var front, c := cmds[..|cmds| - 1], cmds[|cmds| - 1];
      assert cmds == front + [c];
      var before := ApplyAll(front, s);
      RevertAllConcat(front, [c], c.apply(before));
      assert RevertAll([c], c.apply(before)) == c.revert(c.apply(before));
      assert Reversible(c);
      RevertAllUndoesApplyAll(front, s);
    }
  }

  /** Executing a group, undoing it and redoing it leaves the content it had
      right after the group was executed. */
  lemma RedoAfterUndoRestores(cmds: seq<Command>, s: Score)
    requires forall i :: 0 <= i < |cmds| ==> Reversible(cmds[i])
    ensures ApplyAll(cmds, RevertAll(cmds, ApplyAll(cmds, s))) == ApplyAll(cmds, s)
  {
    RevertAllUndoesApplyAll(cmds, s);
  }

  // ---------------------------------------------------------------------------
  // Publishing

  /** One Publish call: every subscriber, in registration order, gets the
      command once. */
  function Broadcast(subs: seq<Subscriber>, cmd: UCommand, isUndo: bool): seq<Delivery>
    decreases |subs|
  {
    if subs == [] then []
    else Broadcast(subs[..|subs| - 1], cmd, isUndo) + [Delivery(subs[|subs| - 1], cmd, isUndo)]
  }

  /** Publish reaches each subscriber exactly once and in registration order. */
  lemma {:induction false} BroadcastReachesEach(subs: seq<Subscriber>, cmd: UCommand, isUndo: bool)
    ensures |Broadcast(subs, cmd, isUndo)| == |subs|
    ensures forall i :: 0 <= i < |subs| ==> Broadcast(subs, cmd, isUndo)[i] == Delivery(subs[i], cmd, isUndo)
    decreases |subs|
  {
    if subs != [] {
      BroadcastReachesEach(subs[..|subs| - 1], cmd, isUndo);
    }
  }

  /** The deliveries of Redo: each command published in turn, first to last. */
  function ReplayForward(cmds: seq<Command>, subs: seq<Subscriber>, isUndo: bool): seq<Delivery>
    decreases |cmds|
  {
    if cmds == [] then []
    else ReplayForward(cmds[..|cmds| - 1], subs, isUndo) + Broadcast(subs, Edit(cmds[|cmds| - 1]), isUndo)
  }

  /** The deliveries of Undo and RollBackUndoGroup: each command published in
      turn, last to first. */
  function ReplayBackward(cmds: seq<Command>, subs: seq<Subscriber>, isUndo: bool): seq<Delivery>
    decreases |cmds|
  {
    if cmds == [] then []
    else ReplayBackward(cmds[1..], subs, isUndo) + Broadcast(subs, Edit(cmds[0]), isUndo)
  }

  /** Forward replay publishes the earlier commands first. */
  lemma {:induction false} ReplayForwardConcat(a: seq<Command>, b: seq<Command>, subs: seq<Subscriber>, isUndo: bool)
    ensures ReplayForward(a + b, subs, isUndo) == ReplayForward(a, subs, isUndo) + ReplayForward(b, subs, isUndo)
    decreases |b|
  {
    if b == [] {
      assert a + b == a;
    } else {
      var b', c := b[..|b| - 1], b[|b| - 1];
      var tail := Broadcast(subs, Edit(c), isUndo);
      var x, y := ReplayForward(a, subs, isUndo), ReplayForward(b', subs, isUndo);
      assert ReplayForward(a + b, subs, isUndo) == ReplayForward(a + b', subs, isUndo) + tail by {
        assert (a + b)[..|a + b| - 1] == a + b';
      }
      ReplayForwardConcat(a, b', subs, isUndo);
      assert (x + y) + tail == x + (y + tail);
    }
  }

  /** Backward replay publishes the later commands first. */
  lemma {:induction false} ReplayBackwardConcat(a: seq<Command>, b: seq<Command>, subs: seq<Subscriber>, isUndo: bool)
    ensures ReplayBackward(a + b, subs, isUndo) == ReplayBackward(b, subs, isUndo) + ReplayBackward(a, subs, isUndo)
    decreases |a|
  {
    if a == [] {
      assert a + b == b;
    } else {
      var head := Broadcast(subs, Edit(a[0]), isUndo);
      var x, y := ReplayBackward(b, subs, isUndo), ReplayBackward(a[1..], subs, isUndo);
      assert ReplayBackward(a + b, subs, isUndo) == ReplayBackward(a[1..] + b, subs, isUndo) + head by {
        assert (a + b)[1..] == a[1..] + b;
        assert (a + b)[0] == a[0];
      }
      ReplayBackwardConcat(a[1..], b, subs, isUndo);
      assert (x + y) + head == x + (y + head);
    }
  }

  // ---------------------------------------------------------------------------
  // Saved points and autosave

  /** The ChangesSaved getter: the project is saved (or has no tracks), and the
      saved point is the newest undo group, or null with an empty queue. */
  predicate ChangesSaved(p: Project, undo: seq<Group>, savedPoint: Option<nat>)
  {
    (p.saved || |p.score.tracks| == 0) &&
    ((|undo| > 0 && savedPoint == Some(undo[|undo| - 1].id)) || (|undo| == 0 && savedPoint == None))
  }

  /** ChangesSaved holds exactly when the saved point is the history's newest
      entry, in the sense of LastOrDefault. */
  lemma ChangesSavedAtTail(p: Project, undo: seq<Group>, savedPoint: Option<nat>)
    ensures ChangesSaved(p, undo, savedPoint) <==>
            (p.saved || |p.score.tracks| == 0) && savedPoint == LastId(undo)
  {
  }

  /** The effect assumed of a successful Format.Ustx.Save on the project: it
      now lives at path and counts as saved. */
  function MarkSaved(p: Project, path: string): Project
  {
    p.(filePath := path, saved := true)
  }

  /** SaveProjectNotification as written, on the project and the saved point:
      the saved point moves to the newest undo group (and stays put when the
      queue is empty) before the write is attempted, so it moves even when the
      write throws; only a successful write marks the project saved. */
  function SaveAsWritten(p: Project, undo: seq<Group>, savedPoint: Option<nat>, target: string, writeOk: bool): (Project, Option<nat>)
  {
    var point := if |undo| > 0 then Some(undo[|undo| - 1].id) else savedPoint;
    (if writeOk then MarkSaved(p, target) else p, point)
  }

  /** The save the code evidently intends: a successful write marks the project
      saved and records the history's newest entry (null when the history is
      empty) as the saved point; a failed write changes neither. */
  function Save(p: Project, undo: seq<Group>, savedPoint: Option<nat>, target: string, writeOk: bool): (Project, Option<nat>)
  {
    if writeOk then (MarkSaved(p, target), LastId(undo)) else (p, savedPoint)
  }

  /** The two differ in exactly two situations: a successful save with an empty
      history and a saved point still set, and a failed save with a history
      whose newest entry is not the saved point. */
  lemma SaveAsWrittenDiffers(p: Project, undo: seq<Group>, savedPoint: Option<nat>, target: string, writeOk: bool)
    ensures SaveAsWritten(p, undo, savedPoint, target, writeOk) != Save(p, undo, savedPoint, target, writeOk)
            <==> (writeOk && undo == [] && savedPoint.Some?)
                 || (!writeOk && undo != [] && savedPoint != LastId(undo))
  {
  }

  /** As written, saving after undoing every group since an earlier save leaves
      ChangesSaved false although the project has just been written. */
  lemma SaveAsWrittenLeavesChangesUnsaved(p: Project, target: string, savedPoint: Option<nat>)
    requires savedPoint.Some?
    ensures var (p', point) := SaveAsWritten(p, [], savedPoint, target, true);
            !ChangesSaved(p', [], point)
  {
  }

  /** As written, a save whose write throws still turns ChangesSaved from false
      to true for a project saved before, although nothing was written. */
  lemma FailedSaveAsWrittenClaimsSaved(p: Project, undo: seq<Group>, savedPoint: Option<nat>, target: string)
    requires p.saved && undo != []
    requires !ChangesSaved(p, undo, savedPoint)
    ensures var (p', point) := SaveAsWritten(p, undo, savedPoint, target, false);
            p' == p && ChangesSaved(p', undo, point)
  {
  }

  /** A successful save always leaves ChangesSaved true, whatever the history. */
  lemma ChangesSavedAfterSave(p: Project, undo: seq<Group>, savedPoint: Option<nat>, target: string)
    ensures var (p', point) := Save(p, undo, savedPoint, target, true);
            ChangesSaved(p', undo, point) && p'.filePath == target
  {
  }

  /** A save whose write fails leaves ChangesSaved as it was. */
  lemma FailedSaveKeepsChangesSaved(p: Project, undo: seq<Group>, savedPoint: Option<nat>, target: string)
    ensures var (p', point) := Save(p, undo, savedPoint, target, false);
            ChangesSaved(p', undo, point) == ChangesSaved(p, undo, savedPoint)
  {
  }

  /** Committing a group with commands makes ChangesSaved false, since the saved
      point never names a group that is still open. */
  lemma CommitLeavesChangesUnsaved(p: Project, undo: seq<Group>, redo: seq<Group>, g: Group, limit: nat, savedPoint: Option<nat>)
    requires |g.commands| > 0 && limit > 0
    requires savedPoint != Some(g.id)
    ensures !ChangesSaved(p, Commit(undo, redo, g, limit).0, savedPoint)
  {
    CommitAppends(undo, redo, g, limit);
  }

  /** Undoing the group committed after a save brings ChangesSaved back, when
      the commit evicted nothing. */
  lemma UndoReturnsToSavedPoint(p: Project, undo: seq<Group>, redo: seq<Group>, g: Group, limit: nat, savedPoint: Option<nat>)
    requires ChangesSaved(p, undo, savedPoint)
    requires |g.commands| > 0 && |undo| < limit
    ensures var h := Commit(undo, redo, g, limit);
            ChangesSaved(p, UndoStep(h.0, h.1).0, savedPoint)
  {
    CommitAppends(undo, redo, g, limit);
    assert (undo + [g])[..|undo|] == undo;
  }

  /** The gate of AutoSave: the project has a path, counts as saved, and the
      newest undo group (or null) is not the one last autosaved. */
  predicate AutoSaveDue(p: Project, undo: seq<Group>, autosavedPoint: Option<nat>)
  {
    p.filePath != [] && p.saved && LastId(undo) != autosavedPoint
  }

  /** After a successful autosave, the next one is skipped until the history
      changes. */
  lemma AutoSaveOnce(p: Project, undo: seq<Group>)
    ensures !AutoSaveDue(p, undo, LastId(undo))
  {
  }

  /** Committing a new group with commands makes an autosave due again. */
  lemma AutoSaveDueAfterCommit(p: Project, undo: seq<Group>, redo: seq<Group>, g: Group, limit: nat, autosavedPoint: Option<nat>)
    requires p.filePath != [] && p.saved
    requires |g.commands| > 0 && limit > 0
    requires autosavedPoint != Some(g.id)
    ensures AutoSaveDue(p, Commit(undo, redo, g, limit).0, autosavedPoint)
  {
    CommitAppends(undo, redo, g, limit);
  }

  // ---------------------------------------------------------------------------
  // The history is one timeline

  /** The ids of q's groups, in queue order. */
  function Ids(q: seq<Group>): (r: seq<nat>)
    ensures |r| == |q|
    decreases |q|
  {
    if q == [] then [] else Ids(q[..|q| - 1]) + [q[|q| - 1].id]
  }

  /** The history as one line: the undo queue oldest first, then the redo
      queue in the order Redo would take its groups back (last element
      first). */
  function Timeline(undo: seq<Group>, redo: seq<Group>): seq<nat>
    decreases |redo|
  {
    if redo == [] then Ids(undo) else Timeline(undo + [redo[|redo| - 1]], redo[..|redo| - 1])
  }

  /** The ids strictly increase and all lie below bound. */
  predicate Ordered(ids: seq<nat>, bound: nat)
    decreases |ids|
  {
    ids == [] || (ids[|ids| - 1] < bound && Ordered(ids[..|ids| - 1], ids[|ids| - 1]))
  }

  /** The history is a single line of groups opened one after another: ids
      strictly increase along the timeline, and all are below `next`, the id
      the next group opened will get. */
  predicate Linear(undo: seq<Group>, redo: seq<Group>, next: nat)
  {
    Ordered(Timeline(undo, redo), next)
  }

  lemma {:induction false} IdsConcat(a: seq<Group>, b: seq<Group>)
    ensures Ids(a + b) == Ids(a) + Ids(b)
    decreases |b|
  {
    if b != [] {
      var b' := b[..|b| - 1];
      assert (a + b)[..|a + b| - 1] == a + b';
      IdsConcat(a, b');
    } else {
      assert a + b == a;
    }
  }

  /** The timeline starts with the undo queue. */
  lemma {:induction false} TimelineSplit(undo: seq<Group>, redo: seq<Group>)
    ensures Timeline(undo, redo) == Ids(undo) + Timeline([], redo)
    decreases |redo|
  {
    if redo != [] {
      var r := redo[|redo| - 1];
      var rest := redo[..|redo| - 1];
      TimelineSplit(undo + [r], rest);
      TimelineSplit([r], rest);
      IdsConcat(undo, [r]);
      assert [] + [r] == [r];
    }
  }

  /** A strictly increasing line below bound is also below any larger bound. */
  lemma OrderedWeaken(ids: seq<nat>, bound: nat, bound': nat)
    requires Ordered(ids, bound) && bound <= bound'
    ensures Ordered(ids, bound')
  {
  }

  /** Dropping the end of an ordered line keeps it ordered under the same
      bound. */
  lemma {:induction false} OrderedPrefix(x: seq<nat>, y: seq<nat>, bound: nat)
    requires Ordered(x + y, bound)
    ensures Ordered(x, bound)
    decreases |y|
  {
    if y != [] {
      var y' := y[..|y| - 1];
      assert (x + y)[..|x + y| - 1] == x + y';
      OrderedPrefix(x, y', y[|y| - 1]);
      OrderedWeaken(x, y[|y| - 1], bound);
    } else {
      assert x + y == x;
    }
  }

  /** Dropping the start of an ordered line keeps it ordered. */
  lemma {:induction false} OrderedSuffix(x: seq<nat>, y: seq<nat>, bound: nat)
    requires Ordered(x + y, bound)
    ensures Ordered(y, bound)
    decreases |y|
  {
    if y != [] {
      var y' := y[..|y| - 1];
      assert (x + y)[..|x + y| - 1] == x + y';
      OrderedSuffix(x, y', y[|y| - 1]);
    }
  }

  /** Along an ordered line every id is smaller than every later one and than
      the bound; in particular no group appears twice in the history. */
  lemma {:induction false} OrderedIncreasing(ids: seq<nat>, bound: nat)
    requires Ordered(ids, bound)
    ensures forall i, j | 0 <= i < j < |ids| :: ids[i] < ids[j]
    ensures forall i | 0 <= i < |ids| :: ids[i] < bound
    decreases |ids|
  {
    if ids != [] {
      var front := ids[..|ids| - 1];
      OrderedIncreasing(front, ids[|ids| - 1]);
      assert forall i | 0 <= i < |front| :: front[i] == ids[i];
    }
  }

  /** In a linear history the newest committed group is older than the next
      group to be opened. */
  lemma NewestBelowNext(undo: seq<Group>, redo: seq<Group>, next: nat)
    requires Linear(undo, redo, next)
    ensures LastId(undo).Some? ==> LastId(undo).value < next
  {
    TimelineSplit(undo, redo);
    OrderedPrefix(Ids(undo), Timeline([], redo), next);
  }

  /** Undo moves the newest group from one queue to the other: the timeline
      is the same. */
  lemma UndoKeepsTimeline(undo: seq<Group>, redo: seq<Group>)
    ensures Timeline(UndoStep(undo, redo).0, UndoStep(undo, redo).1) == Timeline(undo, redo)
  {
    if undo != [] {
      var (u, r) := UndoStep(undo, redo);
      assert r[..|r| - 1] == redo;
      assert u + [r[|r| - 1]] == undo;
    }
  }

  /** Redo moves it back: the timeline is the same. */
  lemma RedoKeepsTimeline(undo: seq<Group>, redo: seq<Group>)
    ensures Timeline(RedoStep(undo, redo).0, RedoStep(undo, redo).1) == Timeline(undo, redo)
  {
  }

  /** Evicting from the front of a queue keeps an ordered line that starts
      with that queue ordered. */
  lemma EvictedKeepsOrder(q: seq<Group>, rest: seq<nat>, limit: nat, bound: nat)
    requires Ordered(Ids(q) + rest, bound)
    ensures Ordered(Ids(Evicted(q, limit)) + rest, bound)
  {
    var kept := Evicted(q, limit);
    EvictedKeepsNewest(q, limit);
    var dropped := q[..|q| - |kept|];
    assert q == dropped + kept;
    IdsConcat(dropped, kept);
    assert Ids(q) + rest == Ids(dropped) + (Ids(kept) + rest);
    OrderedSuffix(Ids(dropped), Ids(kept) + rest, bound);
  }

  /** Committing a group with commands whose id is `next` keeps the history
      linear with the next id one higher. */
  lemma CommitNonEmptyKeepsLinear(undo: seq<Group>, redo: seq<Group>, g: Group, limit: nat, next: nat)
    requires Linear(undo, redo, next) && g.id == next && |g.commands| > 0
    ensures Linear(Evicted(undo + [g], limit), [], next + 1)
  {
    TimelineSplit(undo, redo);
    OrderedPrefix(Ids(undo), Timeline([], redo), next);
    var full := undo + [g];
    assert Ids(full) + [] == Ids(undo) + [next] by {
      assert full[..|full| - 1] == undo;
    }
    EvictedKeepsOrder(full, [], limit, next + 1);
    assert Ids(Evicted(full, limit)) + [] == Ids(Evicted(full, limit));
  }

  /** Committing an empty group keeps the history linear with the next id one
      higher. */
  lemma CommitEmptyKeepsLinear(undo: seq<Group>, redo: seq<Group>, limit: nat, next: nat)
    requires Linear(undo, redo, next)
    ensures Linear(Evicted(undo, limit), redo, next + 1)
  {
    TimelineSplit(undo, redo);
    EvictedKeepsOrder(undo, Timeline([], redo), limit, next);
    TimelineSplit(Evicted(undo, limit), redo);
    OrderedWeaken(Timeline(Evicted(undo, limit), redo), next, next + 1);
  }

  /** Committing the open group (whose id is `next`) keeps the history linear
      with the next id one higher. */
  lemma CommitKeepsLinear(undo: seq<Group>, redo: seq<Group>, g: Group, limit: nat, next: nat)
    requires Linear(undo, redo, next) && g.id == next
    ensures Linear(Commit(undo, redo, g, limit).0, Commit(undo, redo, g, limit).1, next + 1)
  {
    if |g.commands| > 0 {
      CommitNonEmptyKeepsLinear(undo, redo, g, limit, next);
    } else {
      CommitEmptyKeepsLinear(undo, redo, limit, next);
    }
  }

  /** Undo keeps the history linear. */
  lemma UndoKeepsLinear(undo: seq<Group>, redo: seq<Group>, next: nat)
    requires Linear(undo, redo, next)
    ensures Linear(UndoStep(undo, redo).0, UndoStep(undo, redo).1, next)
  {
    UndoKeepsTimeline(undo, redo);
  }

  /** Redo keeps the history linear. */
  lemma RedoKeepsLinear(undo: seq<Group>, redo: seq<Group>, next: nat)
    requires Linear(undo, redo, next)
    ensures Linear(RedoStep(undo, redo).0, RedoStep(undo, redo).1, next)
  {
    RedoKeepsTimeline(undo, redo);
  }

  // ---------------------------------------------------------------------------
  // Subscribers

  predicate NoDuplicates(s: seq<Subscriber>)
  {
    forall i, j | 0 <= i < j < |s| :: s[i] != s[j]
  }

  /** List.IndexOf: the first position of x. */
  function IndexOf(s: seq<Subscriber>, x: Subscriber): (i: nat)
    requires x in s
    ensures i < |s| && s[i] == x && x !in s[..i]
  {
    if s[0] == x then 0 else 1 + IndexOf(s[1..], x)
  }

  /** List.Remove: the list without the first occurrence of x. */
  function Without(s: seq<Subscriber>, x: Subscriber): seq<Subscriber>
    requires x in s
  {
    s[..IndexOf(s, x)] + s[IndexOf(s, x) + 1..]
  }

  /** Adding an absent subscriber keeps the list free of duplicates. */
  lemma AddKeepsNoDuplicates(s: seq<Subscriber>, x: Subscriber)
    requires NoDuplicates(s) && x !in s
    ensures NoDuplicates(s + [x])
  {
  }

  /** Removing a subscriber from a duplicate-free list removes it altogether,
      keeps every other subscriber in order, and adds no duplicate. */
  lemma WithoutRemovesAll(s: seq<Subscriber>, x: Subscriber)
    requires NoDuplicates(s) && x in s
    ensures x !in Without(s, x)
    ensures NoDuplicates(Without(s, x))
    ensures forall y :: y in Without(s, x) <==> y in s && y != x
    ensures |Without(s, x)| == |s| - 1
  {
    var i := IndexOf(s, x);
    var r := Without(s, x);
    assert forall k | 0 <= k < |r| :: r[k] == if k < i then s[k] else s[k + 1];
  }
}

/** The document manager: the single owner of the open project, its undo and
    redo history, the open undo group, and the subscriber list. Every method
    states its whole effect on the manager's fields in terms of the functions of
    module History. */
module Docs {
  import opened Commands
  import opened History
  import Paths

  class DocManager {
    /** The open project (Project). */
    var project: Project
    var playPosTick: int
    /** Committed groups, oldest first (undoQueue). */
    var undoQueue: seq<Group>
    /** Undone groups, the next one to redo last (redoQueue). */
    var redoQueue: seq<Group>
    /** The open group, if any (undoGroup). */
    var undoGroup: Option<Group>
    /** The identities of the groups marked as saved and as autosaved. */
    var savedPoint: Option<nat>
    var autosavedPoint: Option<nat>
    /** The identity the next group opened will have. */
    var nextId: nat
    var subscribers: seq<Subscriber>
    /** Every OnNext call made so far, in order. */
    var deliveries: seq<Delivery>
    /** Every file written so far, in order. */
    var writes: seq<Snapshot>

    /** The history is one timeline; the open group is newer than every
        committed one; the saved and autosaved points name groups opened
        before the current one; and no subscriber is registered twice. */
    ghost predicate Valid()
      reads this
    {
      Linear(undoQueue, redoQueue, nextId) &&
      (undoGroup.Some? ==> undoGroup.value.id == nextId) &&
      (savedPoint.Some? ==> savedPoint.value < nextId) &&
      (autosavedPoint.Some? ==> autosavedPoint.value < nextId) &&
      NoDuplicates(subscribers)
    }

    /** A manager over a fresh project: empty history, no open group, nothing
        saved, nobody subscribed. */
    constructor (initial: Project)
      ensures Valid()
      ensures project == initial && playPosTick == 0
      ensures undoQueue == [] && redoQueue == [] && undoGroup == None
      ensures savedPoint == None && autosavedPoint == None
      ensures subscribers == [] && deliveries == [] && writes == []
      ensures nextId == 0
    {
      project := initial;
      playPosTick := 0;
      undoQueue, redoQueue := [], [];
      undoGroup := None;
      savedPoint, autosavedPoint := None, None;
      nextId := 0;
      subscribers, deliveries, writes := [], [], [];
    }

    function HasOpenUndoGroup(): bool
      reads this
    {
      undoGroup.Some?
    }

    /** The ChangesSaved getter. */
    function ChangesSaved(): bool
      reads this
    {
      History.ChangesSaved(project, undoQueue, savedPoint)
    }

    /** Hands cmd to every subscriber in registration order. */
    method Publish(cmd: UCommand, isUndo: bool)
      modifies this`deliveries
      ensures deliveries == old(deliveries) + Broadcast(subscribers, cmd, isUndo)
    {
      var i := 0;
      while i < |subscribers|
        invariant 0 <= i <= |subscribers|
        invariant deliveries == old(deliveries) + Broadcast(subscribers[..i], cmd, isUndo)
      {
        assert subscribers[..i + 1][..i] == subscribers[..i];
        deliveries := deliveries + [Delivery(subscribers[i], cmd, isUndo)];
        i := i + 1;
      }
      assert subscribers[..i] == subscribers;
    }

    /** ExecuteCmd(new PreRenderNotification()): a notification with no cascade
        of its own, so all it does is publish. */
    method PublishPreRender()
      modifies this`deliveries
      ensures deliveries == old(deliveries) + Broadcast(subscribers, Notify(PreRender), false)
    {
      Publish(Notify(PreRender), false);
    }

    /** Registers sub unless it is registered already. */
    method AddSubscriber(sub: Subscriber)
      requires Valid()
      modifies this`subscribers
      ensures Valid()
      ensures subscribers == if sub in old(subscribers) then old(subscribers) else old(subscribers) + [sub]
    {
      if sub !in subscribers {
        AddKeepsNoDuplicates(subscribers, sub);
        subscribers := subscribers + [sub];
      }
    }

    /** Unregisters sub if it is registered. */
    method RemoveSubscriber(sub: Subscriber)
      requires Valid()
      modifies this`subscribers
      ensures Valid()
      ensures sub in old(subscribers) ==> subscribers == Without(old(subscribers), sub)
      ensures sub !in old(subscribers) ==> subscribers == old(subscribers)
      ensures sub !in subscribers
    {
      if sub in subscribers {
        WithoutRemovesAll(subscribers, sub);
        subscribers := Without(subscribers, sub);
      }
    }

    /** The cascade a notification sets off before it is published. `thrown`
        tells that the write of a save threw. */
    method HandleNotification(note: Notification, writeOk: bool) returns (thrown: bool)
      requires Valid()
      modifies this`project, this`playPosTick, this`undoQueue, this`redoQueue, this`undoGroup
      modifies this`savedPoint, this`autosavedPoint, this`deliveries, this`writes
      ensures Valid()
      ensures thrown <==> note.SaveProject? && !writeOk
      // Only an oto change publishes anything here: the pre-render
      // notification it triggers.
      ensures deliveries == old(deliveries)
                            + (if note.OtoChanged? then Broadcast(subscribers, Notify(PreRender), false) else [])
      // Apart from a load, a notification leaves the history and the open
      // group alone.
      ensures !note.LoadProject? ==>
        && undoQueue == old(undoQueue) && redoQueue == old(redoQueue)
        && undoGroup == old(undoGroup) && autosavedPoint == old(autosavedPoint)
      // A save writes the project to the given path, or to its own when none
      // is given, and on success records the newest group as the saved point.
      ensures note.SaveProject? ==>
        var target := if note.path == [] then old(project).filePath else note.path;
        && (project, savedPoint) == Save(old(project), old(undoQueue), old(savedPoint), target, writeOk)
        && writes == old(writes) + (if writeOk then [Snapshot(target, old(project).score)] else [])
        && playPosTick == old(playPosTick)
      // A load resets the history and the play position and replaces the project.
      ensures note.LoadProject? ==>
        && undoQueue == [] && redoQueue == [] && undoGroup == None
        && savedPoint == None && autosavedPoint == None
        && project == note.project && playPosTick == 0 && writes == old(writes)
      // A play position change sets the play position only.
      ensures note.SetPlayPosTick? ==>
        && playPosTick == note.tick
        && project == old(project) && savedPoint == old(savedPoint) && writes == old(writes)
      // Every other notification changes no field but the deliveries.
      ensures !(note.SaveProject? || note.LoadProject? || note.SetPlayPosTick?) ==>
        && project == old(project) && savedPoint == old(savedPoint)
        && playPosTick == old(playPosTick) && writes == old(writes)
    {
      thrown := false;
      match note {
        case SaveProject(path) =>
          SaveTo(path, writeOk);
          thrown := !writeOk;
        case LoadProject(loaded) =>
          Load(loaded);
        case SetPlayPosTick(tick) =>
          playPosTick := tick;
        case OtoChanged =>
          PublishPreRender();
        case _ =>
      }
    }

    /** The single entry point for edits and notifications. `writeOk` is the
        outcome of the file write a save notification performs; `thrown` tells
        that this write threw, which ends the call before anything is
        published and hands the failure to the caller. */
    method ExecuteCmd(cmd: UCommand, writeOk: bool) returns (thrown: bool)
      requires Valid()
      modifies this`project, this`playPosTick, this`undoQueue, this`redoQueue, this`undoGroup
      modifies this`savedPoint, this`autosavedPoint, this`deliveries, this`writes
      ensures Valid()
      ensures thrown <==> cmd.Notify? && cmd.note.SaveProject? && !writeOk
      // An edit with no open group is reported and dropped.
      ensures cmd.Edit? && old(undoGroup).None? ==> unchanged(this)
      // An edit joins the open group, is executed and published; the history
      // and everything else stay as they were.
      ensures cmd.Edit? && old(undoGroup).Some? ==>
        && undoGroup == Some(old(undoGroup).value.(commands := old(undoGroup).value.commands + [cmd.cmd]))
        && project == old(project).(score := cmd.cmd.apply(old(project).score))
        && deliveries == old(deliveries) + Broadcast(subscribers, cmd, false)
        && undoQueue == old(undoQueue) && redoQueue == old(redoQueue)
        && savedPoint == old(savedPoint) && autosavedPoint == old(autosavedPoint)
        && playPosTick == old(playPosTick) && writes == old(writes)
      // Every notification is published unless its save threw, an oto change
      // right after the pre-render notification it triggers.
      ensures cmd.Notify? ==>
        deliveries == old(deliveries)
                      + (if cmd.note.OtoChanged? then Broadcast(subscribers, Notify(PreRender), false) else [])
                      + (if thrown then [] else Broadcast(subscribers, cmd, false))
      // Apart from a load, a notification leaves the history and the open
      // group alone.
      ensures cmd.Notify? && !cmd.note.LoadProject? ==>
        && undoQueue == old(undoQueue) && redoQueue == old(redoQueue)
        && undoGroup == old(undoGroup) && autosavedPoint == old(autosavedPoint)
      // A save writes the project to the given path, or to its own when none
      // is given, and on success records the newest group as the saved point.
      ensures cmd.Notify? && cmd.note.SaveProject? ==>
        var target := if cmd.note.path == [] then old(project).filePath else cmd.note.path;
        && (project, savedPoint) == Save(old(project), old(undoQueue), old(savedPoint), target, writeOk)
        && writes == old(writes) + (if writeOk then [Snapshot(target, old(project).score)] else [])
        && playPosTick == old(playPosTick)
      // A load resets the history and the play position and replaces the project.
      ensures cmd.Notify? && cmd.note.LoadProject? ==>
        && undoQueue == [] && redoQueue == [] && undoGroup == None
        && savedPoint == None && autosavedPoint == None
        && project == cmd.note.project && playPosTick == 0 && writes == old(writes)
      // A play position change sets the play position only.
      ensures cmd.Notify? && cmd.note.SetPlayPosTick? ==>
        && playPosTick == cmd.note.tick
        && project == old(project) && savedPoint == old(savedPoint) && writes == old(writes)
      // Every other notification changes no field but the deliveries.
      ensures cmd.Notify? && !(cmd.note.SaveProject? || cmd.note.LoadProject? || cmd.note.SetPlayPosTick?) ==>
        && project == old(project) && savedPoint == old(savedPoint)
        && playPosTick == old(playPosTick) && writes == old(writes)
    {
      thrown := false;
      match cmd
      case Notify(note) =>
        thrown := HandleNotification(note, writeOk);
        if !thrown {
          Publish(cmd, false);
        }
      case Edit(c) =>
        if undoGroup.None? {
          return;
        }
        undoGroup := Some(undoGroup.value.(commands := undoGroup.value.commands + [c]));
        project := project.(score := c.apply(project.score));
        Publish(cmd, false);
    }

    /** The save cascade: the project is written to path, or to its own path
        when path is empty; `writeOk` is the outcome of the write. A successful
        write marks the project saved and makes the newest committed group the
        saved point. */
    method SaveTo(path: string, writeOk: bool)
      requires Valid()
      modifies this`savedPoint, this`project, this`writes
      ensures Valid()
      ensures var target := if path == [] then old(project).filePath else path;
        && (project, savedPoint) == Save(old(project), undoQueue, old(savedPoint), target, writeOk)
        && writes == old(writes) + (if writeOk then [Snapshot(target, old(project).score)] else [])
    {
      var target := if path == [] then project.filePath else path;
      if writeOk {
        writes := writes + [Snapshot(target, project.score)];
        project := MarkSaved(project, target);
        NewestBelowNext(undoQueue, redoQueue, nextId);
        savedPoint := LastId(undoQueue);
      }
    }

    /** The load cascade: the loaded project replaces the open one, with an
        empty history, no open group, no saved or autosaved point, and the play
        position at zero. */
    method Load(loaded: Project)
      requires Valid()
      modifies this`undoQueue, this`redoQueue, this`undoGroup, this`savedPoint
      modifies this`autosavedPoint, this`project, this`playPosTick
      ensures Valid()
      ensures undoQueue == [] && redoQueue == [] && undoGroup == None
      ensures savedPoint == None && autosavedPoint == None
      ensures project == loaded && playPosTick == 0
    {
      undoQueue, redoQueue := [], [];
      undoGroup := None;
      savedPoint, autosavedPoint := None, None;
      project := loaded;
      playPosTick := 0;
    }

    /** Opens a new, empty group. A group that is still open is first ended
        (and committed if it has commands); groups never nest. */
    method StartUndoGroup(deferValidate: bool, undoLimit: nat)
      requires Valid()
      modifies this`undoQueue, this`redoQueue, this`undoGroup, this`nextId, this`deliveries
      ensures Valid()
      ensures undoGroup == Some(Group(nextId, deferValidate, []))
      ensures old(undoGroup).None? ==>
        && undoQueue == old(undoQueue) && redoQueue == old(redoQueue)
        && nextId == old(nextId) && deliveries == old(deliveries)
      ensures old(undoGroup).Some? ==>
        && (undoQueue, redoQueue) == Commit(old(undoQueue), old(redoQueue), old(undoGroup).value, undoLimit)
        && nextId == old(nextId) + 1
        && deliveries == old(deliveries) + Broadcast(subscribers, Notify(PreRender), false)
    {
      if undoGroup.Some? {
        EndUndoGroup(undoLimit);
      }
      undoGroup := Some(Group(nextId, deferValidate, []));
    }

    /** The RemoveFromFront loop: drops the oldest groups until at most limit
        remain. */
    method TrimUndoQueue(limit: nat)
      modifies this`undoQueue
      ensures undoQueue == Evicted(old(undoQueue), limit)
    {
      while |undoQueue| > limit
        invariant Evicted(undoQueue, limit) == Evicted(old(undoQueue), limit)
        decreases |undoQueue|
      {
        undoQueue := undoQueue[1..];
      }
    }

    /** Puts group on the undo history if it has commands, emptying the redo
        history, then trims the undo history to limit. */
    method CommitToHistory(group: Group, limit: nat)
      modifies this`undoQueue, this`redoQueue
      ensures (undoQueue, redoQueue) == Commit(old(undoQueue), old(redoQueue), group, limit)
    {
      if |group.commands| > 0 {
        undoQueue := undoQueue + [group];
        redoQueue := [];
      }
      TrimUndoQueue(limit);
    }

    /** Closes the open group: a group with commands is committed to the undo
        history and empties the redo history; the undo history is cut down to
        undoLimit from the front; a pre-render notification follows. */
    method EndUndoGroup(undoLimit: nat)
      requires Valid()
      modifies this`undoQueue, this`redoQueue, this`undoGroup, this`nextId, this`deliveries
      ensures Valid()
      ensures old(undoGroup).None? ==> unchanged(this)
      ensures old(undoGroup).Some? ==>
        && (undoQueue, redoQueue) == Commit(old(undoQueue), old(redoQueue), old(undoGroup).value, undoLimit)
        && undoGroup == None
        && nextId == old(nextId) + 1
        && deliveries == old(deliveries) + Broadcast(subscribers, Notify(PreRender), false)
    {
      if undoGroup.None? {
        return;
      }
      var group := undoGroup.value;
      ghost var undo0, redo0 := undoQueue, redoQueue;
      CommitToHistory(group, undoLimit);
      undoGroup := None;
      nextId := nextId + 1;
      assert Valid() by {
        CommitKeepsLinear(undo0, redo0, group, undoLimit, nextId - 1);
      }
      PublishPreRender();
    }

    /** Unexecutes cmds last to first, publishing each as an undo. */
    method Unexecute(cmds: seq<Command>)
      modifies this`project, this`deliveries
      ensures project == old(project).(score := RevertAll(cmds, old(project).score))
      ensures deliveries == old(deliveries) + ReplayBackward(cmds, subscribers, true)
    {
      var i := |cmds|;
      while i > 0
        invariant 0 <= i <= |cmds|
        invariant project == old(project).(score := RevertAll(cmds[i..], old(project).score))
        invariant deliveries == old(deliveries) + ReplayBackward(cmds[i..], subscribers, true)
      {
        i := i - 1;
        assert cmds[i..][1..] == cmds[i + 1..];
        project := project.(score := cmds[i].revert(project.score));
        Publish(Edit(cmds[i]), true);
      }
    }

    /** Executes cmds first to last, publishing each. */
    method Reexecute(cmds: seq<Command>)
      modifies this`project, this`deliveries
      ensures project == old(project).(score := ApplyAll(cmds, old(project).score))
      ensures deliveries == old(deliveries) + ReplayForward(cmds, subscribers, false)
    {
      var i := 0;
      while i < |cmds|
        invariant 0 <= i <= |cmds|
        invariant project == old(project).(score := ApplyAll(cmds[..i], old(project).score))
        invariant deliveries == old(deliveries) + ReplayForward(cmds[..i], subscribers, false)
      {
        assert cmds[..i + 1][..i] == cmds[..i];
        project := project.(score := cmds[i].apply(project.score));
        Publish(Edit(cmds[i]), false);
        i := i + 1;
      }
      assert cmds[..i] == cmds;
    }

    /** Unexecutes the open group's commands last to first, publishing each as
        an undo, and leaves the group open and empty. */
    method RollBackUndoGroup()
      requires Valid()
      modifies this`undoGroup, this`project, this`deliveries
      ensures Valid()
      ensures old(undoGroup).None? ==> unchanged(this)
      ensures old(undoGroup).Some? ==>
        && undoGroup == Some(old(undoGroup).value.(commands := []))
        && project == old(project).(score := RevertAll(old(undoGroup).value.commands, old(project).score))
        && deliveries == old(deliveries) + ReplayBackward(old(undoGroup).value.commands, subscribers, true)
    {
      if undoGroup.None? {
        return;
      }
      Unexecute(undoGroup.value.commands);
      undoGroup := Some(undoGroup.value.(commands := []));
    }

    /** Takes the newest group off the undo history, unexecutes its commands
        last to first, publishing each as an undo, and puts the group on the
        redo history; a pre-render notification follows. */
    method Undo()
      requires Valid()
      modifies this`undoQueue, this`redoQueue, this`project, this`deliveries
      ensures Valid()
      ensures old(undoQueue) == [] ==> unchanged(this)
      ensures old(undoQueue) != [] ==>
        var group := old(undoQueue)[|old(undoQueue)| - 1];
        && (undoQueue, redoQueue) == UndoStep(old(undoQueue), old(redoQueue))
        && project == old(project).(score := RevertAll(group.commands, old(project).score))
        && deliveries == old(deliveries) + ReplayBackward(group.commands, subscribers, true)
                         + Broadcast(subscribers, Notify(PreRender), false)
    {
      if |undoQueue| == 0 {
        return;
      }
      ghost var undo0, redo0 := undoQueue, redoQueue;
      var group := undoQueue[|undoQueue| - 1];
      undoQueue := undoQueue[..|undoQueue| - 1];
      Unexecute(group.commands);
      redoQueue := redoQueue + [group];
      assert Linear(undoQueue, redoQueue, nextId) by {
        UndoKeepsLinear(undo0, redo0, nextId);
      }
      PublishPreRender();
    }

    /** Takes the newest group off the redo history, executes its commands
        first to last, publishing each, and puts the group back on the undo
        history; a pre-render notification follows. */
    method Redo()
      requires Valid()
      modifies this`undoQueue, this`redoQueue, this`project, this`deliveries
      ensures Valid()
      ensures old(redoQueue) == [] ==> unchanged(this)
      ensures old(redoQueue) != [] ==>
        var group := old(redoQueue)[|old(redoQueue)| - 1];
        && (undoQueue, redoQueue) == RedoStep(old(undoQueue), old(redoQueue))
        && project == old(project).(score := ApplyAll(group.commands, old(project).score))
        && deliveries == old(deliveries) + ReplayForward(group.commands, subscribers, false)
                         + Broadcast(subscribers, Notify(PreRender), false)
    {
      if |redoQueue| == 0 {
        return;
      }
      ghost var undo0, redo0 := undoQueue, redoQueue;
      var group := redoQueue[|redoQueue| - 1];
      redoQueue := redoQueue[..|redoQueue| - 1];
      Reexecute(group.commands);
      undoQueue := undoQueue + [group];
      assert Linear(undoQueue, redoQueue, nextId) by {
        RedoKeepsLinear(undo0, redo0, nextId);
      }
      PublishPreRender();
    }

    /** The periodic autosave. `writeOk` is the outcome of the write. It writes
        only when the project has a path, counts as saved, and the history has
        moved since the last autosave; a successful write moves the autosaved
        point to the newest group, so that no autosave is due afterwards. */
    method AutoSave(writeOk: bool)
      requires Valid()
      modifies this`writes, this`autosavedPoint
      ensures Valid()
      ensures !AutoSaveDue(old(project), old(undoQueue), old(autosavedPoint)) || !writeOk ==> unchanged(this)
      ensures AutoSaveDue(old(project), old(undoQueue), old(autosavedPoint)) && writeOk ==>
        && autosavedPoint == LastId(undoQueue)
        && writes == old(writes) + [Snapshot(Paths.AutosavePath(project.filePath), project.score)]
      ensures writeOk ==> !AutoSaveDue(project, undoQueue, autosavedPoint)
    {
      if project.filePath == [] || !project.saved {
        return;
      }
      if LastId(undoQueue) == autosavedPoint {
        return;
      }
      var backup := Paths.AutosavePath(project.filePath);
      if writeOk {
        writes := writes + [Snapshot(backup, project.score)];
        NewestBelowNext(undoQueue, redoQueue, nextId);
        autosavedPoint := LastId(undoQueue);
      }
    }

    /** The last-resort backup on an unhandled exception: one attempt to write
        the project next to its file, whose failure is swallowed. The write is
        the same project save as a save notification's, so a successful one
        leaves the project at the backup path and marked saved; the saved
        point is not touched. */
    method CrashSave(writeOk: bool)
      requires Valid()
      modifies this`writes, this`project
      ensures Valid()
      ensures old(project).filePath == [] || !writeOk ==> unchanged(this)
      ensures old(project).filePath != [] && writeOk ==>
        var backup := Paths.BackupPath(old(project).filePath);
        && writes == old(writes) + [Snapshot(backup, old(project).score)]
        && project == MarkSaved(old(project), backup)
    {
      if project.filePath == [] {
        return;
      }
      var backup := Paths.BackupPath(project.filePath);
      if writeOk {
        writes := writes + [Snapshot(backup, project.score)];
        project := MarkSaved(project, backup);
      }
    }
  }
}

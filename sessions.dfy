/** Whole editing sessions driven through the document manager, the way the
    editor drives it: open a group, execute edits, end the group, then undo,
    redo, save or autosave. Each method states what the session leaves behind. */
module Sessions {
  import opened Commands
  import opened History
  import opened Docs

  /** One reversible edit in its own group: undo gives the original content
      back and redo gives the edited content again. */
  method EditUndoRedo(initial: Project, c: Command, undoLimit: nat)
    returns (edited: Score, undone: Score, redone: Score)
    requires Reversible(c)
    requires undoLimit > 0
    ensures edited == c.apply(initial.score)
    ensures undone == initial.score
    ensures redone == edited
  {
    var m := new DocManager(initial);
    m.StartUndoGroup(false, undoLimit);
    assert m.undoGroup == Some(Group(0, false, []));
    var _ := m.ExecuteCmd(Edit(c), false);
    var g := Group(0, false, [c]);
    assert m.undoGroup == Some(g) by {
      assert [] + [c] == [c];
    }
    edited := m.project.score;
    assert edited == c.apply(initial.score);
    m.EndUndoGroup(undoLimit);
    assert m.undoQueue == [g] && m.redoQueue == [] by {
      assert [] + [g] == [g];
    }
    assert m.project.score == edited;
    m.Undo();
    undone := m.project.score;
    assert undone == c.revert(edited) by {
      assert [c][1..] == [];
    }
    assert m.redoQueue == [g];
    m.Redo();
    redone := m.project.score;
    assert redone == c.apply(undone) by {
      assert [c][..0] == [];
    }
  }

  /** Rolling back an open group with two reversible edits restores the content,
      leaves the group open and empty, and commits nothing. */
  method EditsRolledBack(initial: Project, c1: Command, c2: Command)
    returns (restored: Score, committed: nat, open: bool)
    requires Reversible(c1) && Reversible(c2)
    ensures restored == initial.score
    ensures committed == 0
    ensures open
  {
    var m := new DocManager(initial);
    m.StartUndoGroup(false, 1);
    var _ := m.ExecuteCmd(Edit(c1), false);
    var _ := m.ExecuteCmd(Edit(c2), false);
    var edited := m.project.score;
    assert edited == c2.apply(c1.apply(initial.score));
    assert m.undoGroup.value.commands == [c1, c2] by {
      assert [] + [c1] + [c2] == [c1, c2];
    }
    assert RevertAll([c1, c2], edited) == c1.revert(c2.revert(edited)) by {
      assert [c1, c2][1..] == [c2];
      assert [c2][1..] == [];
      assert RevertAll([c2], edited) == c2.revert(edited);
    }
    m.RollBackUndoGroup();
    restored := m.project.score;
    committed := |m.undoQueue|;
    open := m.HasOpenUndoGroup();
  }

  /** An edit executed while no group is open is dropped: the content stays as
      it was and nobody is told. */
  method EditOutsideGroup(initial: Project, c: Command, sub: Subscriber)
    returns (score: Score, told: nat)
    ensures score == initial.score
    ensures told == 0
  {
    var m := new DocManager(initial);
    m.AddSubscriber(sub);
    var _ := m.ExecuteCmd(Edit(c), false);
    score := m.project.score;
    told := |m.deliveries|;
  }

  /** Saving after an edit makes the changes count as saved; undoing the edit
      makes them unsaved again; saving once more, with the history now empty,
      makes them saved again. */
  method SaveUndoSave(initial: Project, c: Command, path: string)
    returns (afterSave: bool, afterUndo: bool, afterSecondSave: bool)
    ensures afterSave
    ensures !afterUndo
    ensures afterSecondSave
  {
    var m := new DocManager(initial);
    var g := CommitOneEdit(m, c);
    var _ := m.ExecuteCmd(Notify(SaveProject(path)), true);
    assert m.savedPoint == Some(g.id) && m.project.saved;
    afterSave := m.ChangesSaved();
    m.Undo();
    assert m.undoQueue == [] && m.savedPoint == Some(g.id);
    afterUndo := m.ChangesSaved();
    var _ := m.ExecuteCmd(Notify(SaveProject(path)), true);
    assert m.savedPoint == None && m.undoQueue == [] && m.project.saved;
    afterSecondSave := m.ChangesSaved();
  }

  /** A save whose write throws reports the failure, writes nothing and leaves
      the changes unsaved. */
  method FailedSave(initial: Project, c: Command, path: string)
    returns (thrown: bool, saved: bool, written: nat)
    ensures thrown
    ensures !saved
    ensures written == 0
  {
    var m := new DocManager(initial);
    var _ := CommitOneEdit(m, c);
    thrown := m.ExecuteCmd(Notify(SaveProject(path)), false);
    saved := m.ChangesSaved();
    written := |m.writes|;
  }

  /** Two autosaves with no edit in between write one copy, next to the
      project file. */
  method AutoSaveTwice(initial: Project, c: Command)
    returns (written: seq<Snapshot>)
    requires initial.filePath != [] && initial.saved
    ensures written == [Snapshot(Paths.AutosavePath(initial.filePath), c.apply(initial.score))]
  {
    var m := new DocManager(initial);
    var g := CommitOneEdit(m, c);
    m.AutoSave(true);
    assert m.autosavedPoint == Some(g.id);
    m.AutoSave(true);
    written := m.writes;
  }

  /** On any manager, an autosave right after one whose write succeeded
      writes nothing more, whatever the outcome of its own write would be. */
  method AutoSaveAgain(m: DocManager, writeOk: bool)
    returns (afterFirst: seq<Snapshot>, afterSecond: seq<Snapshot>)
    requires m.Valid()
    modifies m
    ensures afterSecond == afterFirst
  {
    m.AutoSave(true);
    afterFirst := m.writes;
    m.AutoSave(writeOk);
    afterSecond := m.writes;
  }

  /** Opens a group on a fresh manager, executes c in it and commits it: the
      history is that one group and the content is c applied. */
  method CommitOneEdit(m: DocManager, c: Command) returns (g: Group)
    requires m.Valid()
    requires m.undoQueue == [] && m.redoQueue == [] && m.undoGroup == None
    modifies m
    ensures m.Valid()
    ensures m.undoQueue == [g] && m.redoQueue == [] && m.undoGroup == None
    ensures g.commands == [c]
    ensures m.project == old(m.project).(score := c.apply(old(m.project).score))
    ensures m.savedPoint == old(m.savedPoint) && m.autosavedPoint == old(m.autosavedPoint)
    ensures m.writes == old(m.writes) && m.subscribers == old(m.subscribers)
  {
    m.StartUndoGroup(false, 1);
    g := Group(m.nextId, false, [c]);
    var _ := m.ExecuteCmd(Edit(c), false);
    assert m.undoGroup == Some(g) by {
      assert [] + [c] == [c];
    }
    m.EndUndoGroup(1);
    assert m.undoQueue == [g] by {
      assert [] + [g] == [g];
    }
  }

  /** A subscriber registered twice hears a notification once. */
  method SubscribeTwice(initial: Project, sub: Subscriber, tick: int)
    returns (heard: seq<Delivery>)
    ensures heard == [Delivery(sub, Notify(SetPlayPosTick(tick)), false)]
  {
    var m := new DocManager(initial);
    m.AddSubscriber(sub);
    m.AddSubscriber(sub);
    var _ := m.ExecuteCmd(Notify(SetPlayPosTick(tick)), false);
    heard := m.deliveries;
  }
}

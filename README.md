# OpenUtau document manager: command history, persistence guard and subscriber bus

A Dafny model of the command-queue half of OpenUtau's `DocManager`, the singleton that
owns the open project. It covers the following:

- **Undo history.** Edits are executed inside an undo group (`StartUndoGroup`,
  `ExecuteCmd`, `EndUndoGroup`, `RollBackUndoGroup`). Committed groups sit on an undo
  queue that holds at most the undo limit. Undone groups sit on a redo queue.
  `Undo` and `Redo` replay a group's commands backwards or forwards.
- **Notifications.** Notifications travel through the same `ExecuteCmd` entry point and
  never enter the history. Save, load, play-position and oto-change notifications set off
  a cascade of their own before they are published.
- **Saved state.** `ChangesSaved` reports whether the history is at the saved point.
- **Persistence guard.** `AutoSave` writes a periodic copy only when the history moved
  since the last autosave. `CrashSave` writes a last-resort backup. Both write next to the
  project file.
- **Subscriber bus.** `AddSubscriber`, `RemoveSubscriber` and `Publish` hand every
  command to every registered subscriber, in registration order.

## How the model is laid out

- `commands.dfy` (module `Commands`) holds the values:
  - the project: its path, its saved flag, and its content as an abstract `Score`;
  - commands, each a pair of functions: `apply` for Execute and `revert` for Unexecute;
  - undo groups;
  - the notification kinds;
  - what the outside world observes: one `Delivery` per `OnNext` call, and one `Snapshot`
    per file written.
- `history.dfy` (module `History`) holds what the history operations compute, written as
  functions of values, and the properties proved about them:
  - commit and eviction (`Commit`, `Evicted`);
  - `UndoStep` and `RedoStep`;
  - the content after replaying commands (`ApplyAll`, `RevertAll`);
  - the deliveries of a replay (`Broadcast`, `ReplayForward`, `ReplayBackward`);
  - the `ChangesSaved` getter, the save rule and the autosave gate;
  - the invariant that the history is one timeline of groups, opened one after another
    (`Linear`);
  - the subscriber list operations.
- `doc_manager.dfy` (module `Docs`) is the class `DocManager`. Its fields are those of
  the source, and each method is proved against the functions of `History`. The class
  invariant `Valid()` holds four things:
  - the history is linear;
  - the open group is newer than every committed group;
  - the saved and autosaved points name groups opened before the current one;
  - no subscriber is registered twice.
- `paths.dfy` (module `Paths`) derives the sibling file names `<dir>/<name>-autosave.ustx`
  and `<dir>/<name>-backup.ustx`. It follows .NET's `Path` functions for '/'-separated
  paths.
- `sessions.dfy` (module `Sessions`) drives the class through whole editing sessions, the
  way the editor does. Each method states what its session leaves behind.

Groups are objects in the source, and the saved and autosaved points are compared with
them by reference. In the model, every group carries an `id`, the value of a counter that
grows each time a group is closed. The points store that id.

The outside world enters as parameters and leaves as logs:

- The outcome of a file write is a `writeOk` parameter.
- The undo limit from the preferences is an `undoLimit` parameter.
- What is written is appended to the `writes` field.
- What subscribers receive is appended to the `deliveries` field.

Two facts about the code that the model keeps:

- `ChangesSaved` is the conjunction at `OpenUtau.Core/DocManager.cs:120-121`: the project
  is saved or has no tracks, and the saved point is the newest group (null for an empty
  history).
- A save whose write throws publishes nothing, because the exception leaves `ExecuteCmd`
  before `Publish`.

## Model

| member | source | states |
|---|---|---|
| Docs.DocManager.constructor | OpenUtau.Core/DocManager.cs:112-116 | A new manager has empty undo and redo queues, no open group, no saved or autosaved point, and no subscribers; the invariant holds |
| Docs.DocManager.Publish | OpenUtau.Core/DocManager.cs:327-333 | Exactly one delivery per registered subscriber, in registration order, carrying the command and the undo flag |
| Docs.DocManager.PublishPreRender | OpenUtau.Core/DocManager.cs:198 | Executing a pre-render notification only publishes it to every subscriber |
| Docs.DocManager.AddSubscriber | OpenUtau.Core/DocManager.cs:311-317 | The subscriber is appended only if absent, so the list stays free of duplicates |
| Docs.DocManager.RemoveSubscriber | OpenUtau.Core/DocManager.cs:319-325 | A registered subscriber is removed, with everyone else kept in order; an absent one changes nothing; afterwards it is not registered |
| Docs.DocManager.HandleNotification | OpenUtau.Core/DocManager.cs:166-200 | Per notification kind, with the corrected save rule: a save writes the project and, on success, marks it saved at the newest group; a load resets the history, both points, the project and the play position; a play-position change sets only the play position; an oto change publishes a pre-render; every other kind changes nothing; only a load touches the history |
| Docs.DocManager.ExecuteCmd | OpenUtau.Core/DocManager.cs:162-222 | An edit with no open group changes nothing. Otherwise the edit is appended to the open group, applied to the content and published, with the history untouched. A notification runs its cascade and is then published, unless its save threw, which is reported to the caller |
| Docs.DocManager.SaveTo | OpenUtau.Core/DocManager.cs:167-176 | The write goes to the given path, or to the project's own path when none is given. On success the project is saved there and the newest group becomes the saved point (`History.Save`). On failure nothing changes |
| Docs.DocManager.Load | OpenUtau.Core/DocManager.cs:177-184 | The loaded project replaces the open one. The history, the open group, both points and the play position are reset |
| Docs.DocManager.StartUndoGroup | OpenUtau.Core/DocManager.cs:224-231 | A fresh, empty group is open afterwards. A group that was still open is first ended and committed as `EndUndoGroup` does; otherwise the history is untouched |
| Docs.DocManager.TrimUndoQueue | OpenUtau.Core/DocManager.cs:242-244 | The removal loop leaves exactly `Evicted(old queue, limit)` |
| Docs.DocManager.CommitToHistory | OpenUtau.Core/DocManager.cs:238-244 | The queues become `Commit(undo, redo, group, limit)` |
| Docs.DocManager.EndUndoGroup | OpenUtau.Core/DocManager.cs:233-252 | With no open group, nothing changes. Otherwise the group is committed (`History.Commit`), no group is open, and a pre-render is published. The history stays linear |
| Docs.DocManager.Unexecute | OpenUtau.Core/DocManager.cs:259-266 | The content becomes `RevertAll(cmds)`, the last command reverted first. Each command is published as an undo, last to first |
| Docs.DocManager.Reexecute | OpenUtau.Core/DocManager.cs:291-298 | The content becomes `ApplyAll(cmds)`, in order. Each command is published, first to last |
| Docs.DocManager.RollBackUndoGroup | OpenUtau.Core/DocManager.cs:254-268 | The open group's commands are reverted and published as undos, last to first. The group stays open and empty. The history is untouched |
| Docs.DocManager.Undo | OpenUtau.Core/DocManager.cs:270-285 | An empty undo queue changes nothing. Otherwise the newest group moves to the redo queue (`UndoStep`), its commands are reverted and published as undos, last to first, and a pre-render follows |
| Docs.DocManager.Redo | OpenUtau.Core/DocManager.cs:287-302 | An empty redo queue changes nothing. Otherwise the group moves back to the undo queue (`RedoStep`), its commands are re-applied and published, first to last, and a pre-render follows |
| Docs.DocManager.AutoSave | OpenUtau.Core/DocManager.cs:141-160 | Nothing happens unless the project has a path, counts as saved, and the newest group is not the autosaved point. Then one copy goes to the autosave path, and a successful write moves the autosaved point to the newest group. After a call whose write succeeds, no autosave is due |
| Docs.DocManager.CrashSave | OpenUtau.Core/DocManager.cs:125-139 | A project without a path, or a failed write, changes nothing. Otherwise one copy of the content goes to the backup path, and the project is left at the backup path and marked saved, as every `Format.Ustx.Save` does; the saved point is not touched |
| History.EvictedKeepsNewest | OpenUtau.Core/DocManager.cs:242-244 | Eviction keeps exactly the newest min(length, limit) groups, in their order |
| History.CommitAppends | OpenUtau.Core/DocManager.cs:238-244 | Committing a non-empty group empties the redo queue. The undo queue is the old one plus the group, cut from the front to the limit. With a positive limit the group is the newest entry |
| History.CommitEmptyGroup | OpenUtau.Core/DocManager.cs:238-244 | An empty group is not committed and the redo queue is kept; only eviction applies |
| History.UndoThenRedo | OpenUtau.Core/DocManager.cs:270-302 | Undo followed by Redo restores both queues exactly |
| History.RedoThenUndo | OpenUtau.Core/DocManager.cs:270-302 | Redo followed by Undo restores both queues exactly |
| History.LimitTwoHistory | OpenUtau.Core/DocManager.cs:233-302 | With limit two, three commits keep the last two groups. Two undos move them to the redo queue. One redo brings back the older of the two |
| History.ApplyAllConcat | OpenUtau.Core/DocManager.cs:291-298 | Executing a + b executes a, then b |
| History.RevertAllConcat | OpenUtau.Core/DocManager.cs:274-281 | Reverting a + b reverts b first, then a |
| History.RevertAllUndoesApplyAll | OpenUtau.Core/DocManager.cs:254-268 | With reversible commands, reverting an executed group gives back the content from before it |
| History.RedoAfterUndoRestores | OpenUtau.Core/DocManager.cs:270-302 | With reversible commands, execute then undo then redo leaves the content as it was after the execute |
| History.BroadcastReachesEach | OpenUtau.Core/DocManager.cs:327-333 | A publish delivers to the i-th subscriber at position i, once each |
| History.ReplayForwardConcat | OpenUtau.Core/DocManager.cs:291-298 | A forward replay publishes earlier commands first |
| History.ReplayBackwardConcat | OpenUtau.Core/DocManager.cs:274-281 | A backward replay publishes later commands first |
| History.ChangesSavedAtTail | OpenUtau.Core/DocManager.cs:118-123 | `ChangesSaved` holds exactly when the project is saved or has no tracks, and the saved point equals `undoQueue.LastOrDefault()` |
| History.SaveAsWrittenDiffers | OpenUtau.Core/DocManager.cs:167-176 | The as-written save and the corrected save differ in exactly two cases, in both directions: (1) a successful save with an empty history and a saved point still set; (2) a failed save when the newest group is not the saved point |
| History.SaveAsWrittenLeavesChangesUnsaved | OpenUtau.Core/DocManager.cs:169-171 | As written, a successful save with an empty history and a stale saved point leaves `ChangesSaved` false |
| History.FailedSaveAsWrittenClaimsSaved | OpenUtau.Core/DocManager.cs:169-176 | As written, a save whose write throws still turns `ChangesSaved` from false to true for a project saved earlier |
| History.ChangesSavedAfterSave | OpenUtau.Core/DocManager.cs:167-176 | With the corrected rule, `ChangesSaved` holds after every successful save, and the project lives at the target path |
| History.FailedSaveKeepsChangesSaved | OpenUtau.Core/DocManager.cs:167-176 | With the corrected rule, a failed save leaves `ChangesSaved` as it was |
| History.CommitLeavesChangesUnsaved | OpenUtau.Core/DocManager.cs:118-123 | After a non-empty group is committed (limit positive), `ChangesSaved` is false |
| History.UndoReturnsToSavedPoint | OpenUtau.Core/DocManager.cs:118-123 | Committing a group after reaching the saved point and then undoing it makes `ChangesSaved` true again, when nothing was evicted |
| History.AutoSaveOnce | OpenUtau.Core/DocManager.cs:145-148 | Right after an autosave at the newest group, the next autosave is skipped |
| History.AutoSaveDueAfterCommit | OpenUtau.Core/DocManager.cs:141-148 | After a new non-empty group is committed, an autosave is due again for a saved project with a path |
| History.OrderedIncreasing | OpenUtau.Core/DocManager.cs:112-116 | Along a linear history every group id is below every later one and below the next id, so no group occurs twice |
| History.UndoKeepsTimeline | OpenUtau.Core/DocManager.cs:270-285 | Undo leaves the timeline (undo queue, then redo queue in redo order) unchanged |
| History.RedoKeepsTimeline | OpenUtau.Core/DocManager.cs:287-302 | Redo leaves the timeline unchanged |
| History.CommitKeepsLinear | OpenUtau.Core/DocManager.cs:233-252 | Committing the open group keeps the history linear, with the next id one higher |
| History.UndoKeepsLinear | OpenUtau.Core/DocManager.cs:270-285 | Undo keeps the history linear |
| History.RedoKeepsLinear | OpenUtau.Core/DocManager.cs:287-302 | Redo keeps the history linear |
| History.AddKeepsNoDuplicates | OpenUtau.Core/DocManager.cs:311-317 | Appending an absent subscriber keeps the list free of duplicates |
| History.WithoutRemovesAll | OpenUtau.Core/DocManager.cs:319-325 | Removing a subscriber from a duplicate-free list removes it altogether, drops exactly one entry, keeps exactly the others, and stays free of duplicates |
| Paths.SiblingPathIsSibling | OpenUtau.Core/DocManager.cs:129-131 | The copy is in the project file's directory, and its base name is the project's base name followed by the tag |
| Paths.SiblingPathIsNotOriginal | OpenUtau.Core/DocManager.cs:149-151 | A copy whose tag does not start with a dot never has the project file's own path |
| Paths.AutosaveIsNotBackup | OpenUtau.Core/DocManager.cs:149-151 | The autosave copy and the crash backup are different files |
| Paths.CopiesAreNotOriginal | OpenUtau.Core/DocManager.cs:129-131 | Neither copy overwrites the project file |
| Sessions.EditUndoRedo | OpenUtau.Core/DocManager.cs:270-302 | Session: one reversible edit in a group, then undo, then redo. Undo gives back the original content; redo gives the edited content again |
| Sessions.EditsRolledBack | OpenUtau.Core/DocManager.cs:254-268 | Session: two reversible edits, then a rollback. The content is restored, nothing is committed, and the group stays open |
| Sessions.EditOutsideGroup | OpenUtau.Core/DocManager.cs:207-210 | Session: an edit with no open group. The content is unchanged and no subscriber hears of it |
| Sessions.CommitOneEdit | OpenUtau.Core/DocManager.cs:224-252 | Session: open, edit, end. The history is that one group and the content is the edit applied |
| Sessions.SaveUndoSave | OpenUtau.Core/DocManager.cs:118-123 | Session, with the corrected save rule: commit, save, undo, save. The changes are saved after the first save, unsaved after the undo, and saved again after the second save |
| Sessions.FailedSave | OpenUtau.Core/DocManager.cs:167-176 | Session, with the corrected save rule: commit, then a save that fails. The failure is reported, nothing is written, and the changes stay unsaved |
| Sessions.AutoSaveTwice | OpenUtau.Core/DocManager.cs:141-160 | Session: two autosaves with no edit between them. Exactly one autosave copy is written |
| Sessions.AutoSaveAgain | OpenUtau.Core/DocManager.cs:141-160 | On any manager, an autosave right after one whose write succeeded writes nothing more |
| Sessions.SubscribeTwice | OpenUtau.Core/DocManager.cs:311-317 | Session: one subscriber registered twice hears a notification once |

## Left out

- Plugin and phonemizer discovery (`SearchAllPlugins`, `SearchAllLegacyPlugins`), `Initialize`, the main-thread scheduler and the clipboards are not part of this model.
- The main-thread check in `ExecuteCmd` only writes a log line, so it is left out; logging is left out everywhere.
- The locks around the subscriber list and around `cmd.Execute()` are left out, since the model is sequential and has no concurrency.
- `Project.Validate`, `Project.ValidateFull`, `UTrack.OnSingerRefreshed` and `SingerManager.SearchAllSingers` are calls into code that is not part of this model. None of them touches the history, the points or the subscribers, and the model omits them, along with the `DeferValidate` and `ValidateOptions` choices between them. The group still records `deferValidate`.
- `UCommandGroup.Merge` is not part of this model. `EndUndoGroup` calls it (`OpenUtau.Core/DocManager.cs:248`) on the group it has just put on the undo queue (line 239), so it rewrites the command list that `Undo` and `Redo` later replay. The model keeps the commands as executed, taking the merged list to replay to the same content and to publish the same deliveries.
- `Format.Ustx.Save` and `Format.Ustx.AutoSave` are not part of this model. Every write is reduced to a `Snapshot` of the path and the content, and its success to `writeOk`. A successful `Save`, in a save notification and in `CrashSave` alike, is taken to move the project to the target path and mark it saved (`History.MarkSaved`). `AutoSave` is taken to leave the project as it is.
- Exceptions thrown by a command's `Execute` or `Unexecute` are not modelled, because commands are total functions here.
- A `null` project is not modelled; `Project` is never null in the source after construction.
- The undo limit is a `nat` parameter. A negative preference value is left out; it would make `RemoveFromFront` throw on an empty deque.
- The `Silent` flag of commands only decides logging and is left out.
- Subscribers are modelled by identity only; what `OnNext` does with a delivery is outside the manager.
- Paths.SiblingPathIsSibling, Paths.SiblingPathIsNotOriginal, Paths.AutosaveIsNotBackup and Paths.CopiesAreNotOriginal: only '/' is a separator, and the path may not double the separator in front of the file name. .NET also accepts '\\' on Windows and normalises "a//b".
- Docs.DocManager.ExecuteCmd: its save case follows the corrected save rule of the Findings below, not the code as written. The as-written rule is `History.SaveAsWritten`.
- Docs.DocManager.SaveTo: follows the corrected save rule (the saved point moves only after a successful write, to the newest group or to null), not lines 169-176 as written.
- Docs.DocManager.HandleNotification: its save case is `SaveTo`, so it follows the corrected save rule, not lines 169-176 as written.
- Sessions.SaveUndoSave: runs the corrected save rule. As written, the second save keeps the stale saved point of the undone group, and `ChangesSaved` stays false (`History.SaveAsWrittenLeavesChangesUnsaved`).
- Sessions.FailedSave: runs the corrected save rule. As written, the saved point moves before the write throws, and for a project saved earlier `ChangesSaved` turns true (`History.FailedSaveAsWrittenClaimsSaved`).
- Docs.DocManager.AutoSave and Docs.DocManager.CrashSave: a failed write is caught and logged in the source. The model only records that nothing was written.

## Findings

| source | as written | input that shows it | evidently intended | confidence | as-written member | corrected member |
|---|---|---|---|---|---|---|
| OpenUtau.Core/DocManager.cs:169-171 | A save updates the saved point only when the undo queue is non-empty, so an earlier saved point survives a save with an empty queue | Commit one group, save, undo it, save again: `ChangesSaved` is false right after a successful save, because the saved point still names the undone group while the queue is empty | A save records `undoQueue.LastOrDefault()`, so the saved point is null when the queue is empty | medium, not executed | History.SaveAsWrittenLeavesChangesUnsaved | History.ChangesSavedAfterSave |
| OpenUtau.Core/DocManager.cs:169-176 | The saved point moves before `Format.Ustx.Save` runs, so it moves even when the write throws | Save a project, commit one group, then save to a path whose write throws: `ChangesSaved` becomes true although that group was never written, so closing the editor would not ask to save | The saved point moves only after the write succeeds | medium, not executed | History.FailedSaveAsWrittenClaimsSaved | History.FailedSaveKeepsChangesSaved |

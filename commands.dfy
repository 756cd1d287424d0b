/** The values the document manager works with: the project, the commands that
    edit it, the groups that make them undoable, the notifications that travel on
    the same channel, and what the outside world observes (deliveries to
    subscribers, files written). */
module Commands {

  datatype Option<T> = None | Some(value: T)

  /** The editable content of a project. Tracks and parts are reduced to
      identifiers; commands may change them in any way. */
  datatype Score = Score(tracks: seq<nat>, parts: seq<nat>)

  /** The open project: where it was last saved, whether it counts as saved, and
      its content. */
  datatype Project = Project(filePath: string, saved: bool, score: Score)

  /** An undoable edit: Execute is `apply`, Unexecute is `revert`. The engine
      never inspects either; `id` only names the command. */
  datatype Command = Command(id: nat, apply: Score -> Score, revert: Score -> Score)

  /** What callers promise of a command: reverting it right after applying it
      gives back the content it started from. */
  ghost predicate Reversible(c: Command)
  {
    forall s :: c.revert(c.apply(s)) == s
  }

  /** An undo group (UCommandGroup). Groups are objects in OpenUtau; `id`
      stands for their identity, which is what the saved and autosaved points
      are compared by. */
  datatype Group = Group(id: nat, deferValidate: bool, commands: seq<Command>)

  /** The notification kinds that the manager handles itself, and `Other` for
      every kind it only publishes. `Progress` is the kind exempt from the
      owner-thread check. */
  datatype Notification =
    | SaveProject(path: string)
    | LoadProject(project: Project)
    | SetPlayPosTick(tick: int)
    | SingersChanged
    | ValidateProject
    | SingersRefreshed
    | OtoChanged
    | PreRender
    | Progress
    | Other

  /** Everything handed to ExecuteCmd: an edit or a notification. */
  datatype UCommand = Edit(cmd: Command) | Notify(note: Notification)

  /** A registered subscriber, identified by reference. */
  type Subscriber = nat

  /** One OnNext call: which subscriber got which command, and whether it was
      an undo replay. */
  datatype Delivery = Delivery(to: Subscriber, cmd: UCommand, isUndo: bool)

  /** One file written: where, and the content written. */
  datatype Snapshot = Snapshot(path: string, score: Score)
}

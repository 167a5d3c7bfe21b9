/** The host form's side of the component: it stores every list passed to
    `onImagesUpdate` verbatim and renders the component again with it. A run
    of user actions therefore threads the list through the handlers; the
    lemma at the end says the rank invariant survives any such run. */
module EditingSession {

  import opened Wrappers
  import opened ImageRecords
  import opened MultipleImageUploader

  /** One user action on the rendered component. */
  datatype Action =
    | Upload(file: FileInput, outcome: UploadOutcome)
    | Remove(index: int)
    | ChangePriority(index: int, newPriority: int)
    | MoveUp(index: int)
    | MoveDown(index: int)
    | EditTitle(index: int, title: string)
    | EditDescription(index: int, description: string)

  /** The action can be issued on the list as rendered: indices come from
      the rendered records. */
  predicate Admissible(images: seq<ImageRecord>, a: Action) {
    match a
    case Upload(_, _) => true
    case Remove(i) => 0 <= i < |images|
    case ChangePriority(i, p) => 1 <= p <= |images| ==> 0 <= i < |images|
    case MoveUp(i) => 0 <= i < |images|
    case MoveDown(i) => 0 <= i < |images|
    case EditTitle(i, _) => 0 <= i < |images|
    case EditDescription(i, _) => 0 <= i < |images|
  }

  /** The list the handler passes to `onImagesUpdate`, if it calls it.
      Uploads are taken to read the list currently rendered. */
  function Emission(images: seq<ImageRecord>, a: Action): (emitted: Option<seq<ImageRecord>>)
    requires Admissible(images, a)
  {
    match a
    case Upload(file, outcome) => UploadFile(images, file, outcome, true).emitted
    case Remove(i) => Some(HandleRemoveImage(images, i))
    case ChangePriority(i, p) => HandlePriorityChange(images, i, p)
    case MoveUp(i) => MovePriorityUp(images, i)
    case MoveDown(i) => MovePriorityDown(images, i)
    case EditTitle(i, t) => Some(HandleTitleChange(images, i, t))
    case EditDescription(i, d) => Some(HandleDescriptionChange(images, i, d))
  }

  /** The host's list after the action: the emitted list, or the old one
      when nothing was emitted. */
  function Step(images: seq<ImageRecord>, a: Action): (after: seq<ImageRecord>)
    requires Admissible(images, a)
  {
    match Emission(images, a)
    case Some(next) => next
    case None => images
  }

  /** Every action in the run is admissible on the list it meets. */
  predicate ValidRun(images: seq<ImageRecord>, actions: seq<Action>)
    decreases |actions|
  {
    |actions| == 0 ||
    (Admissible(images, actions[0]) && ValidRun(Step(images, actions[0]), actions[1..]))
  }

  /** The host's list after the whole run. */
  function Replay(images: seq<ImageRecord>, actions: seq<Action>): (final: seq<ImageRecord>)
    requires ValidRun(images, actions)
    decreases |actions|
  {
    if |actions| == 0 then images else Replay(Step(images, actions[0]), actions[1..])
  }

  /** Every single action keeps the invariant. */
  lemma StepKeepsInvariant(images: seq<ImageRecord>, a: Action)
    requires Admissible(images, a)
    requires Numbered(images)
    ensures Numbered(Step(images, a))
  {
    match a
    case Upload(file, outcome) =>
      if Emission(images, a).Some? {
        UploadAppends(images, file, outcome.secureUrl);
      }
    case ChangePriority(i, p) =>
      if 1 <= p <= |images| {
        PriorityChangeMoves(images, i, p);
      }
    case MoveUp(i) =>
      if i > 0 {
        MoveUpSwaps(images, i);
      }
    case MoveDown(i) =>
      if i < |images| - 1 {
        MoveDownSwaps(images, i);
      }
    case _ =>
  }

  /** Starting from a list that keeps the invariant, every list the host
      holds during any run keeps it: ranks are 1..N in list order. */
  lemma {:induction false} ReplayKeepsInvariant(images: seq<ImageRecord>, actions: seq<Action>)
    requires ValidRun(images, actions)
    requires Numbered(images)
    ensures Numbered(Replay(images, actions))
    decreases |actions|
  {
    if |actions| > 0 {
      StepKeepsInvariant(images, actions[0]);
      ReplayKeepsInvariant(Step(images, actions[0]), actions[1..]);
    }
  }

  /** Removing or re-ranking repairs any list, whatever ranks it came with. */
  lemma ReorderingRepairs(images: seq<ImageRecord>, a: Action)
    requires Admissible(images, a)
    requires a.Remove? || a.ChangePriority?
    requires Emission(images, a).Some?
    ensures Numbered(Step(images, a))
  {
    if a.ChangePriority? {
      PriorityChangeMoves(images, a.index, a.newPriority);
    }
  }
}

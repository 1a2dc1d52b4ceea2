/** ModalProvider and its accessor useModalOpeners. The provider holds the six
    fields of ModalModel.ModalState, hands consumers one setter per field,
    subscribes a listener to the create-flashcard channel when it mounts and
    calls the returned unsubscribe handle in its cleanup. Each method is
    specified by ModalModel.Apply, whose properties are proved there. */
module ModalContext {
  import opened Wrappers
  import ModalModel
  import Lifecycle
  import Ipc

  class ModalProvider {
    var isNewNoteModalOpen: bool
    var isNewDirectoryModalOpen: bool
    var isSettingsModalOpen: bool
    var isFlashcardModeOpen: bool
    var initialFileToCreateFlashcard: string
    var initialFileToReviewFlashcard: string

    /** The registry the effect subscribed with, and the handle it returned. */
    const ipc: Ipc.Renderer
    const listener: Ipc.Handle
    /** Where the subscription is in its life; never Unmounted once constructed. */
    var phase: Lifecycle.Phase
    /** The effect's history so far: the mount, each delivery, the cleanup. */
    ghost var hooks: seq<Lifecycle.Hook>

    /** The current snapshot of the six fields. */
    function State(): ModalModel.ModalState
      reads this
    {
      ModalModel.ModalState(
        isNewNoteModalOpen, isNewDirectoryModalOpen, isSettingsModalOpen,
        isFlashcardModeOpen, initialFileToCreateFlashcard, initialFileToReviewFlashcard)
    }

    /** The listener is registered on the create-flashcard channel exactly
        while the provider is subscribed, and the phase is the one its history
        of hooks leads to, so the lemmas of Lifecycle apply to that history. */
    ghost predicate Valid()
      reads this, ipc
    {
      && ipc.Valid()
      && !phase.Unmounted?
      && Lifecycle.Replay(Lifecycle.Unmounted, hooks) == Some(phase)
      && (phase.Subscribed? <==>
            listener in ipc.listeners && ipc.listeners[listener] == ModalModel.CreateFlashcardChannel)
      && (phase.Released? ==> listener !in ipc.listeners)
    }

    /** Mounting: every field starts closed or empty, and the effect registers
        one new listener on the create-flashcard channel. */
    constructor (ipc: Ipc.Renderer)
      requires ipc.Valid()
      modifies ipc
      ensures Valid() && this.ipc == ipc
      ensures State() == ModalModel.Initial()
      ensures phase == Lifecycle.Subscribed && hooks == [Lifecycle.Mount]
      ensures listener !in old(ipc.listeners)
      ensures ipc.listeners == old(ipc.listeners)[listener := ModalModel.CreateFlashcardChannel]
    {
      isNewNoteModalOpen := false;
      isNewDirectoryModalOpen := false;
      isSettingsModalOpen := false;
      isFlashcardModeOpen := false;
      initialFileToCreateFlashcard := "";
      initialFileToReviewFlashcard := "";
      this.ipc := ipc;
      var h := ipc.Receive(ModalModel.CreateFlashcardChannel);
      listener := h;
      phase := Lifecycle.Subscribed;
      hooks := [Lifecycle.Mount];
      assert [Lifecycle.Mount][..0] == [];
    }

    method SetIsNewNoteModalOpen(newNote: bool)
      modifies this`isNewNoteModalOpen
      ensures isNewNoteModalOpen == newNote
      ensures State() == ModalModel.Apply(old(State()), ModalModel.SetIsNewNoteModalOpen(newNote))
    {
      isNewNoteModalOpen := newNote;
    }

    method SetIsNewDirectoryModalOpen(newDir: bool)
      modifies this`isNewDirectoryModalOpen
      ensures isNewDirectoryModalOpen == newDir
      ensures State() == ModalModel.Apply(old(State()), ModalModel.SetIsNewDirectoryModalOpen(newDir))
    {
      isNewDirectoryModalOpen := newDir;
    }

    method SetIsSettingsModalOpen(settingsOpen: bool)
      modifies this`isSettingsModalOpen
      ensures isSettingsModalOpen == settingsOpen
      ensures State() == ModalModel.Apply(old(State()), ModalModel.SetIsSettingsModalOpen(settingsOpen))
    {
      isSettingsModalOpen := settingsOpen;
    }

    /** Does not touch initialFileToCreateFlashcard (see ModalModel.CloseKeepsTarget). */
    method SetIsFlashcardModeOpen(flashcardOpen: bool)
      modifies this`isFlashcardModeOpen
      ensures isFlashcardModeOpen == flashcardOpen
      ensures State() == ModalModel.Apply(old(State()), ModalModel.SetIsFlashcardModeOpen(flashcardOpen))
    {
      isFlashcardModeOpen := flashcardOpen;
    }

    method SetInitialFileToCreateFlashcard(flashcardName: string)
      modifies this`initialFileToCreateFlashcard
      ensures initialFileToCreateFlashcard == flashcardName
      ensures State() == ModalModel.Apply(old(State()), ModalModel.SetInitialFileToCreateFlashcard(flashcardName))
    {
      initialFileToCreateFlashcard := flashcardName;
    }

    method SetInitialFileToReviewFlashcard(flashcardName: string)
      modifies this`initialFileToReviewFlashcard
      ensures initialFileToReviewFlashcard == flashcardName
      ensures State() == ModalModel.Apply(old(State()), ModalModel.SetInitialFileToReviewFlashcard(flashcardName))
    {
      initialFileToReviewFlashcard := flashcardName;
    }

    /** The listener registered on the create-flashcard channel: the flag takes
        the payload's truthiness, then the file name takes the payload. The
        transport only calls it while the listener is registered. */
    method OnCreateFlashcardFile(noteName: string)
      requires Valid() && phase.Subscribed?
      modifies this`isFlashcardModeOpen, this`initialFileToCreateFlashcard, this`hooks
      ensures Valid() && hooks == old(hooks) + [Lifecycle.Deliver(noteName)]
      ensures State() == ModalModel.Apply(old(State()), ModalModel.CreateFlashcardFile(noteName))
      ensures isFlashcardModeOpen == (noteName != "") && initialFileToCreateFlashcard == noteName
    {
      SetIsFlashcardModeOpen(ModalModel.Truthy(noteName));
      SetInitialFileToCreateFlashcard(noteName);
      hooks := hooks + [Lifecycle.Deliver(noteName)];
      assert hooks[..|hooks| - 1] == old(hooks);
    }

    /** The effect's cleanup: calls the unsubscribe handle, which removes this
        provider's listener and no other; the fields are left as they are. */
    method Cleanup()
      requires Valid() && phase.Subscribed?
      modifies this`phase, this`hooks, ipc
      ensures Valid() && phase == Lifecycle.Released
      ensures hooks == old(hooks) + [Lifecycle.Cleanup]
      ensures ipc.listeners == old(ipc.listeners) - {listener}
      ensures State() == old(State())
    {
      ipc.Unsubscribe(listener);
      phase := Lifecycle.Released;
      hooks := hooks + [Lifecycle.Cleanup];
      assert hooks[..|hooks| - 1] == old(hooks);
    }
  }

  /** The one error the accessor raises. */
  datatype UsageError = UsageError(message: string)

  const MissingProvider: string := "useModalOpeners must be used within a ModalProvider"

  /** useModalOpeners: the nearest provider, or a usage error when there is
      none; it never makes up a default provider. */
  function UseModalOpeners(context: Option<ModalProvider>): (r: Result<ModalProvider, UsageError>)
    ensures r.Failure? <==> context.None?
    ensures r.Failure? ==> r.error == UsageError(MissingProvider)
    ensures r.Success? ==> r.value == context.value
  {
    match context
    case None => Failure(UsageError(MissingProvider))
    case Some(provider) => Success(provider)
  }

  /** One session seen by its consumers: mount, open two modals, receive a
      flashcard request, close flashcard mode through its setter, unmount.
      No listener is left behind, the cleanup ran once, and the file name
      survives the close. */
  method Session(ipc: Ipc.Renderer) returns (closed: ModalModel.ModalState, p: ModalProvider)
    requires ipc.Valid()
    modifies ipc
    ensures ipc.Valid() && ipc.listeners == old(ipc.listeners)
    ensures p.Valid() && p.phase == Lifecycle.Released && p.listener !in ipc.listeners
    ensures Lifecycle.Cleanups(p.hooks) == 1
    ensures closed.isSettingsModalOpen && closed.isNewNoteModalOpen
    ensures !closed.isFlashcardModeOpen && closed.initialFileToCreateFlashcard == "note.md"
  {
    var provider := new ModalProvider(ipc);
    var openers := UseModalOpeners(Some(provider));
    p := openers.value;
    p.SetIsSettingsModalOpen(true);
    p.SetIsNewNoteModalOpen(true);
    p.OnCreateFlashcardFile("note.md");
    assert p.isFlashcardModeOpen;
    p.SetIsFlashcardModeOpen(false);
    closed := p.State();
    p.Cleanup();
    Lifecycle.ReleasedExactlyOnce(p.hooks);
  }
}

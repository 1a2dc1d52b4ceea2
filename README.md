# ModalContext: the modal coordinator of a note-taking app

`ModalProvider` (src/contexts/ModalContext.tsx) is the one place that records
which modal dialogs are open: the new-note, new-directory and settings modals
and flashcard mode. It also holds two file names, the file to create flashcards
for and the file to review flashcards for. Consumers get the six fields and one
setter per field through `useModalOpeners`. That accessor throws a usage error
outside a provider. When the provider mounts, an effect registers a listener on
the host channel `create-flashcard-file-listener`. For a payload `noteName` the
listener sets the flashcard flag to the truthiness of `noteName` and sets the
creation file to `noteName`. The effect's cleanup calls the unsubscribe handle
that registration returned.

The model has five modules:

- `ModalModel` (modal_model.dfy): the record as a value (`ModalState`). Each
  change is an `Action`: one of the six setters, or a delivered payload.
  `Apply` gives the effect of one action and `Run` the effect of a sequence.
  Lemmas cover read-after-write, frames, last-write-wins, the handler's
  truthiness mapping, idempotence of repeated deliveries, and the absence of
  mutual exclusion. They also cover the flag/file-name convention, which only
  the handler keeps.
- `Lifecycle` (lifecycle.dfy): traces of mount, delivery and cleanup, taken
  from the protocol React and the transport follow: mount once, deliver only to
  a registered listener, clean up once. Each legal trace subscribes at most
  once and releases at most once. Every delivery happens while subscribed, and
  none happens after the cleanup. `ModalProvider` keeps its own history of
  these hooks as a ghost field. Its `Valid()` says that this history is a legal
  trace, that the trace leads to the provider's phase, and that the listener
  is registered exactly while that phase is subscribed. So these lemmas hold of
  every provider's real history.
- `Ipc` (ipc.dfy): the listener registry behind `window.ipcRenderer.receive`.
  Registering hands back a fresh handle; calling that handle removes that one
  listener.
- `ModalContext` (modal_context.dfy): the class `ModalProvider`, with the six
  fields updated in place, one setter method per field (each may modify only
  its own field), the listener method and the cleanup. Each method is specified
  against `ModalModel.Apply`. The module also holds `UseModalOpeners` over
  `Option`, and a client `Session` that runs one mount/unmount cycle.
- `Wrappers` (wrappers.dfy): `Option` and `Result`.

## Model

| member | source | states |
|---|---|---|
| `ModalModel.Initial` | src/contexts/ModalContext.tsx:36-41 | every flag starts false and both file names start empty |
| `ModalModel.Apply` | src/contexts/ModalContext.tsx:12-22 | one action assigns exactly the fields it writes, with the values it writes; every other field keeps its value |
| `ModalModel.RunReadsLastWrite` | src/contexts/ModalContext.tsx:36-41 | after any sequence of setter calls and deliveries, a field holds the value written by the last action in the sequence that assigns it |
| `ModalModel.ReadAfterWrite` | src/contexts/ModalContext.tsx:12-22 | right after an action, each field it assigns reads back the value written, whatever came before |
| `ModalModel.RunUntouched` | src/contexts/ModalContext.tsx:36-41 | a field that no action in a sequence assigns keeps its value |
| `ModalModel.HandlerOutcome` | src/contexts/ModalContext.tsx:46-49 | a non-empty payload opens flashcard mode with that file; `""` closes it and clears the file; the other four fields are untouched |
| `ModalModel.HandlerIsTwoSetters` | src/contexts/ModalContext.tsx:47-48 | the handler has the effect of setting the flag to the payload's truthiness and then the file to the payload |
| `ModalModel.ApplyIdempotent` | src/contexts/ModalContext.tsx:46-49 | applying the handler (or any setter) twice with the same argument equals applying it once |
| `ModalModel.RepeatedDelivery` | src/contexts/ModalContext.tsx:46-49 | any number k >= 1 of identical deliveries gives the same state as one delivery |
| `ModalModel.NoMutualExclusion` | src/contexts/ModalContext.tsx:36-38 | opening settings and then the new-note modal leaves both open, from any state |
| `ModalModel.HandlerEstablishesAgreement` | src/contexts/ModalContext.tsx:46-49 | after the handler, flashcard mode is open exactly when the creation file is non-empty |
| `ModalModel.AgreementKept` | src/contexts/ModalContext.tsx:39-40 | the flag/file agreement survives every sequence of actions without the two plain flashcard setters |
| `ModalModel.CloseKeepsTarget` | src/contexts/ModalContext.tsx:18 | closing flashcard mode through its setter keeps the creation file, so a set file breaks the agreement |
| `Lifecycle.PhaseCounts` | src/contexts/ModalContext.tsx:43-55 | a legal trace is unmounted, subscribed or released exactly when it has mounted 0 times, mounted once without cleanup, or mounted and cleaned up once |
| `Lifecycle.ReleasedExactlyOnce` | src/contexts/ModalContext.tsx:52-54 | a legal trace ends released iff it ran the cleanup exactly once; it never runs it twice |
| `Lifecycle.DeliveriesSeeSubscribed` | src/contexts/ModalContext.tsx:44-49 | every delivery reaches the listener while the provider is subscribed |
| `Lifecycle.NoDeliveryAfterCleanup` | src/contexts/ModalContext.tsx:52-54 | after the cleanup, the handler is never invoked |
| `Ipc.Renderer.Receive` | src/contexts/ModalContext.tsx:44-45 | registering a listener adds one entry under a handle not already in use |
| `Ipc.Renderer.Unsubscribe` | src/contexts/ModalContext.tsx:53 | calling the handle removes that listener and no other |
| `ModalContext.ModalProvider.constructor` | src/contexts/ModalContext.tsx:36-45 | mounting starts from the initial state, registers one new listener on `create-flashcard-file-listener`, and records the mount as its history |
| `ModalContext.ModalProvider.SetIsNewNoteModalOpen` | src/contexts/ModalContext.tsx:12 | assigns the new-note flag only; the new state is `Apply` of the setter |
| `ModalContext.ModalProvider.SetIsNewDirectoryModalOpen` | src/contexts/ModalContext.tsx:14 | assigns the new-directory flag only; the new state is `Apply` of the setter |
| `ModalContext.ModalProvider.SetIsSettingsModalOpen` | src/contexts/ModalContext.tsx:16 | assigns the settings flag only; the new state is `Apply` of the setter |
| `ModalContext.ModalProvider.SetIsFlashcardModeOpen` | src/contexts/ModalContext.tsx:18 | assigns the flashcard flag only, leaving the creation file as it was |
| `ModalContext.ModalProvider.SetInitialFileToCreateFlashcard` | src/contexts/ModalContext.tsx:20 | assigns the creation file only |
| `ModalContext.ModalProvider.SetInitialFileToReviewFlashcard` | src/contexts/ModalContext.tsx:22 | assigns the review file only |
| `ModalContext.ModalProvider.OnCreateFlashcardFile` | src/contexts/ModalContext.tsx:46-49 | the listener, built from the two setter calls: the new state is `Apply` of the delivery, with flag = (payload non-empty) and file = payload; it records the delivery and keeps `Valid()` |
| `ModalContext.ModalProvider.Cleanup` | src/contexts/ModalContext.tsx:52-54 | callable only while subscribed; removes exactly this provider's listener, records the cleanup, moves to released and keeps the fields |
| `ModalContext.UseModalOpeners` | src/contexts/ModalContext.tsx:27-33 | fails with the usage error iff no provider is present; otherwise returns that provider, never a default |
| `ModalContext.Session` | src/contexts/ModalContext.tsx:43-55 | one mount/unmount cycle leaves the registry's listeners as they were, and the provider's history holds exactly one cleanup; two modals can be open at once; closing flashcard mode keeps its file |

## Left out

- React rendering, `createContext` and the Provider tree, and the `useMemo` snapshot (src/contexts/ModalContext.tsx:57-82): the model exposes the six fields directly. Re-renders are not modelled. Consumers read the fields between method calls, so they never see the handler's two assignments half done. In React the consumers see the same thing only when the two updates from the IPC callback are batched into one render. React 18's automatic batching does that, but the React version and root API are not part of this model. Under a legacy root, the two setter calls at lines 47-48 may render separately.
- The cross-process transport behind `window.ipcRenderer.receive`. The model replaces it with the `Ipc.Renderer` registry, and a delivered payload becomes an ordinary sequential call of `OnCreateFlashcardFile`. Asynchronous delivery and event-loop ordering are likewise modelled as sequential calls.
- Re-running the effect when its dependency array changes (src/contexts/ModalContext.tsx:55): the setters are stable, so the model has one subscribe at mount and one release at cleanup.
- Payloads that are not strings (`undefined`, `null`) from the host process: the payload is typed as a string, so only `""` is falsy in the model.
- State updates issued after unmount: React drops them, and in React only mounted descendants call `useModalOpeners`. The model does not enforce either. `UseModalOpeners` returns any provider it is given, whatever its phase. The setters still assign the fields of a released provider.

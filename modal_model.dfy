/** The state record held by ModalProvider, as a value, and every way the
    provider changes it: the six setters it hands to consumers and the listener
    it registers on the 'create-flashcard-file-listener' channel.

    The class in modal_context.dfy keeps the same six fields and is specified
    against Apply below; the properties of the record are proved here. */
module ModalModel {

  /** The six useState slots of ModalProvider. */
  datatype ModalState = ModalState(
    isNewNoteModalOpen: bool,
    isNewDirectoryModalOpen: bool,
    isSettingsModalOpen: bool,
    isFlashcardModeOpen: bool,
    initialFileToCreateFlashcard: string,
    initialFileToReviewFlashcard: string)

  /** Names of the six fields, so that a property can range over all of them. */
  datatype Field =
    | NewNoteModal
    | NewDirectoryModal
    | SettingsModal
    | FlashcardMode
    | FileToCreateFlashcard
    | FileToReviewFlashcard
  {
    predicate IsFlag() {
      !(FileToCreateFlashcard? || FileToReviewFlashcard?)
    }
  }

  /** What a field holds: a visibility flag or a file name. */
  datatype Value = Flag(open: bool) | FileName(name: string)

  function Read(s: ModalState, f: Field): Value {
    match f
    case NewNoteModal => Flag(s.isNewNoteModalOpen)
    case NewDirectoryModal => Flag(s.isNewDirectoryModalOpen)
    case SettingsModal => Flag(s.isSettingsModalOpen)
    case FlashcardMode => Flag(s.isFlashcardModeOpen)
    case FileToCreateFlashcard => FileName(s.initialFileToCreateFlashcard)
    case FileToReviewFlashcard => FileName(s.initialFileToReviewFlashcard)
  }

  /** The value useState starts each field with: closed, or the empty name. */
  function Default(f: Field): Value {
    if f.IsFlag() then Flag(false) else FileName("")
  }

  /** Two records are the same record when every field reads the same. */
  lemma ReadDetermines(s: ModalState, t: ModalState)
    requires forall f :: Read(s, f) == Read(t, f)
    ensures s == t
  {
    assert Read(s, NewNoteModal) == Read(t, NewNoteModal);
    assert Read(s, NewDirectoryModal) == Read(t, NewDirectoryModal);
    assert Read(s, SettingsModal) == Read(t, SettingsModal);
    assert Read(s, FlashcardMode) == Read(t, FlashcardMode);
    assert Read(s, FileToCreateFlashcard) == Read(t, FileToCreateFlashcard);
    assert Read(s, FileToReviewFlashcard) == Read(t, FileToReviewFlashcard);
  }

  /** The state a freshly mounted provider holds. */
  function Initial(): (s: ModalState)
    ensures forall f :: Read(s, f) == Default(f)
  {
    ModalState(false, false, false, false, "", "")
  }

  /** The name of the channel the provider listens on. */
  const CreateFlashcardChannel: string := "create-flashcard-file-listener"

  /** Every change the provider makes to its state: one of the six setters, or
      a payload delivered to the listener on CreateFlashcardChannel. */
  datatype Action =
    | SetIsNewNoteModalOpen(newNote: bool)
    | SetIsNewDirectoryModalOpen(newDir: bool)
    | SetIsSettingsModalOpen(settingsOpen: bool)
    | SetIsFlashcardModeOpen(flashcardOpen: bool)
    | SetInitialFileToCreateFlashcard(flashcardName: string)
    | SetInitialFileToReviewFlashcard(flashcardName: string)
    | CreateFlashcardFile(noteName: string)

  /** JavaScript's `!!noteName` for a string: only the empty string is falsy. */
  function Truthy(noteName: string): bool {
    noteName != ""
  }

  /** The fields an action assigns. */
  function Writes(a: Action): set<Field> {
    match a
    case SetIsNewNoteModalOpen(_) => {NewNoteModal}
    case SetIsNewDirectoryModalOpen(_) => {NewDirectoryModal}
    case SetIsSettingsModalOpen(_) => {SettingsModal}
    case SetIsFlashcardModeOpen(_) => {FlashcardMode}
    case SetInitialFileToCreateFlashcard(_) => {FileToCreateFlashcard}
    case SetInitialFileToReviewFlashcard(_) => {FileToReviewFlashcard}
    case CreateFlashcardFile(_) => {FlashcardMode, FileToCreateFlashcard}
  }

  /** The value an action leaves in a field it assigns. */
  function Written(a: Action, f: Field): Value
    requires f in Writes(a)
  {
    match a
    case SetIsNewNoteModalOpen(b) => Flag(b)
    case SetIsNewDirectoryModalOpen(b) => Flag(b)
    case SetIsSettingsModalOpen(b) => Flag(b)
    case SetIsFlashcardModeOpen(b) => Flag(b)
    case SetInitialFileToCreateFlashcard(n) => FileName(n)
    case SetInitialFileToReviewFlashcard(n) => FileName(n)
    case CreateFlashcardFile(n) =>
      if f == FlashcardMode then Flag(Truthy(n)) else FileName(n)
  }

  /** The effect of one action: the fields it assigns take the values it
      writes, every other field keeps its value. */
  function Apply(s: ModalState, a: Action): (r: ModalState)
    ensures forall f :: Read(r, f) == if f in Writes(a) then Written(a, f) else Read(s, f)
  {
    match a
    case SetIsNewNoteModalOpen(b) => s.(isNewNoteModalOpen := b)
    case SetIsNewDirectoryModalOpen(b) => s.(isNewDirectoryModalOpen := b)
    case SetIsSettingsModalOpen(b) => s.(isSettingsModalOpen := b)
    case SetIsFlashcardModeOpen(b) => s.(isFlashcardModeOpen := b)
    case SetInitialFileToCreateFlashcard(n) => s.(initialFileToCreateFlashcard := n)
    case SetInitialFileToReviewFlashcard(n) => s.(initialFileToReviewFlashcard := n)
    case CreateFlashcardFile(n) =>
      s.(isFlashcardModeOpen := Truthy(n), initialFileToCreateFlashcard := n)
  }

  /** The state after a sequence of actions, applied in delivery order. */
  function Run(s: ModalState, actions: seq<Action>): ModalState
    decreases |actions|
  {
    if actions == [] then s
    else Apply(Run(s, actions[..|actions| - 1]), actions[|actions| - 1])
  }

  /** Position i holds the last action in the sequence that assigns f. */
  predicate IsLastWrite(actions: seq<Action>, f: Field, i: int) {
    && 0 <= i < |actions|
    && f in Writes(actions[i])
    && forall j :: i < j < |actions| ==> f !in Writes(actions[j])
  }

  /** Last write wins: after any sequence of setter calls and deliveries, a
      field holds the value written by the last action that assigns it (and,
      by RunUntouched, its earlier value when no action does). */
  lemma {:induction false} RunReadsLastWrite(s: ModalState, actions: seq<Action>, f: Field, i: int)
    requires IsLastWrite(actions, f, i)
    ensures Read(Run(s, actions), f) == Written(actions[i], f)
    decreases |actions|
  {
    var n := |actions| - 1;
    if i < n {
      assert f !in Writes(actions[n]);
      assert actions[..n][i] == actions[i];
      forall j | i < j < n
        ensures f !in Writes(actions[..n][j])
      {
        assert actions[..n][j] == actions[j];
      }
      RunReadsLastWrite(s, actions[..n], f, i);
    }
  }

  /** Read-after-write: right after an action, every field it assigns reads
      back the value it wrote, whatever came before. */
  lemma ReadAfterWrite(s: ModalState, before: seq<Action>, a: Action, f: Field)
    requires f in Writes(a)
    ensures Read(Run(s, before + [a]), f) == Written(a, f)
  {
    assert (before + [a])[..|before|] == before;
  }

  /** Frame: a field that no action in the sequence assigns keeps its value. */
  lemma {:induction false} RunUntouched(s: ModalState, actions: seq<Action>, f: Field)
    requires forall i :: 0 <= i < |actions| ==> f !in Writes(actions[i])
    ensures Read(Run(s, actions), f) == Read(s, f)
    decreases |actions|
  {
    if actions != [] {
      var n := |actions| - 1;
      assert f !in Writes(actions[n]);
      forall i | 0 <= i < n
        ensures f !in Writes(actions[..n][i])
      {
        assert actions[..n][i] == actions[i];
      }
      RunUntouched(s, actions[..n], f);
    }
  }

  /** The handler's truthiness mapping: a non-empty payload opens flashcard
      mode on that file, the empty payload closes it and clears the file, and
      the other four fields are untouched. */
  lemma HandlerOutcome(s: ModalState, noteName: string)
    ensures var r := Apply(s, CreateFlashcardFile(noteName));
      && (noteName != "" ==> r.isFlashcardModeOpen && r.initialFileToCreateFlashcard == noteName)
      && (noteName == "" ==> !r.isFlashcardModeOpen && r.initialFileToCreateFlashcard == "")
      && r.isNewNoteModalOpen == s.isNewNoteModalOpen
      && r.isNewDirectoryModalOpen == s.isNewDirectoryModalOpen
      && r.isSettingsModalOpen == s.isSettingsModalOpen
      && r.initialFileToReviewFlashcard == s.initialFileToReviewFlashcard
  {
    var r := Apply(s, CreateFlashcardFile(noteName));
    assert Read(r, FlashcardMode) == Flag(Truthy(noteName));
    assert Read(r, FileToCreateFlashcard) == FileName(noteName);
    assert Read(r, NewNoteModal) == Read(s, NewNoteModal);
    assert Read(r, NewDirectoryModal) == Read(s, NewDirectoryModal);
    assert Read(r, SettingsModal) == Read(s, SettingsModal);
    assert Read(r, FileToReviewFlashcard) == Read(s, FileToReviewFlashcard);
  }

  /** The handler has the effect of its two successive setter calls, the flag
      first and the file name second. */
  lemma HandlerIsTwoSetters(s: ModalState, noteName: string)
    ensures Apply(s, CreateFlashcardFile(noteName))
         == Run(s, [SetIsFlashcardModeOpen(Truthy(noteName)), SetInitialFileToCreateFlashcard(noteName)])
  {
    var two := [SetIsFlashcardModeOpen(Truthy(noteName)), SetInitialFileToCreateFlashcard(noteName)];
    assert two[..1] == [two[0]];
    assert [two[0]][..0] == [];
    var r1 := Apply(s, CreateFlashcardFile(noteName));
    var r2 := Run(s, two);
    var mid := Apply(s, two[0]);
    assert Run(s, two[..1]) == Apply(Run(s, []), two[0]) == mid;
    assert r2 == Apply(mid, two[1]);
    forall f ensures Read(r1, f) == Read(r2, f) {
      assert Read(r2, f) == if f in Writes(two[1]) then Written(two[1], f) else Read(mid, f);
    }
    ReadDetermines(r1, r2);
  }

  /** Every action, and in particular the handler, is idempotent: applying it
      twice gives the state applying it once gives. */
  lemma ApplyIdempotent(s: ModalState, a: Action)
    ensures Apply(Apply(s, a), a) == Apply(s, a)
  {
    var once := Apply(s, a);
    var twice := Apply(once, a);
    forall f ensures Read(twice, f) == Read(once, f) {
    }
    ReadDetermines(twice, once);
  }

  /** k >= 1 copies of one action, as a duplicated delivery produces. */
  function Repeat(a: Action, k: nat): (r: seq<Action>)
    ensures |r| == k
    ensures forall i :: 0 <= i < k ==> r[i] == a
  {
    if k == 0 then [] else Repeat(a, k - 1) + [a]
  }

  /** Duplicate deliveries of the same payload (or repeated calls of a setter
      with the same value) leave the state a single one leaves. */
  lemma {:induction false} RepeatedDelivery(s: ModalState, a: Action, k: nat)
    requires k >= 1
    ensures Run(s, Repeat(a, k)) == Apply(s, a)
    decreases k
  {
    var r := Repeat(a, k);
    if k == 1 {
      assert r[..0] == [];
    } else {
      assert r[..k - 1] == Repeat(a, k - 1);
      RepeatedDelivery(s, a, k - 1);
      ApplyIdempotent(s, a);
    }
  }

  /** No mutual exclusion: opening settings and then the new-note modal leaves
      both open, from any state. */
  lemma NoMutualExclusion(s: ModalState)
    ensures var r := Run(s, [SetIsSettingsModalOpen(true), SetIsNewNoteModalOpen(true)]);
      r.isSettingsModalOpen && r.isNewNoteModalOpen
  {
    var two := [SetIsSettingsModalOpen(true), SetIsNewNoteModalOpen(true)];
    RunReadsLastWrite(s, two, SettingsModal, 0);
    RunReadsLastWrite(s, two, NewNoteModal, 1);
  }

  /** The convention the flashcard modal relies on: flashcard mode is open
      exactly when there is a file to create flashcards for. */
  predicate FlashcardTargetAgrees(s: ModalState) {
    s.isFlashcardModeOpen == Truthy(s.initialFileToCreateFlashcard)
  }

  /** The actions that cannot break the convention: all but the two plain
      setters of the flashcard flag and of its file name. */
  predicate KeepsFlashcardTarget(a: Action) {
    !(a.SetIsFlashcardModeOpen? || a.SetInitialFileToCreateFlashcard?)
  }

  /** The handler establishes the convention from any state. */
  lemma HandlerEstablishesAgreement(s: ModalState, noteName: string)
    ensures FlashcardTargetAgrees(Apply(s, CreateFlashcardFile(noteName)))
  {
    HandlerOutcome(s, noteName);
  }

  /** The convention holds initially and survives every sequence of actions
      that avoids the two plain flashcard setters. */
  lemma {:induction false} AgreementKept(s: ModalState, actions: seq<Action>)
    requires FlashcardTargetAgrees(s)
    requires forall i :: 0 <= i < |actions| ==> KeepsFlashcardTarget(actions[i])
    ensures FlashcardTargetAgrees(Run(s, actions))
    decreases |actions|
  {
    if actions != [] {
      var n := |actions| - 1;
      forall i | 0 <= i < n
        ensures KeepsFlashcardTarget(actions[..n][i])
      {
        assert actions[..n][i] == actions[i];
      }
      AgreementKept(s, actions[..n]);
      var p := Run(s, actions[..n]);
      var r := Apply(p, actions[n]);
      if actions[n].CreateFlashcardFile? {
        HandlerEstablishesAgreement(p, actions[n].noteName);
      } else {
        assert Read(r, FlashcardMode) == Read(p, FlashcardMode);
        assert Read(r, FileToCreateFlashcard) == Read(p, FileToCreateFlashcard);
      }
    }
  }

  /** Closing flashcard mode through its plain setter keeps the file name, so
      the convention breaks whenever a file was set: only the handler updates
      both fields together. */
  lemma CloseKeepsTarget(s: ModalState)
    requires s.initialFileToCreateFlashcard != ""
    ensures var r := Apply(s, SetIsFlashcardModeOpen(false));
      && !r.isFlashcardModeOpen
      && r.initialFileToCreateFlashcard == s.initialFileToCreateFlashcard
      && !FlashcardTargetAgrees(r)
  {
    var r := Apply(s, SetIsFlashcardModeOpen(false));
    assert Read(r, FlashcardMode) == Flag(false);
    assert Read(r, FileToCreateFlashcard) == Read(s, FileToCreateFlashcard);
  }
}

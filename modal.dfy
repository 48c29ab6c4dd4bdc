/**
 * The generic modal-state hook: whether the dialog is open, and the record it
 * was opened with.  Each callback updates both state cells in one step (React
 * batches the two `setState` calls of a callback).
 */
module Modal {
  import opened Wrappers

  /** The two state cells at one moment; `None` in `modalData` is `null`. */
  datatype ModalSnapshot<T> = ModalSnapshot(isOpen: bool, modalData: Option<T>)

  /** The three callbacks, with their arguments; `OpenModal(None)` is `openModal()`. */
  datatype ModalAction<T> = OpenModal(data: Option<T>) | HandleOpenChange(open: bool) | CloseModal

  /** The state before any callback: closed, no data. */
  function Initial<T>(): ModalSnapshot<T> {
    ModalSnapshot(false, None)
  }

  /** The state invariant: a closed modal holds no data. */
  predicate Consistent<T>(s: ModalSnapshot<T>) {
    !s.isOpen ==> s.modalData.None?
  }

  /** The effect of one callback. */
  function Step<T>(s: ModalSnapshot<T>, a: ModalAction<T>): ModalSnapshot<T> {
    match a
    case OpenModal(data) => ModalSnapshot(true, data)
    case HandleOpenChange(open) => ModalSnapshot(open, if open then s.modalData else None)
    case CloseModal => ModalSnapshot(false, None)
  }

  /** The effect of a sequence of callbacks, in order. */
  function Run<T>(s: ModalSnapshot<T>, actions: seq<ModalAction<T>>): ModalSnapshot<T>
    decreases |actions|
  {
    if actions == [] then s else Run(Step(s, actions[0]), actions[1..])
  }

  /** Every callback keeps the invariant. */
  lemma StepConsistent<T>(s: ModalSnapshot<T>, a: ModalAction<T>)
    requires Consistent(s)
    ensures Consistent(Step(s, a))
  {
  }

  /** Every sequence of callbacks from a consistent state ends in a consistent state. */
  lemma {:induction false} RunConsistent<T>(s: ModalSnapshot<T>, actions: seq<ModalAction<T>>)
    requires Consistent(s)
    ensures Consistent(Run(s, actions))
    decreases |actions|
  {
    if actions != [] {
      StepConsistent(s, actions[0]);
      RunConsistent(Step(s, actions[0]), actions[1..]);
    }
  }

  /** Whatever callbacks have run since the hook was created, a closed modal holds no data. */
  lemma ReachableConsistent<T>(actions: seq<ModalAction<T>>)
    ensures Consistent(Run(Initial(), actions))
  {
    RunConsistent(Initial(), actions);
  }

  /** Callbacks that lead from the initial state to a given consistent state. */
  function Witness<T>(s: ModalSnapshot<T>): seq<ModalAction<T>> {
    if s.isOpen then [OpenModal(s.modalData)] else []
  }

  /** Conversely, every consistent state is reached by some sequence of callbacks. */
  lemma ConsistentReachable<T>(s: ModalSnapshot<T>)
    requires Consistent(s)
    ensures Run(Initial(), Witness(s)) == s
  {
    if s.isOpen {
      assert Witness(s)[1..] == [];
    }
  }

  /**
   * `openModal(d)` opens with `d`; `openModal()` opens with no data, whatever
   * the modal held before, so a stale record never leaks into create mode.
   */
  lemma OpenModalSetsData<T>(s: ModalSnapshot<T>, data: Option<T>)
    ensures Step(s, OpenModal(data)).isOpen
    ensures Step(s, OpenModal(data)).modalData == data
  {
  }

  /** `handleOpenChange(false)` is exactly `closeModal()`. */
  lemma CloseViaOpenChange<T>(s: ModalSnapshot<T>)
    ensures Step(s, HandleOpenChange(false)) == Step(s, CloseModal)
    ensures Step(s, CloseModal) == Initial()
  {
  }

  /** `handleOpenChange(true)` opens and keeps the data; on a consistent closed modal that data is null. */
  lemma ReopenKeepsData<T>(s: ModalSnapshot<T>)
    ensures Step(s, HandleOpenChange(true)) == ModalSnapshot(true, s.modalData)
    ensures Consistent(s) && !s.isOpen ==> Step(s, HandleOpenChange(true)).modalData.None?
  {
  }

  /** Closing twice is closing once. */
  lemma CloseIdempotent<T>(s: ModalSnapshot<T>)
    ensures Step(Step(s, CloseModal), CloseModal) == Step(s, CloseModal)
  {
  }

  /** The hook's state, as an object whose two fields the callbacks overwrite. */
  class ModalState<T> {
    var isOpen: bool
    var modalData: Option<T>

    ghost predicate Valid()
      reads this
    {
      Consistent(Snapshot())
    }

    function Snapshot(): ModalSnapshot<T>
      reads this
    {
      ModalSnapshot(isOpen, modalData)
    }

    /** `useState(false)` and `useState<T | null>(null)`. */
    constructor ()
      ensures Valid()
      ensures Snapshot() == Initial()
    {
      isOpen := false;
      modalData := None;
    }

    /** `openModal(data?)`: store the data, or null when none is given, and open. */
    method OpenModal(data: Option<T>)
      requires Valid()
      modifies this
      ensures Valid()
      ensures Snapshot() == Step(old(Snapshot()), ModalAction.OpenModal(data))
      ensures isOpen && modalData == data
    {
      if data.Some? {
        modalData := data;
      } else {
        modalData := None;
      }
      isOpen := true;
    }

    /** `handleOpenChange(open)`: follow the dialog, and drop the data when it closes. */
    method HandleOpenChange(open: bool)
      requires Valid()
      modifies this
      ensures Valid()
      ensures Snapshot() == Step(old(Snapshot()), ModalAction.HandleOpenChange(open))
      ensures isOpen == open
      ensures modalData == if open then old(modalData) else None
    {
      isOpen := open;
      if !open {
        modalData := None;
      }
    }

    /** `closeModal()`: close and drop the data. */
    method CloseModal()
      requires Valid()
      modifies this
      ensures Valid()
      ensures Snapshot() == Step(old(Snapshot()), ModalAction.CloseModal)
      ensures !isOpen && modalData.None?
    {
      isOpen := false;
      modalData := None;
    }
  }
}

/**
 * The single confirmation slot that both the page (web/src/App.tsx) and the
 * address editor (web/src/components/EditAddressesModal.tsx) keep in a
 * `useState`, together with what the dialog (web/src/components/ConfirmModal.tsx)
 * does with it. There is no queue: staging a new confirmation replaces the old one.
 * `M` is the message shown and `A` stands for the `onConfirm` closure, kept as data.
 */
module ConfirmSlot {
  import opened Wrappers

  /** The dialog's `variant`; it renders as `default` when absent. */
  datatype Variant = Default | Warning | Danger

  class Slot<M, A> {
    var isOpen: bool
    var title: string
    var message: M
    var onConfirm: A
    var variant: Option<Variant>

    /** The initial slot: closed, empty title and message, an action that does nothing. */
    constructor (emptyMessage: M, noop: A)
      ensures !isOpen && title == "" && message == emptyMessage && onConfirm == noop && variant == None
    {
      isOpen := false;
      title := "";
      message := emptyMessage;
      onConfirm := noop;
      variant := None;
    }

    /** The variant the dialog renders with. */
    function Shown(): (v: Variant)
      reads this
      ensures variant.Some? ==> v == variant.value
      ensures variant.None? ==> v == Default
    {
      variant.GetOr(Default)
    }

    /** `setConfirmConfig({isOpen: true, ...})`: every field is overwritten, whatever was staged before. */
    method Stage(t: string, m: M, action: A, v: Option<Variant>)
      modifies this
      ensures isOpen && title == t && message == m && onConfirm == action && variant == v
    {
      isOpen, title, message, onConfirm, variant := true, t, m, action, v;
    }

    /** The cancel button and the close cross: `isOpen` becomes false and the action does not run. */
    method Cancel()
      modifies this
      ensures !isOpen
      ensures title == old(title) && message == old(message) && onConfirm == old(onConfirm) && variant == old(variant)
    {
      isOpen := false;
    }

    /**
     * The confirm button, which is only rendered while the slot is open: the
     * staged action runs first (it is handed back to the caller to perform),
     * then the slot closes as on cancel.
     */
    method Confirm() returns (run: A)
      requires isOpen
      modifies this
      ensures run == old(onConfirm)
      ensures !isOpen
      ensures title == old(title) && message == old(message) && onConfirm == old(onConfirm) && variant == old(variant)
    {
      run := onConfirm;
      Cancel();
    }
  }
}

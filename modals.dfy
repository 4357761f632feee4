/**
  The footer dialogs of the invitation page (`openModal`, `closeModal` and
  the buttons `setupModals` wires to them). A dialog is shown by setting its
  `aria-hidden` attribute to "false"; opening one sets the page body's
  `overflow` style to "hidden" so that the page behind it does not scroll,
  and closing any one clears that style again, even when another dialog is
  still shown.
 */
module Modals {

  /** A `.modal` element: only its `aria-hidden` attribute matters here. */
  class Modal {
    var ariaHidden: string

    constructor (ariaHidden: string)
      ensures this.ariaHidden == ariaHidden
    {
      this.ariaHidden := ariaHidden;
    }
  }

  /** The buttons of the footer and the dialog each opens. */
  const ButtonTargets: map<string, string> :=
    map["callBtn" := "callModal", "shareBtn" := "shareModal", "giftBtn" := "giftModal"]

  /** The document: the dialogs it holds, by element id, and the body's `overflow` style. */
  class Page {
    const modals: map<string, Modal>
    var bodyOverflow: string

    constructor (modals: map<string, Modal>)
      ensures this.modals == modals && bodyOverflow == ""
    {
      this.modals := modals;
      bodyOverflow := "";
    }

    /**
      `openModal(id)`: shows the dialog with that id and locks the page's
      scrolling; when no element has that id nothing changes.
     */
    method OpenModal(id: string)
      modifies this, modals.Values
      ensures id in modals ==> modals[id].ariaHidden == "false" && bodyOverflow == "hidden"
      ensures id !in modals ==> bodyOverflow == old(bodyOverflow)
      ensures forall m :: m in modals.Values && (id !in modals || m != modals[id]) ==> m.ariaHidden == old(m.ariaHidden)
    {
      if id !in modals {
        return;
      }
      var m := modals[id];
      m.ariaHidden := "false";
      bodyOverflow := "hidden";
    }

    /**
      `closeModal(m)`: hides the dialog and gives the page its scrolling
      back, by clearing the style rather than restoring the previous one.
     */
    method CloseModal(m: Modal)
      modifies this, m
      ensures m.ariaHidden == "true" && bodyOverflow == ""
      ensures forall other :: other in modals.Values && other != m ==> other.ariaHidden == old(other.ariaHidden)
    {
      m.ariaHidden := "true";
      bodyOverflow := "";
    }

    /**
      A click on a footer button: each of the three buttons opens its
      dialog; a click elsewhere opens none.
     */
    method ClickButton(button: string)
      modifies this, modals.Values
      ensures button in ButtonTargets && ButtonTargets[button] in modals ==>
        modals[ButtonTargets[button]].ariaHidden == "false" && bodyOverflow == "hidden"
      ensures button in ButtonTargets && ButtonTargets[button] in modals ==>
        forall m :: m in modals.Values && m != modals[ButtonTargets[button]] ==> m.ariaHidden == old(m.ariaHidden)
      ensures (button !in ButtonTargets || ButtonTargets[button] !in modals) ==>
        bodyOverflow == old(bodyOverflow) && forall m :: m in modals.Values ==> m.ariaHidden == old(m.ariaHidden)
    {
      if button in ButtonTargets {
        OpenModal(ButtonTargets[button]);
      }
    }

    /**
      A click inside dialog `m`, through the two listeners `setupModals`
      puts on every dialog: a click on an element carrying `data-close`
      (the backdrop) or on the dialog's `.modal-close` button closes the
      dialog; any other click changes nothing.
     */
    method ClickInDialog(m: Modal, onDataClose: bool, onCloseButton: bool)
      requires m in modals.Values
      modifies this, m
      ensures onDataClose || onCloseButton ==> m.ariaHidden == "true" && bodyOverflow == ""
      ensures !onDataClose && !onCloseButton ==> m.ariaHidden == old(m.ariaHidden) && bodyOverflow == old(bodyOverflow)
      ensures forall other :: other in modals.Values && other != m ==> other.ariaHidden == old(other.ariaHidden)
    {
      if onDataClose || onCloseButton {
        CloseModal(m);
      }
    }
  }

  /** Opening a dialog and closing it again leaves it hidden and the page scrollable, whatever the overflow was before. */
  method OpenThenClose(page: Page, id: string)
    requires id in page.modals
    modifies page, page.modals.Values
    ensures page.modals[id].ariaHidden == "true" && page.bodyOverflow == ""
  {
    page.OpenModal(id);
    page.CloseModal(page.modals[id]);
  }
}

/** The accordion's open/closed state: the container's `openItem`, which in
    single-open mode decides which item is open, and each item's own
    controlled or uncontrolled toggle. */
module AccordionLayout {

  datatype Option<T> = None | Some(value: T)

  /** In single-open mode an item is shown open exactly when its id is the
      container's open item. */
  predicate OpenUnder(openItem: Option<string>, id: string) {
    openItem == Some(id)
  }

  /** With distinct ids, at most one item is open under any `openItem`. */
  lemma AtMostOneOpen(openItem: Option<string>, ids: seq<string>, i: nat, j: nat)
    requires i < |ids| && j < |ids|
    requires forall a, b :: 0 <= a < b < |ids| ==> ids[a] != ids[b]
    requires OpenUnder(openItem, ids[i]) && OpenUnder(openItem, ids[j])
    ensures i == j
  {
    assert ids[i] == openItem.value == ids[j];
  }

  /** The new open item after an item reports that it wants to be open or
      closed, in single-open mode. */
  function Toggled(id: string, isOpen: bool): (r: Option<string>)
    ensures isOpen <==> OpenUnder(r, id)
    ensures !isOpen ==> r == None
    ensures forall other :: other != id ==> !OpenUnder(r, other)
  {
    if isOpen then Some(id) else None
  }

  /** The container. */
  class Accordion {
    const singleOpen: bool
    var openItem: Option<string>

    /** Nothing is open at first. */
    constructor (singleOpen: bool)
      ensures this.singleOpen == singleOpen
      ensures openItem == None
    {
      this.singleOpen := singleOpen;
      openItem := None;
    }

    /** The `isOpen` the container hands an item: its membership test in
        single-open mode, and nothing (undefined) otherwise, which overrides
        any `isOpen` the item was written with. */
    function ChildIsOpen(id: string): (r: Option<bool>)
      reads this
      ensures r.Some? <==> singleOpen
      ensures r.Some? ==> (r.value <==> OpenUnder(openItem, id))
    {
      if singleOpen then Some(openItem == Some(id)) else None
    }

    /** `handleToggleItem`: in single-open mode opening an item makes it the
        only open one and closing it leaves none open; otherwise nothing
        changes. */
    method HandleToggleItem(id: string, isOpen: bool)
      modifies this
      ensures singleOpen ==> openItem == Toggled(id, isOpen)
      ensures !singleOpen ==> openItem == old(openItem)
    {
      if singleOpen {
        openItem := if isOpen then Some(id) else None;
      }
    }

    /** An item mounted inside the container starts from the props the
        container hands it, not from the `isOpen` it was written with: in
        single-open mode it is controlled and open exactly when it is the
        open item; otherwise it is uncontrolled and starts closed. */
    method Mount(id: string) returns (item: AccordionItem)
      ensures fresh(item)
      ensures item.id == id && item.isOpen == ChildIsOpen(id) && item.hasOnToggle == singleOpen
      ensures item.internalIsOpen == (singleOpen && OpenUnder(openItem, id))
      ensures !singleOpen ==> !item.IsControlled() && !item.ActiveIsOpen()
    {
      item := new AccordionItem(id, ChildIsOpen(id), singleOpen);
    }

    /** Hands an item the props of a fresh render. */
    method Render(item: AccordionItem)
      modifies item
      ensures item.internalIsOpen == old(item.internalIsOpen)
      ensures item.isOpen == ChildIsOpen(item.id)
      ensures item.hasOnToggle == singleOpen
    {
      item.isOpen := ChildIsOpen(item.id);
      item.hasOnToggle := singleOpen;
    }

    /** A click on an item the container has just rendered. In single-open
        mode the item reports the opposite of its shown state and the
        container records it: a closed item becomes the only open one, the
        open item closes. Otherwise the item flips its own state and the
        container keeps its own. */
    method Click(item: AccordionItem)
      requires item.isOpen == ChildIsOpen(item.id) && item.hasOnToggle == singleOpen
      modifies this, item
      ensures singleOpen ==> openItem == Toggled(item.id, !OpenUnder(old(openItem), item.id))
      ensures singleOpen ==> item.internalIsOpen == old(item.internalIsOpen)
      ensures !singleOpen ==> openItem == old(openItem) && item.internalIsOpen == !old(item.internalIsOpen)
      ensures item.isOpen == old(item.isOpen) && item.hasOnToggle == old(item.hasOnToggle)
    {
      var report := item.HandleToggle();
      if report.Some? {
        HandleToggleItem(report.value.0, report.value.1);
      }
    }
  }

  /** One collapsible section. `isOpen` absent means uncontrolled. */
  class AccordionItem {
    const id: string
    var isOpen: Option<bool>
    var hasOnToggle: bool
    var internalIsOpen: bool

    /** The internal state starts at the given `isOpen`, false when absent. */
    constructor (id: string, isOpen: Option<bool>, hasOnToggle: bool)
      ensures this.id == id && this.isOpen == isOpen && this.hasOnToggle == hasOnToggle
      ensures internalIsOpen == (isOpen == Some(true))
    {
      this.id := id;
      this.isOpen := isOpen;
      this.hasOnToggle := hasOnToggle;
      internalIsOpen := if isOpen.Some? then isOpen.value else false;
    }

    predicate IsControlled()
      reads this
    {
      isOpen.Some?
    }

    /** The state the item shows: the prop when controlled, its own
        otherwise. */
    function ActiveIsOpen(): (r: bool)
      reads this
      ensures IsControlled() ==> r == isOpen.value
      ensures !IsControlled() ==> r == internalIsOpen
    {
      Shown(isOpen, internalIsOpen)
    }

    /** `handleToggle`: a controlled item with a callback reports
        `(id, !shown)` and keeps its internal state; any other item flips its
        internal state and reports nothing. */
    method HandleToggle() returns (report: Option<(string, bool)>)
      modifies this
      ensures IsControlled() && hasOnToggle ==>
        report == Some((id, !old(ActiveIsOpen()))) && internalIsOpen == old(internalIsOpen)
      ensures !(IsControlled() && hasOnToggle) ==>
        report == None && internalIsOpen == !old(internalIsOpen)
      ensures internalIsOpen == Flipped(isOpen, hasOnToggle, old(internalIsOpen))
      ensures isOpen == old(isOpen) && hasOnToggle == old(hasOnToggle)
    {
      if isOpen.Some? && hasOnToggle {
        report := Some((id, !ActiveIsOpen()));
      } else {
        report := None;
        internalIsOpen := !internalIsOpen;
      }
    }
  }

  /** An uncontrolled item shows the opposite state after each toggle. */
  lemma UncontrolledFlips(before: bool, isOpen: Option<bool>, hasOnToggle: bool)
    requires isOpen.None?
    ensures Shown(isOpen, Flipped(isOpen, hasOnToggle, before)) == !Shown(isOpen, before)
  {
  }

  /** A controlled item without a callback flips only its hidden state: what
      it shows does not change. */
  lemma ControlledWithoutCallbackStays(before: bool, isOpen: Option<bool>)
    requires isOpen.Some?
    ensures Flipped(isOpen, false, before) == !before
    ensures Shown(isOpen, Flipped(isOpen, false, before)) == Shown(isOpen, before)
  {
  }

  /** The state an item shows for a prop and an internal state. */
  function Shown(isOpen: Option<bool>, internal: bool): bool {
    if isOpen.Some? then isOpen.value else internal
  }

  /** The internal state after one toggle. */
  function Flipped(isOpen: Option<bool>, hasOnToggle: bool, internal: bool): bool {
    if isOpen.Some? && hasOnToggle then internal else !internal
  }
}

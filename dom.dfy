/** The parts of DOM events the keyboard handlers inspect. */
module Dom {

  /** An element as a key handler sees it: its tag name (upper case for HTML) and `isContentEditable`. */
  datatype Element = Element(tagName: string, contentEditable: bool)

  /** A `keydown` event: `key`, the modifier flags and the target element. */
  datatype KeyEvent = KeyEvent(key: string, ctrl: bool, meta: bool, alt: bool, target: Element)

  predicate NoModifier(ev: KeyEvent)
  {
    !ev.ctrl && !ev.meta && !ev.alt
  }
}

/** Shared vocabulary of the drag-and-drop model: optional values, results with
    a fault, opaque identities of DOM elements and drag references, and the raw
    values an Angular template input may carry before coercion. */
module Common {

  /** A value that may be absent (`null` / `undefined` in the source). */
  datatype Option<+T> = None | Some(value: T)

  /** The outcome of an operation that may throw. */
  datatype Result<+T, +E> = Success(value: T) | Failure(error: E)

  /** What the source throws; the model only records the reason. */
  datatype Fault =
    | TypeError(reason: string)   // a property read on `undefined`
    | NotAnElement(nodeName: string)

  /** Opaque identity of a DOM element (object identity in the source). */
  type ElementId = nat

  /** Opaque identity of a drag reference (a `DraggableRef` object). */
  type DragId = nat

  /** Opaque identity of a drop-zone reference (a `DroppableRef` object). */
  type ZoneId = nat

  /** A template input value before `coerceBooleanProperty` sees it. */
  datatype RawValue = RawBool(b: bool) | RawString(s: string) | RawUndefined

  /** `coerceBooleanProperty` lives outside this code base; the model takes it
      as a parameter of this type. */
  type Coercion = RawValue -> bool
}

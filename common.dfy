/** Small shared vocabulary: optional values and unit ids. */
module Common {

  /** `T | null` in the source. */
  datatype Option<T> = None | Some(value: T)

  /**
   * Unit ids are the dictionary keys of the roster ("p-f1", "o-s1", ...).
   * They are never empty, so the source's truthiness tests on an id
   * (`if (!state.selectedAircraftId)`, `targetId ? ... : ...`) are exactly
   * the `None`/`Some` distinction here.
   */
  type Id = s: string | s != [] witness "id"
}

/**
 * The font-size descent of `calculate_font_size_for_columns`: from the start
 * size downwards, the first size above the 8pt floor at which the name, the
 * specification and the quantity text each fit the usable page width.
 */
module FontSize {
  import opened Wrappers

  /**
   * Text measurement for the chosen font: `width(text, size)` is
   * `stringWidth(text, font, size)`, or None when that call raises; `maxWidth`
   * is the usable page width.
   */
  datatype Metrics = Metrics(width: (string, int) -> Option<real>, maxWidth: real)

  /** Sizes at or below this floor are never tried. */
  const MinSize: int := 8

  /** The size the label sequencer starts from (the default of `start_size`). */
  const StartSize: int := 16

  /** One text fits at a size: it could be measured, and its width is within the page. */
  predicate FitsWithin(m: Metrics, text: string, size: int) {
    m.width(text, size).Some? && m.width(text, size).value <= m.maxWidth
  }

  /** All three columns fit; a measurement error on any of them means "does not fit". */
  predicate ColumnsFit(m: Metrics, name: string, spec: string, quantity: string, size: int) {
    FitsWithin(m, name, size) && FitsWithin(m, spec, size) && FitsWithin(m, quantity, size)
  }

  /** The size the descent settles on, counting down from `size`. */
  function FittedSize(m: Metrics, name: string, spec: string, quantity: string, size: int): int
    decreases size - MinSize
  {
    if size <= MinSize then size
    else if ColumnsFit(m, name, spec, quantity, size) then size
    else FittedSize(m, name, spec, quantity, size - 1)
  }

  /**
   * The result is the first size counting down from `size` that is above the
   * floor and fits; when none does it is the floor. So it never exceeds the
   * start, never falls below the floor when the start is above it, and a
   * start at or below the floor is returned as it is.
   */
  lemma {:induction false} FittedSizeSpec(m: Metrics, name: string, spec: string, quantity: string, size: int)
    ensures var r := FittedSize(m, name, spec, quantity, size);
      (size <= MinSize ==> r == size) &&
      (size > MinSize ==> MinSize <= r <= size) &&
      (r > MinSize ==> ColumnsFit(m, name, spec, quantity, r)) &&
      (forall k :: r < k <= size ==> !ColumnsFit(m, name, spec, quantity, k))
    decreases size - MinSize
  {
    if size > MinSize && !ColumnsFit(m, name, spec, quantity, size) {
      FittedSizeSpec(m, name, spec, quantity, size - 1);
    }
  }

  /** `calculate_font_size_for_columns`: decrement while above the floor and the columns do not fit. */
  method CalculateFontSize(m: Metrics, name: string, spec: string, quantity: string, startSize: int)
    returns (size: int)
    ensures size == FittedSize(m, name, spec, quantity, startSize)
    ensures startSize <= MinSize ==> size == startSize
    ensures startSize > MinSize ==> MinSize <= size <= startSize
    ensures size > MinSize ==> ColumnsFit(m, name, spec, quantity, size)
    ensures forall k :: size < k <= startSize ==> !ColumnsFit(m, name, spec, quantity, k)
  {
    size := startSize;
    while size > MinSize
      invariant size <= startSize
      invariant startSize > MinSize ==> MinSize <= size
      invariant FittedSize(m, name, spec, quantity, size) == FittedSize(m, name, spec, quantity, startSize)
      invariant forall k :: size < k <= startSize ==> !ColumnsFit(m, name, spec, quantity, k)
      decreases size
    {
      var nameWidth := m.width(name, size);
      var specWidth := m.width(spec, size);
      var quantityWidth := m.width(quantity, size);
      if nameWidth.Some? && specWidth.Some? && quantityWidth.Some? {
        if nameWidth.value <= m.maxWidth && specWidth.value <= m.maxWidth && quantityWidth.value <= m.maxWidth {
          break;
        }
      }
      size := size - 1;
    }
  }
}

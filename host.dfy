/** The host text widget as the reconciler sees it: its text, its selection and
    the composing region an input method may be holding open. The platform's span
    machinery is reduced to what these five offsets record. */
module Host {

  /** The sentinel the platform reports for either end of an absent composing region. */
  const NoComposing: int := -1

  datatype HostEditor = HostEditor(
    text: string,
    selectionStart: int,
    selectionEnd: int,
    composingStart: int,
    composingEnd: int)

  /** A composing region is present when neither end is the sentinel. */
  predicate HasComposing(e: HostEditor) {
    e.composingStart != NoComposing && e.composingEnd != NoComposing
  }

  /** What the platform guarantees of a live widget: the selection lies in the
      text, and the composing region is either absent or a span of the text. */
  predicate WellFormed(e: HostEditor) {
    && 0 <= e.selectionStart <= |e.text|
    && 0 <= e.selectionEnd <= |e.text|
    && ((e.composingStart == NoComposing && e.composingEnd == NoComposing)
        || 0 <= e.composingStart <= e.composingEnd <= |e.text|)
  }

  function Clamp(x: int, n: nat): (r: int)
    ensures 0 <= r <= n
    ensures 0 <= x <= n ==> r == x
  {
    if x < 0 then 0 else if x > n then n else x
  }

  /** Replacing the whole text: the composing span collapses and is dropped, the
      selection is kept where it still fits and pulled back to the end otherwise. */
  function ReplaceAll(e: HostEditor, t: string): (r: HostEditor)
    ensures r.text == t && !HasComposing(r) && WellFormed(r)
  {
    HostEditor(t, Clamp(e.selectionStart, |t|), Clamp(e.selectionEnd, |t|), NoComposing, NoComposing)
  }

  /** Re-marking `[start, end)` as composing with the text it already holds:
      the text is unchanged, only the composing offsets move. */
  function MarkComposing(e: HostEditor, start: int, end: int): (r: HostEditor)
    requires 0 <= start <= end <= |e.text|
    ensures r.text == e.text && r.composingStart == start && r.composingEnd == end
    ensures WellFormed(e) ==> WellFormed(r)
  {
    e.(composingStart := start, composingEnd := end)
  }

  /** Setting the selection; the text and composing region are untouched. */
  function Select(e: HostEditor, start: int, end: int): (r: HostEditor)
    requires 0 <= start <= |e.text| && 0 <= end <= |e.text|
    ensures r.text == e.text && r.composingStart == e.composingStart && r.composingEnd == e.composingEnd
    ensures r.selectionStart == start && r.selectionEnd == end
    ensures WellFormed(e) ==> WellFormed(r)
  {
    e.(selectionStart := start, selectionEnd := end)
  }
}

/** The editor state that the activity keeps and pushes through the pipeline.
    Its class is not part of this model; these definitions are the assumed
    behaviour of `TextFieldState`, `userEdit` and `contentEquals`. */
module TextFields {

  /** An immutable snapshot of the text field: full text, selection offsets and
      the number of user-originated edits that produced it. */
  datatype TextFieldState = TextFieldState(
    text: string,
    selectionStart: int,
    selectionEnd: int,
    userEditCount: nat)

  /** The state the activity starts with: empty text, caret at 0, no edits. */
  function Initial(): TextFieldState {
    TextFieldState("", 0, 0, 0)
  }

  /** Two states are content-equal when text and selection agree; the edit
      counter is bookkeeping and takes no part in the comparison. */
  predicate ContentEquals(a: TextFieldState, b: TextFieldState) {
    a.text == b.text && a.selectionStart == b.selectionStart && a.selectionEnd == b.selectionEnd
  }

  /** The candidate built from what the user left in the widget: new content,
      one more user edit. It is a no-op exactly when the content is unchanged. */
  function UserEdit(s: TextFieldState, text: string, selectionStart: int, selectionEnd: int): (r: TextFieldState)
    ensures r.userEditCount == s.userEditCount + 1
    ensures r.text == text && r.selectionStart == selectionStart && r.selectionEnd == selectionEnd
    ensures ContentEquals(s, r) <==> (s.text == text && s.selectionStart == selectionStart && s.selectionEnd == selectionEnd)
  {
    TextFieldState(text, selectionStart, selectionEnd, s.userEditCount + 1)
  }

  /** Content equality is equality once the counters are made to agree. */
  lemma ContentEqualsIgnoresCounter(a: TextFieldState, b: TextFieldState)
    ensures ContentEquals(a, b) <==> a.(userEditCount := b.userEditCount) == b
    ensures ContentEquals(a, b) <==> ContentEquals(b, a)
  {
  }

  /** The selection lies inside the text (either end may be the anchor). */
  predicate SelectionInText(s: TextFieldState) {
    0 <= s.selectionStart <= |s.text| && 0 <= s.selectionEnd <= |s.text|
  }
}

/** The activity that keeps a text field and an asynchronous uppercasing
    pipeline coherent: user edits are recorded and queued, queued states are
    uppercased and fed back into the widget, stale results are dropped, a guard
    flag keeps the feedback from counting as a user edit, and the composing
    region survives the full-text replacement. */
module Keyboard {
  import opened TextFields
  import opened Host

  datatype Option<T> = None | Some(value: T)

  /** How one call of the reconciler ended. `IllegalState` is the failed
      re-entrancy check, `OutOfBounds` an offset the new text cannot hold. */
  datatype Outcome = Stale | Applied | IllegalState | OutOfBounds

  // ---------------------------------------------------------------------------
  // The uppercase transform, over ASCII letters.

  function UpperChar(c: char): (u: char)
    ensures !('a' <= u <= 'z')
    ensures 'a' <= c <= 'z' ==> 'A' <= u <= 'Z' && u as int - 'A' as int == c as int - 'a' as int
    ensures !('a' <= c <= 'z') ==> u == c
  {
    if 'a' <= c <= 'z' then (c as int - 32) as char else c
  }

  /** Uppercases every character; the length never changes. */
  function UpperText(s: string): (r: string)
    ensures |r| == |s|
  {
    if s == [] then [] else [UpperChar(s[0])] + UpperText(s[1..])
  }

  /** The transform of the pipeline: only the text changes. */
  function Uppercase(s: TextFieldState): (r: TextFieldState)
    ensures r.selectionStart == s.selectionStart && r.selectionEnd == s.selectionEnd
    ensures r.userEditCount == s.userEditCount
    ensures |r.text| == |s.text|
    ensures SelectionInText(s) ==> SelectionInText(r)
  {
    s.(text := UpperText(s.text))
  }

  /** Character by character, the result is the uppercased input. */
  lemma {:induction false} UpperTextAt(s: string, i: nat)
    requires i < |s|
    ensures UpperText(s)[i] == UpperChar(s[i])
  {
    if i > 0 {
      UpperTextAt(s[1..], i - 1);
    }
  }

  /** Uppercasing twice is uppercasing once. */
  lemma {:induction false} UpperTextIdempotent(s: string)
    ensures UpperText(UpperText(s)) == UpperText(s)
  {
    if s != [] {
      var u := UpperText(s);
      assert u == [UpperChar(s[0])] + UpperText(s[1..]);
      assert u[1..] == UpperText(s[1..]);
      UpperTextIdempotent(s[1..]);
    }
  }

  /** Uppercasing a whole state twice is uppercasing it once. */
  lemma UppercaseIdempotent(s: TextFieldState)
    ensures Uppercase(Uppercase(s)) == Uppercase(s)
  {
    UpperTextIdempotent(s.text);
  }

  // ---------------------------------------------------------------------------
  // The debug rendering of the composing region.

  /** The marker drawn under position `i` for the inclusive range `start..end`:
      a caret at either end, a tilde strictly inside, a space elsewhere. */
  function Marker(i: int, start: int, end: int): char {
    if !(start <= i <= end) then ' '
    else if i == start || i == end then '^'
    else '~'
  }

  /** The text on one line and, below it, one marker for each position from 0
      through the length inclusive. */
  method FormatComposingSpan(span: HostEditor) returns (r: string)
    ensures |r| == 2 * |span.text| + 3
    ensures r[..|span.text|] == span.text
    ensures r[|span.text|] == '\n' && r[|r| - 1] == '\n'
    ensures forall k :: 0 <= k <= |span.text| ==>
              r[|span.text| + 1 + k] == Marker(k, span.composingStart, span.composingEnd)
    ensures span.composingStart == NoComposing && span.composingEnd == NoComposing ==>
              forall k :: |span.text| < k < |r| - 1 ==> r[k] == ' '
  {
    var composingStart, composingEnd := span.composingStart, span.composingEnd;
    var n := |span.text|;
    r := span.text + ['\n'];
    for i := 0 to n + 1
      invariant |r| == n + 1 + i
      invariant r[..n] == span.text && r[n] == '\n'
      invariant forall k :: 0 <= k < i ==> r[n + 1 + k] == Marker(k, composingStart, composingEnd)
    {
      if !(composingStart <= i <= composingEnd) {
        r := r + [' '];
      } else if i == composingStart || i == composingEnd {
        r := r + ['^'];
      } else {
        // strictly inside the range: the only case left
        r := r + ['~'];
      }
    }
    r := r + ['\n'];
    forall k | n < k < |r| - 1 && composingStart == NoComposing && composingEnd == NoComposing
      ensures r[k] == ' '
    {
      assert r[n + 1 + (k - n - 1)] == Marker(k - n - 1, composingStart, composingEnd);
    }
  }

  // ---------------------------------------------------------------------------
  // The activity.

  class MainActivity {
    /** The authoritative current state. */
    var state: TextFieldState
    /** Set while the reconciler mutates the widget. */
    var isUpdating: bool
    /** States emitted but not yet taken by the pipeline, oldest first. */
    var flow: seq<TextFieldState>
    /** The host widget. */
    var editor: HostEditor

    /** Every state ever emitted, and every transformed state handed to the
        reconciler, in order. */
    ghost var emitted: seq<TextFieldState>
    ghost var delivered: seq<TextFieldState>

    /** The invariant between callbacks. */
    ghost predicate Valid()
      reads this
    {
      && !isUpdating
      && editor.text == state.text
      && WellFormed(editor)
      && SelectionInText(state)
      // the queue is the not yet delivered suffix of what was emitted, and
      // each delivered state is the transform of the emitted one at its place
      && |delivered| <= |emitted|
      && emitted[|delivered|..] == flow
      && (forall i :: 0 <= i < |delivered| ==> delivered[i] == Uppercase(emitted[i]))
      // queued generations strictly increase, nothing queued is newer than the
      // current state, and a queued state of the current generation has the
      // current text length
      && (forall i, j :: 0 <= i < j < |flow| ==> flow[i].userEditCount < flow[j].userEditCount)
      && (forall i :: 0 <= i < |flow| ==>
            && flow[i].userEditCount <= state.userEditCount
            && SelectionInText(flow[i])
            && (flow[i].userEditCount == state.userEditCount ==> |flow[i].text| == |state.text|))
    }

    constructor ()
      ensures Valid()
      ensures state == Initial() && flow == [] && emitted == [] && delivered == []
      ensures editor == HostEditor("", 0, 0, NoComposing, NoComposing)
    {
      state := Initial();
      isUpdating := false;
      flow := [];
      editor := HostEditor("", 0, 0, NoComposing, NoComposing);
      emitted := [];
      delivered := [];
    }

    /** The widget's change listener: unless the reconciler is at work, build a
        candidate from the widget, and adopt and emit it when its content is new. */
    method TextChanged()
      modifies this
      ensures editor == old(editor) && isUpdating == old(isUpdating) && delivered == old(delivered)
      ensures state.userEditCount >= old(state.userEditCount)
      ensures var candidate := UserEdit(old(state), old(editor.text), old(editor.selectionStart), old(editor.selectionEnd));
              if old(isUpdating) || ContentEquals(old(state), candidate) then
                state == old(state) && flow == old(flow) && emitted == old(emitted)
              else
                state == candidate && flow == old(flow) + [candidate] && emitted == old(emitted) + [candidate]
    {
      if isUpdating {
        return;
      }
      var newState := UserEdit(state, editor.text, editor.selectionStart, editor.selectionEnd);
      if !ContentEquals(state, newState) {
        state := newState;
        // the buffer is unbounded, so the emission always succeeds
        flow := flow + [newState];
        emitted := emitted + [newState];
      }
    }

    /** The user (or an input method) leaves new content in the widget, which
        then notifies the listener. */
    method HostTextEdited(text: string, selectionStart: int, selectionEnd: int, composingStart: int, composingEnd: int)
      requires Valid()
      requires WellFormed(HostEditor(text, selectionStart, selectionEnd, composingStart, composingEnd))
      modifies this
      ensures Valid()
      ensures editor == HostEditor(text, selectionStart, selectionEnd, composingStart, composingEnd)
      ensures delivered == old(delivered)
      ensures text == old(state).text && selectionStart == old(state).selectionStart && selectionEnd == old(state).selectionEnd ==>
                state == old(state) && flow == old(flow) && emitted == old(emitted)
      ensures !(text == old(state).text && selectionStart == old(state).selectionStart && selectionEnd == old(state).selectionEnd) ==>
                && state == TextFieldState(text, selectionStart, selectionEnd, old(state).userEditCount + 1)
                && flow == old(flow) + [state] && emitted == old(emitted) + [state]
    {
      editor := HostEditor(text, selectionStart, selectionEnd, composingStart, composingEnd);
      TextChanged();
      assert emitted[|delivered|..] == flow by {
        if emitted != old(emitted) {
          assert old(emitted)[|delivered|..] == old(flow);
          assert emitted[|delivered|..] == old(emitted)[|delivered|..] + [state];
        }
      }
    }

    /** The reconciler: drop a result older than the current generation; else,
        under the guard, adopt it, replace the widget's text, put the composing
        region back at the same offsets and set the selection. */
    method StateChanged(incoming: TextFieldState) returns (outcome: Outcome)
      modifies this
      ensures flow == old(flow) && emitted == old(emitted) && delivered == old(delivered)
      ensures state.userEditCount >= old(state.userEditCount)
      // a stale result changes nothing
      ensures outcome == Stale <==> incoming.userEditCount < old(state.userEditCount)
      ensures outcome == Stale ==> state == old(state) && editor == old(editor) && isUpdating == old(isUpdating)
      // the re-entrancy check fails before anything is touched
      ensures outcome == IllegalState <==> incoming.userEditCount >= old(state.userEditCount) && old(isUpdating)
      ensures outcome == IllegalState ==> state == old(state) && editor == old(editor) && isUpdating
      // once past the check, the flag is clear on every way out
      ensures outcome == Applied || outcome == OutOfBounds ==>
                !isUpdating && state == incoming && editor.text == incoming.text
      ensures outcome == OutOfBounds && HasComposing(old(editor))
                && !(0 <= old(editor.composingStart) <= old(editor.composingEnd) <= |incoming.text|) ==>
                editor == ReplaceAll(old(editor), incoming.text)
      ensures outcome == Applied <==>
                && incoming.userEditCount >= old(state.userEditCount) && !old(isUpdating)
                && (HasComposing(old(editor)) ==> 0 <= old(editor.composingStart) <= old(editor.composingEnd) <= |incoming.text|)
                && SelectionInText(incoming)
      ensures outcome == Applied ==>
                editor == HostEditor(incoming.text, incoming.selectionStart, incoming.selectionEnd,
                                     if HasComposing(old(editor)) then old(editor.composingStart) else NoComposing,
                                     if HasComposing(old(editor)) then old(editor.composingEnd) else NoComposing)
    {
      if incoming.userEditCount < state.userEditCount {
        return Stale;
      }
      if isUpdating {
        return IllegalState;
      }
      isUpdating := true;
      state := incoming;
      var composingStart, composingEnd := editor.composingStart, editor.composingEnd;
      editor := ReplaceAll(editor, incoming.text);
      // the replacement notifies the listener, which the guard silences
      TextChanged();
      if composingStart != NoComposing && composingEnd != NoComposing {
        if !(0 <= composingStart <= composingEnd <= |editor.text|) {
          isUpdating := false;
          return OutOfBounds;
        }
        editor := MarkComposing(editor, composingStart, composingEnd);
        // re-setting the composing text notifies the listener as well
        TextChanged();
      }
      if !(0 <= incoming.selectionStart <= |editor.text| && 0 <= incoming.selectionEnd <= |editor.text|) {
        isUpdating := false;
        return OutOfBounds;
      }
      editor := Select(editor, incoming.selectionStart, incoming.selectionEnd);
      isUpdating := false;
      outcome := Applied;
    }

    /** One step of the collecting pipeline: take the oldest emitted state,
        uppercase it and hand it to the reconciler. Nothing happens while the
        queue is empty. */
    method ProcessNext() returns (outcome: Option<Outcome>)
      requires Valid()
      modifies this
      ensures Valid()
      ensures state.userEditCount >= old(state.userEditCount)
      ensures old(flow) == [] ==> outcome == None && unchanged(this)
      ensures old(flow) != [] ==>
                && flow == old(flow)[1..] && emitted == old(emitted)
                && delivered == old(delivered) + [Uppercase(old(flow)[0])]
                && outcome == Some(if old(flow)[0].userEditCount < old(state.userEditCount) then Stale else Applied)
      ensures outcome == Some(Stale) ==> state == old(state) && editor == old(editor)
      ensures outcome == Some(Applied) ==>
                && state == Uppercase(old(flow)[0])
                // an accepted result is the newest emitted state
                && flow == []
                && editor == HostEditor(state.text, state.selectionStart, state.selectionEnd,
                                        old(editor.composingStart), old(editor.composingEnd))
    {
      if flow == [] {
        return None;
      }
      var head := flow[0];
      assert emitted[|delivered|] == head;
      flow := flow[1..];
      var transformed := Uppercase(head);
      delivered := delivered + [transformed];
      assert emitted[|delivered|..] == flow by {
        assert emitted[|delivered|..] == old(emitted[|delivered|..])[1..];
      }
      // every state still queued belongs to a newer generation than the head,
      // so the head can be current only when it was the last one queued
      assert head.userEditCount >= state.userEditCount ==> flow == [] by {
        if flow != [] {
          assert flow[0] == old(flow)[1];
        }
      }
      var o := StateChanged(transformed);
      outcome := Some(o);
    }
  }

  // ---------------------------------------------------------------------------
  // Scenarios: what a caller can conclude from the contracts alone.

  /** Typing "ab" while composing it, then one pipeline step. */
  method TypingScenario() {
    var activity := new MainActivity();
    activity.HostTextEdited("ab", 2, 2, 0, 2);
    assert activity.state == TextFieldState("ab", 2, 2, 1);
    assert activity.flow == [TextFieldState("ab", 2, 2, 1)];
    var o := activity.ProcessNext();
    assert UpperText("ab") == "AB";
    assert o == Some(Applied);
    assert activity.state == TextFieldState("AB", 2, 2, 1);
    assert activity.editor == HostEditor("AB", 2, 2, 0, 2);
    assert activity.flow == [];
    // the same content typed again is not emitted
    activity.HostTextEdited("AB", 2, 2, NoComposing, NoComposing);
    assert activity.flow == [];
  }

  /** Two edits before the pipeline runs: the older result is dropped. */
  method StaleScenario() {
    var activity := new MainActivity();
    activity.HostTextEdited("a", 1, 1, NoComposing, NoComposing);
    activity.HostTextEdited("ab", 2, 2, NoComposing, NoComposing);
    var first := activity.ProcessNext();
    assert first == Some(Stale);
    assert activity.editor.text == "ab" && activity.state.userEditCount == 2;
    var second := activity.ProcessNext();
    assert UpperText("ab") == "AB";
    assert second == Some(Applied);
    assert activity.editor.text == "AB";
    var third := activity.ProcessNext();
    assert third == None;
  }
}

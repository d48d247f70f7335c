/** The `"??"` autocomplete shortcut detected by the editor's update handler:
    the test on the text before the cursor, the deletion of the shortcut and
    the prompt handed to the completion request. */
module Trigger {
  import opened Document

  /** The shortcut typed to ask for a completion. */
  const TriggerToken: Text := "??"
  /** How many characters before the cursor the handler inspects. */
  const TriggerLookback: nat := 2
  /** How many characters before the cursor are sent as the prompt. */
  const PromptWindow: nat := 5000

  /** The handler's test `lastTwo === "??" && !isLoading`: the two characters
      right before the selection start are question marks and no completion
      is loading. */
  function Triggers(s: EditorState, loading: bool): (b: bool)
    requires s.Valid()
    ensures b <==>
      && 2 <= s.sel.from
      && s.doc[s.sel.from - 2] == '?' && s.doc[s.sel.from - 1] == '?'
      && !loading
  {
    var lastTwo := PrevText(s, TriggerLookback);
    assert 2 <= s.sel.from ==> lastTwo == [s.doc[s.sel.from - 2], s.doc[s.sel.from - 1]];
    lastTwo == TriggerToken && !loading
  }

  /** `deleteRange({ from: selection.from - 2, to: selection.from })`. */
  function DeleteTrigger(s: EditorState): (r: EditorState)
    requires s.Valid() && 2 <= s.sel.from
    ensures r.Valid()
    ensures |r.doc| == |s.doc| - 2
    ensures r.doc == s.doc[..s.sel.from - 2] + s.doc[s.sel.from..]
    ensures r.sel == Selection(s.sel.from - 2, s.sel.to - 2)
  {
    var r := DeleteRange(s, s.sel.from - 2, s.sel.from);
    assert r.doc == r.doc[..s.sel.from - 2] + r.doc[s.sel.from - 2..];
    r
  }

  /** `getPrevText(editor, { chars: 5000 })`, the prompt of the completion. */
  function CompletionPrompt(s: EditorState): (p: Text)
    requires s.Valid()
    ensures |p| <= PromptWindow
    ensures |p| == Min(s.sel.from, PromptWindow)
    ensures s.doc[..s.sel.from] == s.doc[..s.sel.from - |p|] + p
  {
    PrevText(s, PromptWindow)
  }

  /** When the shortcut fires, what the deletion removes is exactly the
      shortcut: putting `"??"` back at the new cursor gives the old document. */
  lemma TriggerRemovesToken(s: EditorState, loading: bool)
    requires s.Valid() && Triggers(s, loading)
    ensures s.doc[s.sel.from - 2..s.sel.from] == TriggerToken
    ensures var r := DeleteTrigger(s);
      s.doc == r.doc[..r.sel.from] + TriggerToken + r.doc[r.sel.from..]
  {
  }

  /** The prompt sent after the deletion is the text that preceded the
      shortcut, cut to its last 5000 characters. */
  lemma TriggerPromptPrecedesToken(s: EditorState)
    requires s.Valid() && 2 <= s.sel.from
    ensures var p := CompletionPrompt(DeleteTrigger(s));
      && |p| == Min(s.sel.from - 2, PromptWindow)
      && s.doc[..s.sel.from - 2] == s.doc[..s.sel.from - 2 - |p|] + p
  {
  }
}

/**
 * The text composer (`MessageInput`, src/components/MessageInput.jsx): the
 * draft text and at most one pending file, a send guard shared by the send
 * button and the Enter key, and clearing after a send.
 */
module Composer {
  import opened Types
  import opened Text

  /** What `onSend(text, file)` is called with. */
  datatype Submission = Submission(text: string, file: Option<FileRef>)

  /**
   * The send guard, `(!text.trim() && !file) || isProcessing`: a send is
   * blocked while a reply is in progress, or when there is no file and
   * the draft is all whitespace.
   */
  predicate SendBlocked(text: string, file: Option<FileRef>, isProcessing: bool)
    ensures SendBlocked(text, file, isProcessing)
      <==> isProcessing || (file.None? && forall i :: 0 <= i < |text| ==> IsWhitespace(text[i]))
  {
    BlankIff(text);
    (Trim(text) == [] && file.None?) || isProcessing
  }

  class MessageInput {
    /** The draft in the text area. */
    var text: string
    /** The pending attachment; null when none is chosen. */
    var file: Option<FileRef>

    /** An empty composer. */
    constructor ()
      ensures text == [] && file == None
    {
      text := [];
      file := None;
    }

    /**
     * The send button's `disabled` attribute: the send guard on the current
     * draft and file. A reply in progress always disables it; a pending
     * file enables it whatever the draft holds.
     */
    predicate Disabled(isProcessing: bool)
      reads this
      ensures isProcessing ==> Disabled(isProcessing)
      ensures file.Some? && !isProcessing ==> !Disabled(isProcessing)
    {
      SendBlocked(text, file, isProcessing)
    }

    /** Typing into the text area replaces the draft. */
    method SetText(value: string)
      modifies this
      ensures text == value && file == old(file)
    {
      text := value;
    }

    /**
     * `handleSend`: when the guard lets it through, hands over the untrimmed
     * draft and the file exactly once, then clears both; otherwise changes
     * nothing. It sends exactly when the send button is enabled.
     */
    method HandleSend(isProcessing: bool) returns (sent: Option<Submission>)
      modifies this
      ensures sent.None? <==> old(Disabled(isProcessing))
      ensures sent.None? <==> SendBlocked(old(text), old(file), isProcessing)
      ensures sent.None? ==> text == old(text) && file == old(file)
      ensures sent.Some? ==> sent.value == Submission(old(text), old(file)) && text == [] && file == None
    {
      if SendBlocked(text, file, isProcessing) {
        return None;
      }
      sent := Some(Submission(text, file));
      text := [];
      file := None;
    }

    /** `handleKeyDown`: Enter without Shift is the send action (and suppresses the line break); any other key does nothing. */
    method HandleKeyDown(key: string, shiftKey: bool, isProcessing: bool) returns (preventDefault: bool, sent: Option<Submission>)
      modifies this
      ensures preventDefault <==> key == "Enter" && !shiftKey
      ensures !preventDefault ==> sent == None && text == old(text) && file == old(file)
      ensures preventDefault ==> (sent.None? <==> SendBlocked(old(text), old(file), isProcessing))
      ensures preventDefault && sent.None? ==> text == old(text) && file == old(file)
      ensures preventDefault && sent.Some? ==> sent.value == Submission(old(text), old(file)) && text == [] && file == None
    {
      if key == "Enter" && !shiftKey {
        preventDefault := true;
        sent := HandleSend(isProcessing);
      } else {
        preventDefault := false;
        sent := None;
      }
    }

    /** `handleFileChange`: the first chosen file replaces any pending one; an empty choice keeps it. */
    method HandleFileChange(files: seq<FileRef>)
      modifies this
      ensures files != [] ==> file == Some(files[0])
      ensures files == [] ==> file == old(file)
      ensures text == old(text)
    {
      if files != [] {
        file := Some(files[0]);
      }
    }

    /** `removeFile`: drops the pending file and keeps the draft. */
    method RemoveFile()
      modifies this
      ensures file == None && text == old(text)
    {
      file := None;
    }
  }
}

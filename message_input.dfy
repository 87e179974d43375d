/**
 * src/components/MessageInput.tsx: the message composer. It holds the draft text, the files
 * picked for upload and whether the emoji picker is open; sending hands the trimmed text and
 * the files to the `sendMessage` callback and clears the draft. Focus and textarea height
 * effects are not modelled.
 */
module MessageInput {
  import opened Wrappers
  import opened Text

  /** A picked file, as far as the composer is concerned: it is only kept and passed on. */
  datatype FileRef = FileRef(name: string, lastModified: int)

  /** What one call of `sendMessage(text, files)` is given. */
  datatype Outgoing = Outgoing(text: string, files: seq<FileRef>)

  /** `prev.filter((_, i) => i !== index)`: the files other than the one at `index`. */
  function RemoveAt(s: seq<FileRef>, index: int): (r: seq<FileRef>)
    ensures 0 <= index < |s| ==> |r| == |s| - 1
    ensures 0 <= index < |s| ==> forall j :: 0 <= j < |r| ==> r[j] == if j < index then s[j] else s[j + 1]
    ensures !(0 <= index < |s|) ==> r == s
  {
    if 0 <= index < |s| then s[..index] + s[index + 1..] else s
  }

  /** Removing a file and putting it back at its place gives the list back. */
  lemma RemoveAtRestore(s: seq<FileRef>, index: nat)
    requires index < |s|
    ensures RemoveAt(s, index)[..index] + [s[index]] + RemoveAt(s, index)[index..] == s
  {
    var r := RemoveAt(s, index);
    assert r[..index] == s[..index];
    assert r[index..] == s[index + 1..];
    assert s == s[..index] + [s[index]] + s[index + 1..];
  }

  /** Nothing to send: the text trims to nothing and no file is attached. */
  predicate NothingToSend(text: string, files: seq<FileRef>) {
    Trim(text) == [] && files == []
  }

  class Composer {
    var text: string
    var files: seq<FileRef>
    var showEmojiPicker: bool

    constructor ()
      ensures text == "" && files == [] && !showEmojiPicker
    {
      text, files, showEmojiPicker := "", [], false;
    }

    /** The Send button is disabled while sending or when there is nothing to send. */
    predicate SendDisabled(isSending: bool)
      reads this
    {
      isSending || NothingToSend(text, files)
    }

    /** `handleEmojiClick`: the emoji goes at the end of the text. */
    method HandleEmojiClick(emoji: string)
      modifies this`text
      ensures text == old(text) + emoji
    {
      text := text + emoji;
    }

    /** `handleFileChange`: newly picked files come after the ones already attached, in order. */
    method HandleFileChange(selected: seq<FileRef>)
      modifies this`files
      ensures files == old(files) + selected
      ensures selected == [] ==> files == old(files)
    {
      if |selected| > 0 {
        files := files + selected;
      }
    }

    /** The remove button of preview `index`. */
    method RemoveFile(index: int)
      modifies this`files
      ensures files == RemoveAt(old(files), index)
    {
      files := RemoveAt(files, index);
    }

    /** `handleChange` of the textarea. */
    method HandleChange(value: string)
      modifies this`text
      ensures text == value
    {
      text := value;
    }

    method ToggleEmojiPicker()
      modifies this`showEmojiPicker
      ensures showEmojiPicker == !old(showEmojiPicker)
    {
      showEmojiPicker := !showEmojiPicker;
    }

    /**
     * `handleSend`: with nothing to send, nothing at all; otherwise exactly one `sendMessage`
     * with the trimmed text and the attached files, after which the draft is empty and the
     * picker closed. It does not look at `isSending`: only the button does.
     */
    method HandleSend() returns (sent: Option<Outgoing>)
      modifies this`text, this`files, this`showEmojiPicker
      ensures sent.None? <==> NothingToSend(old(text), old(files))
      ensures sent.None? ==> text == old(text) && files == old(files) && showEmojiPicker == old(showEmojiPicker)
      ensures sent.Some? ==>
        && sent.value == Outgoing(Trim(old(text)), old(files))
        && text == "" && files == [] && !showEmojiPicker
    {
      if Trim(text) == [] && |files| == 0 {
        return None;
      }
      sent := Some(Outgoing(Trim(text), files));
      text, files, showEmojiPicker := "", [], false;
    }

    /** `handleKeyDown`: Enter without Shift sends; any other key, Shift+Enter included, does not. */
    method HandleKeyDown(key: string, shiftKey: bool) returns (sent: Option<Outgoing>)
      modifies this`text, this`files, this`showEmojiPicker
      ensures !(key == "Enter" && !shiftKey) ==>
        && sent.None? && text == old(text) && files == old(files) && showEmojiPicker == old(showEmojiPicker)
      ensures key == "Enter" && !shiftKey ==>
        && (sent.None? <==> NothingToSend(old(text), old(files)))
        && (sent.None? ==> text == old(text) && files == old(files) && showEmojiPicker == old(showEmojiPicker))
        && (sent.Some? ==>
          sent.value == Outgoing(Trim(old(text)), old(files)) && text == "" && files == [] && !showEmojiPicker)
    {
      if key == "Enter" && !shiftKey {
        sent := HandleSend();
      } else {
        sent := None;
      }
    }
  }

  /**
   * Clicking an enabled Send button always sends: the button's rule and `handleSend`'s guard
   * agree whenever no send is in flight.
   */
  method ClickEnabledSend(c: Composer) returns (sent: Option<Outgoing>)
    requires !c.SendDisabled(false)
    modifies c
    ensures sent.Some? && sent.value.text == Trim(old(c.text)) && sent.value.files == old(c.files)
    ensures c.text == "" && c.files == []
  {
    sent := c.HandleSend();
  }

  /** The text sent never starts or ends with white space, and is empty only when files go along. */
  lemma SentTextTrimmed(text: string, files: seq<FileRef>)
    requires !NothingToSend(text, files)
    ensures var t := Trim(text);
      && (t != [] ==> !IsSpace(t[0]) && !IsSpace(t[|t| - 1]))
      && (t == [] ==> files != [])
  {
  }
}

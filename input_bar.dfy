/** The input bars (input_bar.py): the committed text and the zhuyin being
    composed, and the strings their labels show. */
module InputBar {
  import opened Common

  /** The input states the bar names; the enumeration itself lives in a
      constants module, so any further member is `OtherState`. */
  datatype InputState = Idle | Composing | Selecting | OtherState(id: int)

  const TextLimit := 30
  const CompactLimit := 40
  const Ellipsis := "..."

  /** The committed text's label: text over 30 characters shows as "..."
      and its last 27, so the label is never longer than 30. */
  function TextLabel(text: string): (r: string)
    ensures |text| <= TextLimit ==> r == text
    ensures |text| > TextLimit ==> |r| == TextLimit && r[..3] == Ellipsis && IsSuffix(r[3..], text)
  {
    if |text| > TextLimit then Ellipsis + text[|text| - 27..] else text
  }

  /** The zhuyin label: the zhuyin in brackets, or empty. */
  function ZhuyinLabel(zhuyin: string): (r: string)
    ensures zhuyin == "" <==> r == ""
    ensures zhuyin != "" ==> r == "[" + zhuyin + "]"
  {
    if zhuyin != "" then "[" + zhuyin + "]" else ""
  }

  /** `_get_status_text`: the three named states have labels, any other
      state shows nothing. */
  function StatusText(state: InputState): (r: string)
    ensures state.OtherState? <==> r == ""
  {
    match state
    case Idle => "待機"
    case Composing => "組字中"
    case Selecting => "選字中"
    case OtherState(_) => ""
  }

  /** `committed[:-1]`: one character less, or the empty string. */
  function DropLast(s: string): (r: string)
    ensures s != "" ==> r + [s[|s| - 1]] == s
  {
    if s == "" then "" else s[..|s| - 1]
  }

  class InputBar {
    var committedText: string
    var currentZhuyin: string
    var state: InputState

    constructor ()
      ensures committedText == "" && currentZhuyin == "" && state == Idle
    {
      committedText := "";
      currentZhuyin := "";
      state := Idle;
    }

    method SetCommittedText(text: string)
      modifies this
      ensures committedText == text && currentZhuyin == old(currentZhuyin) && state == old(state)
    {
      committedText := text;
    }

    /** `append_text`: the committed text grows by `text`; the zhuyin stays. */
    method AppendText(text: string)
      modifies this
      ensures committedText == old(committedText) + text
      ensures currentZhuyin == old(currentZhuyin) && state == old(state)
    {
      committedText := committedText + text;
    }

    /** `delete_last_char`: True exactly when there was a character to
        delete, and then exactly the last one is gone. */
    method DeleteLastChar() returns (deleted: bool)
      modifies this
      ensures deleted <==> old(committedText) != ""
      ensures deleted ==> committedText + [old(committedText)[|old(committedText)| - 1]] == old(committedText)
      ensures !deleted ==> committedText == old(committedText)
      ensures currentZhuyin == old(currentZhuyin) && state == old(state)
    {
      if committedText != "" {
        committedText := DropLast(committedText);
        return true;
      }
      return false;
    }

    method SetCurrentZhuyin(zhuyin: string)
      modifies this
      ensures currentZhuyin == zhuyin && committedText == old(committedText) && state == old(state)
    {
      currentZhuyin := zhuyin;
    }

    /** `append_zhuyin`: the zhuyin grows by `symbol`; the text stays. */
    method AppendZhuyin(symbol: string)
      modifies this
      ensures currentZhuyin == old(currentZhuyin) + symbol
      ensures committedText == old(committedText) && state == old(state)
    {
      currentZhuyin := currentZhuyin + symbol;
    }

    /** `delete_last_zhuyin`: as `DeleteLastChar`, on the zhuyin. */
    method DeleteLastZhuyin() returns (deleted: bool)
      modifies this
      ensures deleted <==> old(currentZhuyin) != ""
      ensures deleted ==> currentZhuyin + [old(currentZhuyin)[|old(currentZhuyin)| - 1]] == old(currentZhuyin)
      ensures !deleted ==> currentZhuyin == old(currentZhuyin)
      ensures committedText == old(committedText) && state == old(state)
    {
      if currentZhuyin != "" {
        currentZhuyin := DropLast(currentZhuyin);
        return true;
      }
      return false;
    }

    method ClearZhuyin()
      modifies this
      ensures currentZhuyin == "" && committedText == old(committedText) && state == old(state)
    {
      currentZhuyin := "";
    }

    method SetState(state: InputState)
      modifies this
      ensures this.state == state && committedText == old(committedText) && currentZhuyin == old(currentZhuyin)
    {
      this.state := state;
    }

    /** `get_full_text`: the committed text alone, without the zhuyin. */
    function GetFullText(): (r: string)
      reads this
      ensures r == committedText
    {
      committedText
    }

    /** `get_display_text`: the committed text, followed by the bracketed
        zhuyin while one is being composed. */
    function GetDisplayText(): (r: string)
      reads this
      ensures IsPrefix(committedText, r)
      ensures currentZhuyin == "" ==> r == committedText
      ensures currentZhuyin != "" ==> r[|committedText|..] == "[" + currentZhuyin + "]"
    {
      committedText + ZhuyinLabel(currentZhuyin)
    }

    /** `clear_all`: both buffers emptied and the state back to idle. */
    method ClearAll()
      modifies this
      ensures committedText == "" && currentZhuyin == "" && state == Idle
    {
      committedText := "";
      currentZhuyin := "";
      state := Idle;
    }
  }

  /** The compact bar's line: the committed text, then a space and the
      bracketed zhuyin while one is being composed. */
  function CompactLine(committed: string, zhuyin: string): (r: string)
    ensures IsPrefix(committed, r)
    ensures zhuyin == "" ==> r == committed
    ensures zhuyin != "" ==> r[|committed|..] == " [" + zhuyin + "]"
  {
    committed + (if zhuyin != "" then " [" + zhuyin + "]" else "")
  }

  /** The compact bar's label: a line over 40 characters is cut from the
      front to exactly 40, "..." included. */
  function CompactLabel(line: string): (r: string)
    ensures |line| <= CompactLimit ==> r == line
    ensures |line| > CompactLimit ==> |r| == CompactLimit && r[..3] == Ellipsis && IsSuffix(r[3..], line)
  {
    if |line| > CompactLimit then
      var cut := |line| - CompactLimit + 3;
      Ellipsis + line[cut..]
    else line
  }

  class CompactInputBar {
    var committedText: string
    var currentZhuyin: string

    constructor ()
      ensures committedText == "" && currentZhuyin == ""
    {
      committedText := "";
      currentZhuyin := "";
    }

    /** `update`: each field is replaced only when its argument is given. */
    method Update(committed: Option<string>, zhuyin: Option<string>)
      modifies this
      ensures committedText == if committed.Some? then committed.value else old(committedText)
      ensures currentZhuyin == if zhuyin.Some? then zhuyin.value else old(currentZhuyin)
    {
      if committed.Some? {
        committedText := committed.value;
      }
      if zhuyin.Some? {
        currentZhuyin := zhuyin.value;
      }
    }

    function Label(): (r: string)
      reads this
      ensures |r| <= CompactLimit
    {
      CompactLabel(CompactLine(committedText, currentZhuyin))
    }

    method Clear()
      modifies this
      ensures committedText == "" && currentZhuyin == ""
    {
      committedText := "";
      currentZhuyin := "";
    }
  }
}

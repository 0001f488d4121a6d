/** Building the inline keyboard of an outgoing message
    (src/components/bot/impl/reply_markup.cpp). */
module ReplyMarkup {
  import opened Wrappers
  import opened ButtonModel

  /** `TgBot::InlineKeyboardButton` with the fields the bot sets. */
  datatype InlineKeyboardButton = InlineKeyboardButton(text: string, callbackData: string, pay: bool)

  type Keyboard = seq<seq<Button>>
  type InlineKeyboard = seq<seq<InlineKeyboardButton>>

  predicate HasEmptyRow(keyboard: Keyboard) {
    exists i :: 0 <= i < |keyboard| && |keyboard[i]| == 0
  }

  /** The inline button for one button: its title, its serialised data, no payment. */
  predicate IsInlineOf(ib: InlineKeyboardButton, b: Button) {
    ib == InlineKeyboardButton(b.title, Serialize(b.data), false)
  }

  /** What `MakeReplyMarkup` builds for a keyboard, as the component states it
      about the messages it sends. */
  predicate IsMarkupOf(markup: Option<InlineKeyboard>, keyboard: Option<Keyboard>) {
    && (markup.Some? <==> keyboard.Some? && |keyboard.value| > 0 && !HasEmptyRow(keyboard.value))
    && (markup.Some? ==>
          && |markup.value| == |keyboard.value|
          && forall i :: 0 <= i < |markup.value| ==>
               && |markup.value[i]| == |keyboard.value[i]|
               && forall j :: 0 <= j < |markup.value[i]| ==> IsInlineOf(markup.value[i][j], keyboard.value[i][j]))
  }

  /** `MakeReplyMarkup`: no markup (a null pointer) for an absent keyboard, an
      empty keyboard or a keyboard with an empty row; otherwise one inline
      button per button, row by row in the same order. */
  method MakeReplyMarkup(keyboard: Option<Keyboard>) returns (markup: Option<InlineKeyboard>)
    ensures markup.Some? <==> keyboard.Some? && |keyboard.value| > 0 && !HasEmptyRow(keyboard.value)
    ensures markup.Some? ==>
              && |markup.value| == |keyboard.value|
              && forall i :: 0 <= i < |markup.value| ==>
                   && |markup.value[i]| == |keyboard.value[i]|
                   && forall j :: 0 <= j < |markup.value[i]| ==> IsInlineOf(markup.value[i][j], keyboard.value[i][j])
  {
    if keyboard.None? {
      return None;
    }
    var rows := keyboard.value;
    if |rows| == 0 {
      return None;
    }
    var inlineKeyboard: InlineKeyboard := [];
    var i := 0;
    while i < |rows|
      invariant 0 <= i <= |rows|
      invariant |inlineKeyboard| == i
      invariant forall k :: 0 <= k < i ==> |rows[k]| > 0
      invariant forall k :: 0 <= k < i ==>
                  && |inlineKeyboard[k]| == |rows[k]|
                  && forall j :: 0 <= j < |rows[k]| ==> IsInlineOf(inlineKeyboard[k][j], rows[k][j])
    {
      var row := rows[i];
      if |row| == 0 {
        return None;
      }
      var inlineRow: seq<InlineKeyboardButton> := [];
      var j := 0;
      while j < |row|
        invariant 0 <= j <= |row|
        invariant |inlineRow| == j
        invariant forall k :: 0 <= k < j ==> IsInlineOf(inlineRow[k], row[k])
      {
        SerializeButtonSucceeds(row[j]);
        var serialized := SerializeButton(row[j]).value;
        inlineRow := inlineRow + [InlineKeyboardButton(serialized.title, serialized.data, false)];
        j := j + 1;
      }
      inlineKeyboard := inlineKeyboard + [inlineRow];
      i := i + 1;
    }
    return Some(inlineKeyboard);
  }
}

/** Inline keyboards (tg_bot/keyboards.py). A keyboard is a list of rows and
    a button is its label and its callback data; the Telegram markup objects
    around them are not modelled. */
module Keyboards {
  import opened Wrappers
  import opened Text

  datatype Button = Button(text: string, data: string)

  /** `f"rate:{movie_id}:{i}"` */
  function RatingData(movieId: int, score: int): string {
    "rate:" + IntToString(movieId) + ":" + IntToString(score)
  }

  /** The score buttons the keyboard is made of: "0" to "10" in order, each
      carrying its score in the callback data. */
  function ScoreButtons(movieId: int): seq<Button> {
    seq(11, i requires 0 <= i < 11 => Button(IntToString(i), RatingData(movieId, i)))
  }

  /** `get_rating_keyboard`: button "0", then "1" to "10" from the loop, split
      into the slices `[0:6]` and `[6:11]`. With eleven buttons the fallback
      branch for fewer than six buttons is never taken. */
  method GetRatingKeyboard(movieId: int) returns (rows: seq<seq<Button>>)
    ensures |rows| == 2 && |rows[0]| == 6 && |rows[1]| == 5
    ensures rows[0] + rows[1] == ScoreButtons(movieId)
    ensures forall i :: 0 <= i < 6 ==> rows[0][i].text == IntToString(i)
    ensures forall i :: 0 <= i < 5 ==> rows[1][i].text == IntToString(i + 6)
  {
    var buttons := [Button("0", RatingData(movieId, 0))];
    for i := 1 to 11
      invariant buttons == ScoreButtons(movieId)[..i]
    {
      buttons := buttons + [Button(IntToString(i), RatingData(movieId, i))];
    }
    assert buttons == ScoreButtons(movieId);
    rows := [buttons[0..6], buttons[6..11]];
  }

  /** `f"confirm:{action}:{payload}"` */
  function ConfirmData(action: string, payload: string): string {
    "confirm:" + action + ":" + payload
  }

  const CancelData := "cancel"
  const YesLabel := "✅ Да"
  const NoLabel := "❌ Нет"
  const BackLabel := "🔙 Назад"

  /** `get_confirmation_keyboard`: one row, "yes" carrying the action and its
      payload, "no" carrying the shared cancel data. That the "yes" data
      decodes back to action and payload is `Callbacks.ConfirmRoundTrip`. */
  function ConfirmationKeyboard(action: string, payload: string): (rows: seq<seq<Button>>)
    ensures |rows| == 1 && |rows[0]| == 2
    ensures rows[0][0].text == YesLabel && StartsWith(rows[0][0].data, "confirm:")
    ensures rows[0][1] == Button(NoLabel, CancelData)
  {
    var yes := ConfirmData(action, payload);
    assert yes[..8] == "confirm:";
    [[Button(YesLabel, yes), Button(NoLabel, CancelData)]]
  }

  /** `f"back:{target}"` */
  function BackData(target: string): string {
    "back:" + target
  }

  /** `get_back_keyboard`: a single button. That its data decodes back to
      the target is `Callbacks.BackRoundTrip`. */
  function BackKeyboard(target: string): (rows: seq<seq<Button>>)
    ensures |rows| == 1 && |rows[0]| == 1
    ensures rows[0][0].text == BackLabel && StartsWith(rows[0][0].data, "back:")
  {
    var data := BackData(target);
    assert data[..5] == "back:";
    [[Button(BackLabel, data)]]
  }

  // ---------------------------------------------------------------------------
  // Properties

  /** Read as a number, each score button's label is its score. */
  lemma ScoreLabelsAreScores(movieId: int, i: nat)
    requires i <= 10
    ensures PyInt(ScoreButtons(movieId)[i].text) == Some(i)
  {
    PyIntOfIntToString(i);
  }
}

/** `WatermarkTool.get_user_preferences`: the font size range check and the two numbered
    menus, with each prompt's "ask again until the answer is acceptable" loop run over the
    answers the user types (an answer that `int()` rejects is None). */
module Preferences {
  import opened Wrappers
  import opened Placement

  datatype Rgb = Rgb(red: int, green: int, blue: int)

  predicate IsRgb(c: Rgb) {
    0 <= c.red <= 255 && 0 <= c.green <= 255 && 0 <= c.blue <= 255
  }

  /** The colour menu: key typed by the user, then (label shown, fill colour). */
  const Colors: map<string, (string, Rgb)> := map[
    "1" := ("白色", Rgb(255, 255, 255)),
    "2" := ("黑色", Rgb(0, 0, 0)),
    "3" := ("红色", Rgb(255, 0, 0)),
    "4" := ("蓝色", Rgb(0, 0, 255)),
    "5" := ("绿色", Rgb(0, 255, 0)),
    "6" := ("黄色", Rgb(255, 255, 0))
  ]

  /** The position menu: key typed by the user, then (label shown, anchor name). */
  const Positions: map<string, (string, string)> := map[
    "1" := ("左上角", TopLeft),
    "2" := ("左下角", BottomLeft),
    "3" := ("右上角", TopRight),
    "4" := ("右下角", BottomRight),
    "5" := ("中间", Center)
  ]

  /** The font sizes the prompt accepts. */
  predicate IsValidFontSize(size: int) {
    10 <= size <= 200
  }

  predicate AcceptsFontAnswer(answer: Option<int>) {
    answer.Some? && IsValidFontSize(answer.value)
  }

  /** The answer the font size prompt settles on: the first that is a number in range. */
  function FirstFontSize(answers: seq<Option<int>>): (size: Option<int>)
    ensures size.Some? ==> IsValidFontSize(size.value)
  {
    if answers == [] then None
    else if AcceptsFontAnswer(answers[0]) then answers[0]
    else FirstFontSize(answers[1..])
  }

  /** The size is found exactly when some answer is acceptable, and it is the first such answer. */
  lemma {:induction false} FirstFontSizeIsFirst(answers: seq<Option<int>>)
    ensures FirstFontSize(answers).Some? <==> exists i :: 0 <= i < |answers| && AcceptsFontAnswer(answers[i])
    ensures FirstFontSize(answers).Some? ==>
              exists i :: 0 <= i < |answers| && answers[i] == FirstFontSize(answers) &&
                          forall j :: 0 <= j < i ==> !AcceptsFontAnswer(answers[j])
  {
    if answers != [] && !AcceptsFontAnswer(answers[0]) {
      var rest := answers[1..];
      FirstFontSizeIsFirst(rest);
      if exists i :: 0 <= i < |answers| && AcceptsFontAnswer(answers[i]) {
        var i :| 0 <= i < |answers| && AcceptsFontAnswer(answers[i]);
        assert rest[i - 1] == answers[i];
      }
      if FirstFontSize(answers).Some? {
        var i :| 0 <= i < |rest| && rest[i] == FirstFontSize(rest) &&
                 forall j :: 0 <= j < i ==> !AcceptsFontAnswer(rest[j]);
        assert answers[i + 1] == rest[i];
        assert forall j :: 1 <= j < i + 1 ==> answers[j] == rest[j - 1];
      }
    }
  }

  /** The font size prompt: asks until an answer is a number in range; None when the
      answers run out first. */
  method PromptFontSize(answers: seq<Option<int>>) returns (size: Option<int>)
    ensures size == FirstFontSize(answers)
  {
    var i := 0;
    while i < |answers|
      invariant 0 <= i <= |answers|
      invariant FirstFontSize(answers[i..]) == FirstFontSize(answers)
    {
      assert answers[i..][1..] == answers[i + 1..];
      if AcceptsFontAnswer(answers[i]) {
        return answers[i];
      }
      i := i + 1;
    }
    return None;
  }

  /** The value a menu prompt settles on: the value under the first answer that is a key. */
  function FirstChoice<V>(menu: map<string, (string, V)>, answers: seq<string>): (choice: Option<V>)
    ensures choice.Some? ==> exists k :: k in menu && menu[k].1 == choice.value
  {
    if answers == [] then None
    else if answers[0] in menu then Some(menu[answers[0]].1)
    else FirstChoice(menu, answers[1..])
  }

  /** A choice is found exactly when some answer is a key, and it is the value under the first such answer. */
  lemma {:induction false} FirstChoiceIsFirst<V>(menu: map<string, (string, V)>, answers: seq<string>)
    ensures FirstChoice(menu, answers).Some? <==> exists i :: 0 <= i < |answers| && answers[i] in menu
    ensures FirstChoice(menu, answers).Some? ==>
              exists i :: 0 <= i < |answers| && answers[i] in menu &&
                          FirstChoice(menu, answers).value == menu[answers[i]].1 &&
                          forall j :: 0 <= j < i ==> answers[j] !in menu
  {
    if answers != [] && answers[0] !in menu {
      var rest := answers[1..];
      FirstChoiceIsFirst(menu, rest);
      if exists i :: 0 <= i < |answers| && answers[i] in menu {
        var i :| 0 <= i < |answers| && answers[i] in menu;
        assert rest[i - 1] == answers[i];
      }
      if FirstChoice(menu, answers).Some? {
        var i :| 0 <= i < |rest| && rest[i] in menu && FirstChoice(menu, rest).value == menu[rest[i]].1 &&
                 forall j :: 0 <= j < i ==> rest[j] !in menu;
        assert answers[i + 1] == rest[i];
        assert forall j :: 1 <= j < i + 1 ==> answers[j] == rest[j - 1];
      }
    }
  }

  /** A menu prompt: asks until an answer is a key of the menu; None when the answers run
      out first. */
  method PromptChoice<V>(menu: map<string, (string, V)>, answers: seq<string>) returns (choice: Option<V>)
    ensures choice == FirstChoice(menu, answers)
  {
    var i := 0;
    while i < |answers|
      invariant 0 <= i <= |answers|
      invariant FirstChoice(menu, answers[i..]) == FirstChoice(menu, answers)
    {
      assert answers[i..][1..] == answers[i + 1..];
      if answers[i] in menu {
        return Some(menu[answers[i]].1);
      }
      i := i + 1;
    }
    return None;
  }

  datatype Settings = Settings(fontSize: int, color: Rgb, position: string)

  /** The three prompts in turn. The settings are the first acceptable answer to each prompt,
      and every one of them is acceptable to the rest of the tool: a font size in range, a
      colour from the menu, and one of the five named anchors. */
  method GetUserPreferences(fontAnswers: seq<Option<int>>, colorAnswers: seq<string>,
                            positionAnswers: seq<string>) returns (settings: Option<Settings>)
    ensures settings.Some? <==>
              FirstFontSize(fontAnswers).Some? && FirstChoice(Colors, colorAnswers).Some? &&
              FirstChoice(Positions, positionAnswers).Some?
    ensures settings.Some? ==>
              settings.value == Settings(FirstFontSize(fontAnswers).value, FirstChoice(Colors, colorAnswers).value,
                                         FirstChoice(Positions, positionAnswers).value)
    ensures settings.Some? ==> IsValidFontSize(settings.value.fontSize)
    ensures settings.Some? ==> IsRgb(settings.value.color)
    ensures settings.Some? ==> IsNamedAnchor(settings.value.position)
  {
    var size := PromptFontSize(fontAnswers);
    if size.None? {
      return None;
    }
    var color := PromptChoice(Colors, colorAnswers);
    if color.None? {
      return None;
    }
    var position := PromptChoice(Positions, positionAnswers);
    if position.None? {
      return None;
    }
    MenusWellFormed();
    return Some(Settings(size.value, color.value, position.value));
  }

  /** Refused answers are asked again: a missing number and a size out of range are passed
      over for 50, an unknown key for "2" (black), and "4" picks the bottom right. */
  lemma ExampleAnswers(fontAnswers: seq<Option<int>>, colorAnswers: seq<string>, positionAnswers: seq<string>)
    requires fontAnswers == [None, Some(5), Some(50)]
    requires colorAnswers == ["7", "2"]
    requires positionAnswers == ["4"]
    ensures FirstFontSize(fontAnswers) == Some(50)
    ensures FirstChoice(Colors, colorAnswers) == Some(Rgb(0, 0, 0))
    ensures FirstChoice(Positions, positionAnswers) == Some(BottomRight)
  {
    assert fontAnswers[1..][1..] == [Some(50)];
    assert FirstFontSize(fontAnswers[1..][1..]) == Some(50);
    assert colorAnswers[1..] == ["2"];
  }

  /** The menus accept exactly the keys they print, every colour is a valid RGB triple, and
      every position is one of the five named anchors, so the placement's fallback branch is
      never taken for a position chosen from the menu. */
  lemma MenusWellFormed()
    ensures Colors.Keys == {"1", "2", "3", "4", "5", "6"}
    ensures Positions.Keys == {"1", "2", "3", "4", "5"}
    ensures forall k :: k in Colors ==> IsRgb(Colors[k].1)
    ensures forall k :: k in Positions ==> IsNamedAnchor(Positions[k].1)
  {
  }

  /** Every anchor can be chosen from the position menu, each under its own key. */
  lemma PositionMenuCoversAnchors(position: string)
    requires IsNamedAnchor(position)
    ensures exists k :: k in Positions && Positions[k].1 == position
  {
    if position == TopLeft { assert Positions["1"].1 == position; }
    else if position == BottomLeft { assert Positions["2"].1 == position; }
    else if position == TopRight { assert Positions["3"].1 == position; }
    else if position == BottomRight { assert Positions["4"].1 == position; }
    else { assert Positions["5"].1 == position; }
  }
}

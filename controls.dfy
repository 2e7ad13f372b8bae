/** The command bar that build_controls attaches to a viewer region once its player has loaded. */
module Controls {

  /** One clickable affordance of the command bar (the .lcgp_* spans). */
  datatype Control = PlayBtn | PauseBtn | StopBtn | PrevBtn | NextBtn | EnterFsBtn | ExitFsBtn

  /** The affordances in the order they appear: play, pause and stop always; prev and next unless
      "move" is hidden; enter and exit fullscreen unless "fullscreen" is hidden. */
  function BuildControls(toHide: seq<string>): (r: seq<Control>)
    ensures |r| >= 3 && r[..3] == [PlayBtn, PauseBtn, StopBtn]
    ensures PlayBtn in r && PauseBtn in r && StopBtn in r
    ensures PrevBtn in r <==> "move" !in toHide
    ensures NextBtn in r <==> "move" !in toHide
    ensures EnterFsBtn in r <==> "fullscreen" !in toHide
    ensures ExitFsBtn in r <==> "fullscreen" !in toHide
    ensures "move" !in toHide ==> r[3..5] == [PrevBtn, NextBtn]
    ensures "fullscreen" !in toHide ==> r[|r| - 2..] == [EnterFsBtn, ExitFsBtn]
    ensures |r| == 3 + (if "move" in toHide then 0 else 2) + (if "fullscreen" in toHide then 0 else 2)
  {
    [PlayBtn, PauseBtn, StopBtn]
    + (if "move" in toHide then [] else [PrevBtn, NextBtn])
    + (if "fullscreen" in toHide then [] else [EnterFsBtn, ExitFsBtn])
  }

  /** Hiding the move group leaves exactly the transport and fullscreen affordances. */
  lemma HideMove()
    ensures BuildControls(["move"]) == [PlayBtn, PauseBtn, StopBtn, EnterFsBtn, ExitFsBtn]
  {
  }

  /** The fullscreen clone is built with ["fullscreen"] hidden: it has no enter or exit affordance. */
  lemma CloneControls()
    ensures BuildControls(["fullscreen"]) == [PlayBtn, PauseBtn, StopBtn, PrevBtn, NextBtn]
    ensures EnterFsBtn !in BuildControls(["fullscreen"]) && ExitFsBtn !in BuildControls(["fullscreen"])
  {
  }
}

/** The class list of a viewer region and how each handler rewrites it. */
module Tags {
  import opened Wrappers

  /** The caller's additional class. The fullscreen clone receives the origin's whole class list as its token. */
  datatype Token = Named(name: string) | ClassListOf(classes: set<Tag>)

  /** A class of a region: lcgp_wrap, lcgp_initialstate, lcgp_playing, lcgp_paused, lcgp_loaded,
      webp-jsplayer-fallback, lcgp_<id>, or the additional class. */
  datatype Tag = LcgpWrap | InitialState | Playing | Paused | Loaded | Fallback | Instance(id: nat) | Added(token: Token)

  /** A tag that none of play, pause and stop touches. */
  predicate Untouched(x: Tag)
  {
    x != InitialState && x != Playing && x != Paused
  }

  /** The play handler: drops paused and initial state, adds playing. */
  function PlayTags(t: set<Tag>): (r: set<Tag>)
    ensures Playing in r && Paused !in r && InitialState !in r
    ensures forall x :: Untouched(x) ==> (x in r <==> x in t)
  {
    t - {Paused, InitialState} + {Playing}
  }

  /** The pause handler: adds paused, drops playing, and leaves initial state as it was. */
  function PauseTags(t: set<Tag>): (r: set<Tag>)
    ensures Paused in r && Playing !in r
    ensures InitialState in r <==> InitialState in t
    ensures forall x :: Untouched(x) ==> (x in r <==> x in t)
  {
    t + {Paused} - {Playing}
  }

  /** The stop handler: adds initial state and drops playing and paused. */
  function StopTags(t: set<Tag>): (r: set<Tag>)
    ensures InitialState in r && Playing !in r && Paused !in r
    ensures forall x :: Untouched(x) ==> (x in r <==> x in t)
  {
    t + {InitialState} - {Playing, Paused}
  }

  /** A given additional class is truthy unless it is the empty string (an empty class list reads as ""). */
  predicate Truthy(addit: Option<Token>): (b: bool)
    ensures b ==> addit.Some?
    ensures addit == Some(Named("")) || addit == Some(ClassListOf({})) ==> !b
    ensures forall s :: s != "" ==> (addit == Some(Named(s)) ==> b)
    ensures addit.Some? && addit.value.ClassListOf? && addit.value.classes != {} ==> b
  {
    addit.Some? && addit.value != Named("") && addit.value != ClassListOf({})
  }

  /** The classes registration adds: lcgp_wrap, lcgp_initialstate, lcgp_<id>, and the additional class when it is truthy. */
  function RegisteredTags(id: nat, addit: Option<Token>): (r: set<Tag>)
    ensures LcgpWrap in r && InitialState in r && Instance(id) in r
    ensures Playing !in r && Paused !in r && Loaded !in r && Fallback !in r
    ensures forall x :: x in r && x != LcgpWrap && x != InitialState && x != Instance(id) ==>
              Truthy(addit) && x == Added(addit.value)
    ensures Truthy(addit) ==> Added(addit.value) in r
  {
    {LcgpWrap, InitialState, Instance(id)}
    + (if Truthy(addit) then {Added(addit.value)} else {})
  }

  /** The load callback: adds lcgp_loaded, and the fallback class exactly when the handle is not supported. */
  function LoadedTags(t: set<Tag>, supported: bool): (r: set<Tag>)
    ensures Loaded in r
    ensures Fallback in r <==> Fallback in t || !supported
    ensures forall x :: x != Loaded && x != Fallback ==> (x in r <==> x in t)
  {
    t + {Loaded} + (if supported then {} else {Fallback})
  }

  /** What a click on the region triggers. */
  datatype Action = DoPlay | DoPause

  /** The region's click listener: in the initial state any click plays; otherwise only a click on the canvas
      toggles, playing when paused and pausing when not; any other target does nothing. */
  function ClickAction(t: set<Tag>, onCanvas: bool): (r: Option<Action>)
    ensures InitialState in t ==> r == Some(DoPlay)
    ensures InitialState !in t && !onCanvas ==> r == None
    ensures InitialState !in t && onCanvas ==> (r == Some(DoPlay) <==> Paused in t) && r != None
  {
    if InitialState in t then Some(DoPlay)
    else if onCanvas then (if Paused in t then Some(DoPlay) else Some(DoPause))
    else None
  }

  /** The class list after an action. */
  function Perform(t: set<Tag>, a: Action): set<Tag>
  {
    match a
    case DoPlay => PlayTags(t)
    case DoPause => PauseTags(t)
  }

  /** Playing and paused are never both set. */
  predicate Exclusive(t: set<Tag>)
  {
    !(Playing in t && Paused in t)
  }

  /** Every handler leaves playing and paused exclusive, whatever the class list was before. */
  lemma HandlersExclusive(t: set<Tag>, supported: bool)
    ensures Exclusive(PlayTags(t)) && Exclusive(PauseTags(t)) && Exclusive(StopTags(t))
    ensures Exclusive(t) ==> Exclusive(LoadedTags(t, supported))
  {
  }

  /** Play, pause, play ends where a single play does. */
  lemma PlayPausePlay(t: set<Tag>)
    ensures PlayTags(PauseTags(PlayTags(t))) == PlayTags(t)
  {
    var a, b := PlayTags(PauseTags(PlayTags(t))), PlayTags(t);
    forall x
      ensures x in a <==> x in b
    {
      if Untouched(x) {
        assert x in a <==> x in PauseTags(PlayTags(t));
      }
    }
  }

  /** Stop forgets the playback history: two class lists that agree on the untouched tags agree after stop. */
  lemma StopForgetsHistory(t: set<Tag>, u: set<Tag>)
    requires forall x :: Untouched(x) ==> (x in t <==> x in u)
    ensures StopTags(t) == StopTags(u)
  {
    forall x
      ensures x in StopTags(t) <==> x in StopTags(u)
    {
      if Untouched(x) {
        assert x in t <==> x in u;
      }
    }
  }

  /** Pausing from the initial state keeps lcgp_initialstate, so the next click anywhere on the region plays. */
  lemma PauseKeepsInitial(t: set<Tag>, onCanvas: bool)
    requires InitialState in t
    ensures InitialState in PauseTags(t) && ClickAction(PauseTags(t), onCanvas) == Some(DoPlay)
  {
  }

  /** Outside the initial state, a canvas click swaps playing and paused. */
  lemma CanvasClickToggles(t: set<Tag>)
    requires InitialState !in t && (Playing in t) != (Paused in t)
    ensures ClickAction(t, true).Some?
    ensures var r := Perform(t, ClickAction(t, true).value);
      (Paused in r <==> Paused !in t) && (Playing in r <==> Playing !in t) && InitialState !in r
  {
  }
}

# webp_jsplayer-ui in Dafny

This project models the user-interface layer of the WebP player: `webp_jsplayer-ui.js`. That layer attaches a
command bar (play, pause, stop, prev, next, enter and exit fullscreen) to every viewer region a selector matches,
and then drives the region's state from the user's events. The model covers the following parts.

- **Registration** (`webp_jsplayer_ui` and its load callback):
  - the closure's counter `webp_jsplayer_count`;
  - the handle registry `webp_jsplayer_instances`;
  - the attributes and classes each region gets;
  - the handle created for it.
- **build_controls:** which affordances the command bar holds, and in what order.
- **The handlers:** play, pause, stop, the click on the region, mousedown and mouseup on prev and next, and one
  elapsed interval of the repeating step timer.
- **The fullscreen overlay:** `enter_fullscreen`, the exit affordance, the click on the overlay background and the
  Escape key.

Modules:

- `Controls`: the affordances and `BuildControls`.
- `Tags`: the class list of a region, and how each handler rewrites it. It also holds the decision the region's
  click listener makes.
- `Timers`: the per-id timer slot `webp_jsplayer_cont_move`, the step direction, and the handle calls that a
  sequence of mousedown, mouseup and interval events causes.
- `Handle`: the decoder handle, seen only through the log of calls the controls make on it.
- `Registry`: the choice of a region's source, and how one registration pass numbers the regions it registers.
- `PlayerUi`: the state. It has four parts:
  - `Wrap`: a region, with its class list, `data-lcgp-inst`, `data-lcgp-src`, pending load callback and command bar;
  - `Overlay`: an element with id `lcgp_fs_wrap`, together with the region inside it;
  - `Document`: the overlays present, in document order;
  - `Page`: the closure's counter, registry and timer table, with one method per event handler.

The registry is a sequence indexed by id. Its invariant `Page.Valid` ties its length to the counter. The timer
table maps an id to the direction of its active repeating timer. `clearInterval` removes the entry.

The overlay has a fixed element id, but nothing guards against opening a second one, so several can exist at once;
the model follows the code. `getElementById` finds the first overlay in document order: the exit affordance and
Escape remove that one. Each time an overlay opens,
`webp_jsplayer_ui('#lcgp_fs_wrap div', …)` matches the region of every overlay present. The regions of earlier
overlays are therefore registered again in the model, under new ids and with new handles, and `RegisterOverlays`
states this. The model leaves out the `classList.add` exception described under "## Left out". In the program, that
exception stops this pass at webp_jsplayer-ui.js:26 on the first overlay's region: at most that one region gets a new id, and no
region gets a new handle. The command bars inside the overlays match the selector too, but they hold no img and the
pass skips them.

## Model

| member | source | states |
|---|---|---|
| Controls.BuildControls | webp_jsplayer-ui.js:42-60 | play, pause, stop come first in that order; prev/next are present iff "move" is not hidden and then sit right after stop; enter/exit fullscreen are present iff "fullscreen" is not hidden and then close the bar; the length is exactly 3 plus 2 per shown group, so nothing else is added |
| Controls.HideMove | webp_jsplayer-ui.js:51-55 | with "move" hidden the bar is play, pause, stop, enter, exit |
| Controls.CloneControls | webp_jsplayer-ui.js:56-60 | the bar built with ["fullscreen"] hidden, as the overlay's region gets it, has no enter or exit affordance |
| Tags.RegisteredTags | webp_jsplayer-ui.js:25-26 | registration adds lcgp_wrap, lcgp_initialstate and lcgp_<id>, and the additional class exactly when it is truthy; it adds no playback, loaded or fallback class |
| Tags.LoadedTags | webp_jsplayer-ui.js:32-35 | the load callback adds lcgp_loaded; the fallback class is present afterwards iff it was already present or the handle is unsupported; no other class changes |
| Tags.PlayTags | webp_jsplayer-ui.js:83-87 | afterwards playing is set and paused and initial state are cleared; every other class is as before |
| Tags.PauseTags | webp_jsplayer-ui.js:90-94 | afterwards paused is set and playing cleared; lcgp_initialstate is kept exactly as it was; every other class is as before |
| Tags.StopTags | webp_jsplayer-ui.js:97-102 | afterwards initial state is set and neither playing nor paused, whatever the class list was; every other class is as before |
| Tags.Truthy | webp_jsplayer-ui.js:26 | only a given additional class can be truthy; the empty string (or an empty class list, which reads as "") is not, while every non-empty name and every non-empty class list is |
| Tags.ClickAction | webp_jsplayer-ui.js:72-80 | in the initial state any click plays; otherwise a canvas click plays when paused and pauses when not, and a click on any other target does nothing |
| Tags.HandlersExclusive | webp_jsplayer-ui.js:83-102 | play, pause and stop never leave playing and paused both set; the load callback keeps them exclusive |
| Tags.PlayPausePlay | webp_jsplayer-ui.js:83-94 | play, pause, play ends with the class list of a single play |
| Tags.StopForgetsHistory | webp_jsplayer-ui.js:97-102 | two class lists that differ only in initial state, playing and paused are equal after stop |
| Tags.PauseKeepsInitial | webp_jsplayer-ui.js:90-94 | pause from the initial state keeps lcgp_initialstate, so the region's next click plays |
| Tags.CanvasClickToggles | webp_jsplayer-ui.js:75-79 | outside the initial state a canvas click swaps playing and paused |
| Timers.StepDelta | webp_jsplayer-ui.js:151-153 | a step moves by +1 exactly for next and by -1 for every other direction |
| Timers.SlotAfter | webp_jsplayer-ui.js:108-122 | after an event a timer is active iff it was a mousedown, or an interval while one was active; a mousedown installs its own direction and an interval leaves the slot as it was |
| Timers.CallsOf | webp_jsplayer-ui.js:144-153 | with the pause of lines 110 and 118, the move buttons only ever pause or step one frame either way, never play or jump; they pause exactly on mousedown; an interval makes one call iff a timer is active; a mouseup makes none |
| Timers.SetSlot | webp_jsplayer-ui.js:145-147 | replacing an id's slot changes that id's slot only; no id other than it gains a timer |
| Timers.RunAppend | webp_jsplayer-ui.js:144-150 | the calls of two event sequences run one after the other are the calls of the first followed by those of the second, from the slot the first leaves |
| Timers.HeldTicks | webp_jsplayer-ui.js:147-149 | while a timer is active each interval steps once in its direction and the timer stays |
| Timers.IdleTicks | webp_jsplayer-ui.js:113 | once the slot is cleared, intervals cause no call |
| Timers.PressHoldRelease | webp_jsplayer-ui.js:108-122 | press, n intervals, release on either button, then any number of intervals: one pause, one immediate step, n steps, nothing after the release, and no timer left |
| Timers.RepressDoesNotDouble | webp_jsplayer-ui.js:144-147 | a second press before release replaces the timer: each later interval steps once, in the new direction only |
| Timers.HoldNextThreeIntervals | webp_jsplayer-ui.js:116-121 | holding next over three intervals gives a pause, then four steps of +1 |
| Handle.Append | webp_jsplayer-ui.js:69 | calls on the handle of one id extend that handle's log, keep its source and autoplay flag, and leave every other handle untouched |
| Handle.AppendTwice | webp_jsplayer-ui.js:109-111 | two batches of calls on one handle are the batch of their concatenation |
| Registry.SourceOf | webp_jsplayer-ui.js:20 | the source is rel:animated_src when present and non-empty, img.src otherwise |
| Registry.CloneSource | webp_jsplayer-ui.js:161 | the overlay's image (src "", rel:animated_src the origin's source) resolves to the origin's source |
| Registry.CountAll | webp_jsplayer-ui.js:16-21 | all of the first i regions get an id iff all of them have an image |
| Registry.CountEvery | webp_jsplayer-ui.js:16-21 | when every region has an image, the k-th is preceded by exactly k registered ones |
| Registry.CountIncreases | webp_jsplayer-ui.js:18-21 | a region with an image raises the count for every later region |
| Registry.Ids | webp_jsplayer-ui.js:21 | one id per region; the k-th region's id is at least the counter's old value and at most that value plus k; the first region gets the counter's old value |
| Registry.IdsIncrease | webp_jsplayer-ui.js:21 | within a pass, a later region gets a strictly larger id than a registered earlier one, so no id is reused |
| Registry.IdsInRange | webp_jsplayer-ui.js:21 | every id a pass hands out lies between the counter's old value and its new value |
| Registry.IdsConsecutive | webp_jsplayer-ui.js:16-21 | when every region has an image, the ids are the counter's old value, +1, +2, … and the counter grows by the number of regions |
| PlayerUi.HiddenGroups | webp_jsplayer-ui.js:14 | to_hide defaults to the empty list when it is not given, and is used as given otherwise |
| PlayerUi.RegistrationEffect | webp_jsplayer-ui.js:20-29 | a region without an image is left as it was; one with an image gets the id, its source, the to_hide list and a pending load and keeps its command bar; its classes only grow, by exactly the registration classes: lcgp_wrap, lcgp_initialstate, lcgp_<id>, and the additional class when it is truthy; and its playback classes are unchanged |
| PlayerUi.Registered | webp_jsplayer-ui.js:16-27 | the first i regions of a pass carry the registration of their image and id; the rest are unchanged |
| PlayerUi.RegisteredIds | webp_jsplayer-ui.js:21-23 | after a pass each region with an image holds its own id in data-lcgp-inst, and two such regions hold different ids |
| PlayerUi.RegisteredNext | webp_jsplayer-ui.js:16-27 | registering region i extends the first i registrations to i + 1 |
| PlayerUi.RegisteredConsistent | webp_jsplayer-ui.js:21-26 | registration keeps a region consistent: any id it holds was handed out and comes with a source |
| PlayerUi.PassPreserves | webp_jsplayer-ui.js:23-26 | a pass keeps a consistent region consistent and never adds or removes lcgp_playing or lcgp_paused |
| PlayerUi.NewHandles | webp_jsplayer-ui.js:29 | a pass creates exactly as many handles as it registers regions, all with the pass's autoplay flag and no calls yet |
| PlayerUi.NewHandlesNext | webp_jsplayer-ui.js:29 | registering region i appends its handle, if it has an image, after those of the earlier regions |
| PlayerUi.HandleOfRegion | webp_jsplayer-ui.js:20-29 | the handle made for a region sits at the region's position among the registered regions, and is made from that region's source |
| PlayerUi.RegisteredHandle | webp_jsplayer-ui.js:20-29 | after a whole pass, a region with an image holds in data-lcgp-inst the id at which the registry keeps the handle made for it, and that handle was made from the source the region holds in data-lcgp-src |
| PlayerUi.FreshHandles | webp_jsplayer-ui.js:164 | the handles made from the overlays' sources, one per overlay, in order, autoplaying, with no calls |
| PlayerUi.FullscreenPass | webp_jsplayer-ui.js:159-164 | a pass over the overlays' regions gives them consecutive ids and creates, in order, one autoplaying handle per overlay from its source |
| PlayerUi.NewRegionRegistered | webp_jsplayer-ui.js:159-164 | in that pass the newly appended, unregistered region gets the last id |
| PlayerUi.RemoveAt | webp_jsplayer-ui.js:168 | removing one overlay keeps the others in their order |
| PlayerUi.Overlay.constructor | webp_jsplayer-ui.js:159-161 | the new overlay holds a fresh, unregistered region whose image has src "" and the origin's source as rel:animated_src |
| PlayerUi.Document.Open | webp_jsplayer-ui.js:159-162 | an overlay is appended at the end of the document whatever is already there; the earlier regions keep their attributes and the new one is unregistered |
| PlayerUi.Document.RemoveFirst | webp_jsplayer-ui.js:137-138 | the first overlay in document order is removed if there is one; nothing happens otherwise |
| PlayerUi.Document.ExitClick | webp_jsplayer-ui.js:134-140 | the exit affordance removes the first overlay if one exists and is a no-op otherwise |
| PlayerUi.Document.BackgroundClick | webp_jsplayer-ui.js:167-169 | a click whose target is the overlay itself removes exactly that overlay from its position, the others keeping their document order; any other target changes nothing |
| PlayerUi.Document.KeyDown | webp_jsplayer-ui.js:173-177 | "Escape" or "Esc" removes the first overlay if one exists; any other key, or no overlay, changes nothing |
| PlayerUi.Page.constructor | webp_jsplayer-ui.js:8-10 | the counter starts at 0 with an empty registry and no timers |
| PlayerUi.Page.RegisterOne | webp_jsplayer-ui.js:17-29 | a region without an image is skipped; otherwise it gets id = the counter, which then grows by one, and the registration classes, attributes and pending load; its handle is appended at that id |
| PlayerUi.Page.RegisterAt | webp_jsplayer-ui.js:16-29 | registering one region of a selection leaves every other region of it unchanged |
| PlayerUi.Page.RegisterStep | webp_jsplayer-ui.js:16-29 | one turn of the forEach keeps the pass's progress: registry and regions as registration of one more region makes them |
| PlayerUi.Page.RegisterAll | webp_jsplayer-ui.js:16-37 | the forEach loop registers every region of the selection in order |
| PlayerUi.Page.Initialize | webp_jsplayer-ui.js:13-37 | the counter grows by the number of regions with an image; the registry gains their handles in selection order; each region ends as Registered says, with to_hide defaulting to [] |
| PlayerUi.Page.LoadComplete | webp_jsplayer-ui.js:30-36 | the command bar is built from the region's to_hide, and lcgp_loaded plus the fallback class exactly when unsupported are added |
| PlayerUi.Page.PlayClick | webp_jsplayer-ui.js:83-87 | exactly one play() on the region's handle, then the classes of PlayTags |
| PlayerUi.Page.PauseClick | webp_jsplayer-ui.js:90-94 | exactly one pause() on the region's handle, then the classes of PauseTags |
| PlayerUi.Page.StopClick | webp_jsplayer-ui.js:97-102 | exactly pause() then move_to(0) on the region's handle, then the classes of StopTags |
| PlayerUi.Page.WrapClick | webp_jsplayer-ui.js:72-80 | before the bar exists nothing happens; afterwards the action ClickAction chooses is performed, with its handle call and classes, or nothing |
| PlayerUi.Page.MouseDown | webp_jsplayer-ui.js:108-120 | pause(), then the id's slot is cancelled and reinstalled in the pressed direction, with exactly one immediate step |
| PlayerUi.Page.MouseUp | webp_jsplayer-ui.js:113 | the id's single slot, shared by prev and next, is cleared whichever button is released |
| PlayerUi.Page.Tick | webp_jsplayer-ui.js:147-149 | an interval steps the id's handle once in its timer's direction when a timer is active, and does nothing otherwise |
| PlayerUi.Page.RegisterOverlays | webp_jsplayer-ui.js:164 | the pass registers the region of every open overlay again with consecutive ids, the origin's classes as additional class and "fullscreen" hidden, and appends one autoplaying handle per overlay |
| PlayerUi.Page.RegisterNewOverlay | webp_jsplayer-ui.js:156-164 | after that pass every overlay's region, earlier ones included, is as the registration pass with consecutive ids from the counter makes it; the new region is registered under the last id and is consistent; the origin keeps its playback classes |
| PlayerUi.Page.EnterFullscreen | webp_jsplayer-ui.js:156-164 | with no guard, a fresh overlay carrying the origin's data-lcgp-src is appended, the counter grows by the number of open overlays, every earlier overlay's region is registered again with consecutive ids, and the new region is registered under the last id with autoplay and the origin's class list |
| PlayerUi.Page.EnterClick | webp_jsplayer-ui.js:125-131 | the origin is paused first (one pause() on its handle), then the overlay opens, and its region receives the paused origin's class list; unless the origin is itself an overlay's region, every earlier overlay's region is registered again with consecutive ids from the counter |

## Left out

- Document mechanics are not modelled. These include `querySelectorAll`, the `innerHTML` strings, `appendChild`/`remove` and attribute storage. A selection is a sequence of distinct `Wrap` objects, and a click's target is a boolean parameter. The selector string is not modelled: `RegisterOverlays` takes the regions of the open overlays as the selection.
- Clicks on the command bar bubble to the region's own click listener (webp_jsplayer-ui.js:72-80), and so do the synthetic `.click()` calls (lines 74, 77-78, 128). Each handler is modelled as a direct method call instead. As a consequence, the model does not capture these effects of bubbling, each of which comes from the listener's initial-state branch (line 73):
  - a stop click always bubbles into a play, because stop sets `lcgp_initialstate` before the region's listener runs;
  - a pause click while `lcgp_initialstate` is set also bubbles into a play;
  - for the same reason, entering fullscreen from the initial state leaves the origin playing;
  - from `lcgp_initialstate`, the click that ends a press on prev or next (lines 109-121) bubbles into a play;
  - from `lcgp_initialstate`, a click on the exit affordance (line 136) also bubbles into a play.
- The 100 ms timing of `setInterval` is abstracted: `Page.Tick` is one elapsed interval. The interval id is replaced by the direction it steps in.
- The SuperWebP decoder is left out, apart from the calls made on it, which are logged. Five consequences:
  - load completion is the explicit event `Page.LoadComplete`;
  - the handle's `supported` flag is a parameter of that event;
  - what `move_relative` does to a frame index is not modelled;
  - a region's img is a constant of the region (`Wrap.image`): the model assumes the decoder never removes or replaces it, although it is handed the img itself (line 29) and puts a canvas into the region (line 75). The re-registration of earlier overlays' regions under new ids, and the counter growing by the number of open overlays in PlayerUi.Page.RegisterOverlays, hold only while those imgs stay in place;
  - a handle's source (`Player.src`) is the string line 20 chooses, although the program creates the handle from the img element and writes that string only to data-lcgp-src (line 24). The model assumes the decoder resolves rel:animated_src the same way, which PlayerUi.HandleOfRegion and PlayerUi.FullscreenPass rely on.
- The exception that `classList.add` raises for a class containing whitespace is not modelled. It is raised on every `enter_fullscreen`: the enter affordance exists only once the origin has loaded, so `origin.className` (webp_jsplayer-ui.js:164) always holds at least `lcgp_wrap`, `lcgp_<id>` and `lcgp_loaded` (lines 25, 32; play removes `lcgp_initialstate` at line 85), separated by spaces, and line 26 adds it as one class. In the program the nested pass therefore stops at line 26 on the first `#lcgp_fs_wrap div` region in document order:
  - that region has already received its new id, its data attributes and the three registration classes (lines 21-25), but no handle (line 29), so `webp_jsplayer_instances` has a hole at that id;
  - it gets no load callback and no command bar;
  - no later overlay region is registered;
  - the background-click listener (line 167) is never attached.
  The model describes the program with this exception removed: the additional class is an opaque token, and the overlay's region receives the origin's whole class list as one token. This holds for PlayerUi.Page.RegisterOverlays, PlayerUi.FullscreenPass, the overlay handles and region attributes of PlayerUi.Page.RegisterNewOverlay, PlayerUi.Page.EnterFullscreen and PlayerUi.Page.EnterClick, and PlayerUi.Document.BackgroundClick.
- Registering a region again overwrites its data attributes and adds classes. It also leaves behind the earlier load callback, command bar and listeners, which stay bound to the old id. The model keeps one command bar and one pending load per region: a region registered again carries only its latest id and to_hide.
- Class-name spelling, such as `lcpg_cmd` for the command bar's container (webp_jsplayer-ui.js:44), is not modelled. It is styling, not behaviour.
- Removing an overlay does not cancel timers and does not drop handles from the registry. The model does neither.

/** The user-interface layer: viewer regions, the fullscreen overlays of the document, and the state the
    script's closure keeps (instance counter, handle registry, timer table), with one method per event handler. */
module PlayerUi {
  import opened Wrappers
  import opened Controls
  import opened Handle
  import opened Tags
  import opened Timers
  import opened Registry

  /** A viewer region ("wrap") of the document. */
  class Wrap {
    const image: Option<Image>       // its first img, if any
    var tags: set<Tag>               // its class list
    var inst: Option<nat>            // data-lcgp-inst
    var source: Option<string>       // data-lcgp-src
    var hidden: seq<string>          // the to_hide list its pending load callback will use
    var pending: bool                // its load callback has not fired yet
    var controls: seq<Control>       // its command bar; empty until loaded

    constructor (image: Option<Image>, tags: set<Tag>)
      ensures this.image == image && this.tags == tags
      ensures inst == None && source == None && hidden == [] && !pending && controls == []
    {
      this.image := image;
      this.tags := tags;
      inst := None;
      source := None;
      hidden := [];
      pending := false;
      controls := [];
    }
  }

  /** The mutable attributes of a region at one moment. */
  datatype WrapState = WrapState(tags: set<Tag>, inst: Option<nat>, source: Option<string>, hidden: seq<string>,
                                 pending: bool, controls: seq<Control>)

  /** A region that registration has never seen: no classes, no data attributes, no command bar. */
  const Unregistered := WrapState({}, None, None, [], false, [])

  ghost function Snapshot(w: Wrap): WrapState
    reads w
  {
    WrapState(w.tags, w.inst, w.source, w.hidden, w.pending, w.controls)
  }

  /** The attributes of each region of a selection, in order. */
  ghost function Snapshots(sel: seq<Wrap>): (r: seq<WrapState>)
    reads sel
    ensures |r| == |sel| && forall k {:trigger r[k]} :: 0 <= k < |sel| ==> r[k] == Snapshot(sel[k])
  {
    seq(|sel|, k requires 0 <= k < |sel| reads sel => Snapshot(sel[k]))
  }

  /** The fullscreen container (id lcgp_fs_wrap) and the region inside it. */
  class Overlay {
    const src: string                // the origin's data-lcgp-src it was opened with
    const region: Wrap

    /** The markup of enter_fullscreen: a region whose img has src "" and rel:animated_src set to the origin's source. */
    constructor (src: string)
      ensures this.src == src && fresh(region)
      ensures region.image == Some(Image(Some(src), ""))
      ensures Snapshot(region) == Unregistered
    {
      this.src := src;
      region := new Wrap(Some(Image(Some(src), "")), {});
    }
  }

  /** The images of a selection, in order. */
  function Images(sel: seq<Wrap>): seq<Option<Image>>
  {
    seq(|sel|, k requires 0 <= k < |sel| => sel[k].image)
  }

  /** The regions inside a sequence of overlays, in order. */
  function Regions(s: seq<Overlay>): seq<Wrap>
  {
    seq(|s|, k requires 0 <= k < |s| => s[k].region)
  }

  /** `s` without its element at `p`, the others keeping their order. */
  function RemoveAt<T>(s: seq<T>, p: nat): (r: seq<T>)
    requires p < |s|
    ensures |r| == |s| - 1
    ensures forall k :: 0 <= k < |r| ==> r[k] == s[if k < p then k else k + 1]
  {
    s[..p] + s[p + 1..]
  }

  /** The sources the overlays were opened with, in order. */
  function Srcs(s: seq<Overlay>): seq<string>
  {
    seq(|s|, k requires 0 <= k < |s| => s[k].src)
  }

  /** to_hide defaults to the empty list when it is not given. */
  function HiddenGroups(toHide: Option<seq<string>>): (r: seq<string>)
    ensures toHide.None? ==> r == []
    ensures toHide.Some? ==> r == toHide.value
  {
    if toHide.Some? then toHide.value else []
  }

  /** A region's attributes after registration gives it `id`: unchanged without an image; otherwise the id, the
      source, the registration classes added, the to_hide list and a pending load, with the command bar untouched. */
  function AfterRegistration(s: WrapState, image: Option<Image>, id: nat, addit: Option<Token>, toHide: seq<string>)
    : WrapState
  {
    if image.None? then s
    else s.(tags := s.tags + RegisteredTags(id, addit), inst := Some(id), source := Some(SourceOf(image.value)),
            hidden := toHide, pending := true)
  }

  /** What registration does to one region. A region without an image is left as it was. A region with one gets
      the id, its source, the to_hide list and a pending load, and keeps its command bar. Its classes only grow: it
      keeps every class it had, gains lcgp_wrap, lcgp_initialstate and lcgp_<id>, gains nothing that is not a
      registration class, and neither gains nor loses a playback class. */
  lemma RegistrationEffect(s: WrapState, image: Option<Image>, id: nat, addit: Option<Token>, toHide: seq<string>)
    ensures image.None? ==> AfterRegistration(s, image, id, addit, toHide) == s
    ensures image.Some? ==>
              var r := AfterRegistration(s, image, id, addit, toHide);
              r.inst == Some(id) && r.source == Some(SourceOf(image.value)) && r.hidden == toHide && r.pending &&
              r.controls == s.controls
    ensures s.tags <= AfterRegistration(s, image, id, addit, toHide).tags
    ensures image.Some? ==> LcgpWrap in AfterRegistration(s, image, id, addit, toHide).tags
    ensures image.Some? ==> InitialState in AfterRegistration(s, image, id, addit, toHide).tags
    ensures image.Some? ==> Instance(id) in AfterRegistration(s, image, id, addit, toHide).tags
    ensures forall x :: x in AfterRegistration(s, image, id, addit, toHide).tags && x !in s.tags ==>
              x in RegisteredTags(id, addit)
    ensures image.Some? ==> RegisteredTags(id, addit) <= AfterRegistration(s, image, id, addit, toHide).tags
    ensures SamePlayback(s.tags, AfterRegistration(s, image, id, addit, toHide).tags)
  {
  }

  /** Two class lists agree on the playback classes lcgp_playing and lcgp_paused. */
  predicate SamePlayback(a: set<Tag>, b: set<Tag>)
  {
    (Playing in a <==> Playing in b) && (Paused in a <==> Paused in b)
  }

  /** A region's own consistency on a page whose counter is `n`: an id, when it has one, was handed out there and
      comes with a source, and once its command bar exists it holds play, pause and stop. */
  predicate Consistent(s: WrapState, n: nat)
  {
    (s.inst.Some? ==> s.inst.value < n && s.source.Some?) &&
    (s.pending || s.controls != [] ==> s.inst.Some?) &&
    (s.controls != [] ==> PlayBtn in s.controls && PauseBtn in s.controls && StopBtn in s.controls)
  }

  /** Registration keeps a region consistent once the counter has moved past the id it was given, and a region
      registration skips stays consistent as the counter grows. */
  lemma RegisteredConsistent(s: WrapState, image: Option<Image>, id: nat, n0: nat, n: nat, addit: Option<Token>,
                             toHide: seq<string>)
    requires Consistent(s, n0) && n0 <= n
    requires image.Some? ==> id < n
    ensures Consistent(AfterRegistration(s, image, id, addit, toHide), n)
  {
  }

  /** The attributes of the regions of a selection that had attributes `pre` and images `imgs`, once its first `i`
      regions have been through registration with the ids `ids`; the others are as they were. */
  function Registered(pre: seq<WrapState>, imgs: seq<Option<Image>>, ids: seq<nat>, i: nat, addit: Option<Token>,
                      toHide: seq<string>): (r: seq<WrapState>)
    requires |pre| == |imgs| == |ids| && i <= |pre|
    ensures |r| == |pre|
    ensures forall k {:trigger r[k]} :: 0 <= k < i ==> r[k] == AfterRegistration(pre[k], imgs[k], ids[k], addit, toHide)
    ensures forall k {:trigger r[k]} :: i <= k < |pre| ==> r[k] == pre[k]
  {
    seq(|pre|, k requires 0 <= k < |pre| => if k < i then AfterRegistration(pre[k], imgs[k], ids[k], addit, toHide) else pre[k])
  }

  /** Once every region of a pass has been through registration, each region with an image holds its own id, and
      two such regions hold different ids. */
  lemma RegisteredIds(pre: seq<WrapState>, imgs: seq<Option<Image>>, base: nat, addit: Option<Token>,
                      toHide: seq<string>, i: nat, j: nat)
    requires |pre| == |imgs| && i < |imgs| && j < |imgs| && i != j && imgs[i].Some? && imgs[j].Some?
    ensures Registered(pre, imgs, Ids(imgs, base), |pre|, addit, toHide)[i].inst == Some(Ids(imgs, base)[i])
    ensures Registered(pre, imgs, Ids(imgs, base), |pre|, addit, toHide)[i].inst
            != Registered(pre, imgs, Ids(imgs, base), |pre|, addit, toHide)[j].inst
  {
    if i < j {
      IdsIncrease(imgs, base, i, j);
    } else {
      IdsIncrease(imgs, base, j, i);
    }
  }

  /** Before a pass has registered any region, every region is as it was. */
  lemma RegisteredNone(pre: seq<WrapState>, imgs: seq<Option<Image>>, ids: seq<nat>, addit: Option<Token>,
                       toHide: seq<string>)
    requires |pre| == |imgs| == |ids|
    ensures Registered(pre, imgs, ids, 0, addit, toHide) == pre
  {
  }

  /** Registering the i-th region of a pass extends what the first i registrations did to the first i + 1. */
  lemma RegisteredNext(pre: seq<WrapState>, imgs: seq<Option<Image>>, ids: seq<nat>, i: nat, addit: Option<Token>,
                       toHide: seq<string>)
    requires |pre| == |imgs| == |ids| && i < |pre|
    ensures Registered(pre, imgs, ids, i, addit, toHide)[i := AfterRegistration(pre[i], imgs[i], ids[i], addit, toHide)]
            == Registered(pre, imgs, ids, i + 1, addit, toHide)
  {
  }

  /** After a pass, a region that was consistent stays consistent once the counter has moved past its new id, and
      no region gains or loses lcgp_playing or lcgp_paused. */
  lemma PassPreserves(pre: seq<WrapState>, imgs: seq<Option<Image>>, ids: seq<nat>, addit: Option<Token>,
                      toHide: seq<string>, k: nat, n0: nat, n: nat)
    requires |pre| == |imgs| == |ids| && k < |pre| && n0 <= n
    requires imgs[k].Some? ==> ids[k] < n
    ensures Consistent(pre[k], n0) ==> Consistent(Registered(pre, imgs, ids, |pre|, addit, toHide)[k], n)
    ensures SamePlayback(pre[k].tags, Registered(pre, imgs, ids, |pre|, addit, toHide)[k].tags)
  {
    if Consistent(pre[k], n0) {
      RegisteredConsistent(pre[k], imgs[k], ids[k], n0, n, addit, toHide);
    }
  }

  /** The handles a registration pass creates for the first `i` regions of a selection, in order: one per region
      with an image, made from its source with the given autoplay flag. */
  function NewHandles(imgs: seq<Option<Image>>, i: nat, autoplay: bool): (r: seq<Player>)
    requires i <= |imgs|
    ensures |r| == CountBefore(imgs, i)
    ensures forall h :: h in r ==> h.autoPlay == autoplay && h.log == []
  {
    if i == 0 then []
    else NewHandles(imgs, i - 1, autoplay) + (if imgs[i - 1].Some? then [Player(SourceOf(imgs[i - 1].value), autoplay, [])] else [])
  }

  /** Registering the i-th region appends its handle, if it has an image, after those of the first i regions. */
  lemma NewHandlesNext(base: seq<Player>, imgs: seq<Option<Image>>, i: nat, autoplay: bool)
    requires i < |imgs|
    ensures base + NewHandles(imgs, i + 1, autoplay)
            == base + NewHandles(imgs, i, autoplay)
               + (if imgs[i].Some? then [Player(SourceOf(imgs[i].value), autoplay, [])] else [])
  {
  }

  /** The handle a pass creates for a region with an image sits at that region's position among the regions with
      an image, and is made from that region's source. */
  lemma {:induction false} HandleOfRegion(imgs: seq<Option<Image>>, i: nat, k: nat, autoplay: bool)
    requires k < i <= |imgs| && imgs[k].Some?
    ensures CountBefore(imgs, k) < |NewHandles(imgs, i, autoplay)|
    ensures NewHandles(imgs, i, autoplay)[CountBefore(imgs, k)] == Player(SourceOf(imgs[k].value), autoplay, [])
  {
    if k < i - 1 {
      HandleOfRegion(imgs, i - 1, k, autoplay);
    }
  }

  /** After a whole pass that started with the registry `base`, a region with an image holds the id of the handle
      the pass made for it, and that handle comes from the source the region holds. */
  lemma RegisteredHandle(pre: seq<WrapState>, imgs: seq<Option<Image>>, base: seq<Player>, autoplay: bool,
                         addit: Option<Token>, toHide: seq<string>, k: nat)
    requires |pre| == |imgs| && k < |imgs| && imgs[k].Some?
    ensures Registered(pre, imgs, Ids(imgs, |base|), |pre|, addit, toHide)[k].inst == Some(Ids(imgs, |base|)[k])
    ensures Registered(pre, imgs, Ids(imgs, |base|), |pre|, addit, toHide)[k].source == Some(SourceOf(imgs[k].value))
    ensures Ids(imgs, |base|)[k] < |base + NewHandles(imgs, |imgs|, autoplay)|
    ensures (base + NewHandles(imgs, |imgs|, autoplay))[Ids(imgs, |base|)[k]]
            == Player(SourceOf(imgs[k].value), autoplay, [])
  {
    var ids := Ids(imgs, |base|);
    var handles := NewHandles(imgs, |imgs|, autoplay);
    assert ids[k] == |base| + CountBefore(imgs, k);
    assert Registered(pre, imgs, ids, |pre|, addit, toHide)[k] == AfterRegistration(pre[k], imgs[k], ids[k], addit, toHide);
    HandleOfRegion(imgs, |imgs|, k, autoplay);
    IndexAfter(base, handles, CountBefore(imgs, k));
  }

  /** Indexing past the first part of a concatenation. */
  lemma IndexAfter<T>(a: seq<T>, b: seq<T>, j: nat)
    requires j < |b|
    ensures |a| + j < |a + b| && (a + b)[|a| + j] == b[j]
  {
  }

  /** The fresh handles made from `srcs`, in order. */
  function FreshHandles(srcs: seq<string>, autoplay: bool): (r: seq<Player>)
    ensures |r| == |srcs| && forall k :: 0 <= k < |srcs| ==> r[k] == Player(srcs[k], autoplay, [])
  {
    seq(|srcs|, k requires 0 <= k < |srcs| => Player(srcs[k], autoplay, []))
  }

  /** Overlays as enter_fullscreen builds them: each has its own region, whose image carries the overlay's source. */
  ghost predicate WellFormed(s: seq<Overlay>)
  {
    (forall i, j :: 0 <= i < j < |s| ==> s[i].region != s[j].region) &&
    (forall k :: 0 <= k < |s| ==> s[k].region.image == Some(Image(Some(s[k].src), "")))
  }

  /** In a pass with consecutive ids over the attributes of the earlier regions followed by a new, unregistered one,
      the new region is registered under the last id. */
  lemma NewRegionRegistered(pre: seq<WrapState>, imgs: seq<Option<Image>>, base: nat, id: nat, addit: Option<Token>,
                            toHide: seq<string>)
    requires |imgs| == |pre| + 1 && id == base + |pre|
    ensures Registered(pre + [Unregistered], imgs, Consecutive(base, |imgs|), |imgs|, addit, toHide)[|pre|]
            == AfterRegistration(Unregistered, imgs[|pre|], id, addit, toHide)
  {
    var r := Registered(pre + [Unregistered], imgs, Consecutive(base, |imgs|), |imgs|, addit, toHide);
    assert r[|pre|] == AfterRegistration((pre + [Unregistered])[|pre|], imgs[|pre|], Consecutive(base, |imgs|)[|pre|],
                                         addit, toHide);
  }

  /** A registration pass over the regions of well-formed overlays: every region has an image, so the regions get
      consecutive ids from the base, and the handles made are fresh ones from the overlays' sources, in order. */
  lemma FullscreenPass(s: seq<Overlay>, base: nat, autoplay: bool)
    requires WellFormed(s)
    ensures Ids(Images(Regions(s)), base) == Consecutive(base, |s|)
    ensures ImageCount(Images(Regions(s))) == |s|
    ensures NewHandles(Images(Regions(s)), |s|, autoplay) == FreshHandles(Srcs(s), autoplay)
  {
    var imgs := Images(Regions(s));
    assert forall k :: 0 <= k < |s| ==> imgs[k] == Some(Image(Some(s[k].src), ""));
    IdsConsecutive(imgs, base);
    forall k | 0 <= k < |s|
      ensures NewHandles(imgs, |s|, autoplay)[k] == Player(s[k].src, autoplay, [])
    {
      assert Ids(imgs, base)[k] == base + k;
      HandleOfRegion(imgs, |s|, k, autoplay);
    }
  }

  /** The document's elements with id lcgp_fs_wrap, in document order. */
  class Document {
    var overlays: seq<Overlay>

    /** Each overlay has its own region, and that region's image carries the overlay's source. */
    ghost predicate Valid()
      reads this
    {
      WellFormed(overlays)
    }

    /** Whether document.getElementById('lcgp_fs_wrap') finds an overlay. */
    function OverlayExists(): (b: bool)
      reads this
    {
      overlays != []
    }

    constructor ()
      ensures Valid() && overlays == []
    {
      overlays := [];
    }

    /** enter_fullscreen's markup: a new overlay opened with `src` is appended at the end of the document. */
    method Open(src: string) returns (fs: Overlay)
      requires Valid()
      modifies this
      ensures Valid() && overlays == old(overlays) + [fs]
      ensures fresh(fs) && fresh(fs.region) && fs.src == src && Snapshot(fs.region) == Unregistered
      ensures Regions(overlays) == Regions(old(overlays)) + [fs.region]
      ensures Snapshots(Regions(overlays)) == old(Snapshots(Regions(overlays))) + [Unregistered]
    {
      ghost var pre := Snapshots(Regions(overlays));
      fs := new Overlay(src);
      overlays := overlays + [fs];
      assert Regions(overlays) == Regions(old(overlays)) + [fs.region];
      ghost var s := Snapshots(Regions(overlays));
      forall k | 0 <= k < |pre| ensures s[k] == pre[k] {
        assert Regions(overlays)[k] == Regions(old(overlays))[k];
      }
      assert s == pre + [Unregistered];
    }

    /** The first overlay in document order (what getElementById returns) is removed, if there is one. */
    method RemoveFirst()
      requires Valid()
      modifies this
      ensures Valid()
      ensures overlays == if old(overlays) == [] then [] else old(overlays)[1..]
    {
      if overlays != [] {
        overlays := RemoveAt(overlays, 0);
      }
    }

    /** The exit-fullscreen affordance of a region: removes the first overlay if there is one. */
    method ExitClick(w: Wrap)
      requires Valid() && ExitFsBtn in w.controls
      modifies this
      ensures Valid()
      ensures old(OverlayExists()) ==> overlays == old(overlays)[1..]
      ensures !old(OverlayExists()) ==> overlays == old(overlays)
    {
      RemoveFirst();
    }

    /** A click on an overlay: it removes itself only when the click's target is the overlay element itself. */
    method BackgroundClick(fs: Overlay, onOverlay: bool)
      requires Valid() && fs in overlays
      modifies this
      ensures Valid()
      ensures !onOverlay ==> overlays == old(overlays)
      ensures onOverlay ==> |overlays| == |old(overlays)| - 1 && fs !in overlays
      ensures onOverlay ==> forall o :: o in overlays <==> o in old(overlays) && o != fs
      ensures onOverlay ==> exists p :: 0 <= p < |old(overlays)| && old(overlays)[p] == fs &&
                                        overlays == RemoveAt(old(overlays), p)
    {
      if onOverlay {
        var p :| 0 <= p < |overlays| && overlays[p] == fs;
        ghost var s := overlays;
        overlays := RemoveAt(overlays, p);
        assert s[p] == fs && overlays == RemoveAt(s, p);
        forall o | o in s && o != fs
          ensures o in overlays
        {
          var q :| 0 <= q < |s| && s[q] == o;
          assert q != p;
          assert overlays[if q < p then q else q - 1] == o;
        }
      }
    }

    /** A keydown anywhere: "Escape" or "Esc" removes the first overlay if there is one; any other key does nothing. */
    method KeyDown(key: string)
      requires Valid()
      modifies this
      ensures Valid()
      ensures (key == "Escape" || key == "Esc") && old(OverlayExists()) ==> overlays == old(overlays)[1..]
      ensures !(key == "Escape" || key == "Esc") || !old(OverlayExists()) ==> overlays == old(overlays)
    {
      if key == "Escape" || key == "Esc" {
        RemoveFirst();
      }
    }
  }

  /** The state the script's closure shares between all viewers of a page. */
  class Page {
    var count: nat                        // webp_jsplayer_count
    var instances: seq<Player>            // webp_jsplayer_instances, indexed by id
    var timers: map<nat, Control>         // webp_jsplayer_cont_move: the active repeating timers

    /** Ids 0 .. count-1 are exactly the registered ones, and timers belong to registered ids. */
    ghost predicate Valid()
      reads this
    {
      |instances| == count && forall id :: id in timers ==> id < count
    }

    /** A region of this page. */
    ghost predicate Tracks(w: Wrap)
      reads this, w
    {
      Consistent(Snapshot(w), count)
    }

    constructor ()
      ensures Valid()
      ensures count == 0 && instances == [] && timers == map[]
    {
      count := 0;
      instances := [];
      timers := map[];
    }

    /** The forEach callback of webp_jsplayer_ui for one region: a region without an image is skipped; otherwise
        it gets id `count` (which is then incremented), its data attributes and classes, and a fresh handle
        created with the source and autoplay flag, and its load callback becomes pending. */
    method RegisterOne(w: Wrap, autoplay: bool, addit: Option<Token>, toHide: seq<string>)
      requires Valid()
      modifies `count, `instances, w`tags, w`inst, w`source, w`hidden, w`pending
      ensures Valid()
      ensures Snapshot(w) == AfterRegistration(old(Snapshot(w)), w.image, old(count), addit, toHide)
      ensures w.image.None? ==> count == old(count) && instances == old(instances)
      ensures w.image.Some? ==>
                count == old(count) + 1 && instances == old(instances) + [Player(SourceOf(w.image.value), autoplay, [])]
    {
      if w.image.Some? {
        var src := SourceOf(w.image.value);
        var id := count;
        count := count + 1;
        w.inst := Some(id);
        w.source := Some(src);
        var tags := w.tags + {LcgpWrap, InitialState, Instance(id)};
        if Truthy(addit) {
          tags := tags + {Added(addit.value)};
        }
        assert tags == w.tags + RegisteredTags(id, addit);
        w.tags := tags;
        instances := instances + [Player(src, autoplay, [])];
        w.hidden := toHide;
        w.pending := true;
      }
    }

    /** RegisterOne on the i-th of a selection of distinct regions, which leaves the other regions as they were. */
    method RegisterAt(selection: seq<Wrap>, i: nat, autoplay: bool, addit: Option<Token>, toHide: seq<string>)
      requires Valid() && i < |selection|
      requires forall a, b :: 0 <= a < b < |selection| ==> selection[a] != selection[b]
      modifies `count, `instances, selection[i]
      ensures Valid() && timers == old(timers)
      ensures Snapshots(selection)
              == old(Snapshots(selection))[i := AfterRegistration(old(Snapshot(selection[i])), selection[i].image,
                                                                  old(count), addit, toHide)]
      ensures instances == old(instances) + (if selection[i].image.Some? then
                                               [Player(SourceOf(selection[i].image.value), autoplay, [])] else [])
    {
      ghost var before := Snapshots(selection);
      RegisterOne(selection[i], autoplay, addit, toHide);
      forall k | 0 <= k < |selection| && k != i
        ensures Snapshot(selection[k]) == before[k]
      {
        assert selection[k] != selection[i];
      }
    }

    /** The registration loop over `selection`, which started with the registry `base` and the region attributes
        `pre`, has handled its first `i` regions: the registry is `base` followed by the handles made so far, and the
        regions hold their registered attributes so far. */
    ghost predicate Progress(selection: seq<Wrap>, i: nat, autoplay: bool, addit: Option<Token>, toHide: seq<string>,
                             pre: seq<WrapState>, base: seq<Player>)
      reads this, selection
    {
      i <= |selection| == |pre| &&
      instances == base + NewHandles(Images(selection), i, autoplay) &&
      Snapshots(selection) == Registered(pre, Images(selection), Ids(Images(selection), |base|), i, addit, toHide)
    }

    /** One turn of the registration loop: RegisterAt on the i-th region. */
    method RegisterStep(selection: seq<Wrap>, i: nat, autoplay: bool, addit: Option<Token>, toHide: seq<string>,
                        ghost pre: seq<WrapState>, ghost base: seq<Player>)
      requires Valid() && i < |selection| && |base| <= count
      requires forall a, b :: 0 <= a < b < |selection| ==> selection[a] != selection[b]
      requires Progress(selection, i, autoplay, addit, toHide, pre, base)
      modifies `count, `instances, selection[i]
      ensures Valid() && timers == old(timers) && |base| <= count
      ensures Progress(selection, i + 1, autoplay, addit, toHide, pre, base)
    {
      ghost var imgs := Images(selection);
      ghost var ids := Ids(imgs, |base|);
      ghost var s := Snapshots(selection);
      assert s[i] == Snapshot(selection[i]) == pre[i];
      assert ids[i] == count;
      RegisterAt(selection, i, autoplay, addit, toHide);
      RegisteredNext(pre, imgs, ids, i, addit, toHide);
      NewHandlesNext(base, imgs, i, autoplay);
    }

    /** webp_jsplayer_ui: the regions of the selection are registered one after the other. The k-th region gets
        the id Ids(...)[k] (the counter's old value plus the number of regions with an image before it), and the
        handles created are appended to the registry in the same order. */
    method Initialize(selection: seq<Wrap>, autoplay: bool, addit: Option<Token>, toHide: Option<seq<string>>)
      requires Valid()
      requires forall i, j :: 0 <= i < j < |selection| ==> selection[i] != selection[j]
      modifies `count, `instances, set w: Wrap | w in selection
      ensures Valid() && timers == old(timers)
      ensures count == old(count) + ImageCount(Images(selection))
      ensures instances == old(instances) + NewHandles(Images(selection), |selection|, autoplay)
      ensures Snapshots(selection) == Registered(old(Snapshots(selection)), Images(selection),
                                                 Ids(Images(selection), old(count)), |selection|, addit,
                                                 HiddenGroups(toHide))
    {
      ghost var pre := Snapshots(selection);
      RegisterAll(selection, autoplay, addit, HiddenGroups(toHide), pre, old(instances));
    }

    /** The loop of Initialize, stated through Progress. */
    method RegisterAll(selection: seq<Wrap>, autoplay: bool, addit: Option<Token>, toHide: seq<string>,
                       ghost pre: seq<WrapState>, ghost base: seq<Player>)
      requires Valid() && base == instances && pre == Snapshots(selection)
      requires forall i, j :: 0 <= i < j < |selection| ==> selection[i] != selection[j]
      modifies `count, `instances, set w: Wrap | w in selection
      ensures Valid() && timers == old(timers)
      ensures Progress(selection, |selection|, autoplay, addit, toHide, pre, base)
    {
      RegisteredNone(pre, Images(selection), Ids(Images(selection), |base|), addit, toHide);
      for i := 0 to |selection|
        invariant Valid() && timers == old(timers) && |base| <= count
        invariant Progress(selection, i, autoplay, addit, toHide, pre, base)
      {
        RegisterStep(selection, i, autoplay, addit, toHide, pre, base);
      }
    }

    /** The load callback: the command bar is built from the region's to_hide, and the region gains lcgp_loaded and,
        when the handle reports it unsupported, webp-jsplayer-fallback. */
    method LoadComplete(w: Wrap, supported: bool)
      requires Valid() && Tracks(w) && w.pending
      modifies w`controls, w`tags, w`pending
      ensures Valid() && Tracks(w)
      ensures w.controls == BuildControls(w.hidden)
      ensures w.tags == LoadedTags(old(w.tags), supported)
      ensures !w.pending
    {
      w.controls := BuildControls(w.hidden);
      w.tags := LoadedTags(w.tags, supported);
      w.pending := false;
    }

    /** The play affordance: handle.play(), then the classes of PlayTags. */
    method PlayClick(w: Wrap)
      requires Valid() && Tracks(w) && PlayBtn in w.controls
      modifies `instances, w`tags
      ensures Valid() && Tracks(w)
      ensures w.tags == PlayTags(old(w.tags))
      ensures instances == Append(old(instances), w.inst.value, [Play])
    {
      instances := Append(instances, w.inst.value, [Play]);
      w.tags := PlayTags(w.tags);
    }

    /** The pause affordance: handle.pause(), then the classes of PauseTags. */
    method PauseClick(w: Wrap)
      requires Valid() && Tracks(w) && PauseBtn in w.controls
      modifies `instances, w`tags
      ensures Valid() && Tracks(w)
      ensures w.tags == PauseTags(old(w.tags))
      ensures instances == Append(old(instances), w.inst.value, [Pause])
    {
      instances := Append(instances, w.inst.value, [Pause]);
      w.tags := PauseTags(w.tags);
    }

    /** The stop affordance: handle.pause() and handle.move_to(0), then the classes of StopTags. */
    method StopClick(w: Wrap)
      requires Valid() && Tracks(w) && StopBtn in w.controls
      modifies `instances, w`tags
      ensures Valid() && Tracks(w)
      ensures w.tags == StopTags(old(w.tags))
      ensures instances == Append(old(instances), w.inst.value, [Pause, MoveTo(0)])
    {
      instances := Append(instances, w.inst.value, [Pause, MoveTo(0)]);
      w.tags := StopTags(w.tags);
    }

    /** A click anywhere on the region: the action of ClickAction once the listener is bound, nothing before. */
    method WrapClick(w: Wrap, onCanvas: bool)
      requires Valid() && Tracks(w)
      modifies `instances, w`tags
      ensures Valid() && Tracks(w)
      ensures old(w.controls) == [] || ClickAction(old(w.tags), onCanvas) == None ==>
                w.tags == old(w.tags) && instances == old(instances)
      ensures old(w.controls) != [] && ClickAction(old(w.tags), onCanvas) == Some(DoPlay) ==>
                w.tags == PlayTags(old(w.tags)) && instances == Append(old(instances), w.inst.value, [Play])
      ensures old(w.controls) != [] && ClickAction(old(w.tags), onCanvas) == Some(DoPause) ==>
                w.tags == PauseTags(old(w.tags)) && instances == Append(old(instances), w.inst.value, [Pause])
    {
      if w.controls != [] {
        var a := ClickAction(w.tags, onCanvas);
        if a == Some(DoPlay) {
          PlayClick(w);
        } else if a == Some(DoPause) {
          PauseClick(w);
        }
      }
    }

    /** Mousedown on prev or next: handle.pause(), then continuous(): the id's timer is cancelled, one step is taken
        at once and a timer in that direction is installed. */
    method MouseDown(w: Wrap, c: Control)
      requires Valid() && Tracks(w) && (c == PrevBtn || c == NextBtn) && c in w.controls
      modifies `instances, `timers
      ensures Valid() && Tracks(w)
      ensures timers == SetSlot(old(timers), w.inst.value, SlotAfter(SlotOf(old(timers), w.inst.value), Down(c)))
      ensures instances == Append(old(instances), w.inst.value, CallsOf(SlotOf(old(timers), w.inst.value), Down(c)))
    {
      var id := w.inst.value;
      AppendTwice(instances, id, [Pause], [MoveRelative(StepDelta(c))]);
      assert [Pause] + [MoveRelative(StepDelta(c))] == CallsOf(SlotOf(timers, id), Down(c));
      instances := Append(instances, id, [Pause]);
      timers := timers - {id};
      instances := Append(instances, id, [MoveRelative(StepDelta(c))]);
      timers := timers[id := c];
    }

    /** Mouseup on prev or next: clearInterval on the id's slot, which prev and next share. */
    method MouseUp(w: Wrap, c: Control)
      requires Valid() && Tracks(w) && (c == PrevBtn || c == NextBtn) && c in w.controls
      modifies `timers
      ensures Valid() && Tracks(w)
      ensures timers == SetSlot(old(timers), w.inst.value, SlotAfter(SlotOf(old(timers), w.inst.value), Up(c)))
      ensures SlotOf(timers, w.inst.value) == None
    {
      timers := timers - {w.inst.value};
    }

    /** One elapsed interval of the repeating timer of `id`, if there is one: step() in its direction. */
    method Tick(id: nat)
      requires Valid()
      modifies `instances
      ensures Valid()
      ensures id in timers ==> instances == Append(old(instances), id, CallsOf(SlotOf(timers, id), Interval))
      ensures id !in timers ==> instances == old(instances)
    {
      if id in timers {
        instances := Append(instances, id, [MoveRelative(StepDelta(timers[id]))]);
      }
    }

    /** The registration pass enter_fullscreen runs: webp_jsplayer_ui on '#lcgp_fs_wrap div' with autoplay, the
        "fullscreen" group hidden and `classes` as the additional class. The selector matches the region of every open
        overlay, in document order; each has an image, so they get consecutive ids from the counter and one fresh
        autoplaying handle each, made from the overlay's source. */
    method RegisterOverlays(doc: Document, classes: set<Tag>, ghost origin: Wrap)
      requires Valid() && doc.Valid()
      modifies `count, `instances, set w: Wrap | w in Regions(doc.overlays)
      ensures Valid() && timers == old(timers)
      ensures count == old(count) + |doc.overlays|
      ensures instances == old(instances) + FreshHandles(Srcs(doc.overlays), true)
      ensures Snapshots(Regions(doc.overlays))
              == Registered(old(Snapshots(Regions(doc.overlays))), Images(Regions(doc.overlays)),
                            Consecutive(old(count), |doc.overlays|), |doc.overlays|, Some(ClassListOf(classes)),
                            ["fullscreen"])
      ensures old(Tracks(origin)) ==> Tracks(origin)
      ensures SamePlayback(old(origin.tags), origin.tags)
    {
      var selection := Regions(doc.overlays);
      var addit := Some(ClassListOf(classes));
      var groups := ["fullscreen"];
      ghost var pre := Snapshots(selection);
      ghost var ids := Consecutive(old(count), |selection|);
      FullscreenPass(doc.overlays, count, true);
      Initialize(selection, true, addit, Some(groups));
      if k :| 0 <= k < |selection| && selection[k] == origin {
        assert Snapshot(origin) == Snapshots(selection)[k] && pre[k] == old(Snapshot(origin));
        PassPreserves(pre, Images(selection), ids, addit, groups, k, old(count), count);
      } else if old(Tracks(origin)) {
        RegisteredConsistent(old(Snapshot(origin)), None, 0, old(count), count, None, []);
      }
    }

    /** The registration pass of enter_fullscreen, run once the overlay `fs` has been appended: every overlay
        region is registered again (RegisterOverlays), and the new region, which was unregistered, gets the last
        id the pass hands out. */
    method RegisterNewOverlay(doc: Document, ghost fs: Overlay, classes: set<Tag>, ghost origin: Wrap)
      requires Valid() && doc.Valid() && Tracks(origin)
      requires doc.overlays != [] && doc.overlays[|doc.overlays| - 1] == fs && Snapshot(fs.region) == Unregistered
      modifies `count, `instances, set w: Wrap | w in Regions(doc.overlays)
      ensures Valid() && timers == old(timers)
      ensures count == old(count) + |doc.overlays|
      ensures instances == old(instances) + FreshHandles(Srcs(doc.overlays), true)
      ensures Snapshots(Regions(doc.overlays))
              == Registered(old(Snapshots(Regions(doc.overlays))), Images(Regions(doc.overlays)),
                            Consecutive(old(count), |doc.overlays|), |doc.overlays|, Some(ClassListOf(classes)),
                            ["fullscreen"])
      ensures Snapshot(fs.region) == AfterRegistration(Unregistered, fs.region.image, old(count) + |doc.overlays| - 1,
                                                       Some(ClassListOf(classes)), ["fullscreen"])
      ensures Tracks(origin) && Tracks(fs.region)
      ensures SamePlayback(old(origin.tags), origin.tags)
    {
      ghost var selection := Regions(doc.overlays);
      ghost var n := |selection| - 1;
      ghost var pre := Snapshots(selection);
      assert pre[n] == Unregistered;
      assert pre == pre[..n] + [Unregistered];
      RegisterOverlays(doc, classes, origin);
      ghost var id := old(count) + n;
      ghost var addit := Some(ClassListOf(classes));
      assert selection[n] == fs.region;
      ghost var imgs := Images(selection);
      assert imgs[n] == fs.region.image;
      ghost var s := Snapshots(selection);
      assert s[n] == Snapshot(fs.region);
      NewRegionRegistered(pre[..n], imgs, old(count), id, addit, ["fullscreen"]);
    }

    /** enter_fullscreen: appends an overlay whose region carries the origin's data-lcgp-src, then runs the
        registration pass with the origin's class list. Nothing checks for an overlay that is already open: the
        pass then registers the regions of the earlier overlays again, under new ids. The origin and the new
        region both remain consistent with the counter. */
    method EnterFullscreen(doc: Document, origin: Wrap) returns (ghost fs: Overlay)
      requires Valid() && doc.Valid() && Tracks(origin) && origin.inst.Some?
      modifies this, doc, Regions(doc.overlays)
      ensures Valid() && doc.Valid() && timers == old(timers)
      ensures doc.overlays == old(doc.overlays) + [fs] && fresh(fs) && fresh(fs.region)
      ensures fs.src == old(origin.source.value)
      ensures count == old(count) + |doc.overlays|
      ensures instances == old(instances) + FreshHandles(Srcs(doc.overlays), true)
      ensures Snapshots(Regions(doc.overlays))
              == Registered(old(Snapshots(Regions(doc.overlays))) + [Unregistered], Images(Regions(doc.overlays)),
                            Consecutive(old(count), |doc.overlays|), |doc.overlays|,
                            Some(ClassListOf(old(origin.tags))), ["fullscreen"])
      ensures Snapshot(fs.region) == AfterRegistration(Unregistered, fs.region.image, old(count) + |old(doc.overlays)|,
                                                       Some(ClassListOf(old(origin.tags))), ["fullscreen"])
      ensures Tracks(origin) && Tracks(fs.region)
      ensures SamePlayback(old(origin.tags), origin.tags)
    {
      var src := origin.source.value;
      var classes := origin.tags;
      fs := doc.Open(src);
      RegisterNewOverlay(doc, fs, classes, origin);
    }

    /** The enter-fullscreen affordance: the pause handler on the origin, then enter_fullscreen, so the origin
        ends paused and the new overlay's region gets the paused origin's class list. */
    method EnterClick(doc: Document, w: Wrap) returns (ghost fs: Overlay)
      requires Valid() && doc.Valid() && Tracks(w) && EnterFsBtn in w.controls
      modifies this, w`tags, doc, Regions(doc.overlays)
      ensures Valid() && doc.Valid() && Tracks(w) && timers == old(timers)
      ensures Paused in w.tags && Playing !in w.tags
      ensures w !in Regions(old(doc.overlays)) ==> w.tags == PauseTags(old(w.tags))
      ensures doc.overlays == old(doc.overlays) + [fs] && fresh(fs) && fresh(fs.region)
      ensures fs.src == old(w.source.value)
      ensures count == old(count) + |doc.overlays|
      ensures instances == Append(old(instances), old(w.inst.value), [Pause]) + FreshHandles(Srcs(doc.overlays), true)
      ensures Snapshot(fs.region) == AfterRegistration(Unregistered, fs.region.image, old(count) + |old(doc.overlays)|,
                                                       Some(ClassListOf(PauseTags(old(w.tags)))), ["fullscreen"])
      ensures w !in Regions(old(doc.overlays)) ==>
                Snapshots(Regions(doc.overlays))
                == Registered(old(Snapshots(Regions(doc.overlays))) + [Unregistered], Images(Regions(doc.overlays)),
                              Consecutive(old(count), |doc.overlays|), |doc.overlays|,
                              Some(ClassListOf(PauseTags(old(w.tags)))), ["fullscreen"])
    {
      ghost var pre := Snapshots(Regions(doc.overlays));
      PauseClick(w);
      if w !in Regions(doc.overlays) {
        ghost var mid := Snapshots(Regions(doc.overlays));
        forall k | 0 <= k < |pre|
          ensures mid[k] == pre[k]
        {
          assert Regions(doc.overlays)[k] != w;
        }
        assert mid == pre;
      }
      fs := EnterFullscreen(doc, w);
    }
  }
}

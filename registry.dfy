/** How registration chooses a region's source and numbers the regions it registers. */
module Registry {
  import opened Wrappers

  /** The first img of a region: its rel:animated_src attribute (None when absent) and its src property. */
  datatype Image = Image(animatedSrc: Option<string>, src: string)

  /** rel:animated_src when it is present and non-empty (truthy), img.src otherwise. */
  function SourceOf(img: Image): (r: string)
    ensures img.animatedSrc.Some? && img.animatedSrc.value != "" ==> r == img.animatedSrc.value
    ensures img.animatedSrc.None? || img.animatedSrc.value == "" ==> r == img.src
  {
    if img.animatedSrc.Some? && img.animatedSrc.value != "" then img.animatedSrc.value else img.src
  }

  /** The clone's image has src "" and the origin's source as rel:animated_src, so it resolves to that source. */
  lemma CloneSource(s: string)
    ensures SourceOf(Image(Some(s), "")) == s
  {
  }

  /** How many of the first `i` regions of a selection have an image and therefore receive an id. */
  function CountBefore(imgs: seq<Option<Image>>, i: nat): (n: nat)
    requires i <= |imgs|
    ensures n <= i
  {
    if i == 0 then 0 else CountBefore(imgs, i - 1) + (if imgs[i - 1].Some? then 1 else 0)
  }

  /** How many regions of a selection have an image. */
  function ImageCount(imgs: seq<Option<Image>>): (n: nat)
    ensures n <= |imgs|
  {
    CountBefore(imgs, |imgs|)
  }

  /** All of the first `i` regions get an id exactly when all of them hold an image. */
  lemma {:induction false} CountAll(imgs: seq<Option<Image>>, i: nat)
    requires i <= |imgs|
    ensures CountBefore(imgs, i) == i <==> forall k :: 0 <= k < i ==> imgs[k].Some?
  {
    if i > 0 {
      CountAll(imgs, i - 1);
    }
  }

  /** When every region has an image, the k-th region is preceded by exactly k regions with an image. */
  lemma {:induction false} CountEvery(imgs: seq<Option<Image>>, k: nat)
    requires k <= |imgs| && forall j :: 0 <= j < |imgs| ==> imgs[j].Some?
    ensures CountBefore(imgs, k) == k
  {
    if k > 0 {
      CountEvery(imgs, k - 1);
    }
  }

  /** The id each region of a selection would receive when registration starts at `base`: the base plus the
      number of regions with an image before it. Regions without an image get no id; their entry is unused. */
  function Ids(imgs: seq<Option<Image>>, base: nat): (r: seq<nat>)
    ensures |r| == |imgs|
    ensures forall k :: 0 <= k < |imgs| ==> base <= r[k] <= base + k
    ensures |imgs| > 0 ==> r[0] == base
  {
    seq(|imgs|, k requires 0 <= k < |imgs| => base + CountBefore(imgs, k))
  }

  /** A region with an image is counted before every later region: the count strictly grows past it. */
  lemma {:induction false} CountIncreases(imgs: seq<Option<Image>>, i: nat, j: nat)
    requires i < j <= |imgs| && imgs[i].Some?
    ensures CountBefore(imgs, i) < CountBefore(imgs, j)
    decreases j
  {
    if j > i + 1 {
      CountIncreases(imgs, i, j - 1);
    }
  }

  /** Later regions get larger ids, so no id is handed out twice. */
  lemma IdsIncrease(imgs: seq<Option<Image>>, base: nat, i: nat, j: nat)
    requires i < j < |imgs| && imgs[i].Some?
    ensures Ids(imgs, base)[i] < Ids(imgs, base)[j]
  {
    CountIncreases(imgs, i, j);
  }

  /** Every id handed out by one registration pass lies in [base, base + ImageCount(imgs)). */
  lemma IdsInRange(imgs: seq<Option<Image>>, base: nat, k: nat)
    requires k < |imgs| && imgs[k].Some?
    ensures base <= Ids(imgs, base)[k] < base + ImageCount(imgs)
  {
    CountIncreases(imgs, k, |imgs|);
  }

  /** The ids `base`, `base` + 1, ..., `base` + `n` - 1. */
  function Consecutive(base: nat, n: nat): (r: seq<nat>)
    ensures |r| == n && forall k :: 0 <= k < n ==> r[k] == base + k
  {
    seq(n, k requires 0 <= k < n => base + k)
  }

  /** When every region of a pass has an image, the pass hands out consecutive ids from its base, one per region. */
  lemma IdsConsecutive(imgs: seq<Option<Image>>, base: nat)
    requires forall j :: 0 <= j < |imgs| ==> imgs[j].Some?
    ensures Ids(imgs, base) == Consecutive(base, |imgs|)
    ensures ImageCount(imgs) == |imgs|
  {
    forall k | 0 <= k <= |imgs|
      ensures CountBefore(imgs, k) == k
    {
      CountEvery(imgs, k);
    }
  }
}

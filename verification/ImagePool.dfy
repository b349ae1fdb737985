/**
 * The capture thread's image pool, src/video.cpp: `pull_free_image_callback` and `trim_imgs`. An image is a number;
 * what other threads hold, the clock and the success of alloc_img come from outside. Others can only let go of images:
 * a pool image that nobody else holds stays so until it is handed out.
 */
module ImagePool {
  import opened Basics

  type Image = nat
  type Imgs = seq<Option<Image>>

  const CAPTURE_BUFFER_SIZE := 12
  const TRIM_TIMEOUT := 3_000_000_000

  function Empty(n: nat): (r: Imgs)
    ensures |r| == n && forall i :: 0 <= i < n ==> r[i] == None
  {
    seq(n, i => None)
  }

  // ----- counting -----

  function Allocated(imgs: Imgs): nat {
    if imgs == [] then 0 else Allocated(imgs[..|imgs| - 1]) + if imgs[|imgs| - 1].Some? then 1 else 0
  }

  /** Allocated images that are held by others (use_count() > 1). */
  function Used(imgs: Imgs, held: set<Image>): (n: nat)
    ensures n <= Allocated(imgs)
  {
    if imgs == [] then 0
    else Used(imgs[..|imgs| - 1], held) + if imgs[|imgs| - 1].Some? && imgs[|imgs| - 1].value in held then 1 else 0
  }

  predicate Free(img: Option<Image>, held: set<Image>) {
    img.Some? && img.value !in held
  }

  lemma {:induction false} CountsConcat(a: Imgs, b: Imgs, held: set<Image>)
    ensures Allocated(a + b) == Allocated(a) + Allocated(b) && Used(a + b, held) == Used(a, held) + Used(b, held)
  {
    if b == [] {
      assert a + b == a;
    } else {
      assert (a + b)[..|a + b| - 1] == a + b[..|b| - 1];
      CountsConcat(a, b[..|b| - 1], held);
    }
  }

  lemma {:induction false} UsedLess(imgs: Imgs, held: set<Image>, fewer: set<Image>)
    requires fewer <= held
    ensures Used(imgs, fewer) <= Used(imgs, held)
  {
    if imgs != [] {
      UsedLess(imgs[..|imgs| - 1], held, fewer);
    }
  }

  // ----- picking -----

  function FirstFree(imgs: Imgs, held: set<Image>, i: nat): (k: nat)
    requires i <= |imgs|
    ensures i <= k <= |imgs| && (k < |imgs| ==> Free(imgs[k], held)) && forall j :: i <= j < k ==> !Free(imgs[j], held)
    decreases |imgs| - i
  {
    if i == |imgs| || Free(imgs[i], held) then i else FirstFree(imgs, held, i + 1)
  }

  function FirstEmpty(imgs: Imgs, i: nat): (k: nat)
    requires i <= |imgs|
    ensures i <= k <= |imgs| && (k < |imgs| ==> imgs[k].None?) && forall j :: i <= j < k ==> imgs[j].Some?
    decreases |imgs| - i
  {
    if i == |imgs| || imgs[i].None? then i else FirstEmpty(imgs, i + 1)
  }

  function ToFront(imgs: Imgs, i: nat): (r: Imgs)
    requires i < |imgs|
    ensures |r| == |imgs| && r[0] == imgs[i]
  {
    [imgs[i]] + imgs[..i] + imgs[i + 1..]
  }

  /**
   * One pass over the pool: a free image, else a new one, moved to the front. An allocation that fails leaves its empty
   * place there.
   */
  function Pick(imgs: Imgs, held: set<Image>, alloc: Option<Image>): (r: (Imgs, Option<Image>))
    ensures |r.0| == |imgs|
  {
    var k := FirstFree(imgs, held, 0);
    if k < |imgs| then (ToFront(imgs, k), imgs[k])
    else
      var e := FirstEmpty(imgs, 0);
      if e < |imgs| then (ToFront(imgs[e := alloc], e), alloc) else (imgs, None)
  }

  ghost predicate Distinct(imgs: Imgs) {
    forall i, j :: 0 <= i < j < |imgs| && imgs[i].Some? && imgs[j].Some? ==> imgs[i] != imgs[j]
  }

  lemma ToFrontDistinct(imgs: Imgs, i: nat)
    requires i < |imgs| && Distinct(imgs)
    ensures Distinct(ToFront(imgs, i))
    ensures forall x: Option<Image> :: x in ToFront(imgs, i) <==> x in imgs
  {
    var r := ToFront(imgs, i);
    forall j | 0 <= j < |imgs|
      ensures r[j] == imgs[if j == 0 then i else if j <= i then j - 1 else j]
    {
    }
    forall x: Option<Image> | x in imgs
      ensures x in r
    {
      var j :| 0 <= j < |imgs| && imgs[j] == x;
      assert r[if j == i then 0 else if j < i then j + 1 else j] == x;
    }
  }

  lemma ToFrontCounts(imgs: Imgs, i: nat, held: set<Image>)
    requires i < |imgs|
    ensures Allocated(ToFront(imgs, i)) == Allocated(imgs) && Used(ToFront(imgs, i), held) == Used(imgs, held)
  {
    assert imgs == imgs[..i] + ([imgs[i]] + imgs[i + 1..]);
    CountsConcat(imgs[..i], [imgs[i]] + imgs[i + 1..], held);
    CountsConcat([imgs[i]], imgs[i + 1..], held);
    CountsConcat([imgs[i]] + imgs[..i], imgs[i + 1..], held);
    CountsConcat([imgs[i]], imgs[..i], held);
  }

  /** Filling an empty place. */
  lemma FillKeeps(imgs: Imgs, e: nat, alloc: Option<Image>)
    requires Distinct(imgs) && e < |imgs| && imgs[e].None? && (alloc.Some? ==> alloc !in imgs)
    ensures Distinct(imgs[e := alloc]) && Allocated(imgs[e := alloc]) >= Allocated(imgs)
    ensures forall x: Image :: Some(x) in imgs ==> Some(x) in imgs[e := alloc]
  {
    var more := imgs[e := alloc];
    FillCounts(imgs, e, alloc);
    forall x: Image | Some(x) in imgs
      ensures Some(x) in more
    {
      var j :| 0 <= j < |imgs| && imgs[j] == Some(x);
      assert more[j] == Some(x);
    }
  }

  lemma FillCounts(imgs: Imgs, e: nat, alloc: Option<Image>)
    requires e < |imgs| && imgs[e].None?
    ensures Allocated(imgs[e := alloc]) == Allocated(imgs) + if alloc.Some? then 1 else 0
  {
    var more := imgs[e := alloc];
    assert imgs == imgs[..e] + ([None] + imgs[e + 1..]) && more == imgs[..e] + ([alloc] + imgs[e + 1..]);
    CountsConcat(imgs[..e], [None] + imgs[e + 1..], {});
    CountsConcat([None], imgs[e + 1..], {});
    CountsConcat(imgs[..e], [alloc] + imgs[e + 1..], {});
    CountsConcat([alloc], imgs[e + 1..], {});
  }

  /** What a pass over the pool guarantees. */
  ghost predicate Picked(imgs: Imgs, held: set<Image>, imgs': Imgs, out: Option<Image>) {
    && Distinct(imgs') && Allocated(imgs) <= Allocated(imgs')
      && (forall x: Image :: Some(x) in imgs ==> Some(x) in imgs')
    && (out.Some? ==> imgs' != [] && imgs'[0] == out && out.value !in held)
  }

  /** Nobody else holds the image that is handed out; it stands in front, and every image of the pool stays in it. */
  lemma PickKeeps(imgs: Imgs, held: set<Image>, alloc: Option<Image>)
    requires Distinct(imgs) && (alloc.Some? ==> alloc.value !in held && alloc !in imgs)
    ensures Picked(imgs, held, Pick(imgs, held, alloc).0, Pick(imgs, held, alloc).1)
  {
    var k, e := FirstFree(imgs, held, 0), FirstEmpty(imgs, 0);
    if k < |imgs| {
      ToFrontDistinct(imgs, k);
      ToFrontCounts(imgs, k, held);
    } else if e < |imgs| {
      FillKeeps(imgs, e, alloc);
      ToFrontDistinct(imgs[e := alloc], e);
      ToFrontCounts(imgs[e := alloc], e, held);
    }
  }

  /**
   * Only if everything in the pool is held and every place is taken, or an allocation fails, is there nothing to hand
   * out.
   */
  lemma PickFails(imgs: Imgs, held: set<Image>, alloc: Option<Image>)
    ensures Pick(imgs, held, alloc).1.None? <==>
      (forall i :: 0 <= i < |imgs| ==> !Free(imgs[i], held))
        && (alloc.None? || forall i :: 0 <= i < |imgs| ==> imgs[i].Some?)
  {
    var k, e := FirstFree(imgs, held, 0), FirstEmpty(imgs, 0);
    if k == |imgs| && e < |imgs| {
      assert !Free(imgs[e], held);
    }
  }

  /**
   * An image that is free is used again, the frontmost first; only if none is does a new one take the frontmost empty
   * place.
   */
  lemma PickReuses(imgs: Imgs, held: set<Image>, alloc: Option<Image>, i: nat)
    requires i < |imgs| && (Free(imgs[i], held) || imgs[i].None?)
    ensures (exists j :: 0 <= j < |imgs| && Free(imgs[j], held)) ==>
      exists k :: && 0 <= k < |imgs| && Free(imgs[k], held) && (forall j :: 0 <= j < k ==> !Free(imgs[j], held))
                  && Pick(imgs, held, alloc) == (ToFront(imgs, k), imgs[k])
    ensures (forall j :: 0 <= j < |imgs| ==> !Free(imgs[j], held)) ==>
      exists e :: && 0 <= e < |imgs| && imgs[e].None? && (forall j :: 0 <= j < e ==> imgs[j].Some?)
                  && Pick(imgs, held, alloc) == (ToFront(imgs[e := alloc], e), alloc)
  {
    var k, e := FirstFree(imgs, held, 0), FirstEmpty(imgs, 0);
    assert k < |imgs| || e < |imgs|;
  }

  // ----- trimming -----

  /** Resets `n` free images, the rearmost first. */
  function TrimBack(imgs: Imgs, held: set<Image>, n: nat): (r: Imgs)
    ensures |r| == |imgs|
  {
    if n == 0 || imgs == [] then imgs
    else
      var last := imgs[|imgs| - 1];
      if Free(last, held) then TrimBack(imgs[..|imgs| - 1], held, n - 1) + [None]
      else TrimBack(imgs[..|imgs| - 1], held, n) + [last]
  }

  /** Exactly `n` images go if so many are free. */
  lemma {:induction false} TrimmedExactly(imgs: Imgs, held: set<Image>, n: nat)
    requires n <= Allocated(imgs) - Used(imgs, held)
    ensures Allocated(TrimBack(imgs, held, n)) == Allocated(imgs) - n
  {
    if n > 0 && imgs != [] {
      var front, last := imgs[..|imgs| - 1], imgs[|imgs| - 1];
      var n' := if Free(last, held) then n - 1 else n;
      TrimmedExactly(front, held, n');
      assert TrimBack(imgs, held, n)[..|imgs| - 1] == TrimBack(front, held, n');
    }
  }

  /** What goes was free, so what is held stays. */
  lemma {:induction false} TrimmedWereFree(imgs: Imgs, held: set<Image>, n: nat, i: nat)
    requires i < |imgs|
    ensures TrimBack(imgs, held, n)[i] == imgs[i] || (Free(imgs[i], held) && TrimBack(imgs, held, n)[i] == None)
  {
    if n > 0 && i < |imgs| - 1 {
      TrimmedWereFree(imgs[..|imgs| - 1], held, if Free(imgs[|imgs| - 1], held) then n - 1 else n, i);
    }
  }

  /** No free image stays behind one that goes: the least recently used go first. */
  lemma {:induction false} TrimmedFromTheRear(imgs: Imgs, held: set<Image>, n: nat, i: nat, j: nat)
    requires i < j < |imgs| && TrimBack(imgs, held, n)[i] != imgs[i] && Free(imgs[j], held)
    ensures TrimBack(imgs, held, n)[j] == None
  {
    if j < |imgs| - 1 {
      TrimmedFromTheRear(imgs[..|imgs| - 1], held, if Free(imgs[|imgs| - 1], held) then n - 1 else n, i, j);
    }
  }

  // ----- usage levels -----

  type Stamps = seq<Option<nat>>

  predicate Recent(t: nat, now: nat) {
    now - t < TRIM_TIMEOUT
  }

  /** Remembers that `used` images are in use at `now`. */
  function Record(stamps: Stamps, used: nat, now: nat): (r: Stamps)
    ensures |r| > used && |r| >= |stamps| && r[used] == Some(now)
    ensures forall i :: 0 <= i < |stamps| && i != used ==> r[i] == stamps[i]
  {
    (if |stamps| <= used then stamps + Empty(used + 1 - |stamps|) else stamps)[used := Some(now)]
  }

  /** The largest level of `used` or more, below `end`, that was seen recently. */
  function Target(stamps: Stamps, used: nat, now: nat, end: nat): (t: nat)
    requires used <= end <= |stamps|
    ensures used <= t && (t < end || t == used)
    ensures forall i :: t < i < end ==> stamps[i].None? || !Recent(stamps[i].value, now)
  {
    if end == used then used
    else if stamps[end - 1].Some? && Recent(stamps[end - 1].value, now) then end - 1
    else Target(stamps, used, now, end - 1)
  }

  function Trim(imgs: Imgs, stamps: Stamps, counted: set<Image>, kept: set<Image>, now: nat): (r: (Imgs, Stamps))
    ensures |r.0| == |imgs|
  {
    var used := Used(imgs, counted);
    var recorded := Record(stamps, used, now);
    var target := Target(recorded, used, now, |recorded|);
    if Allocated(imgs) > target then (TrimBack(imgs, kept, Allocated(imgs) - target), recorded[..target + 1])
    else (imgs, recorded)
  }

  // ----- runs -----

  /**
   * `seen` are the usage levels recorded since the last reinit, with their times; image numbers from `next` on are new.
   */
  datatype Pool = Pool(imgs: Imgs, stamps: Stamps, next: Image, now: nat, seen: seq<(nat, nat)>)

  /**
   * What others hold when the pool is searched, when it is counted, and when it is trimmed; whether alloc_img succeeds;
   * the time.
   */
  datatype Moment = Moment(held: set<Image>, counted: set<Image>, kept: set<Image>, alloc: bool, now: nat)

  ghost predicate Fits(p: Pool, m: Moment) {
    p.now <= m.now && m.kept <= m.counted <= m.held && forall x :: x in m.held ==> x < p.next
  }

  /** One turn of the loop of pull_free_image_callback. */
  function Attempt(p: Pool, m: Moment): (r: (Pool, Option<Image>)) {
    var (imgs, out) := Pick(p.imgs, m.held, if m.alloc then Some(p.next) else None);
    if out.None? then (p.(imgs := imgs, next := p.next + 1), None)
    else
      var counted, kept := m.counted + {out.value}, m.kept + {out.value};
      var (imgs', stamps') := Trim(imgs, p.stamps, counted, kept, m.now);
      (Pool(imgs', stamps', p.next + 1, m.now, p.seen + [(Used(imgs, counted), m.now)]), out)
  }

  /** On reinit all images go; the timestamps stay. */
  function Reset(p: Pool): Pool {
    Pool(Empty(|p.imgs|), p.stamps, p.next, p.now, [])
  }

  /** A usage level seen recently is still backed by so many allocated images, and its timestamp is still there. */
  ghost predicate Backs(imgs: Imgs, stamps: Stamps, level: nat, t: nat, now: nat) {
    t <= now && (Recent(t, now) ==>
      level <= Allocated(imgs) && level < |stamps| && stamps[level].Some? && t <= stamps[level].value <= now)
  }

  ghost predicate Inv(p: Pool) {
    && |p.imgs| == CAPTURE_BUFFER_SIZE && Distinct(p.imgs) && (forall x: Image :: Some(x) in p.imgs ==> x < p.next)
    && forall k :: 0 <= k < |p.seen| ==> Backs(p.imgs, p.stamps, p.seen[k].0, p.seen[k].1, p.now)
  }

  /**
   * Trimming leaves exactly the smaller of what is allocated and the target, which is the largest level seen recently.
   */
  lemma TrimLeavesTarget(imgs: Imgs, stamps: Stamps, counted: set<Image>, kept: set<Image>, now: nat)
    requires kept <= counted
    ensures var (used, recorded) := (Used(imgs, counted), Record(stamps, Used(imgs, counted), now));
      var target := Target(recorded, used, now, |recorded|);
      && Allocated(Trim(imgs, stamps, counted, kept, now).0) == (
        if Allocated(imgs) > target then target else Allocated(imgs))
      && used <= target && recorded[target].Some? && now - recorded[target].value < 3_000_000_000
      && forall i :: target < i < |recorded| ==> recorded[i].None? || now - recorded[i].value >= 3_000_000_000
  {
    UsedLess(imgs, counted, kept);
    var used := Used(imgs, counted);
    var recorded := Record(stamps, used, now);
    TargetRecent(recorded, used, now, |recorded|);
    var target := Target(recorded, used, now, |recorded|);
    if Allocated(imgs) > target {
      TrimmedExactly(imgs, kept, Allocated(imgs) - target);
    }
  }

  lemma {:induction false} TargetRecent(stamps: Stamps, used: nat, now: nat, end: nat)
    requires used < end <= |stamps| && stamps[used].Some? && Recent(stamps[used].value, now)
    ensures stamps[Target(stamps, used, now, end)].Some? && Recent(stamps[Target(stamps, used, now, end)].value, now)
  {
    if end - 1 > used && !(stamps[end - 1].Some? && Recent(stamps[end - 1].value, now)) {
      TargetRecent(stamps, used, now, end - 1);
    }
  }

  lemma TrimBacks(imgs: Imgs, stamps: Stamps, counted: set<Image>, kept: set<Image>, level: nat, t: nat, before: nat,
                  now: nat)
    requires kept <= counted && before <= now
    requires Backs(imgs, stamps, level, t, before) || (level == Used(imgs, counted) && t == now)
    ensures var (imgs', stamps') := Trim(imgs, stamps, counted, kept, now); Backs(imgs', stamps', level, t, now)
  {
    TrimLeavesTarget(imgs, stamps, counted, kept, now);
  }

  /** An image of the pool that is held when the pool is trimmed stays, and nothing new comes in. */
  lemma TrimKeepsHeld(imgs: Imgs, stamps: Stamps, counted: set<Image>, kept: set<Image>, now: nat)
    requires Distinct(imgs)
    ensures var imgs' := Trim(imgs, stamps, counted, kept, now).0;
      && Distinct(imgs') && (forall x :: x in kept && Some(x) in imgs ==> Some(x) in imgs')
      && (forall x: Image :: Some(x) in imgs' ==> Some(x) in imgs)
      && (imgs != [] && imgs[0].Some? && imgs[0].value in kept ==> imgs'[0] == imgs[0])
  {
    var imgs' := Trim(imgs, stamps, counted, kept, now).0;
    forall i | 0 <= i < |imgs|
      ensures imgs'[i] == imgs[i] || (Free(imgs[i], kept) && imgs'[i] == None)
    {
      var used := Used(imgs, counted);
      var recorded := Record(stamps, used, now);
      var target := Target(recorded, used, now, |recorded|);
      if Allocated(imgs) > target {
        TrimmedWereFree(imgs, kept, Allocated(imgs) - target, i);
      }
    }
    forall x | x in kept && Some(x) in imgs
      ensures Some(x) in imgs'
    {
      var i :| 0 <= i < |imgs| && imgs[i] == Some(x);
      assert imgs'[i] == Some(x);
    }
  }

  /**
   * A pull keeps the invariant: the image it hands out is held by nobody else, stays in the pool, in front, and no
   * image that others still hold leaves the pool.
   */
  lemma AttemptKeepsInv(p: Pool, m: Moment)
    requires Inv(p) && Fits(p, m)
    ensures var (p', out) := Attempt(p, m);
      && Inv(p') && p.now <= p'.now
      && (out.Some? ==> out.value !in m.held && out.value < p'.next && p'.imgs[0] == out)
      && (forall x :: x in m.kept && Some(x) in p.imgs ==> Some(x) in p'.imgs)
  {
    var alloc := if m.alloc then Some(p.next) else None;
    PickKeeps(p.imgs, m.held, alloc);
    var (imgs, out) := Pick(p.imgs, m.held, alloc);
    PickedFrom(p.imgs, m.held, alloc);
    if out.Some? {
      var counted, kept := m.counted + {out.value}, m.kept + {out.value};
      TrimKeepsHeld(imgs, p.stamps, counted, kept, m.now);
      AttemptBacks(p, m, imgs, out);
    }
  }

  /** What is in the pool afterwards was in it, or is the new image. */
  lemma PickedFrom(imgs: Imgs, held: set<Image>, alloc: Option<Image>)
    requires Distinct(imgs) && (alloc.Some? ==> alloc !in imgs)
    ensures forall x: Image :: Some(x) in Pick(imgs, held, alloc).0 ==> Some(x) in imgs || alloc == Some(x)
  {
    var k, e := FirstFree(imgs, held, 0), FirstEmpty(imgs, 0);
    if k < |imgs| {
      ToFrontDistinct(imgs, k);
    } else if e < |imgs| {
      ToFrontDistinct(imgs[e := alloc], e);
    }
  }

  lemma AttemptBacks(p: Pool, m: Moment, imgs: Imgs, out: Option<Image>)
    requires Inv(p) && Fits(p, m) && out.Some?
    requires (imgs, out) == Pick(p.imgs, m.held, if m.alloc then Some(p.next) else None)
    requires Allocated(p.imgs) <= Allocated(imgs)
    ensures var p' := Attempt(p, m).0;
      forall k :: 0 <= k < |p'.seen| ==> Backs(p'.imgs, p'.stamps, p'.seen[k].0, p'.seen[k].1, p'.now)
  {
    var counted, kept, p' := m.counted + {out.value}, m.kept + {out.value}, Attempt(p, m).0;
    forall k | 0 <= k < |p'.seen|
      ensures Backs(p'.imgs, p'.stamps, p'.seen[k].0, p'.seen[k].1, p'.now)
    {
      if k < |p.seen| {
        assert p'.seen[k] == p.seen[k];
        assert Backs(p.imgs, p.stamps, p.seen[k].0, p.seen[k].1, p.now);
      }
      TrimBacks(imgs, p.stamps, counted, kept, p'.seen[k].0, p'.seen[k].1, p.now, m.now);
    }
  }

  lemma ResetKeepsInv(p: Pool)
    requires Inv(p)
    ensures Inv(Reset(p))
  {
  }

  datatype Event = Pulled(m: Moment) | Reinit

  function Next(p: Pool, e: Event): Pool {
    match e case Pulled(m) => Attempt(p, m).0 case Reinit => Reset(p)
  }

  const START := Pool(Empty(CAPTURE_BUFFER_SIZE), [], 0, 0, [])

  function After(events: seq<Event>): Pool {
    if events == [] then START else Next(After(events[..|events| - 1]), events[|events| - 1])
  }

  ghost predicate Possible(events: seq<Event>) {
    events != [] ==>
      var e := events[|events| - 1];
      Possible(events[..|events| - 1]) && (e.Pulled? ==> Fits(After(events[..|events| - 1]), e.m))
  }

  /**
   * In every run: twelve places, no image twice, and every usage level seen in the last three seconds, since the last
   * reinit, still backed.
   */
  lemma {:induction false} AlwaysInv(events: seq<Event>)
    requires Possible(events)
    ensures Inv(After(events))
    decreases |events|
  {
    if events != [] {
      var p, e := After(events[..|events| - 1]), events[|events| - 1];
      AlwaysInv(events[..|events| - 1]);
      match e {
        case Pulled(m) => AttemptKeepsInv(p, m);
        case Reinit => ResetKeepsInv(p);
      }
    }
  }

  /** Spelled out: a level of images in use that was seen less than three seconds ago is still allocated. */
  lemma RecentLevelsAreBacked(events: seq<Event>, k: nat)
    requires Possible(events) && k < |After(events).seen|
    ensures var p := After(events);
      p.now - p.seen[k].1 < 3_000_000_000 ==> p.seen[k].0 <= Allocated(p.imgs)
  {
    AlwaysInv(events);
    var p := After(events);
    assert Backs(p.imgs, p.stamps, p.seen[k].0, p.seen[k].1, p.now);
  }

  // ----- the code -----

  /** Every turn of the loop until one hands out an image, or the capture queue stops after the last moment. */
  function Pull(p: Pool, moments: seq<Moment>): (Pool, Option<Image>)
    decreases |moments|
  {
    if moments == [] then (p, None)
    else
      var (p', out) := Attempt(p, moments[0]);
      if out.Some? then (p', out) else Pull(p', moments[1..])
  }

  /** The pool after these turns of the loop, whatever they hand out. */
  function Tries(p: Pool, moments: seq<Moment>): Pool
    decreases |moments|
  {
    if moments == [] then p else Tries(Attempt(p, moments[0]).0, moments[1..])
  }

  /** The loop goes on until a turn hands out an image, and then ends with that one. */
  lemma {:induction false} PullRetries(p: Pool, moments: seq<Moment>) returns (i: nat)
    ensures i <= |moments| && (Pull(p, moments).1.None? <==> i == |moments|)
    ensures i < |moments| ==> Pull(p, moments) == Attempt(Tries(p, moments[..i]), moments[i])
    ensures forall k :: 0 <= k < i ==> Attempt(Tries(p, moments[..k]), moments[k]).1.None?
    decreases |moments|
  {
    i := 0;
    if moments != [] && Attempt(p, moments[0]).1.None? {
      var p' := Attempt(p, moments[0]).0;
      i := PullRetries(p', moments[1..]);
      i := i + 1;
      forall k | 0 < k <= i && k <= |moments|
        ensures Tries(p, moments[..k]) == Tries(p', moments[1..][..k - 1])
      {
        assert moments[..k][1..] == moments[1..][..k - 1];
      }
      forall k | 0 <= k < i
        ensures Attempt(Tries(p, moments[..k]), moments[k]).1.None?
      {
        assert k > 0 ==> moments[k] == moments[1..][k - 1];
      }
    }
  }

  class Capture {
    var imgs: Imgs
    var stamps: Stamps
    var next: Image
    ghost var now: nat
    ghost var seen: seq<(nat, nat)>

    ghost function State(): Pool
      reads this
    {
      Pool(imgs, stamps, next, now, seen)
    }

    constructor ()
      ensures State() == START
    {
      imgs, stamps, next, now, seen := Empty(CAPTURE_BUFFER_SIZE), [], 0, 0, [];
    }

    /** Erases the image and pushes it to the front. */
    method MoveToFront(i: nat)
      requires i < |imgs|
      modifies this`imgs
      ensures imgs == ToFront(old(imgs), i)
    {
      if i != 0 {
        var img := imgs[i];
        imgs := imgs[..i] + imgs[i + 1..];
        imgs := [img] + imgs;
        assert imgs == ToFront(old(imgs), i);
      }
    }

    method PickImage(held: set<Image>, alloc: Option<Image>) returns (out: Option<Image>)
      modifies this`imgs
      ensures (imgs, out) == Pick(old(imgs), held, alloc)
    {
      out := None;
      var i := 0;
      while i < |imgs| && !Free(imgs[i], held)
        invariant i <= |imgs| && FirstFree(imgs, held, i) == FirstFree(imgs, held, 0)
      {
        i := i + 1;
      }
      if i < |imgs| {
        out := imgs[i];
        MoveToFront(i);
        return;
      }
      i := 0;
      while i < |imgs| && imgs[i].Some?
        invariant i <= |imgs| && FirstEmpty(imgs, i) == FirstEmpty(imgs, 0)
      {
        i := i + 1;
      }
      if i < |imgs| {
        imgs := imgs[i := alloc];
        out := alloc;
        MoveToFront(i);
      }
    }

    method Count(counted: set<Image>) returns (allocatedCount: nat, used: nat)
      ensures allocatedCount == Allocated(imgs) && used == Used(imgs, counted)
    {
      allocatedCount, used := 0, 0;
      var i := 0;
      while i < |imgs|
        invariant i <= |imgs| && allocatedCount == Allocated(imgs[..i]) && used == Used(imgs[..i], counted)
      {
        assert imgs[..i + 1][..i] == imgs[..i];
        if imgs[i].Some? {
          allocatedCount := allocatedCount + 1;
          if imgs[i].value in counted {
            used := used + 1;
          }
        }
        i := i + 1;
      }
      assert imgs[..i] == imgs;
    }

    method TrimTarget(used: nat, time: nat) returns (target: nat)
      modifies this`stamps
      ensures stamps == Record(old(stamps), used, time) && target == Target(stamps, used, time, |stamps|)
    {
      if |stamps| <= used {
        stamps := stamps + Empty(used + 1 - |stamps|);
      }
      stamps := stamps[used := Some(time)];
      target := used;
      var i := used;
      while i < |stamps|
        invariant used <= i <= |stamps| && target == Target(stamps, used, time, i)
      {
        if stamps[i].Some? && time - stamps[i].value < TRIM_TIMEOUT {
          target := i;
        }
        i := i + 1;
      }
    }

    /** Resets free images from the rear. */
    method ResetFree(kept: set<Image>, n: nat)
      requires n > 0
      modifies this`imgs
      ensures imgs == TrimBack(old(imgs), kept, n)
    {
      ghost var all := imgs;
      var toTrim, i := n, |imgs|;
      assert all[..i] == all && TrimBack(all, kept, n) + [] == TrimBack(all, kept, n);
      while i > 0
        invariant 0 <= i <= |imgs| == |all| && toTrim > 0 && imgs[..i] == all[..i]
        invariant TrimBack(all, kept, n) == TrimBack(all[..i], kept, toTrim) + imgs[i..]
        decreases i
      {
        i := i - 1;
        assert all[..i + 1][..i] == all[..i] && imgs[i] == imgs[..i + 1][i] == all[i];
        ghost var behind := imgs[i + 1..];
        if imgs[i].Some? && imgs[i].value !in kept {
          imgs := imgs[i := None];
          toTrim := toTrim - 1;
          assert imgs[i..] == [None] + behind;
          if toTrim == 0 {
            break;
          }
        } else {
          assert imgs[i..] == [all[i]] + behind;
        }
      }
      assert imgs == imgs[..i] + imgs[i..];
    }

    method TrimImgs(counted: set<Image>, kept: set<Image>, time: nat)
      modifies this`imgs, this`stamps, this`now, this`seen
      ensures (imgs, stamps) == Trim(old(imgs), old(stamps), counted, kept, time)
      ensures now == time && seen == old(seen) + [(Used(old(imgs), counted), time)]
    {
      var allocatedCount, used := Count(counted);
      now, seen := time, seen + [(used, time)];
      var target := TrimTarget(used, time);
      if allocatedCount > target {
        ResetFree(kept, allocatedCount - target);
        stamps := stamps[..target + 1];
      }
    }

    /** The body of the loop of pull_free_image_callback. */
    method Try(m: Moment) returns (out: Option<Image>)
      modifies this
      ensures (State(), out) == Attempt(old(State()), m)
    {
      out := PickImage(m.held, if m.alloc then Some(next) else None);
      next := next + 1;
      if out.Some? {
        TrimImgs(m.counted + {out.value}, m.kept + {out.value}, m.now);
      }
    }

    method PullFreeImage(moments: seq<Moment>) returns (out: Option<Image>)
      modifies this
      ensures (State(), out) == Pull(old(State()), moments)
    {
      out := None;
      var i := 0;
      ghost var end := Pull(State(), moments);
      while i < |moments|
        invariant i <= |moments| && out.None? && Pull(State(), moments[i..]) == end
      {
        var m := moments[i];
        assert moments[i..][1..] == moments[i + 1..];
        out := Try(m);
        if out.Some? {
          return;
        }
        // on to the next moment
        i := i + 1;
      }
    }

    method ResetImages()
      modifies this`imgs, this`seen
      ensures State() == Reset(old(State()))
    {
      var i := 0;
      while i < |imgs|
        invariant i <= |imgs| == |old(imgs)| && forall k :: 0 <= k < i ==> imgs[k] == None
      {
        imgs := imgs[i := None];
        i := i + 1;
      }
      seen := [];
    }
  }
}
